/** Which functions the firmware calls. Every call finds its function declared before it, except that
    nothing can call main: C++ has no function of the name that such a call is emitted with. */
module EmittedCalls {
  import opened Ast
  import opened Semantics
  import opened Cpp
  import opened CppTypes
  import opened Firmware
  import opened Portability
  import opened Simulation

  // ---- Calls in C++ ----

  function Calls(e: CExpr): set<string>
    decreases e, 1
  {
    match e
    case CParenthesis(inner) => Calls(inner)
    case CUnary(_, operand) => Calls(operand)
    case CBinary(left, _, right) => Calls(left) + Calls(right)
    case CLibrary(_, left, right) => Calls(left) + Calls(right)
    case CCall(name, arguments) => {name} + CallsOfAll(arguments)
    case _ => {}
  }

  function CallsOfAll(es: seq<CExpr>): set<string>
    decreases es, 0
  {
    if es == [] then {} else Calls(es[0]) + CallsOfAll(es[1..])
  }

  function CallsOfOptional(e: Option<CExpr>): set<string> { if e.Some? then Calls(e.value) else {} }

  function CallsOfStatement(s: CStmt): set<string>
    decreases s, 1
  {
    match s
    case CDeclare(_, _, e) => Calls(e)
    case CSet(_, e) => Calls(e)
    case CDo(e) => Calls(e)
    case CPrint(e) => Calls(e)
    case CReturn(result) => CallsOfOptional(result)
    case CExit(result) => CallsOfOptional(result)
    case CWhile(condition, body) => Calls(condition) + CallsOfBody(body)
    case CIf(branches, otherwise) =>
      CallsOfBranches(branches) + if otherwise.Else? then CallsOfBody(otherwise.body) else {}
    case CFor(_, start, stop, step, body) => Calls(start) + Calls(stop) + Calls(step) + CallsOfBody(body)
    case CForEach(_, _, elements, body) => CallsOfAll(elements) + CallsOfBody(body)
  }

  function CallsOfBranches(branches: seq<CBranch>): set<string>
    decreases branches, 0
  {
    if branches == [] then {}
    else Calls(branches[0].condition) + CallsOfBody(branches[0].body) + CallsOfBranches(branches[1..])
  }

  function CallsOfBody(ss: seq<CStmt>): set<string>
    decreases ss, 0
  {
    if ss == [] then {} else CallsOfStatement(ss[0]) + CallsOfBody(ss[1..])
  }

  // ---- Calls of the source are emitted ----

  /** The C++ names of the called SEPs. */
  function Emitted(logics: set<string>, calls: set<string>): set<string> {
    set n | n in calls && n in logics :: CalleeName(n)
  }

  lemma EmittedUnion(logics: set<string>, a: set<string>, b: set<string>)
    ensures Emitted(logics, a + b) == Emitted(logics, a) + Emitted(logics, b)
  {
  }

  lemma EmittedNone(logics: set<string>)
    ensures Emitted(logics, {}) == {}
  {
  }

  lemma EmittedOne(logics: set<string>, name: string)
    ensures Emitted(logics, {name}) == if name in logics then {CalleeName(name)} else {}
  {
    hide CalleeName;
  }

  lemma {:induction false} ExpressionCalls(logics: set<string>, visible: set<string>, e: Expr)
    requires EmitExpr(logics, visible, e).Ok?
    ensures Calls(EmitExpr(logics, visible, e).value) == Emitted(logics, CallsIn(e))
    decreases e, 1
  {
    hide CalleeName, VariableName, Emitted;
    EmittedNone(logics);
    match e
    case GroupExpr(inner) => ExpressionCalls(logics, visible, inner);
    case UnaryExpr(_, operand) => ExpressionCalls(logics, visible, operand);
    case BinaryExpr(left, operator, right) =>
      ExpressionCalls(logics, visible, left);
      ExpressionCalls(logics, visible, right);
      EmittedUnion(logics, CallsIn(left), CallsIn(right));
    case CallExpr(callee, arguments, named) =>
      ArgumentCalls(logics, visible, arguments);
      EmittedOne(logics, callee);
      EmittedUnion(logics, {callee}, CallsInAll(arguments));
      EmittedUnion(logics, {callee} + CallsInAll(arguments), {});
    case _ =>
  }

  lemma {:induction false} ArgumentCalls(logics: set<string>, visible: set<string>, es: seq<Expr>)
    requires EmitExprs(logics, visible, es).Ok?
    ensures CallsOfAll(EmitExprs(logics, visible, es).value) == Emitted(logics, CallsInAll(es))
    decreases es, 0
  {
    hide EmitExpr, Calls, CallsIn, Emitted;
    EmittedNone(logics);
    if es != [] {
      ExpressionCalls(logics, visible, es[0]);
      ArgumentCalls(logics, visible, es[1..]);
      EmittedUnion(logics, CallsIn(es[0]), CallsInAll(es[1..]));
      assert EmitExprs(logics, visible, es).value[1..] == EmitExprs(logics, visible, es[1..]).value;
    }
  }

  lemma {:induction false} HeaderCalls(logics: set<string>, inner: set<string>, variable: string, iterable: Expr)
    requires EmitHeader(logics, inner, variable, iterable).Ok? && "number_range" !in logics
    ensures var c := EmitHeader(logics, inner, variable, iterable).value;
            (if c.CFor? then Calls(c.start) + Calls(c.stop) + Calls(c.step) else CallsOfAll(c.elements))
            == Emitted(logics, CallsIn(iterable))
  {
    hide CalleeName, VariableName, Emitted, EmitExpr, ListKind;
    if iterable.CallExpr? {
      var arguments := iterable.arguments;
      EmittedNone(logics);
      ArgumentCalls(logics, inner, arguments);
      EmittedOne(logics, "number_range");
      EmittedUnion(logics, {"number_range"}, CallsInAll(arguments));
      EmittedUnion(logics, {"number_range"} + CallsInAll(arguments), {});
      UpToThree(EmitExprs(logics, inner, arguments).value);
    } else {
      ArgumentCalls(logics, inner, iterable.elements);
    }
  }

  lemma UpToThree(es: seq<CExpr>)
    ensures |es| == 1 ==> CallsOfAll(es) == Calls(es[0])
    ensures |es| == 2 ==> CallsOfAll(es) == Calls(es[0]) + Calls(es[1])
    ensures |es| == 3 ==> CallsOfAll(es) == Calls(es[0]) + Calls(es[1]) + Calls(es[2])
  {
    hide Calls;
    if 1 <= |es| <= 3 {
      assert CallsOfAll(es) == Calls(es[0]) + CallsOfAll(es[1..]);
      if |es| >= 2 {
        assert es[1..][0] == es[1] && es[1..][1..] == es[2..];
        if |es| == 3 {
          assert es[2..][0] == es[2] && es[2..][1..] == [];
        }
      }
    }
  }

  lemma {:induction false} BodyCalls(logics: set<string>, inMain: bool, visible: set<string>, ss: seq<Stmt>)
    requires EmitAll(logics, inMain, visible, ss).Ok? && "number_range" !in logics
    ensures CallsOfBody(EmitAll(logics, inMain, visible, ss).value.0) == Emitted(logics, CallsInStatements(ss))
    decreases ss, 0
  {
    hide EmitStmt, CallsOfStatement, CallsInStatement, Emitted;
    EmittedNone(logics);
    if ss != [] {
      var first := EmitStmt(logics, inMain, visible, ss[0]).value;
      StatementCalls(logics, inMain, visible, ss[0]);
      BodyCalls(logics, inMain, first.1, ss[1..]);
      EmittedUnion(logics, CallsInStatement(ss[0]), CallsInStatements(ss[1..]));
      var rest := EmitAll(logics, inMain, first.1, ss[1..]).value;
      assert ([first.0] + rest.0)[1..] == rest.0;
    }
  }

  lemma {:induction false} BranchCalls(logics: set<string>, inMain: bool, visible: set<string>, branches: seq<IfBranch>)
    requires EmitBranches(logics, inMain, visible, branches).Ok? && "number_range" !in logics
    ensures CallsOfBranches(EmitBranches(logics, inMain, visible, branches).value)
         == Emitted(logics, CallsInBranches(branches))
    decreases branches, 0
  {
    hide EmitExpr, EmitAll, Calls, CallsIn, CallsOfBody, CallsInStatements, Emitted;
    EmittedNone(logics);
    if branches != [] {
      var b := branches[0];
      ExpressionCalls(logics, visible, b.condition);
      BodyCalls(logics, inMain, visible, b.body);
      BranchCalls(logics, inMain, visible, branches[1..]);
      EmittedUnion(logics, CallsIn(b.condition), CallsInStatements(b.body));
      EmittedUnion(logics, CallsIn(b.condition) + CallsInStatements(b.body), CallsInBranches(branches[1..]));
      var all := EmitBranches(logics, inMain, visible, branches).value;
      assert all[1..] == EmitBranches(logics, inMain, visible, branches[1..]).value;
    }
  }

  lemma {:induction false} StatementCalls(logics: set<string>, inMain: bool, visible: set<string>, s: Stmt)
    requires EmitStmt(logics, inMain, visible, s).Ok? && "number_range" !in logics
    ensures CallsOfStatement(EmitStmt(logics, inMain, visible, s).value.0) == Emitted(logics, CallsInStatement(s))
    decreases s, 1
  {
    hide EmitExpr, EmitAll, EmitBranches, EmitHeader, Calls, CallsIn, CallsOfBody, CallsInStatements, Emitted;
    hide VariableName;
    hide CallsOfBranches, CallsInBranches;
    EmittedNone(logics);
    match s
    case Assignment(_, e) => ExpressionCalls(logics, visible, e);
    case ConstDeclaration(_, e) => ExpressionCalls(logics, visible, e);
    case TypedDeclaration(_, _, e, _) => ExpressionCalls(logics, visible, e);
    case PrintStmt(e) => ExpressionCalls(logics, visible, e);
    case PrintErrorStmt(e) => ExpressionCalls(logics, visible, e);
    case ExpressionStmt(e) => ExpressionCalls(logics, visible, e);
    case ReturnStmt(result) =>
      if result.Some? {
        ExpressionCalls(logics, visible, result.value);
      }
    case WhileStmt(_, condition, body) =>
      ExpressionCalls(logics, visible, condition);
      BodyCalls(logics, inMain, visible, body);
      EmittedUnion(logics, CallsIn(condition), CallsInStatements(body));
    case IfStmt(_, branches, elseBody) =>
      BranchCalls(logics, inMain, visible, branches);
      if elseBody.Body? {
        BodyCalls(logics, inMain, visible, elseBody.statements);
        EmittedUnion(logics, CallsInBranches(branches), CallsInStatements(elseBody.statements));
      } else {
        EmittedUnion(logics, CallsInBranches(branches), {});
      }
    case ForStmt(_, variable, iterable, body) =>
      HeaderCalls(logics, visible + {variable}, variable, iterable);
      BodyCalls(logics, inMain, visible + {variable}, body);
      EmittedUnion(logics, CallsIn(iterable), CallsInStatements(body));
    case _ =>
  }

  lemma {:induction false} AppendedCalls(ss: seq<CStmt>)
    ensures CallsOfBody(ss + [CExit(None)]) == CallsOfBody(ss) && CallsOfBody(ss + []) == CallsOfBody(ss)
  {
    assert ss + [] == ss;
    if ss == [] {
      assert ss + [CExit(None)] == [CExit(None)] && CallsOfStatement(CExit(None)) == {};
    } else {
      hide CallsOfStatement;
      assert (ss + [CExit(None)])[1..] == ss[1..] + [CExit(None)];
      AppendedCalls(ss[1..]);
    }
  }

  /** A function calls what its SEP calls. */
  lemma FunctionCalls(logics: set<string>, logic: Logic)
    requires EmitLogic(logics, logic).Ok? && "number_range" !in logics
    ensures CallsOfBody(EmitLogic(logics, logic).value.body) == Emitted(logics, CallsInStatements(logic.body))
  {
    hide EmitAll, CallsOfBody, CallsInStatements, Emitted, VariableName, FunctionName;
    var inMain := logic.name == "main";
    var visible := set n | n in ParameterNames(logic);
    BodyCalls(logics, inMain, visible, logic.body);
    AppendedCalls(EmitAll(logics, inMain, visible, logic.body).value.0);
  }

  // ---- Which calls find their function ----

  lemma {:induction false} DeclaredIfThere(functions: seq<CFunction>, limit: nat, name: string)
    requires limit <= |functions|
    ensures Declared(functions, limit, name).Some? <==> exists k | 0 <= k < limit :: functions[k].name == name
    decreases limit
  {
    if limit > 0 {
      DeclaredIfThere(functions, limit - 1, name);
    }
  }

  /** All calls in function number `i` find a function that is declared before it. */
  predicate CallsFindTheirFunctions(functions: seq<CFunction>, i: nat)
    requires i < |functions|
  {
    forall name | name in CallsOfBody(functions[i].body) :: Declared(functions, i, name).Some?
  }

  /** The calls of a SEP find their functions if and only if it does not call main. */
  lemma CallsAreDeclared(f: Build, i: nat)
    requires IsBuild(f) && IsPortable(f.program.logics) && i < |f.order|
    ensures CallsFindTheirFunctions(f.functions, i) <==> "main" !in Callees(f.program.logics, f.order[i])
  {
    hide EmitLogic, CallsOfBody, CallsInStatements, PortableLogic, Declared, CalleeName, IsBuiltin;
    var logics, name := f.program.logics, f.order[i];
    RangesAreNoSeps(f.program);
    FunctionCalls(logics.Keys, logics[name]);
    var callees := Callees(logics, name);
    assert CallsOfBody(f.functions[i].body) == set n | n in callees :: CalleeName(n);
    forall n | n in callees
      ensures Declared(f.functions, i, CalleeName(n)).Some? <==> n != "main"
    {
      CalleeIsFound(f, i, n);
    }
  }

  lemma RangesAreNoSeps(program: Program)
    requires IsLoaded(program)
    ensures "number_range" !in program.logics
  {
    if "number_range" in program.logics {
      assert IsBuiltin(program.host, "number_range");
    }
  }

  lemma NamesOfFunctions(f: Build, k: nat)
    requires IsBuild(f) && IsPortable(f.program.logics) && k < |f.order|
    ensures f.functions[k].name == FunctionName(f.order[k]) && IsIdentifier(f.order[k])
  {
    hide EmitAll, PortableAll, FunctionName, IsIdentifier;
    assert PortableLogic(f.program.logics[f.order[k]]);
  }

  lemma CalleeIsFound(f: Build, i: nat, callee: string)
    requires IsBuild(f) && IsPortable(f.program.logics) && i < |f.order|
    requires callee in Callees(f.program.logics, f.order[i])
    ensures Declared(f.functions, i, CalleeName(callee)).Some? <==> callee != "main"
  {
    hide EmitLogic, PortableLogic, Callees, IsIdentifier, Identifier;
    DeclaredIfThere(f.functions, i, CalleeName(callee));
    assert callee in set n | n in f.order[..i];
    if callee == "main" {
      assert IsIdentifier("main") by { MainIsAnIdentifier(); }
      forall k | 0 <= k < i
        ensures f.functions[k].name != CalleeName("main")
      {
        NamesOfFunctions(f, k);
        if f.order[k] != "main" {
          NamesAreInjective(f.order[k], "main");
        }
      }
    } else {
      var k :| 0 <= k < i && f.order[k] == callee;
      NamesOfFunctions(f, k);
    }
  }

  lemma MainIsAnIdentifier()
    ensures IsIdentifier("main")
  {
  }

  // ---- What C++ accepts ----

  /** All these names are declared among the first `limit` functions. */
  predicate AreDeclared(functions: seq<CFunction>, limit: nat, names: set<string>)
    requires limit <= |functions|
  {
    forall name | name in names :: Declared(functions, limit, name).Some?
  }

  lemma {:induction false} TypedCalls(functions: seq<CFunction>, limit: nat, scopes: Scopes, e: CExpr)
    requires limit <= |functions| && TypeOf(functions, limit, scopes, e).Some?
    ensures AreDeclared(functions, limit, Calls(e))
    decreases e, 1
  {
    hide InstanceType, UnaryType, BinaryType, LiteralType, Declared, Visible;
    match e
    case CParenthesis(inner) => TypedCalls(functions, limit, scopes, inner);
    case CUnary(_, operand) => TypedCalls(functions, limit, scopes, operand);
    case CBinary(left, _, right) =>
      TypedCalls(functions, limit, scopes, left);
      TypedCalls(functions, limit, scopes, right);
    case CCall(_, arguments) => TypedCallsOfAll(functions, limit, scopes, arguments);
    case _ =>
  }

  lemma {:induction false} TypedCallsOfAll(functions: seq<CFunction>, limit: nat, scopes: Scopes, es: seq<CExpr>)
    requires limit <= |functions| && TypesOf(functions, limit, scopes, es).Some?
    ensures AreDeclared(functions, limit, CallsOfAll(es))
    decreases es, 0
  {
    hide TypeOf, Declared;
    if es != [] {
      TypedCalls(functions, limit, scopes, es[0]);
      TypedCallsOfAll(functions, limit, scopes, es[1..]);
    }
  }

  lemma {:induction false} CheckedCalls(functions: seq<CFunction>, limit: nat, f: CFunction, scopes: Scopes,
                                        returned: Option<CType>, ss: seq<CStmt>)
    requires limit <= |functions| && CheckAll(functions, limit, f, scopes, returned, ss).Accepted?
    ensures AreDeclared(functions, limit, CallsOfBody(ss))
    decreases ss, 0
  {
    hide Check, Declared, CallsOfStatement;
    if ss != [] {
      StatementChecked(functions, limit, f, scopes, returned, ss[0]);
      var r := Check(functions, limit, f, scopes, returned, ss[0]);
      CheckedCalls(functions, limit, f, r.scopes, r.returned, ss[1..]);
    }
  }

  lemma {:induction false} BranchesChecked(functions: seq<CFunction>, limit: nat, f: CFunction, scopes: Scopes,
                                           returned: Option<CType>, branches: seq<CBranch>)
    requires limit <= |functions| && CheckBranches(functions, limit, f, scopes, returned, branches).Accepted?
    ensures AreDeclared(functions, limit, CallsOfBranches(branches))
    decreases branches, 0
  {
    hide TypeOf, CheckAll, Declared, CallsOfBody, Calls;
    if branches != [] {
      TypedCalls(functions, limit, scopes, branches[0].condition);
      CheckedCalls(functions, limit, f, scopes + [map[]], returned, branches[0].body);
      var r := CheckBlock(functions, limit, f, scopes, returned, branches[0].body);
      BranchesChecked(functions, limit, f, scopes, r.returned, branches[1..]);
    }
  }

  lemma {:induction false} StatementChecked(functions: seq<CFunction>, limit: nat, f: CFunction, scopes: Scopes,
                                            returned: Option<CType>, s: CStmt)
    requires limit <= |functions| && Check(functions, limit, f, scopes, returned, s).Accepted?
    ensures AreDeclared(functions, limit, CallsOfStatement(s))
    decreases s, 1
  {
    hide TypeOf, TypesOf, CheckAll, CheckBranches, Declared, CallsOfBody, CallsOfAll, CallsOfBranches, Calls, Visible;
    hide Mentions;
    hide Fitting;
    match s
    case CDeclare(_, _, e) => TypedCalls(functions, limit, scopes, e);
    case CSet(_, e) => TypedCalls(functions, limit, scopes, e);
    case CDo(e) => TypedCalls(functions, limit, scopes, e);
    case CPrint(e) => TypedCalls(functions, limit, scopes, e);
    case CReturn(result) =>
      if result.Some? {
        TypedCalls(functions, limit, scopes, result.value);
      }
    case CExit(result) =>
      if result.Some? {
        TypedCalls(functions, limit, scopes, result.value);
      }
    case CWhile(condition, body) =>
      TypedCalls(functions, limit, scopes, condition);
      CheckedCalls(functions, limit, f, scopes + [map[]], returned, body);
    case CIf(branches, otherwise) =>
      BranchesChecked(functions, limit, f, scopes, returned, branches);
      var r := CheckBranches(functions, limit, f, scopes, returned, branches);
      if otherwise.Else? {
        CheckedCalls(functions, limit, f, scopes + [map[]], r.returned, otherwise.body);
      }
    case CFor(variable, start, stop, step, body) =>
      var inner := scopes + [map[variable := Declaration(LongType, false)]];
      TypedCalls(functions, limit, scopes + [map[]], start);
      TypedCalls(functions, limit, inner, stop);
      TypedCalls(functions, limit, inner, step);
      assert CheckLoop(functions, limit, f, scopes, returned, variable, Declaration(LongType, false), body).Accepted?;
      CheckedCalls(functions, limit, f, inner + [map[]], returned, body);
    case CForEach(kind, variable, elements, body) =>
      var d := Declaration(if kind == "bool" then BoolType else StringType, true);
      TypedCallsOfAll(functions, limit, scopes + [map[]], elements);
      assert CheckLoop(functions, limit, f, scopes, returned, variable, d, body).Accepted?;
      CheckedCalls(functions, limit, f, scopes + [map[variable := d]] + [map[]], returned, body);
  }

  /** C++ accepts the firmware of a program only if no SEP calls main. */
  lemma AcceptedNeverCallsMain(f: Build, i: nat)
    requires IsBuild(f) && IsPortable(f.program.logics) && Compiles(f.functions) && i < |f.order|
    ensures "main" !in Callees(f.program.logics, f.order[i])
  {
    hide CheckAll, Returns, NeverEnds, IsBuild, IsPortable, Callees, Declared, CallsOfBody, BindTypes;
    assert |f.order| == |f.functions| by { SameCount(f); }
    var g := f.functions[i];
    var types := Unknowns(|g.parameters|);
    assert InstanceType(f.functions, i, types).Some?;
    CheckedCalls(f.functions, i, g, [BindTypes(g.parameters, types)], None, g.body);
    CallsAreDeclared(f, i);
  }

  lemma SameCount(f: Build)
    requires IsBuild(f)
    ensures |f.order| == |f.functions|
  {
  }
}
