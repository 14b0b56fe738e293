/** A class of programs that can be told from the source, and whose firmware C++ always accepts: numbers
    are computed with, truth values decide, and a SEP that gives a value does so at its end. */
module NumericPrograms {
  import opened Ast
  import opened Semantics
  import opened Cpp
  import opened CppTypes
  import opened Firmware
  import opened Emittable
  import opened Portability
  import opened Simulation
  import opened EmittedCalls

  // ---- The class ----

  /** A SEP that ends with the value it gives. */
  predicate GivesNumber(logic: Logic) {
    logic.body != [] && logic.body[|logic.body| - 1].ReturnStmt? && logic.body[|logic.body| - 1].result.Some?
  }

  predicate IsCall(logics: Logics, e: Expr)
    decreases e, 2
  {
    && e.CallExpr? && e.named == [] && e.callee in logics && e.callee != "main"
    && |e.arguments| == |logics[e.callee].parameters| && AreNumbers(logics, e.arguments)
  }

  predicate IsNumber(logics: Logics, e: Expr)
    decreases e, 3
  {
    match e
    case LiteralExpr(literal) => literal.IntLit? && 0 <= literal.i < 0x8000_0000
    case VariableExpr(_) => true
    case GroupExpr(inner) => IsNumber(logics, inner)
    case UnaryExpr(operator, operand) => operator == "-" && IsNumber(logics, operand)
    case BinaryExpr(left, operator, right) =>
      operator in {"+", "-", "*"} && IsNumber(logics, left) && IsNumber(logics, right)
    case CallExpr(_, _, _) => IsCall(logics, e) && GivesNumber(logics[e.callee])
    case _ => false
  }

  predicate AreNumbers(logics: Logics, es: seq<Expr>)
    decreases es, 0
  {
    es == [] || (IsNumber(logics, es[0]) && AreNumbers(logics, es[1..]))
  }

  predicate IsTruthValue(logics: Logics, e: Expr)
    decreases e, 3
  {
    match e
    case LiteralExpr(literal) => literal.BoolLit?
    case GroupExpr(inner) => IsTruthValue(logics, inner)
    case UnaryExpr(operator, operand) => operator == "!" && IsTruthValue(logics, operand)
    case BinaryExpr(left, operator, right) =>
      || (operator in {"&&", "||"} && IsTruthValue(logics, left) && IsTruthValue(logics, right))
      || (operator in {"<", "<=", ">", ">=", "==", "!="} && IsNumber(logics, left) && IsNumber(logics, right))
    case _ => false
  }

  predicate IsPrinted(logics: Logics, e: Expr) {
    IsNumber(logics, e) || IsTruthValue(logics, e) || (e.LiteralExpr? && e.value.StringLit?)
  }

  predicate IsNumeric(logics: Logics, inMain: bool, s: Stmt)
    decreases s, 1
  {
    match s
    case Assignment(name, e) => IsIdentifier(name) && IsNumber(logics, e)
    case PrintStmt(e) => IsPrinted(logics, e)
    case PrintErrorStmt(e) => IsPrinted(logics, e)
    case ExpressionStmt(e) => IsCall(logics, e)
    case ReturnStmt(result) => inMain && (result.Some? ==> IsNumber(logics, result.value))
    case IfStmt(_, branches, elseBody) =>
      AreNumericBranches(logics, inMain, branches)
      && (elseBody.Body? ==> AreNumeric(logics, inMain, elseBody.statements))
    case WhileStmt(_, condition, body) => IsTruthValue(logics, condition) && AreNumeric(logics, inMain, body)
    case ForStmt(_, variable, iterable, body) =>
      && IsIdentifier(variable) && iterable.CallExpr? && iterable.callee == "number_range"
      && AreNumbers(logics, iterable.arguments) && variable !in ReadsAll(iterable.arguments)
      && CallsInAll(iterable.arguments) == {}
      && AreNumeric(logics, inMain, body)
    case _ => false
  }

  predicate AreNumeric(logics: Logics, inMain: bool, ss: seq<Stmt>)
    decreases ss, 0
  {
    ss == [] || (IsNumeric(logics, inMain, ss[0]) && AreNumeric(logics, inMain, ss[1..]))
  }

  predicate AreNumericBranches(logics: Logics, inMain: bool, branches: seq<IfBranch>)
    decreases branches, 0
  {
    branches == []
    || (&& IsTruthValue(logics, branches[0].condition) && AreNumeric(logics, inMain, branches[0].body)
        && AreNumericBranches(logics, inMain, branches[1..]))
  }

  predicate IsNumericLogic(logics: Logics, logic: Logic) {
    if logic.name != "main" && GivesNumber(logic) then
      var last := |logic.body| - 1;
      AreNumeric(logics, false, logic.body[..last]) && IsNumber(logics, logic.body[last].result.value)
    else AreNumeric(logics, logic.name == "main", logic.body)
  }

  predicate IsNumericProgram(logics: Logics) {
    forall name | name in logics :: IsNumericLogic(logics, logics[name])
  }

  // ---- Scopes ----

  predicate IsNumberVariable(d: Declaration) { CppTypes.IsNumeric(d.kind) && !d.constant }

  ghost predicate HasNumbers(scope: map<string, Declaration>, visible: set<string>) {
    forall x | x in scope :: IsNumberVariable(scope[x]) && IsNameOf(visible, x)
  }

  ghost predicate IsNameOf(visible: set<string>, x: string) {
    exists n :: n in visible && IsIdentifier(n) && x == VariableName(n)
  }

  /** The declared variables are the visible names, and all of them are numbers. */
  ghost predicate Suits(visible: set<string>, scopes: Scopes) {
    && scopes != []
    && (forall n | n in visible :: IsIdentifier(n) && Visible(scopes, VariableName(n)).Some?)
    && (forall i | 0 <= i < |scopes| :: HasNumbers(scopes[i], visible))
  }

  lemma {:induction false} VisibleIsNumber(visible: set<string>, scopes: Scopes, x: string)
    requires forall i | 0 <= i < |scopes| :: HasNumbers(scopes[i], visible)
    ensures Visible(scopes, x).Some? ==> IsNumberVariable(Visible(scopes, x).value)
    decreases |scopes|
  {
    if scopes != [] {
      var outer := scopes[..|scopes| - 1];
      assert HasNumbers(scopes[|scopes| - 1], visible);
      assert forall i | 0 <= i < |outer| :: outer[i] == scopes[i];
      VisibleIsNumber(visible, outer, x);
    }
  }

  lemma MoreNames(scope: map<string, Declaration>, visible: set<string>, more: set<string>)
    requires HasNumbers(scope, visible) && visible <= more
    ensures HasNumbers(scope, more)
  {
    hide IsIdentifier, VariableName;
    forall x | x in scope
      ensures IsNumberVariable(scope[x]) && IsNameOf(more, x)
    {
      assert IsNameOf(visible, x);
      var n :| n in visible && IsIdentifier(n) && x == VariableName(n);
      assert n in more;
    }
  }

  lemma InnerSuits(visible: set<string>, scopes: Scopes)
    requires Suits(visible, scopes)
    ensures Suits(visible, scopes + [map[]])
  {
    var inner := scopes + [map[]];
    hide IsIdentifier, VariableName;
    assert inner[..|inner| - 1] == scopes;
    assert forall n | n in visible :: Visible(inner, VariableName(n)) == Visible(scopes, VariableName(n));
    assert HasNumbers(map[], visible);
    assert forall i | 0 <= i < |scopes| :: inner[i] == scopes[i];
  }

  /** One more number, in the innermost scope. */
  lemma DeclaredSuits(visible: set<string>, scopes: Scopes, name: string, t: CType)
    requires Suits(visible, scopes) && IsIdentifier(name) && CppTypes.IsNumeric(t)
    ensures var last := |scopes| - 1;
            Suits(visible + {name}, scopes[last := scopes[last][VariableName(name) := Declaration(t, false)]])
  {
    hide IsIdentifier, VariableName;
    var last, more := |scopes| - 1, visible + {name};
    var inner := scopes[last][VariableName(name) := Declaration(t, false)];
    var after := scopes[last := inner];
    assert after[..last] == scopes[..last];
    forall i | 0 <= i < |after|
      ensures HasNumbers(after[i], more)
    {
      assert HasNumbers(scopes[i], visible);
      MoreNames(scopes[i], visible, more);
      assert name in more;
      assert IsNameOf(more, VariableName(name));
    }
    forall n | n in more
      ensures IsIdentifier(n) && Visible(after, VariableName(n)).Some?
    {
      assert n in visible ==> Visible(scopes, VariableName(n)).Some?;
    }
  }

  lemma LoopSuits(visible: set<string>, scopes: Scopes, name: string)
    requires Suits(visible, scopes) && IsIdentifier(name)
    ensures Suits(visible + {name}, scopes + [map[VariableName(name) := Declaration(LongType, false)]])
  {
    hide Suits, IsIdentifier, VariableName;
    InnerSuits(visible, scopes);
    DeclaredSuits(visible, scopes + [map[]], name, LongType);
    var inner, d := scopes + [map[]], Declaration(LongType, false);
    assert inner[|scopes|] == map[] && |inner| - 1 == |scopes|;
    assert inner[|scopes| := map[][VariableName(name) := d]] == scopes + [map[VariableName(name) := d]];
  }

  /** A name that is not visible is not declared in the innermost scope either. */
  lemma NewName(visible: set<string>, scopes: Scopes, name: string)
    requires Suits(visible, scopes) && IsIdentifier(name) && name !in visible
    ensures VariableName(name) !in scopes[|scopes| - 1]
  {
    hide IsIdentifier, VariableName;
    assert HasNumbers(scopes[|scopes| - 1], visible);
    if VariableName(name) in scopes[|scopes| - 1] {
      var n :| n in visible && IsIdentifier(n) && VariableName(name) == VariableName(n);
      NamesAreInjective(n, name);
    }
  }

  // ---- What is known of the functions declared so far ----

  ghost predicate AreNumberTypes(types: seq<CType>) {
    forall t | t in types :: CppTypes.IsNumeric(t)
  }

  /** The first `limit` functions are accepted for all numbers, and give numbers if their SEPs do. */
  ghost predicate TakeNumbers(f: Build, limit: nat)
    requires IsBuild(f) && limit <= |f.order|
  {
    forall j, types | 0 <= j < limit && |types| == |f.functions[j].parameters| && AreNumberTypes(types) ::
      TakesNumbers(f, j, types)
  }

  ghost predicate TakesNumbers(f: Build, j: nat, types: seq<CType>)
    requires IsBuild(f) && j < |f.order| && |types| == |f.functions[j].parameters|
  {
    var t := InstanceType(f.functions, j, types);
    && t.Some?
    && (f.order[j] != "main" && GivesNumber(f.program.logics[f.order[j]]) ==> CppTypes.IsNumeric(t.value))
  }

  /** A place in a program: a SEP that sees the first `limit` functions, with its names and scopes. */
  ghost predicate IsPlace(f: Build, limit: nat, visible: set<string>, scopes: Scopes) {
    && IsBuild(f) && IsPortable(f.program.logics) && limit <= |f.order| && |f.order| == |f.functions|
    && TakeNumbers(f, limit) && Suits(visible, scopes)
  }

  lemma SepIsFound(f: Build, limit: nat, callee: string) returns (j: nat)
    requires IsBuild(f) && IsPortable(f.program.logics) && limit <= |f.order|
    requires callee in f.order[..limit] && callee != "main"
    ensures j < limit && f.order[j] == callee && Declared(f.functions, limit, CalleeName(callee)) == Some(j)
    ensures |f.functions[j].parameters| == |f.program.logics[callee].parameters|
  {
    hide EmitAll, PortableLogic, IsIdentifier, Identifier;
    var k :| 0 <= k < limit && f.order[k] == callee;
    NamesOfFunctions(f, k);
    DeclaredIfThere(f.functions, limit, CalleeName(callee));
    j := Declared(f.functions, limit, CalleeName(callee)).value;
    NamesOfFunctions(f, j);
    if f.order[j] != callee && f.order[j] != "main" {
      NamesAreInjective(f.order[j], callee);
    }
    CalleeIsNotMain(callee);
    EmittedParameters(f.program.logics.Keys, f.program.logics[callee], f.functions[j]);
  }

  // ---- Expressions ----

  lemma {:induction false} NumberIsTyped(f: Build, limit: nat, visible: set<string>, scopes: Scopes, e: Expr, c: CExpr)
    requires IsPlace(f, limit, visible, scopes) && IsNumber(f.program.logics, e)
    requires CallsDeclared(f, limit, CallsIn(e)) && EmitExpr(f.program.logics.Keys, visible, e) == Ok(c)
    ensures var t := TypeOf(f.functions, limit, scopes, c); t.Some? && CppTypes.IsNumeric(t.value)
    decreases e, 3
  {
    hide IsPlace, VariableName, InstanceType, IsCall, CallsDeclared, CalleeName;
    match e
    case LiteralExpr(_) =>
    case VariableExpr(name) => NameIsTyped(f, limit, visible, scopes, name);
    case GroupExpr(inner) => NumberIsTyped(f, limit, visible, scopes, inner, c.inner);
    case UnaryExpr(_, operand) => NumberIsTyped(f, limit, visible, scopes, operand, c.operand);
    case BinaryExpr(left, _, right) =>
      OperandsDeclared(f, limit, left, right);
      NumberIsTyped(f, limit, visible, scopes, left, c.left);
      NumberIsTyped(f, limit, visible, scopes, right, c.right);
    case CallExpr(callee, _, _) => CallIsTyped(f, limit, visible, scopes, e, c);
  }

  lemma OperandsDeclared(f: Build, limit: nat, left: Expr, right: Expr)
    requires CallsDeclared(f, limit, CallsIn(left) + CallsIn(right))
    ensures CallsDeclared(f, limit, CallsIn(left)) && CallsDeclared(f, limit, CallsIn(right))
  {
  }

  lemma NameIsTyped(f: Build, limit: nat, visible: set<string>, scopes: Scopes, name: string)
    requires IsPlace(f, limit, visible, scopes) && name in visible
    ensures var d := Visible(scopes, VariableName(name));
            d.Some? && IsNumberVariable(d.value)
  {
    hide IsBuild, IsPortable, TakeNumbers;
    VisibleIsNumber(visible, scopes, VariableName(name));
  }

  lemma {:induction false} CallIsTyped(f: Build, limit: nat, visible: set<string>, scopes: Scopes, e: Expr, c: CExpr)
    requires IsPlace(f, limit, visible, scopes) && IsCall(f.program.logics, e)
    requires CallsDeclared(f, limit, CallsIn(e)) && EmitExpr(f.program.logics.Keys, visible, e) == Ok(c)
    ensures var t := TypeOf(f.functions, limit, scopes, c);
            t.Some? && (GivesNumber(f.program.logics[e.callee]) ==> CppTypes.IsNumeric(t.value))
    decreases e, 1
  {
    hide VariableName, InstanceType, Suits, IsPortable, IsBuild, CalleeName;
    assert e.callee in CallsIn(e) && CallsDeclared(f, limit, CallsInAll(e.arguments));
    var j := SepIsFound(f, limit, e.callee);
    NumbersAreTyped(f, limit, visible, scopes, e.arguments, c.arguments);
    var types := TypesOf(f.functions, limit, scopes, c.arguments).value;
    assert TakesNumbers(f, j, types);
    assert VoidType !in types;
    CalleeIsNotMain(e.callee);
  }

  lemma CalleeIsNotMain(name: string)
    ensures CalleeName(name) != "main"
  {
    assert CalleeName(name)[0] == 's';
  }

  lemma {:induction false} NumbersAreTyped(f: Build, limit: nat, visible: set<string>, scopes: Scopes, es: seq<Expr>,
                                           cs: seq<CExpr>)
    requires IsPlace(f, limit, visible, scopes) && AreNumbers(f.program.logics, es)
    requires CallsDeclared(f, limit, CallsInAll(es)) && EmitExprs(f.program.logics.Keys, visible, es) == Ok(cs)
    ensures var ts := TypesOf(f.functions, limit, scopes, cs);
            ts.Some? && |ts.value| == |es| && AreNumberTypes(ts.value)
    decreases es, 0
  {
    hide IsPlace, IsNumber, EmitExpr, TypeOf;
    if es != [] {
      assert CallsDeclared(f, limit, CallsIn(es[0])) && CallsDeclared(f, limit, CallsInAll(es[1..]));
      NumberIsTyped(f, limit, visible, scopes, es[0], cs[0]);
      NumbersAreTyped(f, limit, visible, scopes, es[1..], cs[1..]);
    }
  }

  lemma {:induction false} TruthIsTyped(f: Build, limit: nat, visible: set<string>, scopes: Scopes, e: Expr, c: CExpr)
    requires IsPlace(f, limit, visible, scopes) && IsTruthValue(f.program.logics, e)
    requires CallsDeclared(f, limit, CallsIn(e)) && EmitExpr(f.program.logics.Keys, visible, e) == Ok(c)
    ensures IsCondition(f.functions, limit, scopes, c)
    decreases e, 3
  {
    hide IsPlace, VariableName, InstanceType, IsNumber, CallsDeclared, CalleeName;
    match e
    case LiteralExpr(_) =>
    case GroupExpr(inner) => TruthIsTyped(f, limit, visible, scopes, inner, c.inner);
    case UnaryExpr(_, operand) => TruthIsTyped(f, limit, visible, scopes, operand, c.operand);
    case BinaryExpr(left, operator, right) =>
      OperandsDeclared(f, limit, left, right);
      if operator in {"&&", "||"} {
        TruthIsTyped(f, limit, visible, scopes, left, c.left);
        TruthIsTyped(f, limit, visible, scopes, right, c.right);
      } else {
        NumberIsTyped(f, limit, visible, scopes, left, c.left);
        NumberIsTyped(f, limit, visible, scopes, right, c.right);
      }
  }

  // ---- Statements ----

  /** What is accepted leaves scopes for the names that are visible then, and no value is returned. */
  ghost predicate IsAccepted(r: Verdict, returned: Option<CType>, after: set<string>) {
    r.Accepted? && r.returned == returned && Suits(after, r.scopes)
  }

  lemma {:induction false} StatementIsAccepted(f: Build, limit: nat, inMain: bool, g: CFunction, visible: set<string>,
                                               scopes: Scopes, returned: Option<CType>, s: Stmt, c: CStmt,
                                               after: set<string>)
    requires IsPlace(f, limit, visible, scopes) && IsNumeric(f.program.logics, inMain, s)
    requires CallsDeclared(f, limit, CallsInStatement(s)) && (g.name == "main" <==> inMain)
    requires EmitStmt(f.program.logics.Keys, inMain, visible, s) == Ok((c, after))
    ensures IsAccepted(Check(f.functions, limit, g, scopes, returned, c), returned, after)
    decreases s, 1
  {
    hide IsPlace, IsNumber, IsTruthValue, EmitExpr, TypeOf, CallsDeclared, Suits, CheckBlock, CheckBranches, CheckLoop;
    hide VariableName, IsIdentifier, IsCondition;
    match s
    case Assignment(name, e) =>
      DefinitionIsAccepted(f, limit, inMain, g, visible, scopes, returned, name, e, c, after);
    case PrintStmt(e) => PrintIsTyped(f, limit, visible, scopes, e, c.value); PlaceSuits(f, limit, visible, scopes);
    case PrintErrorStmt(e) =>
      PrintIsTyped(f, limit, visible, scopes, e, c.value);
      PlaceSuits(f, limit, visible, scopes);
    case ExpressionStmt(e) =>
      CallIsTyped(f, limit, visible, scopes, e, c.expression);
      PlaceSuits(f, limit, visible, scopes);
    case ReturnStmt(result) =>
      if result.Some? { NumberIsTyped(f, limit, visible, scopes, result.value, c.result.value); }
      PlaceSuits(f, limit, visible, scopes);
    case WhileStmt(_, condition, body) =>
      BlockCalls(f, limit, condition, body);
      TruthIsTyped(f, limit, visible, scopes, condition, c.condition);
      BlockIsAccepted(f, limit, inMain, g, visible, scopes, returned, body, c.body);
      PlaceSuits(f, limit, visible, scopes);
    case IfStmt(_, branches, elseBody) =>
      IfCalls(f, limit, s);
      BranchesAreAccepted(f, limit, inMain, g, visible, scopes, returned, branches, c.branches);
      if elseBody.Body? {
        BlockIsAccepted(f, limit, inMain, g, visible, scopes, returned, elseBody.statements, c.otherwise.body);
      }
      PlaceSuits(f, limit, visible, scopes);
    case ForStmt(_, _, _, _) => LoopIsAccepted(f, limit, inMain, g, visible, scopes, returned, s, c, after);
  }

  lemma PlaceSuits(f: Build, limit: nat, visible: set<string>, scopes: Scopes)
    requires IsPlace(f, limit, visible, scopes)
    ensures Suits(visible, scopes) && limit <= |f.functions|
  {
  }

  lemma BlockCalls(f: Build, limit: nat, condition: Expr, body: seq<Stmt>)
    requires CallsDeclared(f, limit, CallsIn(condition) + CallsInStatements(body))
    ensures CallsDeclared(f, limit, CallsIn(condition)) && CallsDeclared(f, limit, CallsInStatements(body))
  {
  }

  lemma IfCalls(f: Build, limit: nat, s: Stmt)
    requires s.IfStmt? && CallsDeclared(f, limit, CallsInStatement(s))
    ensures CallsDeclared(f, limit, CallsInBranches(s.branches))
    ensures s.elseBody.Body? ==> CallsDeclared(f, limit, CallsInStatements(s.elseBody.statements))
  {
  }

  lemma PrintIsTyped(f: Build, limit: nat, visible: set<string>, scopes: Scopes, e: Expr, c: CExpr)
    requires IsPlace(f, limit, visible, scopes) && IsPrinted(f.program.logics, e)
    requires CallsDeclared(f, limit, CallsIn(e)) && EmitExpr(f.program.logics.Keys, visible, e) == Ok(c)
    ensures var t := TypeOf(f.functions, limit, scopes, c); t.Some? && t.value != VoidType
  {
    hide IsPlace, IsNumber, IsTruthValue, CallsDeclared;
    if IsNumber(f.program.logics, e) {
      NumberIsTyped(f, limit, visible, scopes, e, c);
    } else if IsTruthValue(f.program.logics, e) {
      TruthIsTyped(f, limit, visible, scopes, e, c);
    }
  }

  lemma DefinitionIsAccepted(f: Build, limit: nat, inMain: bool, g: CFunction, visible: set<string>, scopes: Scopes,
                             returned: Option<CType>, name: string, e: Expr, c: CStmt, after: set<string>)
    requires IsPlace(f, limit, visible, scopes) && IsIdentifier(name) && IsNumber(f.program.logics, e)
    requires CallsDeclared(f, limit, CallsIn(e))
    requires EmitStmt(f.program.logics.Keys, inMain, visible, Assignment(name, e)) == Ok((c, after))
    ensures IsAccepted(Check(f.functions, limit, g, scopes, returned, c), returned, after)
  {
    hide IsPlace, IsNumber, EmitExpr, TypeOf, CallsDeclared, VariableName, IsIdentifier, Suits;
    NumberIsTyped(f, limit, visible, scopes, e, c.value);
    PlaceSuits(f, limit, visible, scopes);
    HasScopes(visible, scopes);
    if name in visible {
      NameIsTyped(f, limit, visible, scopes, name);
    } else {
      NewName(visible, scopes, name);
      DeclaredSuits(visible, scopes, name, TypeOf(f.functions, limit, scopes, c.value).value);
    }
  }

  lemma HasScopes(visible: set<string>, scopes: Scopes)
    requires Suits(visible, scopes)
    ensures scopes != []
  {
  }

  lemma PlaceInside(f: Build, limit: nat, visible: set<string>, scopes: Scopes, more: set<string>, inner: Scopes)
    requires IsPlace(f, limit, visible, scopes) && Suits(more, inner)
    ensures IsPlace(f, limit, more, inner)
  {
  }

  lemma {:induction false} BodyIsAccepted(f: Build, limit: nat, inMain: bool, g: CFunction, visible: set<string>,
                                          scopes: Scopes, returned: Option<CType>, ss: seq<Stmt>, cs: seq<CStmt>,
                                          after: set<string>)
    requires IsPlace(f, limit, visible, scopes) && AreNumeric(f.program.logics, inMain, ss)
    requires CallsDeclared(f, limit, CallsInStatements(ss)) && (g.name == "main" <==> inMain)
    requires EmitAll(f.program.logics.Keys, inMain, visible, ss) == Ok((cs, after))
    ensures IsAccepted(CheckAll(f.functions, limit, g, scopes, returned, cs), returned, after)
    decreases ss, 0
  {
    hide IsPlace, IsNumeric, EmitStmt, Check, Suits;
    PlaceSuits(f, limit, visible, scopes);
    if ss != [] {
      assert CallsDeclared(f, limit, CallsInStatement(ss[0])) && CallsDeclared(f, limit, CallsInStatements(ss[1..]));
      var (c, next) := EmitStmt(f.program.logics.Keys, inMain, visible, ss[0]).value;
      StatementIsAccepted(f, limit, inMain, g, visible, scopes, returned, ss[0], c, next);
      var r := Check(f.functions, limit, g, scopes, returned, c);
      PlaceInside(f, limit, visible, scopes, next, r.scopes);
      assert cs[0] == c;
      BodyIsAccepted(f, limit, inMain, g, next, r.scopes, returned, ss[1..], cs[1..], after);
    }
  }

  lemma {:induction false} BlockIsAccepted(f: Build, limit: nat, inMain: bool, g: CFunction, visible: set<string>,
                                           scopes: Scopes, returned: Option<CType>, ss: seq<Stmt>, cs: seq<CStmt>)
    requires IsPlace(f, limit, visible, scopes) && AreNumeric(f.program.logics, inMain, ss)
    requires CallsDeclared(f, limit, CallsInStatements(ss)) && (g.name == "main" <==> inMain)
    requires EmitAll(f.program.logics.Keys, inMain, visible, ss).Ok?
    requires EmitAll(f.program.logics.Keys, inMain, visible, ss).value.0 == cs
    ensures CheckBlock(f.functions, limit, g, scopes, returned, cs) == Accepted(scopes, returned)
    decreases ss, 1
  {
    hide IsPlace, EmitAll, CheckAll, Suits, CallsDeclared;
    PlaceSuits(f, limit, visible, scopes);
    InnerSuits(visible, scopes);
    PlaceInside(f, limit, visible, scopes, visible, scopes + [map[]]);
    BodyIsAccepted(f, limit, inMain, g, visible, scopes + [map[]], returned, ss, cs,
                   EmitAll(f.program.logics.Keys, inMain, visible, ss).value.1);
  }

  lemma {:induction false} BranchesAreAccepted(f: Build, limit: nat, inMain: bool, g: CFunction, visible: set<string>,
                                               scopes: Scopes, returned: Option<CType>, branches: seq<IfBranch>,
                                               cs: seq<CBranch>)
    requires IsPlace(f, limit, visible, scopes) && AreNumericBranches(f.program.logics, inMain, branches)
    requires CallsDeclared(f, limit, CallsInBranches(branches)) && (g.name == "main" <==> inMain)
    requires EmitBranches(f.program.logics.Keys, inMain, visible, branches) == Ok(cs)
    ensures CheckBranches(f.functions, limit, g, scopes, returned, cs) == Accepted(scopes, returned)
    decreases branches, 0
  {
    hide IsPlace, EmitAll, EmitExpr, CheckBlock, IsCondition, Suits;
    if branches != [] {
      assert CallsDeclared(f, limit, CallsIn(branches[0].condition));
      assert CallsDeclared(f, limit, CallsInStatements(branches[0].body));
      assert CallsDeclared(f, limit, CallsInBranches(branches[1..]));
      TruthIsTyped(f, limit, visible, scopes, branches[0].condition, cs[0].condition);
      BlockIsAccepted(f, limit, inMain, g, visible, scopes, returned, branches[0].body, cs[0].body);
      BranchesAreAccepted(f, limit, inMain, g, visible, scopes, returned, branches[1..], cs[1..]);
    }
  }

  // ---- Counting loops ----

  /** A bound: a number of the source that is read outside of the loop, or one that is filled in. */
  ghost predicate IsBound(f: Build, visible: set<string>, variable: string, args: seq<Expr>, c: CExpr) {
    || c == CLiteral(IntV(0)) || c == CLiteral(IntV(1))
    || exists k :: 0 <= k < |args| && EmitExpr(f.program.logics.Keys, visible, args[k]) == Ok(c)
  }

  lemma {:induction false} ArgumentAt(logics: set<string>, visible: set<string>, es: seq<Expr>, k: nat)
    requires EmitExprs(logics, visible, es).Ok? && k < |es|
    ensures EmitExpr(logics, visible, es[k]) == Ok(EmitExprs(logics, visible, es).value[k])
    decreases k
  {
    hide EmitExpr;
    if k > 0 { ArgumentAt(logics, visible, es[1..], k - 1); }
  }

  lemma {:induction false} QuietArguments(es: seq<Expr>, variable: string, k: nat)
    requires variable !in ReadsAll(es) && CallsInAll(es) == {} && k < |es|
    ensures variable !in Reads(es[k]) && CallsIn(es[k]) == {}
  {
    if k > 0 { QuietArguments(es[1..], variable, k - 1); }
  }

  lemma {:induction false} NumberAt(logics: Logics, es: seq<Expr>, k: nat)
    requires AreNumbers(logics, es) && k < |es|
    ensures IsNumber(logics, es[k])
  {
    if k > 0 { NumberAt(logics, es[1..], k - 1); }
  }

  lemma HeaderBounds(f: Build, visible: set<string>, variable: string, iterable: Expr)
    requires iterable.CallExpr? && iterable.callee == "number_range"
    requires variable !in ReadsAll(iterable.arguments) && CallsInAll(iterable.arguments) == {}
    requires EmitHeader(f.program.logics.Keys, visible + {variable}, variable, iterable).Ok?
    ensures var h := EmitHeader(f.program.logics.Keys, visible + {variable}, variable, iterable).value;
            && h.CFor? && h.variable == VariableName(variable)
            && IsBound(f, visible, variable, iterable.arguments, h.start)
            && IsBound(f, visible, variable, iterable.arguments, h.stop)
            && IsBound(f, visible, variable, iterable.arguments, h.step)
  {
    hide VariableName;
    var args, logics, inner := iterable.arguments, f.program.logics.Keys, visible + {variable};
    assert EmitExprs(logics, inner, args).Ok?;
    var cs := EmitExprs(logics, inner, args).value;
    forall k | 0 <= k < |args|
      ensures IsBound(f, visible, variable, args, cs[k])
    {
      QuietArguments(args, variable, k);
      ArgumentAt(logics, inner, args, k);
      EmissionDependsOnReads(logics, visible, variable, args[k]);
    }
    hide EmitExprs, IsBound;
    FilledIn(f, visible, variable, args);
  }

  lemma FilledIn(f: Build, visible: set<string>, variable: string, args: seq<Expr>)
    ensures IsBound(f, visible, variable, args, CLiteral(IntV(0)))
    ensures IsBound(f, visible, variable, args, CLiteral(IntV(1)))
  {
  }

  lemma BoundIsTyped(f: Build, limit: nat, visible: set<string>, scopes: Scopes, variable: string, args: seq<Expr>,
                     c: CExpr, more: set<string>, inner: Scopes)
    requires IsPlace(f, limit, visible, scopes) && IsPlace(f, limit, more, inner) && more <= visible + {variable}
    requires visible <= more && AreNumbers(f.program.logics, args) && IsBound(f, visible, variable, args, c)
    requires variable !in ReadsAll(args) && CallsInAll(args) == {} && IsIdentifier(variable)
    ensures IsCount(f.functions, limit, inner, c) && !Mentions(c, VariableName(variable))
  {
    hide IsPlace, VariableName, IsIdentifier, IsNumber;
    if k :| 0 <= k < |args| && EmitExpr(f.program.logics.Keys, visible, args[k]) == Ok(c) {
      QuietArguments(args, variable, k);
      NumberAt(f.program.logics, args, k);
      assert CallsDeclared(f, limit, CallsIn(args[k])) by { PlaceCounts(f, limit, visible, scopes); }
      EmissionDependsOnReads(f.program.logics.Keys, visible, variable, args[k]);
      assert more == visible || more == visible + {variable};
      NumberIsTyped(f, limit, more, inner, args[k], c);
      NamesArePlain(f, limit, visible, scopes);
      NotMentioned(f.program.logics, visible, variable, args[k], c);
    }
  }

  lemma PlaceCounts(f: Build, limit: nat, visible: set<string>, scopes: Scopes)
    requires IsPlace(f, limit, visible, scopes)
    ensures limit <= |f.order|
  {
  }

  lemma NamesArePlain(f: Build, limit: nat, visible: set<string>, scopes: Scopes)
    requires IsPlace(f, limit, visible, scopes)
    ensures forall n | n in visible :: IsIdentifier(n)
  {
  }

  lemma {:induction false} NotMentioned(logics: Logics, visible: set<string>, variable: string, e: Expr, c: CExpr)
    requires IsNumber(logics, e) && CallsIn(e) == {} && variable !in Reads(e) && IsIdentifier(variable)
    requires EmitExpr(logics.Keys, visible, e) == Ok(c) && forall n | n in visible :: IsIdentifier(n)
    ensures !Mentions(c, VariableName(variable))
    decreases e
  {
    hide VariableName, IsIdentifier, IsCall;
    match e
    case LiteralExpr(_) =>
    case VariableExpr(name) => NamesAreInjective(name, variable);
    case GroupExpr(inner) => NotMentioned(logics, visible, variable, inner, c.inner);
    case UnaryExpr(_, operand) => NotMentioned(logics, visible, variable, operand, c.operand);
    case BinaryExpr(left, _, right) =>
      NotMentioned(logics, visible, variable, left, c.left);
      NotMentioned(logics, visible, variable, right, c.right);
    case CallExpr(_, _, _) => assert false;
  }

  /** A visible name is not declared again. */
  lemma {:induction false} NotDeclaredAgain(logics: Logics, inMain: bool, visible: set<string>, variable: string,
                                            ss: seq<Stmt>, cs: seq<CStmt>)
    requires variable in visible && IsIdentifier(variable) && AreNumeric(logics, inMain, ss)
    requires EmitAll(logics.Keys, inMain, visible, ss).Ok?
    requires EmitAll(logics.Keys, inMain, visible, ss).value.0 == cs
    ensures forall i | 0 <= i < |cs| :: cs[i].CDeclare? ==> cs[i].name != VariableName(variable)
    decreases ss
  {
    hide VariableName, IsIdentifier;
    if ss != [] {
      var (c, next) := EmitStmt(logics.Keys, inMain, visible, ss[0]).value;
      EmitStmtIff(logics.Keys, inMain, visible, ss[0]);
      assert variable in next;
      NotDeclaredAgain(logics, inMain, next, variable, ss[1..], cs[1..]);
      FirstIsOther(logics, inMain, visible, variable, ss[0], c);
      assert forall i | 0 < i < |cs| :: cs[i] == cs[1..][i - 1];
    }
  }

  lemma FirstIsOther(logics: Logics, inMain: bool, visible: set<string>, variable: string, s: Stmt, c: CStmt)
    requires variable in visible && IsIdentifier(variable) && IsNumeric(logics, inMain, s)
    requires EmitStmt(logics.Keys, inMain, visible, s).Ok? && EmitStmt(logics.Keys, inMain, visible, s).value.0 == c
    ensures c.CDeclare? ==> c.name != VariableName(variable)
  {
    hide VariableName, IsIdentifier;
    if s.Assignment? && s.name != variable { NamesAreInjective(s.name, variable); }
  }

  lemma {:induction false} LoopIsAccepted(f: Build, limit: nat, inMain: bool, g: CFunction, visible: set<string>,
                                          scopes: Scopes, returned: Option<CType>, s: Stmt, c: CStmt,
                                          after: set<string>)
    requires IsPlace(f, limit, visible, scopes) && IsNumeric(f.program.logics, inMain, s) && s.ForStmt?
    requires CallsDeclared(f, limit, CallsInStatement(s)) && (g.name == "main" <==> inMain)
    requires EmitStmt(f.program.logics.Keys, inMain, visible, s) == Ok((c, after))
    ensures IsAccepted(Check(f.functions, limit, g, scopes, returned, c), returned, after)
    decreases s, 0
  {
    hide IsPlace, IsNumber, VariableName, IsIdentifier, CallsDeclared, Suits, EmitHeader, EmitAll, IsBound, Mentions;
    hide IsCount, CheckBlock, AreNumeric, AreNumbers, ReadsAll, CallsInAll;
    var (x, args, visibleInside) := (s.variable, s.iterable.arguments, visible + {s.variable});
    LoopCalls(f, limit, s);
    HeaderBounds(f, visible, x, s.iterable);
    PlaceSuits(f, limit, visible, scopes);
    InnerSuits(visible, scopes);
    PlaceInside(f, limit, visible, scopes, visible, scopes + [map[]]);
    LoopSuits(visible, scopes, x);
    var loop := scopes + [map[VariableName(x) := Declaration(LongType, false)]];
    PlaceInside(f, limit, visible, scopes, visibleInside, loop);
    BoundIsTyped(f, limit, visible, scopes, x, args, c.start, visible, scopes + [map[]]);
    BoundIsTyped(f, limit, visible, scopes, x, args, c.stop, visibleInside, loop);
    BoundIsTyped(f, limit, visible, scopes, x, args, c.step, visibleInside, loop);
    NotDeclaredAgain(f.program.logics, inMain, visibleInside, x, s.body, c.body);
    BlockIsAccepted(f, limit, inMain, g, visibleInside, loop, returned, s.body, c.body);
  }

  lemma LoopCalls(f: Build, limit: nat, s: Stmt)
    requires s.ForStmt? && CallsDeclared(f, limit, CallsInStatement(s))
    ensures CallsDeclared(f, limit, CallsInStatements(s.body))
  {
  }

  // ---- Functions ----

  lemma {:induction false} BoundTypes(names: seq<string>, types: seq<CType>)
    requires |names| == |types| && AreNumberTypes(types)
    ensures BindTypes(names, types).Keys == set n | n in names
    ensures forall x | x in BindTypes(names, types) :: IsNumberVariable(BindTypes(names, types)[x])
    decreases |names|
  {
    if names != [] {
      var last := |names| - 1;
      BoundTypes(names[..last], types[..last]);
      assert names == names[..last] + [names[last]];
      assert types[last] in types;
    }
  }

  /** The parameters are what is visible first. */
  lemma ParametersSuit(logic: Logic, names: seq<string>, types: seq<CType>)
    requires names == VariableNames(ParameterNames(logic)) && |types| == |names| && AreNumberTypes(types)
    requires forall i | 0 <= i < |logic.parameters| :: IsIdentifier(ParameterNames(logic)[i])
    ensures Suits((set n | n in ParameterNames(logic)), [BindTypes(names, types)])
  {
    hide VariableName, IsIdentifier;
    var sources := ParameterNames(logic);
    var (visible, scope) := ((set n | n in sources), BindTypes(names, types));
    BoundTypes(names, types);
    forall n | n in visible
      ensures IsIdentifier(n) && Visible([scope], VariableName(n)).Some?
    {
      var i :| 0 <= i < |sources| && sources[i] == n;
      assert names[i] == VariableName(n);
    }
    forall x | x in scope
      ensures IsNameOf(visible, x)
    {
      var i :| 0 <= i < |names| && names[i] == x;
      assert sources[i] in visible && x == VariableName(sources[i]);
    }
  }

  lemma {:induction false} CheckedInParts(functions: seq<CFunction>, limit: nat, g: CFunction, scopes: Scopes,
                                          returned: Option<CType>, a: seq<CStmt>, b: seq<CStmt>)
    requires limit <= |functions|
    ensures CheckAll(functions, limit, g, scopes, returned, a + b)
         == var r := CheckAll(functions, limit, g, scopes, returned, a);
            if r.Rejected? then r else CheckAll(functions, limit, g, r.scopes, r.returned, b)
    decreases a
  {
    hide Check;
    if a == [] {
      assert a + b == b;
    } else {
      assert (a + b)[1..] == a[1..] + b;
      var r := Check(functions, limit, g, scopes, returned, a[0]);
      if r.Accepted? { CheckedInParts(functions, limit, g, r.scopes, r.returned, a[1..], b); }
    }
  }

  lemma {:induction false} EmittedInParts(logics: set<string>, inMain: bool, visible: set<string>, a: seq<Stmt>,
                                          b: seq<Stmt>)
    ensures EmitAll(logics, inMain, visible, a + b)
         == var first := EmitAll(logics, inMain, visible, a);
            if first.Err? then first
            else
              var rest := EmitAll(logics, inMain, first.value.1, b);
              if rest.Err? then rest else Ok((first.value.0 + rest.value.0, rest.value.1))
    decreases a
  {
    hide EmitStmt;
    if a == [] {
      assert a + b == b;
      var rest := EmitAll(logics, inMain, visible, b);
      assert rest.Ok? ==> [] + rest.value.0 == rest.value.0;
    } else {
      assert (a + b)[1..] == a[1..] + b;
      var first := EmitStmt(logics, inMain, visible, a[0]);
      if first.Ok? {
        EmittedInParts(logics, inMain, first.value.1, a[1..], b);
        var r := EmitAll(logics, inMain, first.value.1, a[1..]);
        var q := EmitAll(logics, inMain, first.value.1, a[1..] + b);
        if r.Ok? && q.Ok? {
          var rest := EmitAll(logics, inMain, r.value.1, b).value.0;
          assert [first.value.0] + (r.value.0 + rest) == [first.value.0] + r.value.0 + rest;
        }
      }
    }
  }

  lemma {:induction false} NothingReturns(logics: Logics, ss: seq<Stmt>, valued: bool)
    requires AreNumeric(logics, false, ss)
    ensures !HasReturn(ss, valued)
    decreases ss, 0
  {
    hide IsNumber, IsTruthValue, IsPrinted, IsCall;
    if ss != [] {
      StatementReturnsNothing(logics, ss[0], valued);
      NothingReturns(logics, ss[1..], valued);
    }
  }

  lemma {:induction false} StatementReturnsNothing(logics: Logics, s: Stmt, valued: bool)
    requires IsNumeric(logics, false, s)
    ensures !StatementHasReturn(s, valued)
    decreases s, 1
  {
    hide IsNumber, IsTruthValue, IsPrinted, IsCall, AreNumbers;
    match s
    case WhileStmt(_, _, body) => NothingReturns(logics, body, valued);
    case IfStmt(_, branches, elseBody) =>
      BranchesReturnNothing(logics, branches, valued);
      if elseBody.Body? { NothingReturns(logics, elseBody.statements, valued); }
    case ForStmt(_, _, _, body) => NothingReturns(logics, body, valued);
    case _ =>
  }

  lemma {:induction false} BranchesReturnNothing(logics: Logics, branches: seq<IfBranch>, valued: bool)
    requires AreNumericBranches(logics, false, branches)
    ensures !BranchHasReturn(branches, valued)
    decreases branches, 0
  {
    hide IsTruthValue;
    if branches != [] {
      NothingReturns(logics, branches[0].body, valued);
      BranchesReturnNothing(logics, branches[1..], valued);
    }
  }

  lemma {:induction false} EndsWithReturn(ss: seq<CStmt>, last: CStmt)
    requires last.CReturn?
    ensures NeverEnds(ss + [last])
  {
    if ss == [] {
      assert ss + [last] == [last];
    } else {
      assert (ss + [last])[1..] == ss[1..] + [last];
      EndsWithReturn(ss[1..], last);
    }
  }

  lemma {:induction false} HasReturnInParts(a: seq<Stmt>, b: seq<Stmt>, valued: bool)
    ensures HasReturn(a + b, valued) == (HasReturn(a, valued) || HasReturn(b, valued))
    decreases a
  {
    if a == [] {
      assert a + b == b;
    } else {
      assert (a + b)[1..] == a[1..] + b;
      HasReturnInParts(a[1..], b, valued);
    }
  }

  /** What is known of function number `j`. */
  lemma Emitted(f: Build, j: nat)
    requires IsBuild(f) && IsPortable(f.program.logics) && j < |f.order| && |f.order| == |f.functions|
    ensures f.order[j] in f.program.logics
    ensures var logic := f.program.logics[f.order[j]];
            var names := ParameterNames(logic);
            var body := EmitAll(f.program.logics.Keys, logic.name == "main", (set n | n in names), logic.body);
            && logic.name == f.order[j] && body.Ok?
            && f.functions[j] == CFunction(FunctionName(logic.name), VariableNames(names),
                 logic.name != "main" && (HasReturn(logic.body, true) || HasReturn(logic.body, false)),
                 body.value.0 + if logic.name == "main" then [CExit(None)] else [])
            && (forall i | 0 <= i < |logic.parameters| :: IsIdentifier(names[i]))
            && (forall i, k | 0 <= i < k < |names| :: names[i] != names[k])
            && (FunctionName(logic.name) == "main" <==> logic.name == "main")
    ensures CallsDeclared(f, j, CallsInStatements(f.program.logics[f.order[j]].body))
  {
    hide EmitAll, PortableAll, VariableNames, IsIdentifier, HasReturn, Identifier;
    var name := f.order[j];
    assert EmitLogic(f.program.logics.Keys, f.program.logics[name]) == Ok(f.functions[j]);
    assert PortableLogic(f.program.logics[name]);
    CalleeIsNotMain(name);
    forall c | c in CallsInStatements(f.program.logics[name].body) && c in f.program.logics
      ensures c in f.order[..j]
    {
      assert c in Callees(f.program.logics, name);
    }
  }

  /** main, or a SEP without values. */
  lemma ProcedureIsAccepted(f: Build, j: nat, types: seq<CType>)
    requires IsBuild(f) && IsPortable(f.program.logics) && j < |f.order| && |f.order| == |f.functions|
    requires TakeNumbers(f, j) && |types| == |f.functions[j].parameters| && AreNumberTypes(types)
    requires IsNumericProgram(f.program.logics)
    requires f.order[j] == "main" || !GivesNumber(f.program.logics[f.order[j]])
    ensures InstanceType(f.functions, j, types).Some?
  {
    hide EmitAll, VariableNames, IsIdentifier, AreNumeric, CheckAll, IsBuild, IsPortable, Suits, CallsDeclared;
    hide HasReturn;
    hide Returns, ParameterNames;
    Emitted(f, j);
    var logic, g := f.program.logics[f.order[j]], f.functions[j];
    assert IsNumericLogic(f.program.logics, logic);
    var names, inMain := ParameterNames(logic), logic.name == "main";
    var visible := set n | n in names;
    var body := EmitAll(f.program.logics.Keys, inMain, visible, logic.body).value;
    ParametersSuit(logic, g.parameters, types);
    var scopes := [BindTypes(g.parameters, types)];
    BodyIsAccepted(f, j, inMain, g, visible, scopes, None, logic.body, body.0, body.1);
    var r := CheckAll(f.functions, j, g, scopes, None, body.0);
    EmittedReturns(f.program.logics.Keys, inMain, visible, logic.body, true);
    if inMain {
      CheckedInParts(f.functions, j, g, scopes, None, body.0, [CExit(None)]);
      ExitIsAccepted(f.functions, j, g, r.scopes, r.returned);
      AppendedReturns(body.0, CExit(None), true);
    } else {
      NothingReturns(f.program.logics, logic.body, true);
      assert body.0 + [] == body.0;
    }
  }

  lemma ExitIsAccepted(functions: seq<CFunction>, limit: nat, g: CFunction, scopes: Scopes, returned: Option<CType>)
    requires limit <= |functions| && g.name == "main"
    ensures CheckAll(functions, limit, g, scopes, returned, [CExit(None)]) == Accepted(scopes, returned)
    ensures !StatementReturns(CExit(None), true)
  {
    assert Check(functions, limit, g, scopes, returned, CExit(None)) == Accepted(scopes, returned);
    assert [CExit(None)][1..] == [];
  }

  /** What a SEP that ends with its value is emitted as. */
  lemma FunctionIsEmitted(f: Build, j: nat) returns (cs: seq<CStmt>, after: set<string>, c: CExpr)
    requires IsBuild(f) && IsPortable(f.program.logics) && j < |f.order| && |f.order| == |f.functions|
    requires f.order[j] != "main" && GivesNumber(f.program.logics[f.order[j]])
    ensures var (logic, g) := (f.program.logics[f.order[j]], f.functions[j]);
            var n := |logic.body| - 1;
            var visible := set x | x in ParameterNames(logic);
            && logic.name == f.order[j] && g.name != "main" && g.returnsAuto && g.body == cs + [CReturn(Some(c))]
            && EmitAll(f.program.logics.Keys, false, visible, logic.body[..n]) == Ok((cs, after))
            && EmitExpr(f.program.logics.Keys, after, logic.body[n].result.value) == Ok(c)
            && CallsDeclared(f, j, CallsInStatements(logic.body[..n]))
            && CallsDeclared(f, j, CallsIn(logic.body[n].result.value))
  {
    hide EmitAll, VariableNames, IsIdentifier, IsBuild, IsPortable, CallsDeclared, HasReturn, ParameterNames, EmitExpr;
    Emitted(f, j);
    var logic, g := f.program.logics[f.order[j]], f.functions[j];
    var n := |logic.body| - 1;
    var (pre, last) := (logic.body[..n], logic.body[n]);
    assert logic.body == pre + [last];
    var visible := set x | x in ParameterNames(logic);
    EmittedInParts(f.program.logics.Keys, false, visible, pre, [last]);
    var body := EmitAll(f.program.logics.Keys, false, visible, pre).value;
    LastIsEmitted(f.program.logics.Keys, body.1, last);
    cs, after, c := body.0, body.1, EmitExpr(f.program.logics.Keys, body.1, last.result.value).value;
    assert g.body == cs + [CReturn(Some(c))] by { assert g.body + [] == g.body; }
    CallsInParts(f, j, pre, last);
    HasReturnInParts(pre, [last], true);
  }

  lemma FunctionIsChecked(f: Build, j: nat, types: seq<CType>, cs: seq<CStmt>, after: set<string>, c: CExpr)
    requires IsBuild(f) && IsPortable(f.program.logics) && j < |f.order| && |f.order| == |f.functions|
    requires TakeNumbers(f, j) && |types| == |f.functions[j].parameters| && AreNumberTypes(types)
    requires f.order[j] != "main" && GivesNumber(f.program.logics[f.order[j]])
    requires f.functions[j].name != "main" && f.functions[j].returnsAuto
    requires var (logic, logics) := (f.program.logics[f.order[j]], f.program.logics);
             var n := |logic.body| - 1;
             && AreNumeric(logics, false, logic.body[..n]) && IsNumber(logics, logic.body[n].result.value)
             && EmitAll(logics.Keys, false, (set x | x in ParameterNames(logic)), logic.body[..n]) == Ok((cs, after))
             && EmitExpr(logics.Keys, after, logic.body[n].result.value) == Ok(c)
             && CallsDeclared(f, j, CallsInStatements(logic.body[..n]))
             && CallsDeclared(f, j, CallsIn(logic.body[n].result.value))
    ensures var g := f.functions[j];
            var r := CheckAll(f.functions, j, g, [BindTypes(g.parameters, types)], None, cs + [CReturn(Some(c))]);
            r.Accepted? && r.returned.Some? && CppTypes.IsNumeric(r.returned.value)
  {
    var logic, g := f.program.logics[f.order[j]], f.functions[j];
    var n := |logic.body| - 1;
    assert logic.body[n].ReturnStmt? && logic.body[n].result.Some?;
    hide EmitAll, VariableNames, IsIdentifier, AreNumeric, CheckAll, IsBuild, IsPortable, Suits, CallsDeclared;
    hide HasReturn;
    hide EmitExpr, ParameterNames, IsNumber, TypeOf, GivesNumber, TakeNumbers, TakesNumbers, AreNumberTypes;
    var visible := set x | x in ParameterNames(logic);
    var scopes := [BindTypes(g.parameters, types)];
    FirstPlace(f, j, types);
    BodyIsAccepted(f, j, false, g, visible, scopes, None, logic.body[..n], cs, after);
    var r := CheckAll(f.functions, j, g, scopes, None, cs);
    assert IsPlace(f, j, after, r.scopes);
    NumberIsTyped(f, j, after, r.scopes, logic.body[n].result.value, c);
    CheckedInParts(f.functions, j, g, scopes, None, cs, [CReturn(Some(c))]);
    ReturnIsAccepted(f.functions, j, g, r.scopes, c);
  }

  lemma FirstPlace(f: Build, j: nat, types: seq<CType>)
    requires IsBuild(f) && IsPortable(f.program.logics) && j < |f.order| && |f.order| == |f.functions|
    requires TakeNumbers(f, j) && |types| == |f.functions[j].parameters| && AreNumberTypes(types)
    ensures IsPlace(f, j, (set x | x in ParameterNames(f.program.logics[f.order[j]])),
                    [BindTypes(f.functions[j].parameters, types)])
  {
    hide EmitAll, VariableNames, IsIdentifier, IsBuild, IsPortable, Suits, CallsDeclared, HasReturn, ParameterNames;
    hide TakeNumbers, AreNumberTypes;
    Emitted(f, j);
    ParametersSuit(f.program.logics[f.order[j]], f.functions[j].parameters, types);
  }

  /** A SEP that ends with its value. */
  lemma FunctionIsAccepted(f: Build, j: nat, types: seq<CType>)
    requires IsBuild(f) && IsPortable(f.program.logics) && j < |f.order| && |f.order| == |f.functions|
    requires TakeNumbers(f, j) && |types| == |f.functions[j].parameters| && AreNumberTypes(types)
    requires IsNumericProgram(f.program.logics)
    requires f.order[j] != "main" && GivesNumber(f.program.logics[f.order[j]])
    ensures var t := InstanceType(f.functions, j, types); t.Some? && CppTypes.IsNumeric(t.value)
  {
    var logic := f.program.logics[f.order[j]];
    assert |logic.body| > 0;
    hide EmitAll, IsIdentifier, AreNumeric, CheckAll, IsBuild, IsPortable, CallsDeclared, HasReturn, BindTypes;
    hide EmitExpr, Returns, NeverEnds, ParameterNames, IsNumber, GivesNumber, TakeNumbers, AreNumberTypes;
    var cs, after, c := FunctionIsEmitted(f, j);
    assert IsNumericLogic(f.program.logics, logic);
    FunctionIsChecked(f, j, types, cs, after, c);
    var visible := set x | x in ParameterNames(logic);
    FunctionReturns(f.program.logics, visible, logic.body[..|logic.body| - 1], cs, after, c);
  }

  lemma FunctionReturns(logics: Logics, visible: set<string>, pre: seq<Stmt>, cs: seq<CStmt>, after: set<string>,
                        c: CExpr)
    requires AreNumeric(logics, false, pre) && EmitAll(logics.Keys, false, visible, pre) == Ok((cs, after))
    ensures ReturnsProperly(cs + [CReturn(Some(c))])
  {
    hide EmitAll, AreNumeric, Returns, NeverEnds, HasReturn;
    EmittedReturns(logics.Keys, false, visible, pre, false);
    NothingReturns(logics, pre, false);
    assert !StatementReturns(CReturn(Some(c)), false);
    AppendedReturns(cs, CReturn(Some(c)), false);
    EndsWithReturn(cs, CReturn(Some(c)));
  }

  lemma LastIsEmitted(logics: set<string>, visible: set<string>, last: Stmt)
    requires last.ReturnStmt? && last.result.Some? && EmitAll(logics, false, visible, [last]).Ok?
    ensures var c := EmitExpr(logics, visible, last.result.value);
            c.Ok? && EmitAll(logics, false, visible, [last]).value.0 == [CReturn(Some(c.value))]
    ensures HasReturn([last], true)
  {
    hide EmitExpr;
    assert StatementHasReturn(last, true);
    assert [last][1..] == [];
    assert EmitAll(logics, false, visible, []) == Ok(([], visible));
  }

  lemma CallsInParts(f: Build, limit: nat, pre: seq<Stmt>, last: Stmt)
    requires CallsDeclared(f, limit, CallsInStatements(pre + [last])) && last.ReturnStmt? && last.result.Some?
    ensures CallsDeclared(f, limit, CallsInStatements(pre)) && CallsDeclared(f, limit, CallsIn(last.result.value))
  {
    CallsInAppended(pre, last);
  }

  lemma {:induction false} CallsInAppended(pre: seq<Stmt>, last: Stmt)
    ensures CallsInStatements(pre + [last]) == CallsInStatements(pre) + CallsInStatement(last)
    decreases pre
  {
    hide CallsInStatement;
    if pre == [] {
      assert pre + [last] == [last] && [last][1..] == [];
    } else {
      assert (pre + [last])[1..] == pre[1..] + [last];
      CallsInAppended(pre[1..], last);
    }
  }

  lemma ReturnIsAccepted(functions: seq<CFunction>, limit: nat, g: CFunction, scopes: Scopes, c: CExpr)
    requires limit <= |functions| && TypeOf(functions, limit, scopes, c).Some? && g.returnsAuto
    ensures CheckAll(functions, limit, g, scopes, None, [CReturn(Some(c))])
         == Accepted(scopes, TypeOf(functions, limit, scopes, c))
  {
    hide TypeOf;
    assert Check(functions, limit, g, scopes, None, CReturn(Some(c)))
        == Accepted(scopes, TypeOf(functions, limit, scopes, c));
    assert [CReturn(Some(c))][1..] == [];
  }

  // ---- Programs ----

  lemma {:induction false} AllTakeNumbers(f: Build, limit: nat)
    requires IsBuild(f) && IsPortable(f.program.logics) && IsNumericProgram(f.program.logics)
    requires limit <= |f.order| == |f.functions|
    ensures TakeNumbers(f, limit)
    decreases limit
  {
    hide IsBuild, IsPortable, IsNumericProgram, InstanceType, GivesNumber;
    if limit > 0 {
      AllTakeNumbers(f, limit - 1);
      var j := limit - 1;
      forall types | |types| == |f.functions[j].parameters| && AreNumberTypes(types)
        ensures TakesNumbers(f, j, types)
      {
        TakesAllNumbers(f, j, types);
      }
    }
  }

  lemma TakesAllNumbers(f: Build, j: nat, types: seq<CType>)
    requires IsBuild(f) && IsPortable(f.program.logics) && j < |f.order| && |f.order| == |f.functions|
    requires TakeNumbers(f, j) && |types| == |f.functions[j].parameters| && AreNumberTypes(types)
    requires IsNumericProgram(f.program.logics)
    ensures TakesNumbers(f, j, types)
  {
    hide IsPortable, IsNumericProgram, InstanceType, GivesNumber, TakeNumbers;
    if f.order[j] == "main" || !GivesNumber(f.program.logics[f.order[j]]) {
      ProcedureIsAccepted(f, j, types);
    } else {
      FunctionIsAccepted(f, j, types);
    }
  }

  lemma DistinctFunctions(f: Build, i: nat, j: nat)
    requires IsBuild(f) && IsPortable(f.program.logics) && i < j < |f.order| == |f.functions|
    ensures f.functions[i].name != f.functions[j].name
  {
    hide EmitLogic, PortableLogic, IsIdentifier, Identifier;
    NamesOfFunctions(f, i);
    NamesOfFunctions(f, j);
    CalleeIsNotMain(f.order[i]);
    CalleeIsNotMain(f.order[j]);
    if f.order[i] != "main" && f.order[j] != "main" {
      NamesAreInjective(f.order[i], f.order[j]);
    }
  }

  lemma DistinctParameters(f: Build, j: nat)
    requires IsBuild(f) && IsPortable(f.program.logics) && j < |f.order| == |f.functions|
    requires "main" in f.program.logics ==> f.program.logics["main"].parameters == []
    ensures HasDistinctParameters(f.functions[j])
  {
    hide EmitAll, IsIdentifier, VariableName, IsPortable, IsBuild, HasReturn, CallsDeclared;
    Emitted(f, j);
    var names := ParameterNames(f.program.logics[f.order[j]]);
    forall i, k | 0 <= i < k < |names|
      ensures VariableName(names[i]) != VariableName(names[k])
    {
      NamesAreInjective(names[i], names[k]);
    }
  }

  /** C++ accepts the firmware of every numeric program. */
  lemma NumericProgramsCompile(f: Build)
    requires IsBuild(f) && IsPortable(f.program.logics) && IsNumericProgram(f.program.logics)
    requires "main" in f.program.logics ==> f.program.logics["main"].parameters == []
    ensures Compiles(f.functions)
  {
    assert |f.order| == |f.functions|;
    hide IsBuild, IsPortable, IsNumericProgram, InstanceType;
    AllTakeNumbers(f, |f.order|);
    forall i, j | 0 <= i < j < |f.functions|
      ensures f.functions[i].name != f.functions[j].name
    {
      DistinctFunctions(f, i, j);
    }
    forall j | 0 <= j < |f.functions|
      ensures HasDistinctParameters(f.functions[j])
      ensures InstanceType(f.functions, j, Unknowns(|f.functions[j].parameters|)).Some?
    {
      DistinctParameters(f, j);
      assert AreNumberTypes(Unknowns(|f.functions[j].parameters|));
      assert TakesNumbers(f, j, Unknowns(|f.functions[j].parameters|));
    }
  }

  /** For numeric programs nothing is left to the compiler: what is told from the source alone is enough for the
      firmware to finish with the interpreter's result and the interpreter's output. */
  lemma NumericFirmwarePrintsTheSame(f: Build, fuel: nat)
    requires IsBuild(f) && IsPortable(f.program.logics) && IsNumericProgram(f.program.logics)
    requires "main" in f.order && f.program.logics["main"].parameters == []
    requires RunLoaded(fuel, f.program, []).0.Value?
    ensures var (v, w) := RunLoaded(fuel, f.program, []);
            CRunProgram(fuel, f.functions) == (Got(v.value), Printout(w.output))
  {
    hide IsPortable, IsNumericProgram, Compiles, RunLoaded, CRunProgram;
    NumericProgramsCompile(f);
    FirmwarePrintsTheSame(f, fuel);
  }
}
