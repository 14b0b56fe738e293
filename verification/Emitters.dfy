/** The emitter itself, which keeps a stack of scopes while it walks the tree. Every method
    is proved to emit what `Firmware` says for the names visible in its scopes, and a whole
    program is proved to print what the interpreter prints. */
module Emitters {
  import opened Ast
  import opened Semantics
  import opened Cpp
  import opened CppTypes
  import opened Firmware
  import opened Emittable
  import opened Simulation
  import opened CallOrder

  type Scope = map<string, string>

  ghost function Names(scopes: seq<Scope>): set<string> {
    if scopes == [] then {} else Names(scopes[..|scopes| - 1]) + scopes[|scopes| - 1].Keys
  }

  ghost function NamesBefore(names: seq<string>, count: nat): set<string>
    requires count <= |names|
  {
    set i | 0 <= i < count :: names[i]
  }

  lemma NamesBeforeGrows(names: seq<string>, count: nat)
    requires count <= |names|
    ensures NamesBefore(names, 0) == {}
    ensures count > 0 ==> NamesBefore(names, count) == NamesBefore(names, count - 1) + {names[count - 1]}
    ensures NamesBefore(names, |names|) == set n | n in names
  {
  }

  ghost function FirstVariableNames(names: seq<string>, count: nat): seq<string>
    requires count <= |names|
  {
    VariableNames(names[..count])
  }

  lemma FirstVariableNamesGrow(names: seq<string>, count: nat)
    requires count <= |names|
    ensures FirstVariableNames(names, 0) == [] && FirstVariableNames(names, |names|) == VariableNames(names)
    ensures count < |names| ==>
              FirstVariableNames(names, count + 1) == FirstVariableNames(names, count) + [VariableName(names[count])]
  {
    hide VariableName;
    assert names[..|names|] == names;
  }

  /** All scopes but the innermost one. */
  ghost function Outer(scopes: seq<Scope>): seq<Scope> {
    if scopes == [] then [] else scopes[..|scopes| - 1]
  }

  ghost predicate ScopesHoldNames(scopes: seq<Scope>) {
    scopes != [] && forall i, x | 0 <= i < |scopes| && x in scopes[i] :: scopes[i][x] == VariableName(x)
  }

  class Emitter {
    const logics: set<string>
    var scopes: seq<Scope>

    ghost predicate Valid()
      reads this
    {
      ScopesHoldNames(scopes)
    }

    ghost function Visible(): set<string>
      reads this
    {
      Names(scopes)
    }

    constructor (logics: set<string>)
      ensures Valid() && this.logics == logics && Visible() == {}
    {
      this.logics := logics;
      scopes := [map[]];
    }

    /** The innermost scope that has the name wins. */
    method LookupName(name: string) returns (found: Option<string>)
      requires Valid()
      ensures found == if name in Visible() then Some(VariableName(name)) else None
    {
      hide VariableName;
      var i := |scopes|;
      assert scopes[..i] == scopes;
      while i > 0
        invariant 0 <= i <= |scopes|
        invariant name in Visible() <==> name in Names(scopes[..i])
      {
        i := i - 1;
        assert scopes[..i + 1][..i] == scopes[..i];
        if name in scopes[i] {
          return Some(scopes[i][name]);
        }
      }
      return None;
    }

    method OpenScope()
      requires Valid()
      modifies this
      ensures Valid() && scopes == old(scopes) + [map[]] && Outer(scopes) == old(scopes)
      ensures Visible() == old(Visible())
    {
      ghost var outer := scopes;
      scopes := scopes + [map[]];
      assert scopes[..|outer|] == outer;
    }

    method DeclareName(source: string) returns (name: string)
      requires Valid()
      modifies this
      ensures Valid() && name == VariableName(source)
      ensures |scopes| == |old(scopes)| && Outer(scopes) == Outer(old(scopes))
      ensures Visible() == old(Visible()) + {source}
    {
      hide VariableName;
      name := VariableName(source);
      var last := |scopes| - 1;
      scopes := scopes[last := scopes[last][source := name]];
    }

    method Expression(e: Expr) returns (r: Result<CExpr>)
      requires Valid()
      ensures r == EmitExpr(logics, Visible(), e)
      decreases e, 1
    {
      hide VariableName;
      hide CalleeName;
      match e
      case LiteralExpr(literal) => r := EmitLiteral(literal);
      case VariableExpr(name) =>
        var found := LookupName(name);
        r := if found.Some? then Ok(CVariable(found.value)) else Err(UNSUPPORTED);
      case GroupExpr(inner) =>
        r := Expression(inner);
        if r.Ok? {
          r := Ok(CParenthesis(r.value));
        }
      case UnaryExpr(operator, operand) =>
        if operator !in {"!", "-", "+"} {
          return Err(UNSUPPORTED);
        }
        r := Expression(operand);
        if r.Ok? {
          r := Ok(CUnary(operator, r.value));
        }
      case BinaryExpr(left, operator, right) =>
        var l := Expression(left);
        var c := Expression(right);
        r := if l.Err? then l else if c.Err? then c else EmitOperator(l.value, operator, c.value);
      case CallExpr(callee, arguments, named) =>
        if named != [] || callee !in logics {
          return Err(UNSUPPORTED);
        }
        var cs := Expressions(arguments);
        r := if cs.Err? then Err(cs.code) else Ok(CCall(CalleeName(callee), cs.value));
      case _ => r := Err(UNSUPPORTED);
    }

    method Expressions(es: seq<Expr>) returns (r: Result<seq<CExpr>>)
      requires Valid()
      ensures r == EmitExprs(logics, Visible(), es)
      decreases es, 0
    {
      hide VariableName;
      if es == [] {
        return Ok([]);
      }
      var c := Expression(es[0]);
      var cs := Expressions(es[1..]);
      r := if c.Err? then Err(c.code) else if cs.Err? then cs else Ok([c.value] + cs.value);
    }

    /** Assigns a visible name, or declares a new one in the innermost scope. */
    method DefinitionOf(s: Stmt) returns (r: Result<CStmt>)
      requires Valid() && (s.Assignment? || s.ConstDeclaration? || s.TypedDeclaration?)
      modifies this
      ensures Emitted(old(scopes), scopes, old(Visible()), r, EmitAnyDefinition(logics, old(Visible()), s))
    {
      hide VariableName;
      var (name, e, constant) := Definition(s);
      var value := Expression(e);
      if value.Err? {
        return Err(value.code);
      }
      var existing := LookupName(name);
      if existing.None? {
        var declared := DeclareName(name);
        return Ok(CDeclare(constant, declared, value.value));
      }
      if constant {
        return Err(UNSUPPORTED);
      }
      r := Ok(CSet(existing.value, value.value));
    }

    method Statement(inMain: bool, s: Stmt) returns (r: Result<CStmt>)
      requires Valid()
      modifies this
      ensures Emitted(old(scopes), scopes, old(Visible()), r, EmitStmt(logics, inMain, old(Visible()), s))
      decreases s, 1
    {
      hide VariableName;
      hide EmitExpr;
      match s
      case Assignment(_, _) => r := DefinitionOf(s);
      case ConstDeclaration(_, _) => r := DefinitionOf(s);
      case TypedDeclaration(_, _, _, _) => r := DefinitionOf(s);
      case ExpressionStmt(e) =>
        var c := Expression(e);
        r := if c.Err? then Err(c.code) else Ok(CDo(c.value));
      case PrintStmt(e) =>
        var c := Expression(e);
        r := if c.Err? then Err(c.code) else Ok(CPrint(c.value));
      case PrintErrorStmt(e) =>
        var c := Expression(e);
        r := if c.Err? then Err(c.code) else Ok(CPrint(c.value));
      case ReturnStmt(result) =>
        if result.None? {
          return Ok(if inMain then CExit(None) else CReturn(None));
        }
        var c := Expression(result.value);
        r := if c.Err? then Err(c.code) else Ok(if inMain then CExit(Some(c.value)) else CReturn(Some(c.value)));
      case WhileStmt(_, condition, body) =>
        var c := Expression(condition);
        if c.Err? {
          return Err(c.code);
        }
        var b := Block(inMain, body);
        r := if b.Err? then Err(b.code) else Ok(CWhile(c.value, b.value));
      case IfStmt(_, branches, elseBody) =>
        var bs := Branches(inMain, branches);
        if bs.Err? {
          return Err(bs.code);
        }
        if elseBody.NoBody? {
          return Ok(CIf(bs.value, NoElse));
        }
        var b := Block(inMain, elseBody.statements);
        r := if b.Err? then Err(b.code) else Ok(CIf(bs.value, Else(b.value)));
      case ForStmt(_, _, _, _) => r := For(inMain, s);
      case _ => r := Err(UNSUPPORTED);
    }

    method Branches(inMain: bool, branches: seq<IfBranch>) returns (r: Result<seq<CBranch>>)
      requires Valid()
      modifies this
      ensures r == EmitBranches(logics, inMain, old(Visible()), branches)
      ensures r.Ok? ==> scopes == old(scopes)
      decreases branches, 0
    {
      hide VariableName;
      hide EmitExpr;
      if branches == [] {
        return Ok([]);
      }
      var c := Expression(branches[0].condition);
      if c.Err? {
        return Err(c.code);
      }
      var b := Block(inMain, branches[0].body);
      if b.Err? {
        return Err(b.code);
      }
      var rest := Branches(inMain, branches[1..]);
      r := if rest.Err? then rest else Ok([CBranch(c.value, b.value)] + rest.value);
    }

    /** A braced block has a scope of its own. */
    method Block(inMain: bool, body: seq<Stmt>) returns (r: Result<seq<CStmt>>)
      requires Valid()
      modifies this
      ensures var spec := EmitAll(logics, inMain, old(Visible()), body);
              if spec.Err? then r == Err(spec.code) else r == Ok(spec.value.0) && scopes == old(scopes)
      decreases body, 1
    {
      hide VariableName;
      hide EmitAll;
      ghost var outer := scopes;
      OpenScope();
      r := Statements(inMain, body);
      if r.Ok? {
        scopes := scopes[..|scopes| - 1];
      }
    }

    method Statements(inMain: bool, body: seq<Stmt>) returns (r: Result<seq<CStmt>>)
      requires Valid()
      modifies this
      ensures Emitted(old(scopes), scopes, old(Visible()), r, EmitAll(logics, inMain, old(Visible()), body))
      decreases body, 0
    {
      hide VariableName;
      if body == [] {
        return Ok([]);
      }
      var first := Statement(inMain, body[0]);
      if first.Err? {
        return Err(first.code);
      }
      var rest := Statements(inMain, body[1..]);
      r := if rest.Err? then rest else Ok([first.value] + rest.value);
    }

    /** The loop variable is declared before the bounds are emitted, and shares a scope with the body. */
    method For(inMain: bool, s: Stmt) returns (r: Result<CStmt>)
      requires Valid() && s.ForStmt?
      modifies this
      ensures Emitted(old(scopes), scopes, old(Visible()), r, EmitStmt(logics, inMain, old(Visible()), s))
      decreases s, 0
    {
      hide VariableName;
      hide EmitExpr;
      ghost var outer := scopes;
      OpenScope();
      var name := DeclareName(s.variable);
      var header := Header(name, s.variable, s.iterable);
      if header.Err? {
        return Err(header.code);
      }
      var b := Statements(inMain, s.body);
      if b.Err? {
        return Err(b.code);
      }
      scopes := scopes[..|scopes| - 1];
      r := Ok(WithBody(header.value, b.value));
    }

    method Header(name: string, ghost variable: string, iterable: Expr) returns (r: Result<CStmt>)
      requires Valid() && name == VariableName(variable)
      ensures r == EmitHeader(logics, Visible(), variable, iterable)
      decreases iterable, 2
    {
      hide VariableName;
      hide EmitExpr;
      if iterable.CallExpr? && iterable.callee == "number_range" {
        var args := iterable.arguments;
        if iterable.named != [] || !(1 <= |args| <= 3) {
          return Err(UNSUPPORTED);
        }
        var values := Expressions(args);
        if values.Err? {
          return Err(values.code);
        }
        if |args| == 1 {
          return Ok(CFor(name, CLiteral(IntV(0)), values.value[0], CLiteral(IntV(1)), []));
        }
        if |args| == 2 {
          return Ok(CFor(name, values.value[0], values.value[1], CLiteral(IntV(1)), []));
        }
        if !(args[2].LiteralExpr? && args[2].value.IntLit? && args[2].value.i != 0) {
          return Err(UNSUPPORTED);
        }
        return Ok(CFor(name, values.value[0], values.value[1], values.value[2], []));
      }
      if iterable.ListExpr? {
        var kind := ListKind(iterable.elements);
        if kind.Err? {
          return Err(kind.code);
        }
        var elements := Expressions(iterable.elements);
        return if elements.Err? then Err(elements.code) else Ok(CForEach(kind.value, name, elements.value, []));
      }
      r := Err(UNSUPPORTED);
    }

    /** Declares the parameters of a function in its own scope. */
    method DeclareAll(sources: seq<string>) returns (names: seq<string>)
      requires Valid() && Visible() == {}
      modifies this
      ensures Valid() && |scopes| == |old(scopes)| && Outer(scopes) == Outer(old(scopes))
      ensures Visible() == NamesBefore(sources, |sources|) && names == VariableNames(sources)
    {
      assert scopes != [];
      hide VariableName;
      hide FirstVariableNames;
      hide ScopesHoldNames;
      hide Names;
      hide NamesBefore;
      hide Outer;
      names := [];
      NamesBeforeGrows(sources, 0);
      FirstVariableNamesGrow(sources, 0);
      for i := 0 to |sources|
        invariant Valid() && |scopes| == |old(scopes)| && Outer(scopes) == Outer(old(scopes))
        invariant Visible() == NamesBefore(sources, i)
        invariant names == FirstVariableNames(sources, i)
      {
        var name := DeclareName(sources[i]);
        FirstVariableNamesGrow(sources, i);
        NamesBeforeGrows(sources, i + 1);
        names := names + [name];
      }
    }

    method LogicFunction(logic: Logic) returns (r: Result<CFunction>)
      requires Valid() && Visible() == {}
      modifies this
      ensures r == EmitLogic(logics, logic)
      ensures r.Ok? ==> scopes == old(scopes)
    {
      hide VariableName;
      hide FunctionName;
      hide EmitAll;
      ghost var outer := scopes;
      OpenScope();
      var names := DeclareAll(ParameterNames(logic));
      NamesBeforeGrows(ParameterNames(logic), 0);
      var inMain := logic.name == "main";
      var body := Statements(inMain, logic.body);
      if body.Err? {
        return Err(body.code);
      }
      scopes := scopes[..|scopes| - 1];
      var returnsAuto := HasReturn(logic.body, true) || HasReturn(logic.body, false);
      r := Ok(CFunction(FunctionName(logic.name), names, !inMain && returnsAuto,
                        body.value + if inMain then [CExit(None)] else []));
    }
  }

  /** What a method that may declare names in the innermost scope leaves behind. */
  ghost predicate Emitted<T(!new)>(before: seq<Scope>, after: seq<Scope>, visible: set<string>, r: Result<T>,
                                   spec: Result<(T, set<string>)>)
    requires before != []
  {
    if spec.Err? then r == Err(spec.code)
    else
      && r == Ok(spec.value.0)
      && ScopesHoldNames(after)
      && |after| == |before|
      && Outer(after) == Outer(before)
      && Names(after) == spec.value.1
  }

  /** Why firmware generation can be refused, as it can be told from the source. */
  ghost predicate CannotBeEmitted(logics: Logics) {
    || "main" !in logics
    || logics["main"].parameters != []
    || IsRecursive(logics)
    || exists name | name in logics :: !CanEmitLogic(logics.Keys, logics[name])
  }

  method EmitInOrder(logics: Logics, order: seq<string>) returns (r: Result<seq<CFunction>>)
    requires forall i | 0 <= i < |order| :: order[i] in logics
    ensures r.Err? ==> exists name | name in logics :: !CanEmitLogic(logics.Keys, logics[name])
    ensures r.Ok? ==>
              && |r.value| == |order|
              && forall j | 0 <= j < |order| :: EmitLogic(logics.Keys, logics[order[j]]) == Ok(r.value[j])
  {
    hide EmitLogic;
    var emitter := new Emitter(logics.Keys);
    var functions := [];
    for i := 0 to |order|
      invariant emitter.logics == logics.Keys && emitter.Valid() && emitter.Visible() == {}
      invariant |functions| == i
      invariant forall j | 0 <= j < i :: EmitLogic(logics.Keys, logics[order[j]]) == Ok(functions[j])
    {
      var emitted := emitter.LogicFunction(logics[order[i]]);
      if emitted.Err? {
        EmitLogicIff(logics.Keys, logics[order[i]]);
        return Err(UNSUPPORTED);
      }
      functions := functions + [emitted.value];
    }
    return Ok(functions);
  }

  /** Every run that ends without an error ends in the firmware with the same result and prints. */
  ghost predicate Reproduces(program: Program, functions: seq<CFunction>) {
    forall fuel: nat | RunLoaded(fuel, program, []).0.Value? ::
      CRunProgram(fuel, functions)
      == (Got(RunLoaded(fuel, program, []).0.value), Printout(RunLoaded(fuel, program, []).1.output))
  }

  /** Nothing stood in the way of this program, and its firmware reproduces every run. */
  lemma EmittedInOrder(program: Program, order: seq<string>, functions: seq<CFunction>)
    requires IsLoaded(program)
    requires CalleesFirst(program.logics, order) && program.logics.Keys == set n | n in order
    requires "main" in program.logics && program.logics["main"].parameters == [] && |functions| == |order|
    requires forall j | 0 <= j < |order| :: EmitLogic(program.logics.Keys, program.logics[order[j]]) == Ok(functions[j])
    ensures !CannotBeEmitted(program.logics)
    ensures IsPortable(program.logics) && Compiles(functions) ==> Reproduces(program, functions)
  {
    hide EmitLogic;
    hide RunLoaded;
    hide CRunProgram, Compiles;
    OrderedIsNotRecursive(program.logics, order);
    forall name | name in program.logics
      ensures CanEmitLogic(program.logics.Keys, program.logics[name])
    {
      assert name in order;
      var j :| 0 <= j < |order| && order[j] == name;
      EmitLogicIff(program.logics.Keys, program.logics[name]);
    }
    var build := Build(program, order, functions);
    assert IsBuild(build);
    if IsPortable(program.logics) && Compiles(functions) {
      forall fuel: nat | RunLoaded(fuel, program, []).0.Value?
        ensures CRunProgram(fuel, functions)
             == (Got(RunLoaded(fuel, program, []).0.value), Printout(RunLoaded(fuel, program, []).1.output))
      {
        FirmwarePrintsTheSame(build, fuel);
      }
    }
  }

  /** Generates the firmware of a program that consists of SEPs. It is refused exactly when the
      program cannot be emitted; and if the program is portable and C++ accepts the firmware, then every
      run of the interpreter that ends without an error is reproduced by it, print by print. */
  method Generate(program: Program, names: seq<string>) returns (r: Result<seq<CFunction>>)
    requires IsLoaded(program) && program.logics.Keys == set n | n in names
    ensures r.Err? <==> CannotBeEmitted(program.logics)
    ensures r.Ok? && IsPortable(program.logics) && Compiles(r.value) ==> Reproduces(program, r.value)
  {
    if "main" !in program.logics || program.logics["main"].parameters != [] {
      return Err(UNSUPPORTED);
    }
    var order := OrderedFunctions(program.logics, names);
    if order.None? {
      return Err(UNSUPPORTED);
    }
    var functions := EmitInOrder(program.logics, order.value);
    if functions.Err? {
      return Err(UNSUPPORTED);
    }
    hide *;
    EmittedInOrder(program, order.value, functions.value);
    return functions;
  }
}
