/** When a program means the same as a SEP and as C++: conditions on the source that
    can be checked before emitting, and what they say about a run. */
module Portability {
  import opened Ast
  import opened Trees
  import opened StoreSpec
  import opened Semantics
  import opened Firmware

  // ---- Reading and writing names ----

  function Reads(e: Expr): set<string>
    decreases e, 1
  {
    match e
    case VariableExpr(name) => {name}
    case BinaryExpr(left, _, right) => Reads(left) + Reads(right)
    case UnaryExpr(_, operand) => Reads(operand)
    case GroupExpr(inner) => Reads(inner)
    case CallExpr(_, arguments, _) => ReadsAll(arguments)
    case ListExpr(elements) => ReadsAll(elements)
    case EmptyTestExpr(operand, _) => Reads(operand)
    case EmptysTestExpr(operand, _) => Reads(operand)
    case IndexExpr(target, index) => Reads(target) + Reads(index)
    case _ => {}
  }

  function ReadsAll(es: seq<Expr>): set<string>
    decreases es, 0
  {
    if es == [] then {} else Reads(es[0]) + ReadsAll(es[1..])
  }

  /** Every name a statement may assign or define, in nested blocks too. */
  function Assigned(s: Stmt): set<string>
    decreases s, 1
  {
    match s
    case Assignment(name, _) => {name}
    case ConstDeclaration(name, _) => {name}
    case TypedDeclaration(name, _, _, _) => {name}
    case IndexAssignment(name, _, _) => {name}
    case ListBlock(name, _) => {name}
    case IfStmt(_, branches, elseBody) =>
      AssignedInBranches(branches) + if elseBody.Body? then AssignedInAll(elseBody.statements) else {}
    case WhileStmt(_, _, body) => AssignedInAll(body)
    case ForStmt(_, variable, _, body) => {variable} + AssignedInAll(body)
    case TryStmt(_, body, catches, finallyBody) =>
      AssignedInAll(body) + AssignedInCatches(catches)
      + if finallyBody.Body? then AssignedInAll(finallyBody.statements) else {}
    case _ => {}
  }

  function AssignedInCatches(catches: seq<CatchBranch>): set<string>
    decreases catches, 0
  {
    if catches == [] then {} else AssignedInAll(catches[0].body) + AssignedInCatches(catches[1..])
  }

  function AssignedInBranches(branches: seq<IfBranch>): set<string>
    decreases branches, 0
  {
    if branches == [] then {} else AssignedInAll(branches[0].body) + AssignedInBranches(branches[1..])
  }

  function AssignedInAll(ss: seq<Stmt>): set<string>
    decreases ss, 0
  {
    if ss == [] then {} else Assigned(ss[0]) + AssignedInAll(ss[1..])
  }

  // ---- The conditions ----

  /** Division, remainder and power have results of their own in C++. The parser never produces a
      unary plus, which C++ and the interpreter read differently. */
  predicate PortableExpr(e: Expr)
    decreases e, 1
  {
    match e
    case UnaryExpr(operator, operand) => operator != "+" && PortableExpr(operand)
    case BinaryExpr(left, operator, right) =>
      operator !in {"/", "//", "%", "**"} && PortableExpr(left) && PortableExpr(right)
    case GroupExpr(inner) => PortableExpr(inner)
    case CallExpr(_, arguments, _) => PortableExprs(arguments)
    case ListExpr(elements) => PortableExprs(elements)
    case _ => true
  }

  predicate PortableExprs(es: seq<Expr>)
    decreases es, 0
  {
    es == [] || (PortableExpr(es[0]) && PortableExprs(es[1..]))
  }

  /** A counting loop evaluates its bounds once in the interpreter and in every round in C++,
      where the loop variable is in scope already: so a bound calls nothing, and reads neither
      the loop variable nor anything that the body assigns. */
  predicate StableBound(e: Expr, changing: set<string>) {
    PortableExpr(e) && CallsIn(e) == {} && Reads(e) !! changing
  }

  predicate PortableIterable(iterable: Expr, changing: set<string>) {
    match iterable
    case CallExpr(_, arguments, _) => forall i | 0 <= i < |arguments| :: StableBound(arguments[i], changing)
    case ListExpr(elements) => forall i | 0 <= i < |elements|
        :: !(elements[i].LiteralExpr? && elements[i].value.IntLit?)
    case _ => true
  }

  function VisibleAfter(visible: set<string>, s: Stmt): set<string> {
    if s.Assignment? || s.ConstDeclaration? || s.TypedDeclaration? then visible + {Definition(s).0} else visible
  }

  /** The loop variable of a for must be new where the loop stands, and the body must not assign it. */
  predicate PortableStmt(visible: set<string>, s: Stmt)
    decreases s, 1
  {
    match s
    case Assignment(name, e) => IsIdentifier(name) && PortableExpr(e)
    case ConstDeclaration(name, e) => IsIdentifier(name) && PortableExpr(e)
    case TypedDeclaration(name, _, e, _) => IsIdentifier(name) && PortableExpr(e)
    case PrintStmt(e) => PortableExpr(e)
    case PrintErrorStmt(e) => PortableExpr(e)
    case ExpressionStmt(e) => PortableExpr(e)
    case ReturnStmt(result) => result.Some? ==> PortableExpr(result.value)
    case IfStmt(_, branches, elseBody) =>
      PortableBranches(visible, branches) && (elseBody.Body? ==> PortableAll(visible, elseBody.statements))
    case WhileStmt(_, condition, body) => PortableExpr(condition) && PortableAll(visible, body)
    case ForStmt(_, variable, iterable, body) =>
      && IsIdentifier(variable)
      && variable !in visible
      && variable !in AssignedInAll(body)
      && PortableIterable(iterable, AssignedInAll(body) + {variable})
      && PortableAll(visible + {variable}, body)
    case _ => true
  }

  predicate PortableBranches(visible: set<string>, branches: seq<IfBranch>)
    decreases branches, 0
  {
    branches != [] ==>
      && PortableExpr(branches[0].condition)
      && PortableAll(visible, branches[0].body)
      && PortableBranches(visible, branches[1..])
  }

  predicate PortableAll(visible: set<string>, ss: seq<Stmt>)
    decreases ss, 0
  {
    ss != [] ==> PortableStmt(visible, ss[0]) && PortableAll(VisibleAfter(visible, ss[0]), ss[1..])
  }

  predicate PortableLogic(logic: Logic) {
    var names := ParameterNames(logic);
    && IsIdentifier(logic.name)
    && (forall i | 0 <= i < |names| :: IsIdentifier(names[i]))
    && (forall i, j | 0 <= i < j < |names| :: names[i] != names[j])
    && PortableAll((set n | n in names), logic.body)
  }

  // ---- What the conditions mean for a run ----

  /** Two environments give a name the same meaning. */
  predicate SameBinding(env: Env, env': Env, name: string) {
    (name in env <==> name in env') && (name in env ==> env[name] == env'[name])
  }

  /** A block leaves every name alone that it does not assign. */
  lemma {:induction false} UnassignedIsKept(fuel: nat, program: Program, globals: Option<Env>, env: Env, world: World,
                                            ss: seq<Stmt>, name: string)
    requires name !in AssignedInAll(ss)
    ensures SameBinding(env, ExecAll(fuel, program, globals, env, world, ss).env, name)
    decreases fuel, ss, 0
  {
    if ss != [] {
      UnassignedByStatement(fuel, program, globals, env, world, ss[0], name);
      var r := Exec(fuel, program, globals, env, world, ss[0]);
      if r.completion.Normal? {
        UnassignedIsKept(fuel, program, globals, r.env, r.world, ss[1..], name);
      }
    }
  }

  lemma {:induction false} UnassignedByStatement(fuel: nat, program: Program, globals: Option<Env>, env: Env,
                                                 world: World, s: Stmt, name: string)
    requires name !in Assigned(s)
    ensures SameBinding(env, Exec(fuel, program, globals, env, world, s).env, name)
    decreases fuel, s, 1
  {
    hide Eval, EvalArgs, ExecAll, ExecIf, ExecFor, ExecCatches, ExecFinally, ListResult, AssignAtIn, AssignIn, DefineIn,
      DefineConst, Store, IndexesOf, SameBinding;
    SameAsItself(env, name);
    match s
    case Assignment(_, _) => UnassignedByDefinition(fuel, program, globals, env, world, s, name);
    case IndexAssignment(_, _, _) => UnassignedByDefinition(fuel, program, globals, env, world, s, name);
    case ConstDeclaration(_, _) => UnassignedByDefinition(fuel, program, globals, env, world, s, name);
    case TypedDeclaration(_, _, _, _) => UnassignedByDefinition(fuel, program, globals, env, world, s, name);
    case ListBlock(_, _) => UnassignedByDefinition(fuel, program, globals, env, world, s, name);
    case IfStmt(_, branches, _) =>
      assert branches[0..] == branches;
      UnassignedByBranches(fuel, program, globals, env, world, s, 0, name);
    case WhileStmt(_, condition, body) =>
      var (v, w) := Eval(fuel, program, globals, env, world, condition);
      if v.Value? && Condition(v.value) == Result.Ok(true) && fuel > 0 {
        UnassignedIsKept(fuel, program, globals, env, w, body, name);
        var r := ExecAll(fuel, program, globals, env, w, body);
        if r.completion.Normal? {
          UnassignedByStatement(fuel - 1, program, globals, r.env, r.world, s, name);
          SameAgain(env, r.env, Exec(fuel - 1, program, globals, r.env, r.world, s).env, name);
        }
      }
    case ForStmt(_, variable, iterable, body) =>
      var (list, w) := Eval(fuel, program, globals, env, world, iterable);
      if list.Value? && list.value.ListTree? {
        UnassignedByFor(fuel, program, globals, env, w, variable, list.value.items, body, name);
      }
    case TryStmt(_, _, _, _) => UnassignedByTry(fuel, program, globals, env, world, s, name);
    case _ =>
  }

  lemma SameAsItself(env: Env, name: string)
    ensures SameBinding(env, env, name)
  {
  }

  lemma SameAgain(a: Env, b: Env, c: Env, name: string)
    requires SameBinding(a, b, name) && SameBinding(b, c, name)
    ensures SameBinding(a, c, name)
  {
  }

  /** A definition changes the variable that it names only. */
  lemma {:induction false} UnassignedByDefinition(fuel: nat, program: Program, globals: Option<Env>, env: Env,
                                                  world: World, s: Stmt, name: string)
    requires s.Assignment? || s.IndexAssignment? || s.ConstDeclaration? || s.TypedDeclaration? || s.ListBlock?
    requires name !in Assigned(s)
    ensures SameBinding(env, Exec(fuel, program, globals, env, world, s).env, name)
  {
    hide Eval, EvalArgs, ListResult, AssignIndexes, IndexesOf, Reassign, Introduce, Define;
  }

  lemma {:induction false} UnassignedByTry(fuel: nat, program: Program, globals: Option<Env>, env: Env, world: World,
                                           s: Stmt, name: string)
    requires s.TryStmt? && name !in Assigned(s)
    ensures SameBinding(env, Exec(fuel, program, globals, env, world, s).env, name)
    decreases fuel, s, 0
  {
    hide Eval, ExecAll;
    UnassignedIsKept(fuel, program, globals, env, world, s.body, name);
    var r := ExecAll(fuel, program, globals, env, world, s.body);
    if CanBeCaught(r.completion) {
      var i := Catcher(program.host, s.catches, r.completion, 0);
      if i < |s.catches| {
        CaughtAssigns(s.catches, i);
        UnassignedIsKept(fuel, program, globals, r.env, r.world, s.catches[i].body, name);
      }
    }
    var caught := ExecCatches(fuel, program, globals, r, s);
    if s.finallyBody.Body? && !Ends(caught.completion) {
      UnassignedIsKept(fuel, program, globals, caught.env, caught.world, s.finallyBody.statements, name);
    }
  }

  lemma {:induction false} CaughtAssigns(catches: seq<CatchBranch>, i: nat)
    requires i < |catches|
    ensures AssignedInAll(catches[i].body) <= AssignedInCatches(catches)
    decreases catches
  {
    if i > 0 {
      CaughtAssigns(catches[1..], i - 1);
    }
  }

  lemma {:induction false} UnassignedByBranches(fuel: nat, program: Program, globals: Option<Env>, env: Env,
                                                world: World, s: Stmt, i: nat, name: string)
    requires s.IfStmt? && i <= |s.branches|
    requires name !in AssignedInBranches(s.branches[i..])
    requires s.elseBody.Body? ==> name !in AssignedInAll(s.elseBody.statements)
    ensures SameBinding(env, ExecIf(fuel, program, globals, env, world, s, i).env, name)
    decreases fuel, s, 0, |s.branches| - i
  {
    hide Eval, ExecAll;
    if i == |s.branches| {
      if s.elseBody.Body? {
        UnassignedIsKept(fuel, program, globals, env, world, s.elseBody.statements, name);
      }
    } else {
      var (v, w) := Eval(fuel, program, globals, env, world, s.branches[i].condition);
      assert s.branches[i..][0] == s.branches[i] && s.branches[i..][1..] == s.branches[i + 1..];
      UnassignedIsKept(fuel, program, globals, env, w, s.branches[i].body, name);
      UnassignedByBranches(fuel, program, globals, env, w, s, i + 1, name);
    }
  }

  lemma {:induction false} UnassignedByFor(fuel: nat, program: Program, globals: Option<Env>, env: Env, world: World,
                         variable: string, items: seq<Value>, body: seq<Stmt>, name: string)
    requires name !in AssignedInAll(body) && name != variable
    ensures SameBinding(env, ExecFor(fuel, program, globals, env, world, variable, items, body).env, name)
    decreases fuel, body, 1
  {
    if items != [] && fuel > 0 {
      var bound := AssignIn(env, variable, items[0]);
      if bound.Ok? {
        UnassignedIsKept(fuel, program, globals, bound.value, world, body, name);
        var r := ExecAll(fuel, program, globals, bound.value, world, body);
        if r.completion.Normal? {
          UnassignedByFor(fuel - 1, program, globals, r.env, r.world, variable, items[1..], body, name);
        }
      }
    }
  }

  /** An expression that calls nothing prints nothing, and its value depends only on the names it reads. */
  lemma {:induction false} CallFreeIsStable(e: Expr, fuel: nat, fuel': nat, program: Program, globals: Option<Env>,
                                            env: Env, env': Env, world: World, world': World)
    requires CallsIn(e) == {}
    requires forall n | n in Reads(e) :: SameBinding(env, env', n)
    ensures Eval(fuel, program, globals, env, world, e).1 == world
    ensures Eval(fuel', program, globals, env', world', e).1 == world'
    ensures Eval(fuel, program, globals, env, world, e).0 == Eval(fuel', program, globals, env', world', e).0
    decreases e, 1
  {
    hide EvalBinary, EvalArgs, Call, UnaryResult, IndexResult, ListResult, IsEmptys, NameResult, SameBinding,
      LiteralValue, ArgsFailure, ReadsAll, CallsInAll;
    match e
    case GroupExpr(inner) => CallFreeIsStable(inner, fuel, fuel', program, globals, env, env', world, world');
    case UnaryExpr(_, operand) => CallFreeIsStable(operand, fuel, fuel', program, globals, env, env', world, world');
    case EmptyTestExpr(operand, _) =>
      CallFreeIsStable(operand, fuel, fuel', program, globals, env, env', world, world');
    case EmptysTestExpr(operand, _) =>
      CallFreeIsStable(operand, fuel, fuel', program, globals, env, env', world, world');
    case BinaryExpr(_, _, _) => CallFreeOperatorIsStable(e, fuel, fuel', program, globals, env, env', world, world');
    case IndexExpr(_, _) => CallFreeIndexIsStable(e, fuel, fuel', program, globals, env, env', world, world');
    case ListExpr(elements) => CallFreeArgsAreStable(elements, fuel, fuel', program, globals, env, env', world, world');
    case VariableExpr(name) => SameName(name, program, globals, env, env');
    case _ =>
  }

  lemma {:induction false} CallFreeIndexIsStable(e: Expr, fuel: nat, fuel': nat, program: Program, globals: Option<Env>,
                                                 env: Env, env': Env, world: World, world': World)
    requires e.IndexExpr? && CallsIn(e) == {}
    requires forall n | n in Reads(e) :: SameBinding(env, env', n)
    ensures Eval(fuel, program, globals, env, world, e).1 == world
    ensures Eval(fuel', program, globals, env', world', e).1 == world'
    ensures Eval(fuel, program, globals, env, world, e).0 == Eval(fuel', program, globals, env', world', e).0
    decreases e, 0
  {
    hide EvalBinary, EvalArgs, UnaryResult, IndexResult, ListResult, IsEmptys, NameResult;
    CallFreeIsStable(e.target, fuel, fuel', program, globals, env, env', world, world');
    CallFreeIsStable(e.index, fuel, fuel', program, globals, env, env', world, world');
  }

  lemma SameName(name: string, program: Program, globals: Option<Env>, env: Env, env': Env)
    requires SameBinding(env, env', name)
    ensures NameResult(program, globals, env, name) == NameResult(program, globals, env', name)
  {
  }

  lemma {:induction false} CallFreeOperatorIsStable(e: Expr, fuel: nat, fuel': nat, program: Program,
                                                    globals: Option<Env>, env: Env, env': Env, world: World,
                                                    world': World)
    requires e.BinaryExpr? && CallsIn(e) == {}
    requires forall n | n in Reads(e) :: SameBinding(env, env', n)
    ensures EvalBinary(fuel, program, globals, env, world, e).1 == world
    ensures EvalBinary(fuel', program, globals, env', world', e).1 == world'
    ensures EvalBinary(fuel, program, globals, env, world, e).0
            == EvalBinary(fuel', program, globals, env', world', e).0
    decreases e, 0
  {
    hide Eval, BinaryResult, NotPresent, Condition;
    CallFreeIsStable(e.left, fuel, fuel', program, globals, env, env', world, world');
    CallFreeIsStable(e.right, fuel, fuel', program, globals, env, env', world, world');
  }

  lemma {:induction false} CallFreeArgsAreStable(es: seq<Expr>, fuel: nat, fuel': nat, program: Program,
                                                 globals: Option<Env>, env: Env, env': Env, world: World, world': World)
    requires CallsInAll(es) == {}
    requires forall n | n in ReadsAll(es) :: SameBinding(env, env', n)
    ensures EvalArgs(fuel, program, globals, env, world, es).1 == world
    ensures EvalArgs(fuel', program, globals, env', world', es).1 == world'
    ensures EvalArgs(fuel, program, globals, env, world, es).0 == EvalArgs(fuel', program, globals, env', world', es).0
    decreases es, 0
  {
    hide Eval;
    if es != [] {
      CallFreeIsStable(es[0], fuel, fuel', program, globals, env, env', world, world');
      CallFreeArgsAreStable(es[1..], fuel, fuel', program, globals, env, env', world, world');
    }
  }

  /** Emission looks only at the names an expression reads. */
  lemma {:induction false} EmissionDependsOnReads(logics: set<string>, visible: set<string>, variable: string, e: Expr)
    requires variable !in Reads(e) && CallsIn(e) == {}
    ensures EmitExpr(logics, visible + {variable}, e) == EmitExpr(logics, visible, e)
    decreases e
  {
    match e
    case GroupExpr(inner) => EmissionDependsOnReads(logics, visible, variable, inner);
    case UnaryExpr(_, operand) => EmissionDependsOnReads(logics, visible, variable, operand);
    case BinaryExpr(left, _, right) =>
      EmissionDependsOnReads(logics, visible, variable, left);
      EmissionDependsOnReads(logics, visible, variable, right);
    case _ =>
  }

  /** What can be emitted reads only visible names. */
  lemma {:induction false} EmittedReadsAreVisible(logics: set<string>, visible: set<string>, e: Expr)
    requires EmitExpr(logics, visible, e).Ok? && CallsIn(e) == {}
    ensures Reads(e) <= visible
    decreases e
  {
    match e
    case GroupExpr(inner) => EmittedReadsAreVisible(logics, visible, inner);
    case UnaryExpr(_, operand) => EmittedReadsAreVisible(logics, visible, operand);
    case BinaryExpr(left, _, right) =>
      EmittedReadsAreVisible(logics, visible, left);
      EmittedReadsAreVisible(logics, visible, right);
    case _ =>
  }

  // ---- The bounds of a counting loop ----

  /** Bounds that call nothing are evaluated one by one, in the state the loop starts from. */
  lemma {:induction false} StableArguments(fuel: nat, program: Program, globals: Option<Env>, env: Env, world: World,
                                           es: seq<Expr>, changing: set<string>)
    requires forall i | 0 <= i < |es| :: StableBound(es[i], changing)
    requires EvalArgs(fuel, program, globals, env, world, es).0.Values?
    ensures var (vs, w) := EvalArgs(fuel, program, globals, env, world, es);
            && w == world && |vs.values| == |es|
            && forall i | 0 <= i < |es| ::
                 Eval(fuel, program, globals, env, world, es[i]).0 == EvalResult.Value(vs.values[i])
    decreases es, 0
  {
    hide Eval;
    if es != [] {
      CallFreeIsStable(es[0], fuel, fuel, program, globals, env, env, world, world);
      StableArguments(fuel, program, globals, env, world, es[1..], changing);
      var (vs, _) := EvalArgs(fuel, program, globals, env, world, es);
      forall i | 0 < i < |es|
        ensures Eval(fuel, program, globals, env, world, es[i]).0 == EvalResult.Value(vs.values[i])
      {
        assert es[1..][i - 1] == es[i] && vs.values[1..][i - 1] == vs.values[i];
      }
    }
  }

  lemma {:induction false} EmittedArguments(logics: set<string>, visible: set<string>, es: seq<Expr>, i: nat)
    requires EmitExprs(logics, visible, es).Ok? && i < |es|
    ensures EmitExpr(logics, visible, es[i]) == Ok(EmitExprs(logics, visible, es).value[i])
    decreases es
  {
    if i > 0 {
      EmittedArguments(logics, visible, es[1..], i - 1);
    }
  }

  /** The three bounds of number_range(), with the ones left out filled in. */
  function Bounds(arguments: seq<Expr>): (bounds: seq<Expr>)
    requires 1 <= |arguments| <= 3
    ensures |bounds| == 3
  {
    if |arguments| == 1 then [LiteralExpr(IntLit(0)), arguments[0], LiteralExpr(IntLit(1))]
    else if |arguments| == 2 then arguments + [LiteralExpr(IntLit(1))]
    else arguments
  }

  predicate HasIntValue(fuel: nat, program: Program, globals: Option<Env>, env: Env, world: World, e: Expr, i: int) {
    Eval(fuel, program, globals, env, world, e).0 == EvalResult.Value(IntV(i))
  }

  lemma CountingBounds(fuel: nat, program: Program, globals: Option<Env>, env: Env, world: World, iterable: Expr,
                       changing: set<string>) returns (start: int, stop: int, step: int)
    requires iterable.CallExpr? && iterable.callee == "number_range" && PortableIterable(iterable, changing)
    requires "number_range" !in program.categories
    requires Eval(fuel, program, globals, env, world, iterable).0.Value?
    ensures 1 <= |iterable.arguments| <= 3 && step != 0
    ensures var bounds := Bounds(iterable.arguments);
            && (forall k | 0 <= k < 3 :: StableBound(bounds[k], changing))
            && HasIntValue(fuel, program, globals, env, world, bounds[0], start)
            && HasIntValue(fuel, program, globals, env, world, bounds[1], stop)
            && HasIntValue(fuel, program, globals, env, world, bounds[2], step)
    ensures Eval(fuel, program, globals, env, world, iterable)
         == (EvalResult.Value(ListTree(Range(start, stop, step))), world)
  {
    hide Range;
    StableArguments(fuel, program, globals, env, world, iterable.arguments, changing);
    var vs := EvalArgs(fuel, program, globals, env, world, iterable.arguments).0.values;
    assert RangeResult(vs).Value?;
    start := if |vs| == 1 then 0 else vs[0].value.i;
    stop := if |vs| == 1 then vs[0].value.i else vs[1].value.i;
    step := if |vs| == 3 then vs[2].value.i else 1;
    assert forall i | 0 <= i < |vs| :: vs[i] == IntV(vs[i].value.i);
  }

  lemma {:induction false} LiteralsAreAlike(logics: set<string>, visible: set<string>, visible': set<string>,
                                            es: seq<Expr>)
    requires forall i | 0 <= i < |es| :: es[i].LiteralExpr?
    ensures EmitExprs(logics, visible, es) == EmitExprs(logics, visible', es)
    ensures PortableExprs(es) && CallsInAll(es) == {}
    decreases es
  {
    if es != [] {
      LiteralsAreAlike(logics, visible, visible', es[1..]);
    }
  }
}
