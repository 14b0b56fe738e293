/** How a program runs: more fuel never changes a run that has ended, and the statements that branch,
    repeat and handle errors mean what simpler statements mean. */
module ControlLaws {
  import opened Ast
  import opened TypeSpecs
  import opened Trees
  import opened StoreSpec
  import opened Semantics

  // ---- Runs that end do not depend on the fuel ----

  lemma {:induction false} MoreFuelForExpr(fuel: nat, more: nat, program: Program, globals: Option<Env>, env: Env,
                                           world: World, e: Expr)
    requires fuel <= more && !Eval(fuel, program, globals, env, world, e).0.Exhausted?
    ensures Eval(more, program, globals, env, world, e) == Eval(fuel, program, globals, env, world, e)
    decreases fuel, 1, e, 1
  {
    hide UnaryResult, IndexResult, ListResult, IsEmptys, NameResult, LiteralValue, Call, BinaryResult, EvalBinary;
    match e
    case GroupExpr(inner) => MoreFuelForExpr(fuel, more, program, globals, env, world, inner);
    case EmptyTestExpr(operand, _) => MoreFuelForExpr(fuel, more, program, globals, env, world, operand);
    case EmptysTestExpr(operand, _) => MoreFuelForExpr(fuel, more, program, globals, env, world, operand);
    case UnaryExpr(_, operand) => MoreFuelForExpr(fuel, more, program, globals, env, world, operand);
    case BinaryExpr(_, _, _) => MoreFuelForBinary(fuel, more, program, globals, env, world, e);
    case IndexExpr(target, index) =>
      MoreFuelForExpr(fuel, more, program, globals, env, world, target);
      var (t, w) := Eval(fuel, program, globals, env, world, target);
      if t.Value? { MoreFuelForExpr(fuel, more, program, globals, env, w, index); }
    case ListExpr(elements) => MoreFuelForArgs(fuel, more, program, globals, env, world, elements);
    case CallExpr(callee, arguments, named) =>
      if named == [] && callee !in SHAPE_OPERATIONS {
        MoreFuelForArgs(fuel, more, program, globals, env, world, arguments);
        var (vs, w) := EvalArgs(fuel, program, globals, env, world, arguments);
        if vs.Values? { MoreFuelForCall(fuel, more, program, GlobalsOf(globals, env), w, callee, vs.values); }
      }
    case _ =>
  }

  lemma {:induction false} MoreFuelForBinary(fuel: nat, more: nat, program: Program, globals: Option<Env>, env: Env,
                                             world: World, e: Expr)
    requires fuel <= more && e.BinaryExpr? && !EvalBinary(fuel, program, globals, env, world, e).0.Exhausted?
    ensures EvalBinary(more, program, globals, env, world, e) == EvalBinary(fuel, program, globals, env, world, e)
    decreases fuel, 1, e, 0
  {
    hide BinaryResult, Eval, NotPresent, Condition;
    MoreFuelForExpr(fuel, more, program, globals, env, world, e.left);
    var (l, w) := Eval(fuel, program, globals, env, world, e.left);
    if l.Value? && !Eval(fuel, program, globals, env, w, e.right).0.Exhausted? {
      MoreFuelForExpr(fuel, more, program, globals, env, w, e.right);
    }
  }

  lemma {:induction false} MoreFuelForArgs(fuel: nat, more: nat, program: Program, globals: Option<Env>, env: Env,
                                           world: World, es: seq<Expr>)
    requires fuel <= more && !EvalArgs(fuel, program, globals, env, world, es).0.ArgsExhausted?
    ensures EvalArgs(more, program, globals, env, world, es) == EvalArgs(fuel, program, globals, env, world, es)
    decreases fuel, 1, es, 0
  {
    hide Eval;
    if es != [] {
      MoreFuelForExpr(fuel, more, program, globals, env, world, es[0]);
      var (v, w) := Eval(fuel, program, globals, env, world, es[0]);
      if v.Value? { MoreFuelForArgs(fuel, more, program, globals, env, w, es[1..]); }
    }
  }

  lemma {:induction false} MoreFuelForCall(fuel: nat, more: nat, program: Program, globals: Env, world: World,
                                           callee: string, arguments: seq<Value>)
    requires fuel <= more && !Call(fuel, program, globals, world, callee, arguments).0.Exhausted?
    ensures Call(more, program, globals, world, callee, arguments)
         == Call(fuel, program, globals, world, callee, arguments)
    decreases fuel, 0, 0, 0
  {
    hide BuiltinResult, EnterCall, BindParameters, ExecAll;
    var entered := EnterCall(program.logics, world, callee, arguments);
    if BuiltinResult(program, callee, arguments).None? && entered.Ok? {
      var bound := BindParameters(map[], program.logics[callee].parameters, entered.value.1);
      if bound.Ok? && fuel > 0 {
        MoreFuelForAll(fuel - 1, more - 1, program, Some(globals), bound.value, entered.value.0,
                       program.logics[callee].body);
      }
    }
  }

  lemma {:induction false} MoreFuelForAll(fuel: nat, more: nat, program: Program, globals: Option<Env>, env: Env,
                                          world: World, ss: seq<Stmt>)
    requires fuel <= more && !ExecAll(fuel, program, globals, env, world, ss).completion.OutOfFuel?
    ensures ExecAll(more, program, globals, env, world, ss) == ExecAll(fuel, program, globals, env, world, ss)
    decreases fuel, 1, ss, 0
  {
    hide Exec;
    if ss != [] {
      MoreFuel(fuel, more, program, globals, env, world, ss[0]);
      var r := Exec(fuel, program, globals, env, world, ss[0]);
      if r.completion.Normal? { MoreFuelForAll(fuel, more, program, globals, r.env, r.world, ss[1..]); }
    }
  }

  /** A statement that has ended ends in the same way with more fuel. */
  lemma {:induction false} MoreFuel(fuel: nat, more: nat, program: Program, globals: Option<Env>, env: Env,
                                    world: World, s: Stmt)
    requires fuel <= more && !Exec(fuel, program, globals, env, world, s).completion.OutOfFuel?
    ensures Exec(more, program, globals, env, world, s) == Exec(fuel, program, globals, env, world, s)
    decreases fuel, 1, s, 2
  {
    hide Eval, EvalArgs, AssignIn, DefineIn, DefineConst, AssignAtIn, ListResult, ExecIf, ExecFor, ExecAll, ExecPrint;
    hide ExecCatches, ExecFinally, Condition;
    match s
    case PrintStmt(e) => MoreFuelForPrint(fuel, more, program, globals, env, world, e, false);
    case PrintErrorStmt(e) => MoreFuelForPrint(fuel, more, program, globals, env, world, e, true);
    case IfStmt(_, _, _) => MoreFuelForIf(fuel, more, program, globals, env, world, s, 0);
    case WhileStmt(_, _, _) => MoreFuelForWhile(fuel, more, program, globals, env, world, s);
    case ForStmt(_, variable, iterable, body) =>
      MoreFuelForExpr(fuel, more, program, globals, env, world, iterable);
      var (list, w) := Eval(fuel, program, globals, env, world, iterable);
      if list.Value? && list.value.ListTree? {
        MoreFuelForItems(fuel, more, program, globals, env, w, variable, list.value.items, body);
      }
    case TryStmt(_, body, _, _) => MoreFuelForTry(fuel, more, program, globals, env, world, s);
    case _ => MoreFuelForPlain(fuel, more, program, globals, env, world, s);
  }

  predicate IsPlain(s: Stmt) {
    !s.PrintStmt? && !s.PrintErrorStmt? && !s.IfStmt? && !s.WhileStmt? && !s.ForStmt? && !s.TryStmt?
  }

  lemma {:induction false} MoreFuelForPlain(fuel: nat, more: nat, program: Program, globals: Option<Env>, env: Env,
                                            world: World, s: Stmt)
    requires fuel <= more && IsPlain(s) && !Exec(fuel, program, globals, env, world, s).completion.OutOfFuel?
    ensures Exec(more, program, globals, env, world, s) == Exec(fuel, program, globals, env, world, s)
    decreases fuel, 1, s, 1
  {
    hide Eval, EvalArgs, AssignIn, DefineIn, DefineConst, AssignAtIn, ListResult;
    match s
    case Assignment(_, e) => MoreFuelForExpr(fuel, more, program, globals, env, world, e);
    case IndexAssignment(_, indexes, e) =>
      MoreFuelForArgs(fuel, more, program, globals, env, world, indexes);
      var (vs, w) := EvalArgs(fuel, program, globals, env, world, indexes);
      if vs.Values? { MoreFuelForExpr(fuel, more, program, globals, env, w, e); }
    case ConstDeclaration(_, e) => MoreFuelForExpr(fuel, more, program, globals, env, world, e);
    case TypedDeclaration(_, _, e, _) => MoreFuelForExpr(fuel, more, program, globals, env, world, e);
    case ListBlock(_, elements) => MoreFuelForArgs(fuel, more, program, globals, env, world, elements);
    case ExpressionStmt(e) => MoreFuelForExpr(fuel, more, program, globals, env, world, e);
    case ReturnStmt(result) =>
      if result.Some? { MoreFuelForExpr(fuel, more, program, globals, env, world, result.value); }
    case ThrowStmt(e) => MoreFuelForExpr(fuel, more, program, globals, env, world, e);
    case _ =>
  }

  lemma {:induction false} MoreFuelForPrint(fuel: nat, more: nat, program: Program, globals: Option<Env>, env: Env,
                                            world: World, e: Expr, error: bool)
    requires fuel <= more && !ExecPrint(fuel, program, globals, env, world, e, error).completion.OutOfFuel?
    ensures ExecPrint(more, program, globals, env, world, e, error)
         == ExecPrint(fuel, program, globals, env, world, e, error)
    decreases fuel, 1, e, 2
  {
    hide Eval;
    MoreFuelForExpr(fuel, more, program, globals, env, world, e);
  }

  lemma {:induction false} MoreFuelForIf(fuel: nat, more: nat, program: Program, globals: Option<Env>, env: Env,
                                         world: World, s: Stmt, i: nat)
    requires fuel <= more && s.IfStmt? && i <= |s.branches|
    requires !ExecIf(fuel, program, globals, env, world, s, i).completion.OutOfFuel?
    ensures ExecIf(more, program, globals, env, world, s, i) == ExecIf(fuel, program, globals, env, world, s, i)
    decreases fuel, 1, s, 1, |s.branches| - i
  {
    hide Eval, ExecAll, Condition;
    if i == |s.branches| {
      if s.elseBody.Body? { MoreFuelForAll(fuel, more, program, globals, env, world, s.elseBody.statements); }
    } else {
      MoreFuelForExpr(fuel, more, program, globals, env, world, s.branches[i].condition);
      var (v, w) := Eval(fuel, program, globals, env, world, s.branches[i].condition);
      if v.Value? && Condition(v.value).Ok? {
        if Condition(v.value).value {
          MoreFuelForAll(fuel, more, program, globals, env, w, s.branches[i].body);
        } else {
          MoreFuelForIf(fuel, more, program, globals, env, w, s, i + 1);
        }
      }
    }
  }

  lemma {:induction false} MoreFuelForWhile(fuel: nat, more: nat, program: Program, globals: Option<Env>, env: Env,
                                            world: World, s: Stmt)
    requires fuel <= more && s.WhileStmt?
    requires !Exec(fuel, program, globals, env, world, s).completion.OutOfFuel?
    ensures Exec(more, program, globals, env, world, s) == Exec(fuel, program, globals, env, world, s)
    decreases fuel, 1, s, 1
  {
    hide Eval, ExecAll, Condition;
    MoreFuelForExpr(fuel, more, program, globals, env, world, s.condition);
    var (v, w) := Eval(fuel, program, globals, env, world, s.condition);
    if v.Value? && Condition(v.value) == Ok(true) && fuel > 0 {
      MoreFuelForAll(fuel, more, program, globals, env, w, s.body);
      var r := ExecAll(fuel, program, globals, env, w, s.body);
      if r.completion.Normal? { MoreFuel(fuel - 1, more - 1, program, globals, r.env, r.world, s); }
    }
  }

  lemma {:induction false} MoreFuelForItems(fuel: nat, more: nat, program: Program, globals: Option<Env>, env: Env,
                                            world: World, variable: string, items: seq<Value>, body: seq<Stmt>)
    requires fuel <= more
    requires !ExecFor(fuel, program, globals, env, world, variable, items, body).completion.OutOfFuel?
    ensures ExecFor(more, program, globals, env, world, variable, items, body)
         == ExecFor(fuel, program, globals, env, world, variable, items, body)
    decreases fuel, 1, body, 1
  {
    hide AssignIn, ExecAll;
    if items != [] && AssignIn(env, variable, items[0]).Ok? && fuel > 0 {
      var bound := AssignIn(env, variable, items[0]).value;
      MoreFuelForAll(fuel, more, program, globals, bound, world, body);
      var r := ExecAll(fuel, program, globals, bound, world, body);
      if r.completion.Normal? {
        MoreFuelForItems(fuel - 1, more - 1, program, globals, r.env, r.world, variable, items[1..], body);
      }
    }
  }

  lemma {:induction false} MoreFuelForTry(fuel: nat, more: nat, program: Program, globals: Option<Env>, env: Env,
                                          world: World, s: Stmt)
    requires fuel <= more && s.TryStmt?
    requires !Exec(fuel, program, globals, env, world, s).completion.OutOfFuel?
    ensures Exec(more, program, globals, env, world, s) == Exec(fuel, program, globals, env, world, s)
    decreases fuel, 1, s, 1
  {
    hide ExecAll;
    MoreFuelForAll(fuel, more, program, globals, env, world, s.body);
    var r := ExecAll(fuel, program, globals, env, world, s.body);
    if CanBeCaught(r.completion) {
      var i := Catcher(program.host, s.catches, r.completion, 0);
      if i < |s.catches| {
        MoreFuelForAll(fuel, more, program, globals, r.env, r.world, s.catches[i].body);
      }
    }
    var caught := ExecCatches(fuel, program, globals, r, s);
    if s.finallyBody.Body? && !Ends(caught.completion) {
      MoreFuelForAll(fuel, more, program, globals, caught.env, caught.world, s.finallyBody.statements);
    }
  }

  /** Two runs of a program that both end, end alike. */
  lemma RunsAreDetermined(fuel: nat, more: nat, program: Program, topLevel: seq<Stmt>)
    requires !RunLoaded(fuel, program, topLevel).0.Exhausted? && !RunLoaded(more, program, topLevel).0.Exhausted?
    ensures RunLoaded(fuel, program, topLevel) == RunLoaded(more, program, topLevel)
  {
    if fuel <= more {
      MoreFuelForRun(fuel, more, program, topLevel);
    } else {
      MoreFuelForRun(more, fuel, program, topLevel);
    }
  }

  lemma MoreFuelForRun(fuel: nat, more: nat, program: Program, topLevel: seq<Stmt>)
    requires fuel <= more && !RunLoaded(fuel, program, topLevel).0.Exhausted?
    ensures RunLoaded(more, program, topLevel) == RunLoaded(fuel, program, topLevel)
  {
    hide ExecAll, Call;
    if !("main" in program.logics && program.logics["main"].parameters != []) {
      MoreFuelForAll(fuel, more, program, None, map[], EMPTY_WORLD, topLevel);
      var r := ExecAll(fuel, program, None, map[], EMPTY_WORLD, topLevel);
      if r.completion.Normal? && "main" in program.logics {
        MoreFuelForCall(fuel, more, program, r.env, r.world, "main", []);
      }
    }
  }

  // ---- One statement after the other ----

  lemma {:induction false} SequencesCompose(fuel: nat, program: Program, globals: Option<Env>, env: Env, world: World,
                                            first: seq<Stmt>, then_: seq<Stmt>)
    ensures ExecAll(fuel, program, globals, env, world, first + then_)
         == var r := ExecAll(fuel, program, globals, env, world, first);
            if r.completion.Normal? then ExecAll(fuel, program, globals, r.env, r.world, then_) else r
    decreases first
  {
    hide Exec;
    if first == [] {
      assert first + then_ == then_;
    } else {
      assert (first + then_)[1..] == first[1..] + then_;
      var r := Exec(fuel, program, globals, env, world, first[0]);
      if r.completion.Normal? {
        SequencesCompose(fuel, program, globals, r.env, r.world, first[1..], then_);
      }
    }
  }

  lemma OneStatement(fuel: nat, program: Program, globals: Option<Env>, env: Env, world: World, s: Stmt)
    ensures ExecAll(fuel, program, globals, env, world, [s]) == Exec(fuel, program, globals, env, world, s)
  {
    hide Exec;
    assert [s][1..] == [];
  }

  // ---- Branches and loops ----

  /** A chain of branches is a branch with the rest of the chain in its else. */
  lemma BranchesNest(fuel: nat, program: Program, globals: Option<Env>, env: Env, world: World, name: string,
                     branches: seq<IfBranch>, elseBody: OptionalBody)
    requires branches != []
    ensures Exec(fuel, program, globals, env, world, IfStmt(name, branches, elseBody))
         == Exec(fuel, program, globals, env, world,
                 IfStmt(name, [branches[0]], Body([IfStmt(name, branches[1..], elseBody)])))
  {
    var whole, rest := IfStmt(name, branches, elseBody), IfStmt(name, branches[1..], elseBody);
    var nested := IfStmt(name, [branches[0]], Body([rest]));
    var w := Eval(fuel, program, globals, env, world, branches[0].condition).1;
    FirstBranch(fuel, program, globals, env, world, whole);
    FirstBranch(fuel, program, globals, env, world, nested);
    BranchesShift(fuel, program, globals, env, w, whole, rest, 1);
    LastBranch(fuel, program, globals, env, w, nested);
    OneStatement(fuel, program, globals, env, w, rest);
    IfIsExecuted(fuel, program, globals, env, w, rest);
    hide Exec, ExecIf, ExecAll, Eval;
  }

  lemma IfIsExecuted(fuel: nat, program: Program, globals: Option<Env>, env: Env, world: World, s: Stmt)
    requires s.IfStmt?
    ensures Exec(fuel, program, globals, env, world, s) == ExecIf(fuel, program, globals, env, world, s, 0)
  {
    hide ExecIf;
  }

  lemma FirstBranch(fuel: nat, program: Program, globals: Option<Env>, env: Env, world: World, s: Stmt)
    requires s.IfStmt? && s.branches != []
    ensures var (v, w) := Eval(fuel, program, globals, env, world, s.branches[0].condition);
            Exec(fuel, program, globals, env, world, s)
            == if !v.Value? then Abrupt(v, env, w)
               else if Condition(v.value).Err? then ExecResult(Failed(Condition(v.value).code), env, w)
               else if Condition(v.value).value then ExecAll(fuel, program, globals, env, w, s.branches[0].body)
               else ExecIf(fuel, program, globals, env, w, s, 1)
  {
    IfIsExecuted(fuel, program, globals, env, world, s);
    hide Exec, ExecAll, Eval, Condition;
  }

  /** Behind the last condition. */
  lemma LastBranch(fuel: nat, program: Program, globals: Option<Env>, env: Env, world: World, s: Stmt)
    requires s.IfStmt?
    ensures ExecIf(fuel, program, globals, env, world, s, |s.branches|)
         == if s.elseBody.NoBody? then ExecResult(Normal, env, world)
            else ExecAll(fuel, program, globals, env, world, s.elseBody.statements)
  {
    hide ExecAll;
  }

  lemma {:induction false} BranchesShift(fuel: nat, program: Program, globals: Option<Env>, env: Env, world: World,
                                         whole: Stmt, rest: Stmt, i: nat)
    requires whole.IfStmt? && rest.IfStmt? && whole.branches != [] && rest.branches == whole.branches[1..]
    requires rest.elseBody == whole.elseBody && 1 <= i <= |whole.branches|
    ensures ExecIf(fuel, program, globals, env, world, whole, i)
         == ExecIf(fuel, program, globals, env, world, rest, i - 1)
    decreases |whole.branches| - i
  {
    hide Eval, ExecAll, Condition;
    if i < |whole.branches| {
      assert whole.branches[i] == rest.branches[i - 1];
      var (v, w) := Eval(fuel, program, globals, env, world, whole.branches[i].condition);
      BranchesShift(fuel, program, globals, env, w, whole, rest, i + 1);
    }
  }

  /** A loop that ends is its body under its condition, with the loop behind it. */
  lemma LoopsUnroll(fuel: nat, program: Program, globals: Option<Env>, env: Env, world: World, name: string,
                    condition: Expr, body: seq<Stmt>)
    requires var loop := WhileStmt(name, condition, body);
             !Exec(fuel, program, globals, env, world, loop).completion.OutOfFuel?
    ensures var loop := WhileStmt(name, condition, body);
            Exec(fuel, program, globals, env, world, loop)
            == Exec(fuel, program, globals, env, world, IfStmt(name, [IfBranch(condition, body + [loop])], NoBody))
  {
    hide Eval, ExecAll, Condition, ExecIf;
    var loop := WhileStmt(name, condition, body);
    var once := IfStmt(name, [IfBranch(condition, body + [loop])], NoBody);
    FirstBranch(fuel, program, globals, env, world, once);
    LastBranch(fuel, program, globals, env, Eval(fuel, program, globals, env, world, condition).1, once);
    var (v, w) := Eval(fuel, program, globals, env, world, condition);
    if v.Value? && Condition(v.value) == Ok(true) {
      SequencesCompose(fuel, program, globals, env, w, body, [loop]);
      var r := ExecAll(fuel, program, globals, env, w, body);
      if r.completion.Normal? {
        OneStatement(fuel, program, globals, r.env, r.world, loop);
        MoreFuel(fuel - 1, fuel, program, globals, r.env, r.world, loop);
      }
    }
  }

  /** Literals that stand for values of their own. */
  predicate AreLiterals(es: seq<Expr>) {
    forall i | 0 <= i < |es| :: es[i].LiteralExpr? && LiteralValue(es[i].value).Value?
  }

  function ValuesOf(es: seq<Expr>): (r: seq<Value>)
    requires AreLiterals(es)
    ensures |r| == |es|
  {
    seq(|es|, i requires 0 <= i < |es| => LiteralValue(es[i].value).value)
  }

  /** x = a; body; x = b; body; ... */
  function Unrolled(variable: string, es: seq<Expr>, body: seq<Stmt>): seq<Stmt> {
    if es == [] then [] else [Assignment(variable, es[0])] + (body + Unrolled(variable, es[1..], body))
  }

  lemma {:induction false} LiteralsAreEvaluated(fuel: nat, program: Program, globals: Option<Env>, env: Env,
                                                world: World, es: seq<Expr>)
    requires AreLiterals(es)
    ensures EvalArgs(fuel, program, globals, env, world, es) == (Values(ValuesOf(es)), world)
    decreases es
  {
    if es != [] {
      LiteralsAreEvaluated(fuel, program, globals, env, world, es[1..]);
      assert ValuesOf(es) == [LiteralValue(es[0].value).value] + ValuesOf(es[1..]);
    }
  }

  lemma {:induction false} ItemsUnroll(fuel: nat, program: Program, globals: Option<Env>, env: Env, world: World,
                                       variable: string, es: seq<Expr>, body: seq<Stmt>)
    requires AreLiterals(es)
    requires !ExecFor(fuel, program, globals, env, world, variable, ValuesOf(es), body).completion.OutOfFuel?
    ensures ExecFor(fuel, program, globals, env, world, variable, ValuesOf(es), body)
         == ExecAll(fuel, program, globals, env, world, Unrolled(variable, es, body))
    decreases es
  {
    hide AssignIn, LiteralValue, Exec;
    if es != [] {
      var items, first, rest := ValuesOf(es), Assignment(variable, es[0]), Unrolled(variable, es[1..], body);
      assert items[1..] == ValuesOf(es[1..]);
      assert Unrolled(variable, es, body)[1..] == body + rest;
      LiteralIsAssigned(fuel, program, globals, env, world, variable, es[0].value);
      var bound := AssignIn(env, variable, items[0]);
      if bound.Ok? {
        SequencesCompose(fuel, program, globals, bound.value, world, body, rest);
        var r := ExecAll(fuel, program, globals, bound.value, world, body);
        if r.completion.Normal? {
          ItemsUnroll(fuel - 1, program, globals, r.env, r.world, variable, es[1..], body);
          MoreFuelForAll(fuel - 1, fuel, program, globals, r.env, r.world, rest);
        }
      }
    }
  }

  lemma LiteralIsAssigned(fuel: nat, program: Program, globals: Option<Env>, env: Env, world: World, name: string,
                          literal: Literal)
    requires LiteralValue(literal).Value?
    ensures Exec(fuel, program, globals, env, world, Assignment(name, LiteralExpr(literal)))
         == Store(AssignIn(env, name, LiteralValue(literal).value), env, world)
  {
    hide LiteralValue, AssignIn;
    assert Eval(fuel, program, globals, env, world, LiteralExpr(literal)) == (LiteralValue(literal), world);
  }

  /** A loop over a display that ends is its body for one element after the other. */
  lemma DisplaysUnroll(fuel: nat, program: Program, globals: Option<Env>, env: Env, world: World, name: string,
                       variable: string, es: seq<Expr>, body: seq<Stmt>)
    requires AreLiterals(es) && ListResult(ValuesOf(es)).Value?
    requires var r := Exec(fuel, program, globals, env, world, ForStmt(name, variable, ListExpr(es), body));
             !r.completion.OutOfFuel?
    ensures Exec(fuel, program, globals, env, world, ForStmt(name, variable, ListExpr(es), body))
         == ExecAll(fuel, program, globals, env, world, Unrolled(variable, es, body))
  {
    hide ExecFor, ExecAll, LiteralValue;
    LiteralsAreEvaluated(fuel, program, globals, env, world, es);
    var list := ListTree(ValuesOf(es));
    assert Eval(fuel, program, globals, env, world, ListExpr(es)) == (EvalResult.Value(list), world);
    assert Exec(fuel, program, globals, env, world, ForStmt(name, variable, ListExpr(es), body))
        == ExecFor(fuel, program, globals, env, world, variable, ValuesOf(es), body);
    ItemsUnroll(fuel, program, globals, env, world, variable, es, body);
  }

  // ---- Errors ----

  /** The catch that takes an error is the first one that matches it. */
  lemma {:induction false} CatcherIff(host: Host, catches: seq<CatchBranch>, c: Completion, i: nat, k: nat)
    requires CanBeCaught(c) && i <= k <= |catches|
    ensures Catcher(host, catches, c, i) == k
       <==> && (k < |catches| ==> Matches(host, catches[k], c))
            && forall j | i <= j < k :: !Matches(host, catches[j], c)
    decreases |catches| - i
  {
    if i < |catches| && i < k { CatcherIff(host, catches, c, i + 1, k); }
  }

  /** A catch is asked with its category, the code of the error, and the category that was thrown, if any. */
  predicate Matches(host: Host, b: CatchBranch, c: Completion)
    requires CanBeCaught(c)
  {
    match c
    case Raised(category) => host.catches(b.category, THROWN, category)
    case Failed(code) => host.catches(b.category, code, "")
    case _ => false
  }

  /** An error that is thrown by its category is Raised with that category, and a catch that the host matches with
      it runs in its place. */
  lemma ThrownIsCaught(fuel: nat, program: Program, globals: Option<Env>, env: Env, world: World, name: string,
                       category: string, text: string, branch: CatchBranch)
    requires IsLoaded(program) && category in program.categories
    ensures var s := ThrowStmt(CallExpr(category, [LiteralExpr(StringLit(text))], []));
            var matched := program.host.catches(branch.category, THROWN, category);
            && Exec(fuel, program, globals, env, world, s) == ExecResult(Raised(category), env, world)
            && Exec(fuel, program, globals, env, world, TryStmt(name, [s], [branch], NoBody))
            == if matched then ExecAll(fuel, program, globals, env, world, branch.body)
               else ExecResult(Raised(category), env, world)
  {
    var s := ThrowStmt(CallExpr(category, [LiteralExpr(StringLit(text))], []));
    ErrorIsRaised(fuel, program, globals, env, world, category, text);
    OneStatement(fuel, program, globals, env, world, s);
    var k := if program.host.catches(branch.category, THROWN, category) then 0 else 1;
    CatcherIff(program.host, [branch], Raised(category), 0, k);
    var r := ExecResult(Raised(category), env, world);
    var t := TryStmt(name, [s], [branch], NoBody);
    hide ExecAll, Catcher;
    assert Exec(fuel, program, globals, env, world, t) == ExecCatches(fuel, program, globals, r, t);
  }

  lemma ErrorIsRaised(fuel: nat, program: Program, globals: Option<Env>, env: Env, world: World, category: string,
                      text: string)
    requires IsLoaded(program) && category in program.categories
    ensures Exec(fuel, program, globals, env, world, ThrowStmt(CallExpr(category, [LiteralExpr(StringLit(text))], [])))
         == ExecResult(Raised(category), env, world)
  {
    ErrorIsMade(fuel, program, globals, env, world, category, text);
    hide Eval;
  }

  lemma OneArgument(fuel: nat, program: Program, globals: Option<Env>, env: Env, world: World, e: Expr, v: Value)
    requires Eval(fuel, program, globals, env, world, e) == (EvalResult.Value(v), world)
    ensures EvalArgs(fuel, program, globals, env, world, [e]) == (Values([v]), world)
  {
    hide Eval;
    assert [e][1..] == [] && [e][0] == e;
    assert EvalArgs(fuel, program, globals, env, world, []) == (Values([]), world);
    assert [v] + [] == [v];
  }

  /** Errors are equal if and only if their messages are, if they are of one category. */
  lemma ErrorsAreDistinguished(fuel: nat, program: Program, globals: Option<Env>, env: Env, world: World,
                               category: string, a: string, b: string)
    requires IsLoaded(program) && category in program.categories
    ensures var l := CallExpr(category, [LiteralExpr(StringLit(a))], []);
            var r := CallExpr(category, [LiteralExpr(StringLit(b))], []);
            Eval(fuel, program, globals, env, world, Operation(l, "==", r))
            == (EvalResult.Value(BoolV(a == b)), world)
  {
    ErrorIsMade(fuel, program, globals, env, world, category, a);
    ErrorIsMade(fuel, program, globals, env, world, category, b);
    var l := CallExpr(category, [LiteralExpr(StringLit(a))], []);
    var r := CallExpr(category, [LiteralExpr(StringLit(b))], []);
    BinaryIsEvaluated(fuel, program, globals, env, world, Operation(l, "==", r));
    hide Eval;
    assert BinaryResult("==", ErrorV(category, a), ErrorV(category, b)) == EvalResult.Value(BoolV(a == b));
  }

  lemma ErrorIsMade(fuel: nat, program: Program, globals: Option<Env>, env: Env, world: World, category: string,
                    text: string)
    requires IsLoaded(program) && category in program.categories
    ensures Eval(fuel, program, globals, env, world, CallExpr(category, [LiteralExpr(StringLit(text))], []))
         == (EvalResult.Value(ErrorV(category, text)), world)
  {
    OneArgument(fuel, program, globals, env, world, LiteralExpr(StringLit(text)), StringV(text));
  }

  /** A list block is the assignment of a display with its elements. */
  lemma ListBlocksAreDisplays(fuel: nat, program: Program, globals: Option<Env>, env: Env, world: World, name: string,
                              es: seq<Expr>)
    ensures Exec(fuel, program, globals, env, world, ListBlock(name, es))
         == Exec(fuel, program, globals, env, world, Assignment(name, ListExpr(es)))
  {
    hide EvalArgs, ListResult, AssignIn;
    var (vs, w) := EvalArgs(fuel, program, globals, env, world, es);
    assert Eval(fuel, program, globals, env, world, ListExpr(es))
        == (if vs.Values? then ListResult(vs.values) else ArgsFailure(vs), w);
    hide Eval;
  }

  /** A constant has the value it was given, and no assignment behind it changes that: with any value it fails, with
      E211 unless the value is none. */
  lemma ConstantsStay(fuel: nat, program: Program, globals: Option<Env>, env: Env, world: World, name: string, e: Expr,
                      other: Expr)
    requires Exec(fuel, program, globals, env, world, ConstDeclaration(name, e)).completion.Normal?
    ensures var made := Exec(fuel, program, globals, env, world, ConstDeclaration(name, e));
            var value, next := Eval(fuel, program, globals, env, world, e),
                               Eval(fuel, program, globals, made.env, made.world, other);
            var again := Exec(fuel, program, globals, made.env, made.world, Assignment(name, other));
            && name !in env && made.world == value.1
            && Eval(fuel, program, globals, made.env, made.world, VariableExpr(name)) == (value.0, made.world)
            && again.env == made.env && again.world == next.1
            && (next.0.Value? ==> again.completion == Failed(if next.0.value.VoidTree? then "E126" else "E211"))
  {
    var made := Exec(fuel, program, globals, env, world, ConstDeclaration(name, e));
    var value := Eval(fuel, program, globals, env, world, e).0.value;
    assert DefineConst(env, name, value) == Ok(made.env) by { hide DefineConst, Eval; }
    assert Eval(fuel, program, globals, made.env, made.world, VariableExpr(name))
        == (EvalResult.Value(value), made.world);
    hide Eval;
  }

  /** The two ways of printing differ in the stream of the last line only. */
  lemma StreamsDiffer(fuel: nat, program: Program, globals: Option<Env>, env: Env, world: World, e: Expr)
    ensures var (p, q) := (Exec(fuel, program, globals, env, world, PrintStmt(e)),
                           Exec(fuel, program, globals, env, world, PrintErrorStmt(e)));
            var (v, w) := Eval(fuel, program, globals, env, world, e);
            && p.completion == q.completion && p.env == q.env == env
            && (!p.completion.Normal? ==> p.world == q.world == w)
            && (p.completion.Normal? ==>
                  && v.Value? && NotPresent(v.value).None?
                  && p.world == w.(output := w.output + [Printed(v.value, false)])
                  && q.world == w.(output := w.output + [Printed(v.value, true)]))
  {
    hide Eval;
  }

  /** finally: its body runs behind the same statement without it, however that ended: by a return, an error or
      otherwise. It does not change how the statement ended, unless it ends by itself. */
  lemma FinallyAlwaysRuns(fuel: nat, program: Program, globals: Option<Env>, env: Env, world: World, name: string,
                          body: seq<Stmt>, catches: seq<CatchBranch>, last: seq<Stmt>)
    ensures var r := Exec(fuel, program, globals, env, world, TryStmt(name, body, catches, NoBody));
            var end := ExecAll(fuel, program, globals, r.env, r.world, last);
            var whole := Exec(fuel, program, globals, env, world, TryStmt(name, body, catches, Body(last)));
            !Ends(r.completion) ==>
              && whole.env == end.env && whole.world == end.world
              && whole.completion == if end.completion.Normal? then r.completion else end.completion
  {
    hide ExecAll;
    var r := ExecAll(fuel, program, globals, env, world, body);
    CatchesAgree(fuel, program, globals, r, TryStmt(name, body, catches, NoBody),
                 TryStmt(name, body, catches, Body(last)));
  }

  lemma CatchesAgree(fuel: nat, program: Program, globals: Option<Env>, r: ExecResult, s: Stmt, t: Stmt)
    requires s.TryStmt? && t.TryStmt? && s.catches == t.catches
    ensures ExecCatches(fuel, program, globals, r, s) == ExecCatches(fuel, program, globals, r, t)
  {
    hide ExecAll;
  }

  /** What a finally prints is the last that the statement prints, also behind a return. */
  lemma FinallyIsSeen(fuel: nat, program: Program, globals: Option<Env>, env: Env, world: World, name: string,
                      body: seq<Stmt>, catches: seq<CatchBranch>, text: string)
    requires !Ends(Exec(fuel, program, globals, env, world, TryStmt(name, body, catches, NoBody)).completion)
    ensures var last := [PrintStmt(LiteralExpr(StringLit(text)))];
            var without := Exec(fuel, program, globals, env, world, TryStmt(name, body, catches, NoBody));
            var whole := Exec(fuel, program, globals, env, world, TryStmt(name, body, catches, Body(last)));
            && whole.completion == without.completion && whole.env == without.env
            && whole.world.output == without.world.output + [Printed(StringV(text), false)]
  {
    var last := PrintStmt(LiteralExpr(StringLit(text)));
    var r := Exec(fuel, program, globals, env, world, TryStmt(name, body, catches, NoBody));
    FinallyAlwaysRuns(fuel, program, globals, env, world, name, body, catches, [last]);
    OneStatement(fuel, program, globals, r.env, r.world, last);
    PrintsText(fuel, program, globals, r.env, r.world, text);
  }

  lemma PrintsText(fuel: nat, program: Program, globals: Option<Env>, env: Env, world: World, text: string)
    ensures Exec(fuel, program, globals, env, world, PrintStmt(LiteralExpr(StringLit(text))))
         == ExecResult(Normal, env, world.(output := world.output + [Printed(StringV(text), false)]))
  {
    var e := LiteralExpr(StringLit(text));
    assert Eval(fuel, program, globals, env, world, e) == (EvalResult.Value(StringV(text)), world);
    hide Eval;
    assert ExecPrint(fuel, program, globals, env, world, e, false)
        == ExecResult(Normal, env, world.(output := world.output + [Printed(StringV(text), false)]));
  }

  // ---- Operators that need not evaluate both operands ----

  function Operation(l: Expr, operator: string, r: Expr): Expr { BinaryExpr(l, operator, r) }

  /** Of a chain of `??` the first present value is taken, wherever the parentheses stand. */
  lemma CoalescingIsAssociative(fuel: nat, program: Program, globals: Option<Env>, env: Env, world: World, a: Expr,
                                b: Expr, c: Expr)
    ensures Eval(fuel, program, globals, env, world, Operation(Operation(a, "??", b), "??", c))
         == Eval(fuel, program, globals, env, world, Operation(a, "??", Operation(b, "??", c)))
  {
    CoalesceIsEvaluated(fuel, program, globals, env, world, a, b);
    CoalesceIsEvaluated(fuel, program, globals, env, world, Operation(a, "??", b), c);
    CoalesceIsEvaluated(fuel, program, globals, env, world, a, Operation(b, "??", c));
    var w := Eval(fuel, program, globals, env, world, a).1;
    CoalesceIsEvaluated(fuel, program, globals, env, w, b, c);
    hide Eval;
  }

  lemma CoalesceIsEvaluated(fuel: nat, program: Program, globals: Option<Env>, env: Env, world: World, a: Expr, b: Expr)
    ensures var (v, w) := Eval(fuel, program, globals, env, world, a);
            Eval(fuel, program, globals, env, world, Operation(a, "??", b))
            == if !v.Value? then (v, w)
               else if v.value.EmptyTree? then Eval(fuel, program, globals, env, w, b)
               else if v.value.EmptysTree? then (Fault("E133"), w)
               else (v, w)
  {
    BinaryIsEvaluated(fuel, program, globals, env, world, Operation(a, "??", b));
    hide Eval;
  }

  predicate IsTruthOrFailure(r: EvalResult) { r.Value? ==> IsBool(r.value) }

  /** not (a and b) is (not a) or (not b), with the same failures and the same output. */
  lemma DeMorgan(fuel: nat, program: Program, globals: Option<Env>, env: Env, world: World, a: Expr, b: Expr)
    requires var (v, w) := Eval(fuel, program, globals, env, world, a);
             IsTruthOrFailure(v) && IsTruthOrFailure(Eval(fuel, program, globals, env, w, b).0)
    ensures Eval(fuel, program, globals, env, world, UnaryExpr("!", Operation(a, "&&", b)))
         == Eval(fuel, program, globals, env, world, Operation(UnaryExpr("!", a), "||", UnaryExpr("!", b)))
    ensures Eval(fuel, program, globals, env, world, UnaryExpr("!", Operation(a, "||", b)))
         == Eval(fuel, program, globals, env, world, Operation(UnaryExpr("!", a), "&&", UnaryExpr("!", b)))
  {
    var w := Eval(fuel, program, globals, env, world, a).1;
    NegationIsEvaluated(fuel, program, globals, env, world, a);
    NegationIsEvaluated(fuel, program, globals, env, w, b);
    NegationIsEvaluated(fuel, program, globals, env, world, Operation(a, "&&", b));
    NegationIsEvaluated(fuel, program, globals, env, world, Operation(a, "||", b));
    BinaryIsEvaluated(fuel, program, globals, env, world, Operation(a, "&&", b));
    BinaryIsEvaluated(fuel, program, globals, env, world, Operation(a, "||", b));
    BinaryIsEvaluated(fuel, program, globals, env, world, Operation(UnaryExpr("!", a), "||", UnaryExpr("!", b)));
    BinaryIsEvaluated(fuel, program, globals, env, world, Operation(UnaryExpr("!", a), "&&", UnaryExpr("!", b)));
    hide Eval;
  }

  lemma NegationIsEvaluated(fuel: nat, program: Program, globals: Option<Env>, env: Env, world: World, e: Expr)
    ensures var (v, w) := Eval(fuel, program, globals, env, world, e);
            Eval(fuel, program, globals, env, world, UnaryExpr("!", e))
            == (if v.Value? && IsBool(v.value) then EvalResult.Value(BoolV(!v.value.value.b))
                else if v.Value? then UnaryResult("!", v.value) else v, w)
  {
  }

  // ---- Values that are no operands ----

  predicate IsAbsent(v: Value) { v.EmptyTree? || v.EmptysTree? || v.VoidTree? }

  /** What becomes of a value that is not there. */
  function AbsenceCode(v: Value): string
    requires IsAbsent(v)
  {
    if v.EmptyTree? then "E131" else if v.EmptysTree? then "E133" else "E127"
  }

  /** A value that is not there can be no operand, and cannot be printed. As a left operand it stops the evaluation:
      nothing of the right one happens. Only `??` takes EMPTY or VOID on its left. */
  lemma AbsentValuesAreRefused(fuel: nat, program: Program, globals: Option<Env>, env: Env, world: World, e: Expr,
                               operator: string, other: Expr)
    requires var (v, w) := Eval(fuel, program, globals, env, world, e);
             v.Value? && IsAbsent(v.value)
    ensures var (v, w) := Eval(fuel, program, globals, env, world, e);
            var code := AbsenceCode(v.value);
            && Eval(fuel, program, globals, env, world, UnaryExpr(operator, e)) == (Fault(code), w)
            && Exec(fuel, program, globals, env, world, PrintStmt(e)) == ExecResult(Failed(code), env, w)
            && (operator != "??" || v.value.EmptysTree? ==>
                  Eval(fuel, program, globals, env, world, Operation(e, operator, other)) == (Fault(code), w))
  {
    BinaryIsEvaluated(fuel, program, globals, env, world, Operation(e, operator, other));
    var (v, w) := Eval(fuel, program, globals, env, world, e);
    assert Eval(fuel, program, globals, env, world, UnaryExpr(operator, e)) == (UnaryResult(operator, v.value), w);
    hide Eval;
  }

  /** The same for right operands, once the left one is there and the right one is needed. */
  lemma AbsentRightOperandsAreRefused(fuel: nat, program: Program, globals: Option<Env>, env: Env, world: World,
                                      e: Expr, operator: string, other: Expr)
    requires operator !in {"??", "&&", "||"}
    requires var (l, w) := Eval(fuel, program, globals, env, world, other);
             && l.Value? && !IsAbsent(l.value)
             && var (r, _) := Eval(fuel, program, globals, env, w, e);
                r.Value? && IsAbsent(r.value)
    ensures var (r, w) := Eval(fuel, program, globals, env, Eval(fuel, program, globals, env, world, other).1, e);
            Eval(fuel, program, globals, env, world, Operation(other, operator, e)) == (Fault(AbsenceCode(r.value)), w)
  {
    BinaryIsEvaluated(fuel, program, globals, env, world, Operation(other, operator, e));
    hide Eval;
  }

  /** A condition that is no truth value stops a loop or a branch: with E131 if it is EMPTY, with E201 otherwise. */
  lemma ConditionsAreTruthValues(fuel: nat, program: Program, globals: Option<Env>, env: Env, world: World, e: Expr,
                                 name: string, body: seq<Stmt>, elseBody: OptionalBody)
    requires var (v, w) := Eval(fuel, program, globals, env, world, e);
             v.Value? && !IsBool(v.value)
    ensures var (v, w) := Eval(fuel, program, globals, env, world, e);
            var end := ExecResult(Failed(if v.value.EmptyTree? then "E131" else "E201"), env, w);
            && Exec(fuel, program, globals, env, world, WhileStmt(name, e, body)) == end
            && Exec(fuel, program, globals, env, world, IfStmt(name, [IfBranch(e, body)], elseBody)) == end
  {
    FirstBranch(fuel, program, globals, env, world, IfStmt(name, [IfBranch(e, body)], elseBody));
    hide Eval, ExecIf, ExecAll;
  }

  // ---- Programs ----

  /** Running a program is running its top-level statements and then a call of main, with their output. */
  lemma MainRunsLast(fuel: nat, program: Program, topLevel: seq<Stmt>)
    requires IsLoaded(program) && "main" in program.logics && program.logics["main"].parameters == []
    ensures var whole := ExecAll(fuel, program, None, map[], EMPTY_WORLD,
                                 topLevel + [ExpressionStmt(CallExpr("main", [], []))]);
            var run := RunLoaded(fuel, program, topLevel);
            && run.1 == whole.world
            && (run.0.Value? <==> whole.completion.Normal?)
            && (whole.completion.Failed? ==> run.0 == Fault(whole.completion.code))
            && (whole.completion.Raised? ==> run.0 == Thrown(whole.completion.category))
            && (whole.completion.OutOfFuel? ==> run.0 == Exhausted)
  {
    var call := CallExpr("main", [], []);
    var r := ExecAll(fuel, program, None, map[], EMPTY_WORLD, topLevel);
    SequencesCompose(fuel, program, None, map[], EMPTY_WORLD, topLevel, [ExpressionStmt(call)]);
    OneStatement(fuel, program, None, r.env, r.world, ExpressionStmt(call));
    assert Eval(fuel, program, None, r.env, r.world, call) == Call(fuel, program, r.env, r.world, "main", []) by {
      hide Call;
      assert EvalArgs(fuel, program, None, r.env, r.world, []) == (Values([]), r.world);
    }
    hide ExecAll, Eval, Call;
  }

  // ---- Loading ----

  predicate IsFine(host: Host, all: seq<Stmt>, s: Stmt) {
    match s
    case LogicDecl(logic) => !IsBuiltin(host, logic.name)
    case ErrorDecl(name) => !IsBuiltin(host, name) && !DeclaresLogic(all, name)
    case HttpRouteDecl(_, _, path, _) => host.isPath(path)
    case _ => true
  }

  /** Both statements declare the same SEP, error or route. */
  predicate Clash(s: Stmt, t: Stmt) {
    || (s.LogicDecl? && t.LogicDecl? && s.logic.name == t.logic.name)
    || (s.ErrorDecl? && t.ErrorDecl? && s.name == t.name)
    || (s.HttpRouteDecl? && t.HttpRouteDecl? && s.verb == t.verb && s.path == t.path)
  }

  predicate AreFine(host: Host, all: seq<Stmt>, n: nat)
    requires n <= |all|
  {
    && (forall i | 0 <= i < n :: IsFine(host, all, all[i]))
    && forall i, j | 0 <= i < j < n :: !Clash(all[i], all[j])
  }

  ghost predicate HasLogics(program: Program, all: seq<Stmt>, n: nat)
    requires n <= |all|
  {
    && (forall name :: name in program.logics
          <==> exists i :: 0 <= i < n && all[i].LogicDecl? && all[i].logic.name == name)
    && (forall i | 0 <= i < n && all[i].LogicDecl? :: program.logics[all[i].logic.name] == all[i].logic)
  }

  ghost predicate HasCategories(program: Program, all: seq<Stmt>, n: nat)
    requires n <= |all|
  {
    forall name :: name in program.categories
      <==> exists i :: 0 <= i < n && all[i].ErrorDecl? && all[i].name == name
  }

  ghost predicate HasRoutes(routes: Routes, all: seq<Stmt>, n: nat)
    requires n <= |all|
  {
    forall verb, path :: (verb, path) in routes
      <==> exists i :: 0 <= i < n && all[i].HttpRouteDecl? && all[i].verb == verb && all[i].path == path
  }

  /** What has been loaded is what the first `n` statements declare. */
  ghost predicate IsLoadedFrom(program: Program, routes: Routes, all: seq<Stmt>, n: nat)
    requires n <= |all|
  {
    HasLogics(program, all, n) && HasCategories(program, all, n) && HasRoutes(routes, all, n)
  }

  /** Nothing clashes with the next statement. */
  predicate IsNew(all: seq<Stmt>, n: nat)
    requires n < |all|
  {
    forall i | 0 <= i < n :: !Clash(all[i], all[n])
  }

  lemma NextIsFine(host: Host, all: seq<Stmt>, n: nat)
    requires n < |all| && AreFine(host, all, n)
    ensures AreFine(host, all, n + 1) <==> IsFine(host, all, all[n]) && IsNew(all, n)
  {
    hide IsFine, Clash;
  }

  lemma NewLogic(program: Program, all: seq<Stmt>, n: nat)
    requires n < |all| && HasLogics(program, all, n)
    ensures all[n].LogicDecl? ==> (all[n].logic.name !in program.logics <==> IsNew(all, n))
    ensures all[n].LogicDecl? && IsNew(all, n) ==>
              HasLogics(program.(logics := program.logics[all[n].logic.name := all[n].logic]), all, n + 1)
    ensures !all[n].LogicDecl? ==> HasLogics(program, all, n + 1)
  {
  }

  lemma NewCategory(program: Program, all: seq<Stmt>, n: nat)
    requires n < |all| && HasCategories(program, all, n)
    ensures all[n].ErrorDecl? ==> (all[n].name !in program.categories <==> IsNew(all, n))
    ensures all[n].ErrorDecl? ==>
              HasCategories(program.(categories := program.categories + {all[n].name}), all, n + 1)
    ensures !all[n].ErrorDecl? ==> HasCategories(program, all, n + 1)
  {
  }

  lemma NewRoute(routes: Routes, all: seq<Stmt>, n: nat)
    requires n < |all| && HasRoutes(routes, all, n)
    ensures all[n].HttpRouteDecl? ==> ((all[n].verb, all[n].path) !in routes <==> IsNew(all, n))
    ensures all[n].HttpRouteDecl? ==> HasRoutes(routes + {(all[n].verb, all[n].path)}, all, n + 1)
    ensures !all[n].HttpRouteDecl? ==> HasRoutes(routes, all, n + 1)
  {
  }

  lemma NothingNew(all: seq<Stmt>, n: nat)
    requires n < |all| && !all[n].LogicDecl? && !all[n].ErrorDecl? && !all[n].HttpRouteDecl?
    ensures IsNew(all, n)
  {
  }

  /** Why a declaration is refused. */
  function Refusal(host: Host, s: Stmt): string {
    match s
    case LogicDecl(logic) => if IsBuiltin(host, logic.name) then "E209" else "E204"
    case ErrorDecl(_) => "E122"
    case HttpRouteDecl(_, _, path, _) => if host.isPath(path) then "E896" else "E892"
    case _ => UNMODELLED
  }

  lemma LoadOneIff(host: Host, all: seq<Stmt>, program: Program, routes: Routes, n: nat)
    requires n < |all| && program.host == host && AreFine(host, all, n) && IsLoadedFrom(program, routes, all, n)
    ensures var next := LoadOne(all, program, routes, all[n]);
            if !AreFine(host, all, n + 1) then next == Err(Refusal(host, all[n]))
            else next.Ok? && next.value.0.host == host && IsLoadedFrom(next.value.0, next.value.1, all, n + 1)
  {
    hide DeclaresLogic, IsBuiltin, IsNew, AreFine, HasLogics, HasCategories, HasRoutes;
    NextIsFine(host, all, n);
    match all[n]
    case LogicDecl(_) => LoadLogic(host, all, program, routes, n);
    case ErrorDecl(_) => LoadCategory(host, all, program, routes, n);
    case HttpRouteDecl(_, _, _, _) => LoadRoute(host, all, program, routes, n);
    case _ =>
      NothingNew(all, n);
      NewLogic(program, all, n);
      NewCategory(program, all, n);
      NewRoute(routes, all, n);
  }

  lemma LoadLogic(host: Host, all: seq<Stmt>, program: Program, routes: Routes, n: nat)
    requires n < |all| && program.host == host && IsLoadedFrom(program, routes, all, n) && all[n].LogicDecl?
    ensures var next := LoadOne(all, program, routes, all[n]);
            if !(IsFine(host, all, all[n]) && IsNew(all, n)) then next == Err(Refusal(host, all[n]))
            else next.Ok? && next.value.0.host == host && IsLoadedFrom(next.value.0, next.value.1, all, n + 1)
  {
    hide DeclaresLogic, IsBuiltin, IsNew, HasLogics, HasCategories, HasRoutes;
    NewLogic(program, all, n);
    NewCategory(program, all, n);
    NewRoute(routes, all, n);
    LogicsOnly(program, all, n);
  }

  lemma LoadCategory(host: Host, all: seq<Stmt>, program: Program, routes: Routes, n: nat)
    requires n < |all| && program.host == host && IsLoadedFrom(program, routes, all, n) && all[n].ErrorDecl?
    ensures var next := LoadOne(all, program, routes, all[n]);
            if !(IsFine(host, all, all[n]) && IsNew(all, n)) then next == Err(Refusal(host, all[n]))
            else next.Ok? && next.value.0.host == host && IsLoadedFrom(next.value.0, next.value.1, all, n + 1)
  {
    hide DeclaresLogic, IsBuiltin, IsNew, HasLogics, HasCategories, HasRoutes;
    NewLogic(program, all, n);
    NewCategory(program, all, n);
    NewRoute(routes, all, n);
    LogicsOnly(program, all, n);
  }

  lemma LoadRoute(host: Host, all: seq<Stmt>, program: Program, routes: Routes, n: nat)
    requires n < |all| && program.host == host && IsLoadedFrom(program, routes, all, n) && all[n].HttpRouteDecl?
    ensures var next := LoadOne(all, program, routes, all[n]);
            if !(IsFine(host, all, all[n]) && IsNew(all, n)) then next == Err(Refusal(host, all[n]))
            else next.Ok? && next.value.0.host == host && IsLoadedFrom(next.value.0, next.value.1, all, n + 1)
  {
    hide DeclaresLogic, IsBuiltin, IsNew, HasLogics, HasCategories, HasRoutes;
    NewLogic(program, all, n);
    NewCategory(program, all, n);
    NewRoute(routes, all, n);
  }

  /** SEPs and error categories are kept apart. */
  lemma LogicsOnly(program: Program, all: seq<Stmt>, n: nat)
    requires n < |all|
    ensures forall logics :: HasCategories(program.(logics := logics), all, n + 1) == HasCategories(program, all, n + 1)
    ensures forall cs :: HasLogics(program.(categories := cs), all, n + 1) == HasLogics(program, all, n + 1)
  {
  }

  /** Statement `n` is the first one that cannot be loaded. */
  predicate IsRefusedAt(host: Host, all: seq<Stmt>, n: int, code: string) {
    0 <= n < |all| && AreFine(host, all, n) && !AreFine(host, all, n + 1) && code == Refusal(host, all[n])
  }

  lemma {:induction false} LoadFromIff(host: Host, all: seq<Stmt>, program: Program, routes: Routes, n: nat)
    requires n <= |all| && program.host == host && AreFine(host, all, n) && IsLoadedFrom(program, routes, all, n)
    ensures var r := LoadFrom(all, program, routes, n);
            if AreFine(host, all, |all|) then r.Ok? && exists rs :: IsLoadedFrom(r.value, rs, all, |all|)
            else r.Err? && exists i :: IsRefusedAt(host, all, i, r.code)
    decreases |all| - n
  {
    hide LoadOne, IsFine, IsLoadedFrom, Clash, Refusal;
    if n < |all| {
      LoadOneIff(host, all, program, routes, n);
      var next := LoadOne(all, program, routes, all[n]);
      if next.Ok? && AreFine(host, all, n + 1) {
        LoadFromIff(host, all, next.value.0, next.value.1, n + 1);
      } else {
        assert IsRefusedAt(host, all, n, next.code);
      }
    } else {
      assert IsLoadedFrom(program, routes, all, |all|);
    }
  }

  /** A program is loaded if and only if nothing is declared twice, no name is that of a built-in function, no
      error has the name of a SEP and all routes have paths; and then it has what the statements declare. Otherwise
      the first declaration that breaks this decides about the error. */
  lemma LoadIff(host: Host, all: seq<Stmt>)
    ensures var r := Load(host, all);
            if AreFine(host, all, |all|) then r.Ok? && exists rs :: IsLoadedFrom(r.value, rs, all, |all|)
            else r.Err? && exists i :: IsRefusedAt(host, all, i, r.code)
  {
    hide LoadFrom;
    LoadFromIff(host, all, Program(map[], {}, host), {}, 0);
  }

  // ---- The types that a SEP is called with ----

  predicate TakesSignature(inferred: Signature, actual: Signature) {
    forall i | 0 <= i < |inferred| && i < |actual| ::
      inferred[i].0 == actual[i].0 && Compatible(inferred[i].1, actual[i].1)
  }

  /** Later calls of a SEP must have the types of the first one; they may only settle an element type that was
      not known yet. */
  lemma {:induction false} SignatureIff(inferred: Signature, actual: Signature)
    ensures MergeSignatures(inferred, actual).Some? <==> TakesSignature(inferred, actual)
    ensures MergeSignatures(inferred, actual).Some? ==>
              var merged := MergeSignatures(inferred, actual).value;
              && |merged| == |inferred|
              && forall i | 0 <= i < |inferred| ::
                   if i < |actual| && inferred[i].0 == "list" && inferred[i].1.Unknown? then merged[i] == actual[i]
                   else merged[i] == inferred[i]
    decreases |inferred|
  {
    if inferred != [] && actual != [] {
      SignatureIff(inferred[1..], actual[1..]);
      assert TakesSignature(inferred, actual)
        <==> inferred[0].0 == actual[0].0 && Compatible(inferred[0].1, actual[0].1)
             && TakesSignature(inferred[1..], actual[1..]) by {
        assert forall i | 0 < i < |inferred| && i < |actual| ::
            inferred[i] == inferred[1..][i - 1] && actual[i] == actual[1..][i - 1];
      }
    }
  }

  predicate AreScalars(values: seq<Value>) {
    forall i | 0 <= i < |values| :: values[i].ScalarTree?
  }

  lemma {:induction false} ScalarSignature(values: seq<Value>)
    requires AreScalars(values)
    ensures SignatureOf(values).Ok? && |SignatureOf(values).value| == |values|
    ensures forall i | 0 <= i < |values| :: SignatureOf(values).value[i] == (values[i].typeName, Unknown)
  {
    if values != [] { ScalarSignature(values[1..]); }
  }

  lemma {:induction false} UntypedArguments(parameters: seq<Parameter>, values: seq<Value>)
    requires |parameters| == |values| && AreScalars(values) && forall p | p in parameters :: p.declared.None?
    ensures PrepareArguments(parameters, values) == Ok(values)
  {
    if parameters != [] {
      assert parameters[0] in parameters;
      UntypedArguments(parameters[1..], values[1..]);
      assert [values[0]] + values[1..] == values;
    }
  }

  /** A SEP without declared types is called with scalars of the types of its first call, and with nothing else; a call
      is recorded under its name, and changes nothing that other SEPs were called with. */
  lemma LaterCallsAgree(logics: Logics, world: World, callee: string, values: seq<Value>)
    requires callee in logics && forall p | p in logics[callee].parameters :: p.declared.None?
    requires AreScalars(values)
    requires callee in world.signatures ==> |world.signatures[callee]| == |logics[callee].parameters|
    ensures var entered := EnterCall(logics, world, callee, values);
            if |values| != |logics[callee].parameters| then entered == Err("E207")
            else if callee in world.signatures
                    && exists i :: 0 <= i < |values| && world.signatures[callee][i].0 != values[i].typeName then
              entered == Err("E208")
            else
              && entered.Ok? && entered.value.1 == values && entered.value.0.output == world.output
              && entered.value.0.signatures.Keys == world.signatures.Keys + {callee}
              && (forall other | other in world.signatures && other != callee ::
                    entered.value.0.signatures[other] == world.signatures[other])
              && |entered.value.0.signatures[callee]| == |values|
              && forall i | 0 <= i < |values| :: entered.value.0.signatures[callee][i].0 == values[i].typeName
  {
    hide MergeSignatures, SignatureOf, PrepareArguments;
    if |values| == |logics[callee].parameters| {
      UntypedArguments(logics[callee].parameters, values);
      ScalarSignature(values);
      if callee in world.signatures { SignatureIff(world.signatures[callee], SignatureOf(values).value); }
    }
  }
}
