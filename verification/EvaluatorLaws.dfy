/** What the operations of the evaluator mean, in terms that the evaluator does not use. */
module EvaluatorLaws {
  import opened Ast
  import opened TypeSpecs
  import opened Trees
  import opened StoreSpec
  import opened StoreLaws
  import opened StoreExact
  import opened Semantics
  import Runs = RunsExact
  import Store = StoreRuns

  // ---- Reading through indexes ----

  /** A read with an index finds the slot that an assignment with this index would change. */
  lemma IndexResultIff(t: Value, i: int, x: Value)
    ensures IndexResult(t, IntV(i)) == EvalResult.Value(x) <==> SlotAt(t, [At(i)]) == Some(x)
  {
    Runs.SlotAtOne(t, At(i));
  }

  function Whole(i: int): Expr { LiteralExpr(IntLit(i)) }

  function Wholes(indexes: seq<int>): seq<Expr> {
    seq(|indexes|, i requires 0 <= i < |indexes| => Whole(indexes[i]))
  }

  function Path(indexes: seq<int>): seq<Index> {
    seq(|indexes|, i requires 0 <= i < |indexes| => At(indexes[i]))
  }

  /** e[i][j]... */
  function Chain(e: Expr, indexes: seq<int>): Expr {
    if indexes == [] then e
    else IndexExpr(Chain(e, indexes[..|indexes| - 1]), Whole(indexes[|indexes| - 1]))
  }

  lemma {:induction false} SlotBehindSlot(t: Value, path: seq<Index>, last: Index)
    ensures SlotAt(t, path + [last])
         == var slot := SlotAt(t, path); if slot.None? then None else SlotAt(slot.value, [last])
    decreases path
  {
    var whole := path + [last];
    if path == [] {
      assert whole == [last];
    } else {
      assert whole[1..] == path[1..] + [last];
      if t.ListTree? && path[0].At? && 0 <= path[0].i < |t.items| {
        SlotBehindSlot(t.items[path[0].i], path[1..], last);
      }
    }
  }

  lemma IndexIsEvaluated(fuel: nat, program: Program, globals: Option<Env>, env: Env, world: World, target: Expr,
                         literal: Literal)
    ensures var (t, w) := Eval(fuel, program, globals, env, world, target);
            var i := LiteralValue(literal);
            Eval(fuel, program, globals, env, world, IndexExpr(target, LiteralExpr(literal)))
            == (if !t.Value? then t else if i.Value? then IndexResult(t.value, i.value) else i, w)
  {
    hide IndexResult, LiteralValue;
    var (t, w) := Eval(fuel, program, globals, env, world, target);
    assert Eval(fuel, program, globals, env, w, LiteralExpr(literal)) == (LiteralValue(literal), w);
  }

  /** A chain of index reads finds what stands behind the path, and nothing else. */
  lemma {:induction false} ChainIff(fuel: nat, program: Program, globals: Option<Env>, env: Env, world: World, e: Expr,
                                    indexes: seq<int>, t: Value, w: World, x: Value)
    requires Eval(fuel, program, globals, env, world, e) == (EvalResult.Value(t), w)
    ensures Eval(fuel, program, globals, env, world, Chain(e, indexes)) == (EvalResult.Value(x), w)
       <==> SlotAt(t, Path(indexes)) == Some(x)
    ensures Eval(fuel, program, globals, env, world, Chain(e, indexes)).1 == w
    decreases indexes
  {
    hide IndexResult, Eval;
    if indexes != [] {
      var before, last := indexes[..|indexes| - 1], indexes[|indexes| - 1];
      assert Path(indexes) == Path(before) + [At(last)];
      SlotBehindSlot(t, Path(before), At(last));
      var r := Eval(fuel, program, globals, env, world, Chain(e, before)).0;
      IndexIsEvaluated(fuel, program, globals, env, world, Chain(e, before), IntLit(last));
      ChainIff(fuel, program, globals, env, world, e, before, t, w, if r.Value? then r.value else x);
      if SlotAt(t, Path(before)).Some? {
        ChainIff(fuel, program, globals, env, world, e, before, t, w, SlotAt(t, Path(before)).value);
      }
      if r.Value? { IndexResultIff(r.value, last, x); }
    }
  }

  lemma {:induction false} WholesAreThemselves(fuel: nat, program: Program, globals: Option<Env>, env: Env,
                                               world: World, indexes: seq<int>)
    ensures var r := EvalArgs(fuel, program, globals, env, world, Wholes(indexes));
            r.0.Values? && r.1 == world && IndexesOf(r.0.values) == Path(indexes)
    decreases indexes
  {
    if indexes != [] {
      assert Wholes(indexes)[1..] == Wholes(indexes[1..]);
      WholesAreThemselves(fuel, program, globals, env, world, indexes[1..]);
      var more := EvalArgs(fuel, program, globals, env, world, Wholes(indexes[1..])).0.values;
      assert IndexesOf([IntV(indexes[0])] + more) == [At(indexes[0])] + IndexesOf(more);
      assert Path(indexes) == [At(indexes[0])] + Path(indexes[1..]);
    }
  }

  /** What an indexed assignment has stored, at any depth, the same indexes read back. */
  lemma WriteThenRead(fuel: nat, program: Program, globals: Option<Env>, env: Env, world: World, name: string,
                      indexes: seq<int>, e: Expr)
    requires name in env && Typed(env[name]) && indexes != []
    requires Exec(fuel, program, globals, env, world, IndexAssignment(name, Wholes(indexes), e)).completion.Normal?
    ensures var after := Exec(fuel, program, globals, env, world, IndexAssignment(name, Wholes(indexes), e));
            var value := Eval(fuel, program, globals, env, world, e);
            var before := SlotAt(env[name].value, Path(indexes));
            var read := Eval(fuel, program, globals, after.env, after.world, Chain(VariableExpr(name), indexes));
            && value.0.Value? && before.Some?
            && read.0.Value? && read.1 == after.world && IsStored(value.0.value, before.value, read.0.value)
  {
    WholesAreThemselves(fuel, program, globals, env, world, indexes);
    var v := Eval(fuel, program, globals, env, world, e).0.value;
    var after := Exec(fuel, program, globals, env, world, IndexAssignment(name, Wholes(indexes), e));
    AssignIndexesTouchesOneSlot(env[name], Path(indexes), v);
    var w := AssignIndexes(env[name], Path(indexes), v).value;
    assert after.env == env[name := w];
    assert Eval(fuel, program, globals, after.env, after.world, VariableExpr(name))
        == (EvalResult.Value(w.value), after.world);
    ChainIff(fuel, program, globals, after.env, after.world, VariableExpr(name), indexes, w.value, after.world,
             SlotAt(w.value, Path(indexes)).value);
  }

  // ---- The evaluator and the store read alike ----

  function FramesOf(globals: Option<Env>, env: Env): Store.Frames {
    if globals.Some? then [globals.value, env] else [env]
  }

  /** The index that a literal stands for. An EMPTY index is refused in a way of its own. */
  function IndexOfLiteral(literal: Literal): Option<Index> {
    match literal
    case IntLit(i) => Some(At(i))
    case BoolLit(_) => Some(NotAnInteger)
    case StringLit(_) => Some(NotAnInteger)
    case _ => None
  }

  /** The expressions that the store has as well: literals, names, displays and reads with literal indexes. */
  function Stored(e: Expr): Option<Store.ValueExpr>
    decreases e, 1
  {
    match e
    case LiteralExpr(literal) =>
      var v := LiteralValue(literal);
      if v.Value? && !v.value.ListTree? then Some(Store.Leaf(v.value)) else None
    case GroupExpr(inner) => Stored(inner)
    case VariableExpr(name) => Some(Store.Read(name))
    case IndexExpr(target, index) =>
      var t := Stored(target);
      if t.None? || !index.LiteralExpr? || IndexOfLiteral(index.value).None? then None
      else Some(Store.Element(t.value, IndexOfLiteral(index.value).value))
    case ListExpr(elements) =>
      var items := StoredAll(elements);
      if items.None? then None else Some(Store.Display(items.value))
    case _ => None
  }

  function StoredAll(es: seq<Expr>): Option<seq<Store.ValueExpr>>
    decreases es, 0
  {
    if es == [] then Some([])
    else
      var first, rest := Stored(es[0]), StoredAll(es[1..]);
      if first.None? || rest.None? then None else Some([first.value] + rest.value)
  }

  /** The name is that of a variable, or of nothing at all. */
  predicate IsNoFunction(program: Program, globals: Option<Env>, env: Env, name: string) {
    Lookup(globals, env, name).Some? || (name !in program.logics && !IsBuiltin(program.host, name))
  }

  predicate UsesNoFunction(program: Program, globals: Option<Env>, env: Env, e: Expr)
    decreases e, 1
  {
    match e
    case GroupExpr(inner) => UsesNoFunction(program, globals, env, inner)
    case VariableExpr(name) => IsNoFunction(program, globals, env, name)
    case IndexExpr(target, _) => UsesNoFunction(program, globals, env, target)
    case ListExpr(elements) => UseNoFunction(program, globals, env, elements)
    case _ => true
  }

  predicate UseNoFunction(program: Program, globals: Option<Env>, env: Env, es: seq<Expr>)
    decreases es, 0
  {
    es == [] || (UsesNoFunction(program, globals, env, es[0]) && UseNoFunction(program, globals, env, es[1..]))
  }

  function AsResult(r: Result<Tree>): EvalResult {
    if r.Ok? then EvalResult.Value(r.value) else Fault(r.code)
  }

  /** The evaluator reads names, displays and elements as the store does, with the same failures. */
  lemma {:induction false} EvaluatorsAgree(fuel: nat, program: Program, globals: Option<Env>, env: Env, world: World,
                                           e: Expr)
    requires Stored(e).Some? && UsesNoFunction(program, globals, env, e)
    ensures Eval(fuel, program, globals, env, world, e)
         == (AsResult(Store.Evaluate(FramesOf(globals, env), Stored(e).value)), world)
    decreases e, 1
  {
    match e
    case LiteralExpr(_) => LeafIsEvaluated(fuel, program, globals, env, world, e);
    case GroupExpr(inner) => EvaluatorsAgree(fuel, program, globals, env, world, inner);
    case VariableExpr(name) => LeafIsEvaluated(fuel, program, globals, env, world, e);
    case IndexExpr(target, index) =>
      hide Eval;
      EvaluatorsAgree(fuel, program, globals, env, world, target);
      IndexIsEvaluated(fuel, program, globals, env, world, target, index.value);
    case ListExpr(elements) =>
      DisplaysAgree(fuel, program, globals, env, world, elements);
      DisplayIsEvaluated(fuel, program, globals, env, world, elements);
      hide Eval;
  }

  lemma LeafIsEvaluated(fuel: nat, program: Program, globals: Option<Env>, env: Env, world: World, e: Expr)
    requires e.LiteralExpr? || e.VariableExpr?
    requires Stored(e).Some? && UsesNoFunction(program, globals, env, e)
    ensures Eval(fuel, program, globals, env, world, e)
         == (AsResult(Store.Evaluate(FramesOf(globals, env), Stored(e).value)), world)
  {
  }

  lemma DisplayIsEvaluated(fuel: nat, program: Program, globals: Option<Env>, env: Env, world: World, es: seq<Expr>)
    ensures var (vs, w) := EvalArgs(fuel, program, globals, env, world, es);
            Eval(fuel, program, globals, env, world, ListExpr(es))
            == (if vs.Values? then ListResult(vs.values) else ArgsFailure(vs), w)
  {
    hide ListResult;
  }

  lemma {:induction false} DisplaysAgree(fuel: nat, program: Program, globals: Option<Env>, env: Env, world: World,
                                         es: seq<Expr>)
    requires StoredAll(es).Some? && UseNoFunction(program, globals, env, es)
    ensures var values := Store.EvaluateAll(FramesOf(globals, env), StoredAll(es).value);
            EvalArgs(fuel, program, globals, env, world, es)
            == (if values.Ok? then Values(values.value) else ArgsFault(values.code), world)
    decreases es, 0
  {
    if es != [] {
      EvaluatorsAgree(fuel, program, globals, env, world, es[0]);
      DisplaysAgree(fuel, program, globals, env, world, es[1..]);
      assert ([Stored(es[0]).value] + StoredAll(es[1..]).value)[1..] == StoredAll(es[1..]).value;
    }
  }

  // ---- Assignments of the evaluator ----

  /** The store operation of a statement, if it has one. */
  function StoredStep(s: Stmt): Option<Store.Operation> {
    match s
    case Assignment(name, e) => if Stored(e).Some? then Some(Store.Assign(name, Stored(e).value)) else None
    case TypedDeclaration(name, declared, e, constant) =>
      if Stored(e).Some? then Some(Store.Define(name, declared, Stored(e).value, constant)) else None
    case _ => None
  }

  /** A statement that assigns or defines changes the environment as the store operation does, or fails with the
      same code. */
  lemma StatementsAgree(fuel: nat, program: Program, globals: Option<Env>, env: Env, world: World, s: Stmt)
    requires s.Assignment? || s.TypedDeclaration?
    requires StoredStep(s).Some? && UsesNoFunction(program, globals, env, s.value)
    ensures var r := Exec(fuel, program, globals, env, world, s);
            var next := Store.Step(FramesOf(globals, env), StoredStep(s).value);
            && r.world == world
            && (next.Ok? ==> r.completion == Normal && FramesOf(globals, r.env) == next.value)
            && (next.Err? ==> r.completion == Failed(next.code) && r.env == env)
  {
    hide Eval, Store.Evaluate, AssignIn, DefineIn;
    EvaluatorsAgree(fuel, program, globals, env, world, s.value);
  }

  // ---- State tests ----

  /** A list is EMPTYS if and only if no path leads to a present value other than a list. */
  lemma {:induction false} IsEmptysIff(t: Value)
    ensures IsEmptys(t)
       <==> t.ListTree? && forall path :: SlotAt(t, path).Some? ==> IsHollow(SlotAt(t, path).value)
    decreases t
  {
    if IsEmptys(t) {
      forall path | SlotAt(t, path).Some?
        ensures IsHollow(SlotAt(t, path).value)
      {
        HollowBehind(t, path);
      }
    } else if t.ListTree? {
      var i :| 0 <= i < |t.items| && !t.items[i].EmptyTree? && !IsEmptys(t.items[i]);
      IsEmptysIff(t.items[i]);
      Runs.SlotAtOne(t, At(i));
      if t.items[i].ListTree? {
        var path :| SlotAt(t.items[i], path).Some? && !IsHollow(SlotAt(t.items[i], path).value);
        assert ([At(i)] + path)[1..] == path;
        assert SlotAt(t, [At(i)] + path) == SlotAt(t.items[i], path);
      } else {
        assert !IsHollow(SlotAt(t, [At(i)]).value);
      }
    }
  }

  predicate IsHollow(t: Value) { t.ListTree? || t.EmptyTree? }

  lemma {:induction false} HollowBehind(t: Value, path: seq<Index>)
    requires (t.EmptyTree? || IsEmptys(t)) && SlotAt(t, path).Some?
    ensures IsHollow(SlotAt(t, path).value)
    decreases path
  {
    if path != [] { HollowBehind(t.items[path[0].i], path[1..]); }
  }

  /** After an assignment `is EMPTY` tells whether EMPTY has been assigned, and `is EMPTYS` holds if EMPTYS has
      been assigned, and for no scalar. */
  lemma TestsSeeAssignments(fuel: nat, program: Program, globals: Option<Env>, env: Env, world: World, name: string,
                            e: Expr, negated: bool)
    requires name in env ==> Typed(env[name])
    requires Exec(fuel, program, globals, env, world, Assignment(name, e)).completion.Normal?
    ensures var after := Exec(fuel, program, globals, env, world, Assignment(name, e));
            var value := Eval(fuel, program, globals, env, world, e).0;
            var (env', world') := (after.env, after.world);
            var isEmpty := Eval(fuel, program, globals, env', world', EmptyTestExpr(VariableExpr(name), negated));
            var isEmptys := Eval(fuel, program, globals, env', world', EmptysTestExpr(VariableExpr(name), negated));
            && value.Value?
            && isEmpty == (EvalResult.Value(BoolV(negated <==> !value.value.EmptyTree?)), after.world)
            && (value.value.EmptysTree? ==> isEmptys == (EvalResult.Value(BoolV(!negated)), after.world))
            && (value.value.ScalarTree? ==> isEmptys == (EvalResult.Value(BoolV(negated)), after.world))
  {
    var value := Eval(fuel, program, globals, env, world, e).0.value;
    var after := Exec(fuel, program, globals, env, world, Assignment(name, e));
    assert AssignIn(env, name, value) == Ok(after.env) by { hide Eval, AssignIn; }
    AssignmentIsSeen(env, name, value, after.env);
    TestsLook(fuel, program, globals, after.env, after.world, name, negated);
    hide Eval, AssignIn;
  }

  /** A variable is EMPTY behind an assignment of EMPTY only, and EMPTYS behind one of EMPTYS. */
  lemma AssignmentIsSeen(env: Env, name: string, value: Value, after: Env)
    requires (name in env ==> Typed(env[name])) && AssignIn(env, name, value) == Ok(after)
    ensures name in after && (after[name].value.EmptyTree? <==> value.EmptyTree?)
    ensures (value.EmptysTree? ==> IsEmptys(after[name].value)) && (value.ScalarTree? ==> !IsEmptys(after[name].value))
  {
    if name in env { ReassignIff(env[name], value, after[name]); } else { IntroduceIff(value, after[name]); }
  }

  lemma TestsLook(fuel: nat, program: Program, globals: Option<Env>, env: Env, world: World, name: string,
                  negated: bool)
    requires name in env
    ensures Eval(fuel, program, globals, env, world, EmptyTestExpr(VariableExpr(name), negated))
         == (EvalResult.Value(BoolV(negated <==> !env[name].value.EmptyTree?)), world)
    ensures Eval(fuel, program, globals, env, world, EmptysTestExpr(VariableExpr(name), negated))
         == (EvalResult.Value(BoolV(negated <==> !IsEmptys(env[name].value))), world)
  {
    hide IsEmptys;
    assert Eval(fuel, program, globals, env, world, VariableExpr(name)) == (EvalResult.Value(env[name].value), world);
  }
}
