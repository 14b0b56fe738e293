/** Why the conditions of the firmware theorem are there. One program is emitted without complaint, C++
    accepts it, the interpreter finishes it, and the firmware prints something else. Three others are
    emitted without complaint and finished by the interpreter, and C++ rejects what was emitted. */
module Discrepancies {
  import opened Ast
  import opened TypeSpecs
  import opened Trees
  import opened StoreSpec
  import opened Semantics
  import opened Cpp
  import opened CppTypes
  import opened Firmware
  import opened Portability
  import opened Simulation

  function Number(i: int): Expr { LiteralExpr(IntLit(i)) }

  function Count(stop: Expr): Expr { CallExpr("number_range", [stop], []) }

  function MainOnly(body: seq<Stmt>): Logics { map["main" := Logic("main", [], [], body)] }

  function MainProgram(host: Host, body: seq<Stmt>): Program { Program(MainOnly(body), {}, host) }

  /** What the interpreter and the firmware of a program with only a main function print. */
  ghost predicate Prints(host: Host, body: seq<Stmt>, fuel: nat, source: seq<Value>, firmware: seq<Value>) {
    var program := MainProgram(host, body);
    var f := EmitLogic({"main"}, program.logics["main"]);
    && f.Ok?
    && RunLoaded(fuel, program, []).0.Value? && Printout(RunLoaded(fuel, program, []).1.output) == source
    && CRunProgram(fuel, [f.value]).0.Got? && CRunProgram(fuel, [f.value]).1 == firmware
  }

  // ---- One statement at a time ----

  lemma EmitStep(logics: set<string>, visible: set<string>, s: Stmt, ss: seq<Stmt>, c: CStmt, cs: seq<CStmt>,
                 visible': set<string>, visible'': set<string>)
    requires EmitStmt(logics, true, visible, s) == Ok((c, visible'))
    requires EmitAll(logics, true, visible', ss) == Ok((cs, visible''))
    ensures EmitAll(logics, true, visible, [s] + ss) == Ok(([c] + cs, visible''))
  {
    assert ([s] + ss)[1..] == ss;
  }

  lemma ExecStep(fuel: nat, program: Program, globals: Option<Env>, env: Env, world: World, s: Stmt, ss: seq<Stmt>)
    requires Exec(fuel, program, globals, env, world, s).completion.Normal?
    ensures var r := Exec(fuel, program, globals, env, world, s);
            ExecAll(fuel, program, globals, env, world, [s] + ss) == ExecAll(fuel, program, globals, r.env, r.world, ss)
  {
    assert ([s] + ss)[1..] == ss;
  }

  lemma CRunStep(fuel: nat, functions: seq<CFunction>, limit: nat, frames: Frames, output: seq<Value>, c: CStmt,
                 cs: seq<CStmt>)
    requires limit <= |functions| && CRun(fuel, functions, limit, frames, output, c).completion.Through?
    ensures var r := CRun(fuel, functions, limit, frames, output, c);
            CRunAll(fuel, functions, limit, frames, output, [c] + cs)
            == CRunAll(fuel, functions, limit, r.frames, r.output, cs)
  {
    assert ([c] + cs)[1..] == cs;
  }

  lemma EmitOne(logics: set<string>, visible: set<string>, e: Expr, c: CExpr)
    requires EmitExpr(logics, visible, e) == Ok(c)
    ensures EmitExprs(logics, visible, [e]) == Ok([c])
  {
    assert [e][1..] == [] && [c] + [] == [c];
    assert EmitExprs(logics, visible, []) == Ok([]);
  }

  lemma EvalOne(fuel: nat, program: Program, globals: Option<Env>, env: Env, world: World, e: Expr, v: Value)
    requires Eval(fuel, program, globals, env, world, e) == (EvalResult.Value(v), world) && !v.VoidTree?
    ensures EvalArgs(fuel, program, globals, env, world, [e]) == (Values([v]), world)
  {
    assert [e][1..] == [] && [v] + [] == [v];
    assert EvalArgs(fuel, program, globals, env, world, []) == (Values([]), world);
  }

  /** i = 5; for i in number_range(1); print i */
  const SHADOWED := [
    Assignment("i", Number(5)),
    ForStmt("l", "i", Count(Number(1)), []),
    PrintStmt(VariableExpr("i"))]

  lemma ShadowedIsEmitted(show: Stmt, loop: Stmt, first: Stmt, cshow: CStmt, cloop: CStmt, cset: CStmt)
    requires SHADOWED == [first, loop, show]
    requires cshow == CPrint(CVariable(VariableName("i")))
    requires cloop == CFor(VariableName("i"), CLiteral(IntV(0)), CLiteral(IntV(1)), CLiteral(IntV(1)), [])
    requires cset == CDeclare(false, VariableName("i"), CLiteral(IntV(5)))
    ensures EmitAll({"main"}, true, {}, SHADOWED) == Ok(([cset, cloop, cshow], {"i"}))
  {
    hide VariableName;
    var l, v := {"main"}, {"i"};
    assert {} + v == v && v + v == v;
    assert EmitStmt(l, true, v, show) == Ok((cshow, v));
    EmitStep(l, v, show, [], cshow, [], v, v);
    assert [show] + [] == [show] && [cshow] + [] == [cshow];
    assert [loop] + [show] == [loop, show] && [cloop] + [cshow] == [cloop, cshow];
    assert EmitStmt(l, true, v, loop) == Ok((cloop, v));
    assert EmitStmt(l, true, {}, first) == Ok((cset, v));
    var one := LiteralExpr(IntLit(1));
    EmitOne(l, v, one, CLiteral(IntV(1)));
    assert EmitHeader(l, v, "i", loop.iterable) == Ok(cloop);
    assert EmitAll(l, true, v, []) == Ok(([], v));
    EmitStep(l, v, loop, [show], cloop, [cshow], v, v);
    EmitStep(l, {}, first, [loop, show], cset, [cloop, cshow], v, v);
    assert [first] + [loop, show] == SHADOWED && [cset] + [cloop, cshow] == [cset, cloop, cshow];
  }

  lemma CountIsEvaluated(fuel: nat, program: Program, g: Option<Env>, env: Env, world: World)
    requires "number_range" !in program.categories
    ensures Eval(fuel, program, g, env, world, Count(Number(1))) == (EvalResult.Value(ListTree([IntV(0)])), world)
  {
    EvalOne(fuel, program, g, env, world, Number(1), IntV(1));
    assert Range(0, 1, 1) == [IntV(0)];
    assert RangeResult([IntV(1)]) == EvalResult.Value(ListTree([IntV(0)]));
    hide RangeResult;
  }

  lemma LoopExecutes(program: Program, g: Option<Env>, world: World)
    requires "number_range" !in program.categories
    ensures Exec(2, program, g, map["i" := Variable(IntV(5), "number", Unknown, false)], world, SHADOWED[1])
         == ExecResult(Normal, map["i" := Variable(IntV(0), "number", Unknown, false)], world)
  {
    var env := map["i" := Variable(IntV(5), "number", Unknown, false)];
    var env' := map["i" := Variable(IntV(0), "number", Unknown, false)];
    CountIsEvaluated(2, program, g, env, world);
    assert Reassign(env["i"], IntV(0)) == Result.Ok(env'["i"]) && env["i" := env'["i"]] == env';
    assert AssignIn(env, "i", IntV(0)) == Result.Ok(env');
    hide Eval, AssignIn;
    assert ExecFor(2, program, g, env, world, "i", [IntV(0)], []) == ExecResult(Normal, env', world);
  }

  lemma ShadowedRuns(program: Program, world: World, show: Stmt, loop: Stmt, first: Stmt)
    requires SHADOWED == [first, loop, show] && "number_range" !in program.categories
    ensures var r := ExecAll(2, program, Some(map[]), map[], world, SHADOWED);
            r.completion.Normal? && r.world.output == world.output + [Printed(IntV(0), false)]
  {
    var g := Some(map[]);
    var env := map["i" := Variable(IntV(5), "number", Unknown, false)];
    var env' := map["i" := Variable(IntV(0), "number", Unknown, false)];
    assert Exec(2, program, g, map[], world, first) == ExecResult(Normal, env, world);
    ExecStep(2, program, g, map[], world, first, [loop, show]);
    LoopExecutes(program, g, world);
    ExecStep(2, program, g, env, world, loop, [show]);
    ExecStep(2, program, g, env', world, show, []);
    assert [first] + [loop, show] == SHADOWED;
  }

  // ---- The firmware ----

  function One(): CExpr { CLiteral(IntV(1)) }

  function Loop(name: string): CStmt { CFor(name, CLiteral(IntV(0)), One(), One(), []) }

  lemma EmptyBlock(fuel: nat, functions: seq<CFunction>, frames: Frames, output: seq<Value>)
    ensures CRunBlock(fuel, functions, 0, frames, output, []) == CState(Through, frames, output)
  {
    assert (frames + [map[]])[..|frames|] == frames;
  }

  /** A counter at its bound ends the loop; one below it makes one more round. */
  lemma OneRound(fuel: nat, functions: seq<CFunction>, outer: map<string, Cell>, name: string, output: seq<Value>)
    requires fuel > 0
    ensures CRunFor(fuel, functions, 0, [outer, map[name := Cell(IntV(0), false)]], output, Loop(name))
         == CState(Through, [outer, map[name := Cell(IntV(1), false)]], output)
  {
    var before, after := [outer, map[name := Cell(IntV(0), false)]], [outer, map[name := Cell(IntV(1), false)]];
    EmptyBlock(fuel, functions, before, output);
    assert before[1][name := Cell(IntV(1), false)] == after[1];
    assert before[1 := before[1][name := Cell(IntV(1), false)]] == after;
    assert Update(before, name, IntV(1)) == Some(after);
    assert CRunFor(fuel - 1, functions, 0, after, output, Loop(name)) == CState(Through, after, output);
  }

  lemma LoopRuns(fuel: nat, functions: seq<CFunction>, outer: map<string, Cell>, name: string, output: seq<Value>)
    requires fuel > 0
    ensures CRun(fuel, functions, 0, [outer], output, Loop(name)) == CState(Through, [outer], output)
  {
    OneRound(fuel, functions, outer, name, output);
    assert [outer] + [map[name := Cell(IntV(0), false)]] == [outer, map[name := Cell(IntV(0), false)]];
    assert [outer, map[name := Cell(IntV(1), false)]][..1] == [outer];
  }

  lemma ShadowedFirmware(functions: seq<CFunction>, name: string)
    ensures var body := [CDeclare(false, name, CLiteral(IntV(5))), Loop(name), CPrint(CVariable(name))];
            CRunAll(2, functions, 0, [map[]], [], body)
                == CState(Through, [map[name := Cell(IntV(5), false)]], [IntV(5)])
  {
    var first, loop, show := CDeclare(false, name, CLiteral(IntV(5))), Loop(name), CPrint(CVariable(name));
    var outer := map[name := Cell(IntV(5), false)];
    assert [map[]][0 := map[][name := Cell(IntV(5), false)]] == [outer];
    assert CRun(2, functions, 0, [map[]], [], first) == CState(Through, [outer], []);
    CRunStep(2, functions, 0, [map[]], [], first, [loop, show]);
    LoopRuns(2, functions, outer, name, []);
    CRunStep(2, functions, 0, [outer], [], loop, [show]);
    assert CRun(2, functions, 0, [outer], [], show) == CState(Through, [outer], [IntV(5)]);
    CRunStep(2, functions, 0, [outer], [], show, []);
    assert [first] + [loop, show] == [first, loop, show] && [loop] + [show] == [loop, show] && [show] + [] == [show];
  }

  lemma MainIsEmitted(body: seq<Stmt>, emitted: seq<CStmt>, visible: set<string>)
    requires EmitAll({"main"}, true, {}, body) == Ok((emitted, visible))
    ensures EmitLogic({"main"}, MainOnly(body)["main"]) == Ok(CFunction("main", [], false, emitted + [CExit(None)]))
  {
    assert ParameterNames(MainOnly(body)["main"]) == [];
    assert (set n | n in ParameterNames(MainOnly(body)["main"])) == {};
    assert VariableNames([]) == [];
  }

  lemma NothingReturned(ss: seq<CStmt>)
    requires forall s | s in ss :: !StatementReturns(s, true)
    ensures !Returns(ss, true)
  {
    if ss != [] {
      assert forall s | s in ss[1..] :: s in ss;
      NothingReturned(ss[1..]);
    }
  }

  lemma MainRuns(body: seq<CStmt>, frames: Frames, output: seq<Value>)
    requires CRunAll(2, [CFunction("main", [], false, body + [CExit(None)])], 0, [map[]], [], body)
          == CState(Through, frames, output)
    requires forall s | s in body :: !StatementReturns(s, true)
    ensures CRunProgram(3, [CFunction("main", [], false, body + [CExit(None)])]) == (Got(VoidTree), output)
  {
    var f := CFunction("main", [], false, body + [CExit(None)]);
    RunAppended(2, [f], 0, [map[]], [], body, [CExit(None)]);
    RunExit(2, [f], 0, frames, output);
    assert BindAll([], []) == map[];
    NothingReturned(f.body);
  }

  lemma NotPortable(show: Stmt, loop: Stmt, first: Stmt)
    requires SHADOWED == [first, loop, show]
    ensures !IsPortable(MainOnly(SHADOWED))
  {
    var names := ParameterNames(MainOnly(SHADOWED)["main"]);
    var visible := set n | n in names;
    assert SHADOWED[1..] == [loop, show] && "i" in VisibleAfter(visible, first);
    assert !PortableStmt(VisibleAfter(visible, first), loop);
    assert !PortableAll(VisibleAfter(visible, first), [loop, show]);
    assert !PortableAll(visible, SHADOWED);
    assert !PortableLogic(MainOnly(SHADOWED)["main"]);
  }

  lemma ShadowedInSource(host: Host)
    requires "main" !in host.library
    ensures var (v, w) := RunLoaded(3, MainProgram(host, SHADOWED), []); v.Value? && Printout(w.output) == [IntV(0)]
  {
    var program := MainProgram(host, SHADOWED);
    MainIsRun(2, program);
    ShadowedRuns(program, World([], map["main" := []]), SHADOWED[2], SHADOWED[1], SHADOWED[0]);
    hide RunLoaded, ExecAll;
  }

  lemma ShadowedInFirmware(f: CFunction)
    requires EmitLogic({"main"}, MainOnly(SHADOWED)["main"]) == Ok(f)
    ensures CRunProgram(3, [f]) == (Got(VoidTree), [IntV(5)])
  {
    var show, loop, first := SHADOWED[2], SHADOWED[1], SHADOWED[0];
    var name := VariableName("i");
    var cshow, cloop, cset := CPrint(CVariable(name)), Loop(name), CDeclare(false, name, CLiteral(IntV(5)));
    var body := [cset, cloop, cshow];
    ShadowedIsEmitted(show, loop, first, cshow, cloop, cset);
    MainIsEmitted(SHADOWED, body, {"i"});
    hide EmitLogic, EmitAll, CRunAll, CRunProgram, VariableName;
    ShadowedFirmware([f], name);
    MainRuns(body, [map[name := Cell(IntV(5), false)]], [IntV(5)]);
  }

  lemma ShadowedCanBeEmitted()
    ensures EmitLogic({"main"}, MainOnly(SHADOWED)["main"]).Ok?
  {
    var show, loop, first := SHADOWED[2], SHADOWED[1], SHADOWED[0];
    var name := VariableName("i");
    var cshow, cloop, cset := CPrint(CVariable(name)), Loop(name), CDeclare(false, name, CLiteral(IntV(5)));
    ShadowedIsEmitted(show, loop, first, cshow, cloop, cset);
    MainIsEmitted(SHADOWED, [cset, cloop, cshow], {"i"});
  }

  lemma CheckStep(functions: seq<CFunction>, limit: nat, f: CFunction, scopes: Scopes, returned: Option<CType>,
                  c: CStmt, cs: seq<CStmt>)
    requires limit <= |functions| && Check(functions, limit, f, scopes, returned, c).Accepted?
    ensures var r := Check(functions, limit, f, scopes, returned, c);
            CheckAll(functions, limit, f, scopes, returned, [c] + cs)
            == CheckAll(functions, limit, f, r.scopes, r.returned, cs)
  {
    assert ([c] + cs)[1..] == cs;
  }

  lemma LoopIsAccepted(functions: seq<CFunction>, f: CFunction, scopes: Scopes, name: string)
    ensures Check(functions, 0, f, scopes, None, Loop(name)) == Accepted(scopes, None)
  {
    var d := Declaration(LongType, false);
    var inner := scopes + [map[name := d]];
    assert CheckBlock(functions, 0, f, inner, None, []) == Accepted(inner, None);
    assert CheckLoop(functions, 0, f, scopes, None, name, d, []) == Accepted(scopes, None);
    hide CheckLoop;
    assert TypeOf(functions, 0, scopes + [map[]], CLiteral(IntV(0))) == Some(IntType);
    assert TypeOf(functions, 0, inner, One()) == Some(IntType);
  }

  lemma ShadowedIsAccepted(f: CFunction, name: string)
    requires f == CFunction("main", [], false,
                            [CDeclare(false, name, CLiteral(IntV(5))), Loop(name), CPrint(CVariable(name))]
                                               + [CExit(None)])
    ensures Compiles([f])
  {
    var first, loop, show, end := CDeclare(false, name, CLiteral(IntV(5))), Loop(name), CPrint(CVariable(name)),
        CExit(None);
    var declared := [map[name := Declaration(IntType, false)]];
    assert BindTypes([], []) == map[];
    assert TypeOf([f], 0, [map[]], CLiteral(IntV(5))) == Some(IntType);
    assert [map[]][0 := map[][name := Declaration(IntType, false)]] == declared;
    assert Check([f], 0, f, [map[]], None, first) == Accepted(declared, None);
    LoopIsAccepted([f], f, declared, name);
    assert Visible(declared, name) == Some(Declaration(IntType, false));
    assert Check([f], 0, f, declared, None, show) == Accepted(declared, None);
    assert Check([f], 0, f, declared, None, end) == Accepted(declared, None);
    CheckStep([f], 0, f, [map[]], None, first, [loop, show, end]);
    CheckStep([f], 0, f, declared, None, loop, [show, end]);
    CheckStep([f], 0, f, declared, None, show, [end]);
    CheckStep([f], 0, f, declared, None, end, []);
    assert [first] + [loop, show, end] == f.body && [loop] + [show, end] == [loop, show, end];
    assert [show] + [end] == [show, end] && [end] + [] == [end];
    hide Check, CheckAll;
    NothingReturned(f.body);
    assert InstanceType([f], 0, Unknowns(0)) == Some(VoidType) by { assert Unknowns(0) == []; }
  }

  lemma ShadowedCompiles()
    ensures EmitLogic({"main"}, MainOnly(SHADOWED)["main"]).Ok?
    ensures Compiles([EmitLogic({"main"}, MainOnly(SHADOWED)["main"]).value])
  {
    var show, loop, first := SHADOWED[2], SHADOWED[1], SHADOWED[0];
    var name := VariableName("i");
    var cshow, cloop, cset := CPrint(CVariable(name)), Loop(name), CDeclare(false, name, CLiteral(IntV(5)));
    ShadowedIsEmitted(show, loop, first, cshow, cloop, cset);
    MainIsEmitted(SHADOWED, [cset, cloop, cshow], {"i"});
    hide EmitLogic, EmitAll, Compiles, VariableName;
    ShadowedIsAccepted(EmitLogic({"main"}, MainOnly(SHADOWED)["main"]).value, name);
  }

  /** A loop variable that is in use already: the interpreter has one variable, the firmware two. */
  lemma ShadowedLoopVariable(host: Host)
    requires "main" !in host.library
    ensures !IsPortable(MainOnly(SHADOWED)) && Prints(host, SHADOWED, 3, [IntV(0)], [IntV(5)])
    ensures Compiles([EmitLogic({"main"}, MainOnly(SHADOWED)["main"]).value])
  {
    ShadowedCanBeEmitted();
    ShadowedCompiles();
    ShadowedInFirmware(EmitLogic({"main"}, MainOnly(SHADOWED)["main"]).value);
    ShadowedInSource(host);
    hide EmitLogic, CRunProgram, EmitAll, CRunAll, RunLoaded, ExecAll;
    NotPortable(SHADOWED[2], SHADOWED[1], SHADOWED[0]);
  }

  /** return "abc" */
  const TEXT_RETURNED := [ReturnStmt(Some(LiteralExpr(StringLit("abc"))))]

  lemma TextIsEmitted()
    ensures EmitLogic({"main"}, MainOnly(TEXT_RETURNED)["main"])
         == Ok(CFunction("main", [], false, [CExit(Some(CLiteral(StringV("abc"))))] + [CExit(None)]))
  {
    var s, c := TEXT_RETURNED[0], CExit(Some(CLiteral(StringV("abc"))));
    assert EmitStmt({"main"}, true, {}, s) == Ok((c, {}));
    assert EmitAll({"main"}, true, {}, []) == Ok(([], {}));
    EmitStep({"main"}, {}, s, [], c, [], {}, {});
    assert [s] + [] == TEXT_RETURNED && [c] + [] == [c];
    hide EmitAll, EmitLogic;
    MainIsEmitted(TEXT_RETURNED, [c], {});
  }

  lemma TextIsRejected(f: CFunction)
    requires f == CFunction("main", [], false, [CExit(Some(CLiteral(StringV("abc"))))] + [CExit(None)])
    ensures !Compiles([f])
  {
    assert TypeOf([f], 0, [map[]], CLiteral(StringV("abc"))) == Some(StringType);
    assert Check([f], 0, f, [map[]], None, f.body[0]) == Rejected;
    assert BindTypes([], []) == map[] && Unknowns(0) == [];
    assert InstanceType([f], 0, Unknowns(|f.parameters|)) == None;
  }

  lemma TextIsReturned(program: Program, env: Env, world: World)
    ensures ExecAll(1, program, Some(map[]), env, world, TEXT_RETURNED)
         == ExecResult(Returned(Some(StringV("abc"))), env, world)
  {
  }

  /** A main that returns a text: C++ cannot make an exit status of it. */
  lemma TextFromMain(host: Host)
    requires "main" !in host.library
    ensures IsPortable(MainOnly(TEXT_RETURNED))
    ensures var f := EmitLogic({"main"}, MainOnly(TEXT_RETURNED)["main"]);
            f.Ok? && !Compiles([f.value])
    ensures RunLoaded(2, MainProgram(host, TEXT_RETURNED), []).0 == EvalResult.Value(StringV("abc"))
  {
    hide EmitLogic, Compiles, RunLoaded, ExecAll;
    TextIsEmitted();
    TextIsRejected(EmitLogic({"main"}, MainOnly(TEXT_RETURNED)["main"]).value);
    var program := MainProgram(host, TEXT_RETURNED);
    MainIsRun(1, program);
    TextIsReturned(program, map[], World([], map["main" := []]));
    assert ParameterNames(program.logics["main"]) == [];
  }

  // ---- Two types of returned values ----

  function Constant(literal: Literal): Expr { LiteralExpr(literal) }

  /** if true return 1; return true */
  const EITHER := [
    IfStmt("l", [IfBranch(Constant(BoolLit(true)), [ReturnStmt(Some(Constant(IntLit(1))))])], NoBody),
    ReturnStmt(Some(Constant(BoolLit(true))))]

  /** A SEP called `helper`, and a main function. */
  function WithHelper(helper: seq<Stmt>, body: seq<Stmt>): Logics {
    map["helper" := Logic("helper", [], [], helper), "main" := Logic("main", [], [], body)]
  }

  const CALL_HELPER := CallExpr("helper", [], [])

  const SEPS := {"helper", "main"}

  lemma HelperIsEmitted(inMain: bool, body: seq<Stmt>, emitted: seq<CStmt>, visible: set<string>)
    requires EmitAll(SEPS, inMain, {}, body) == Ok((emitted, visible))
    ensures var name := if inMain then "main" else "helper";
            EmitLogic(SEPS, Logic(name, [], [], body))
            == Ok(CFunction(FunctionName(name), [], !inMain && (HasReturn(body, true) || HasReturn(body, false)),
                            emitted + if inMain then [CExit(None)] else []))
  {
    hide FunctionName, HasReturn, EmitAll;
    var name := if inMain then "main" else "helper";
    var logic := Logic(name, [], [], body);
    assert ParameterNames(logic) == [] && (set n | n in ParameterNames(logic)) == {} && VariableNames([]) == [];
  }

  function EitherBody(): seq<CStmt> {
    [CIf([CBranch(CLiteral(BoolV(true)), [CReturn(Some(CLiteral(IntV(1))))])], NoElse),
     CReturn(Some(CLiteral(BoolV(true))))]
  }

  lemma EitherIsEmitted()
    ensures EmitAll(SEPS, false, {}, EITHER) == Ok((EitherBody(), {}))
  {
    var one := ReturnStmt(Some(Constant(IntLit(1))));
    var cone := CReturn(Some(CLiteral(IntV(1))));
    assert EmitStmt(SEPS, false, {}, one) == Ok((cone, {}));
    assert EmitAll(SEPS, false, {}, []) == Ok(([], {}));
    assert [one][1..] == [] && [cone] + [] == [cone];
    assert EmitAll(SEPS, false, {}, [one]) == Ok(([cone], {}));
    var b, cb := IfBranch(Constant(BoolLit(true)), [one]), CBranch(CLiteral(BoolV(true)), [cone]);
    assert EITHER[0] == IfStmt("l", [b], NoBody) && [b][1..] == [] && [cb] + [] == [cb];
    assert EmitBranches(SEPS, false, {}, []) == Ok([]);
    assert EmitBranches(SEPS, false, {}, [b]) == Ok([cb]);
    assert EmitStmt(SEPS, false, {}, EITHER[0]) == Ok((EitherBody()[0], {}));
    assert EmitStmt(SEPS, false, {}, EITHER[1]) == Ok((EitherBody()[1], {}));
    var last, clast := EITHER[1], EitherBody()[1];
    assert EITHER[1..] == [last] && [last][1..] == [] && [clast] + [] == [clast];
    assert EmitAll(SEPS, false, {}, [last]) == Ok(([clast], {}));
    assert [EitherBody()[0]] + [clast] == EitherBody();
  }

  lemma EitherIsRejected(f: CFunction, main: CFunction)
    requires f.body == EitherBody() && f.parameters == [] && f.returnsAuto && f.name != "main"
    ensures !Compiles([f, main])
  {
    var functions := [f, main];
    var scopes: Scopes := [map[]];
    var inner := scopes + [map[]];
    var one, cb := CReturn(Some(CLiteral(IntV(1)))), f.body[0].branches[0];
    assert TypeOf(functions, 0, inner, CLiteral(IntV(1))) == Some(IntType);
    assert Check(functions, 0, f, inner, None, one) == Accepted(inner, Some(IntType));
    CheckStep(functions, 0, f, inner, None, one, []);
    assert [one] + [] == cb.body;
    assert CheckBlock(functions, 0, f, scopes, None, cb.body) == Accepted(scopes, Some(IntType));
    assert f.body[0].branches[1..] == [];
    assert IsCondition(functions, 0, scopes, CLiteral(BoolV(true)));
    assert CheckBranches(functions, 0, f, scopes, None, f.body[0].branches) == Accepted(scopes, Some(IntType));
    assert Check(functions, 0, f, scopes, None, f.body[0]) == Accepted(scopes, Some(IntType));
    assert TypeOf(functions, 0, scopes, CLiteral(BoolV(true))) == Some(BoolType);
    assert Check(functions, 0, f, scopes, Some(IntType), f.body[1]) == Rejected;
    CheckStep(functions, 0, f, scopes, None, f.body[0], [f.body[1]]);
    assert [f.body[0]] + [f.body[1]] == f.body;
    assert BindTypes([], []) == map[] && Unknowns(0) == [];
    assert InstanceType(functions, 0, Unknowns(|f.parameters|)) == None;
  }

  const RETURN_HELPER := [ReturnStmt(Some(CALL_HELPER))]

  lemma ReturnIsEmitted()
    ensures EmitAll(SEPS, true, {}, RETURN_HELPER) == Ok(([CExit(Some(CCall(CalleeName("helper"), [])))], {}))
  {
    hide CalleeName;
    var c := CExit(Some(CCall(CalleeName("helper"), [])));
    assert EmitExprs(SEPS, {}, []) == Ok([]);
    assert EmitExpr(SEPS, {}, CALL_HELPER) == Ok(CCall(CalleeName("helper"), []));
    assert EmitStmt(SEPS, true, {}, RETURN_HELPER[0]) == Ok((c, {}));
    assert EmitAll(SEPS, true, {}, []) == Ok(([], {}));
    assert RETURN_HELPER[1..] == [] && [c] + [] == [c];
  }

  lemma EitherGivesOne(program: Program, g: Env, env: Env, world: World)
    ensures ExecAll(1, program, Some(g), env, world, EITHER) == ExecResult(Returned(Some(IntV(1))), env, world)
  {
    var one := ReturnStmt(Some(Constant(IntLit(1))));
    assert ExecAll(1, program, Some(g), env, world, [one]) == ExecResult(Returned(Some(IntV(1))), env, world);
    assert ExecIf(1, program, Some(g), env, world, EITHER[0], 0) == ExecResult(Returned(Some(IntV(1))), env, world);
  }

  lemma HelperReturnsOne(program: Program, g: Env, world: World)
    requires program.logics == WithHelper(EITHER, RETURN_HELPER) && IsLoaded(program)
             && world.signatures == map["main" := []]
    ensures Call(2, program, g, world, "helper", []).0 == EvalResult.Value(IntV(1))
  {
    hide ExecAll;
    var logic := program.logics["helper"];
    var entered := world.(signatures := world.signatures["helper" := []]);
    EitherGivesOne(program, g, map[], entered);
    assert BuiltinResult(program, "helper", []) == None;
    assert PrepareArguments(logic.parameters, []) == Result.Ok([]) && SignatureOf([]) == Result.Ok([]);
    assert BindParameters(map[], logic.parameters, []) == Result.Ok(map[]);
    assert EnterCall(program.logics, world, "helper", []) == Result.Ok((entered, []));
  }

  lemma EitherIsReturned(program: Program)
    requires program.logics == WithHelper(EITHER, RETURN_HELPER) && IsLoaded(program)
    ensures RunLoaded(3, program, []).0 == EvalResult.Value(IntV(1))
  {
    var world := World([], map["main" := []]);
    MainIsRun(2, program);
    HelperReturnsOne(program, map[], world);
    hide Call, RunLoaded;
    assert EvalArgs(2, program, Some(map[]), map[], world, []) == (Values([]), world);
    assert Eval(2, program, Some(map[]), map[], world, CALL_HELPER) == Call(2, program, map[], world, "helper", []);
    hide Eval;
    var r := ExecAll(2, program, Some(map[]), map[], world, RETURN_HELPER);
    assert r.completion == Returned(Some(IntV(1)));
  }

  lemma HelpersArePortable(logics: Logics)
    requires logics == WithHelper(EITHER, RETURN_HELPER)
    ensures IsPortable(logics)
  {
    forall name | name in logics
      ensures PortableLogic(logics[name])
    {
      assert ParameterNames(logics[name]) == [];
      assert EITHER[1..] == [EITHER[1]] && EITHER[1..][1..] == [] && RETURN_HELPER[1..] == [];
    }
  }

  /** A SEP that returns a number on one path and a truth value on the other: C++ deduces two types. */
  lemma TwoReturnTypes(program: Program)
    requires program.logics == WithHelper(EITHER, RETURN_HELPER) && IsLoaded(program)
    ensures IsPortable(program.logics) && RunLoaded(3, program, []).0 == EvalResult.Value(IntV(1))
    ensures var (helper, main) := (EmitLogic(SEPS, program.logics["helper"]), EmitLogic(SEPS, program.logics["main"]));
            helper.Ok? && main.Ok? && !Compiles([helper.value, main.value])
  {
    hide RunLoaded, Compiles, EmitAll, EmitLogic, FunctionName;
    HelpersArePortable(program.logics);
    EitherIsReturned(program);
    EitherIsEmitted();
    ReturnIsEmitted();
    HelperIsEmitted(false, EITHER, EitherBody(), {});
    HelperIsEmitted(true, RETURN_HELPER, [CExit(Some(CCall(CalleeName("helper"), [])))], {});
    assert FunctionName("helper")[0] == 's' by { SepNames("helper"); }
    assert StatementHasReturn(EITHER[1], true) && HasReturn(EITHER, true) by { EitherReturns(); }
    var helper := EmitLogic(SEPS, program.logics["helper"]).value;
    assert EitherBody() + [] == EitherBody();
    EitherIsRejected(helper, EmitLogic(SEPS, program.logics["main"]).value);
  }

  lemma SepNames(name: string)
    requires name != "main"
    ensures FunctionName(name) != "" && FunctionName(name)[0] == 's'
  {
  }

  lemma EitherReturns()
    ensures StatementHasReturn(EITHER[1], true) && HasReturn(EITHER, true)
  {
    assert EITHER[1..] == [EITHER[1]];
    assert HasReturn(EITHER[1..], true);
  }

  // ---- A call of main ----

  const CALL_MAIN := [ExpressionStmt(CallExpr("main", [], []))]

  lemma CallIsEmitted()
    ensures EmitAll(SEPS, false, {}, CALL_MAIN) == Ok(([CDo(CCall(CalleeName("main"), []))], {}))
    ensures EmitAll(SEPS, true, {}, []) == Ok(([], {}))
  {
    hide CalleeName;
    var c := CDo(CCall(CalleeName("main"), []));
    assert EmitExprs(SEPS, {}, []) == Ok([]);
    assert EmitExpr(SEPS, {}, CALL_MAIN[0].expression) == Ok(CCall(CalleeName("main"), []));
    assert EmitStmt(SEPS, false, {}, CALL_MAIN[0]) == Ok((c, {}));
    assert EmitAll(SEPS, false, {}, []) == Ok(([], {}));
    assert CALL_MAIN[1..] == [] && [c] + [] == [c];
  }

  lemma CallIsRejected(main: CFunction, f: CFunction)
    requires main.name == "main" && f.parameters == [] && f.body == [CDo(CCall(CalleeName("main"), []))]
    ensures !Compiles([main, f])
  {
    var functions := [main, f];
    assert CalleeName("main")[0] == 's';
    assert functions[0].name == "main" != CalleeName("main");
    assert Declared(functions, 0, CalleeName("main")) == None;
    assert Declared(functions, 1, CalleeName("main")) == None;
    hide CalleeName;
    assert TypeOf(functions, 1, [map[]], f.body[0].expression) == None;
    assert Check(functions, 1, f, [map[]], None, f.body[0]) == Rejected;
    assert BindTypes([], []) == map[] && Unknowns(0) == [];
    assert InstanceType(functions, 1, Unknowns(|functions[1].parameters|)) == None;
  }

  lemma NothingIsRun(program: Program)
    requires program.logics == WithHelper(CALL_MAIN, []) && IsLoaded(program)
    ensures IsPortable(program.logics)
            && RunLoaded(1, program, []) == (EvalResult.Value(VoidTree), World([], map["main" := []]))
  {
    MainIsRun(0, program);
    hide RunLoaded;
    forall name | name in program.logics
      ensures PortableLogic(program.logics[name])
    {
      assert ParameterNames(program.logics[name]) == [] && CALL_MAIN[1..] == [];
    }
  }

  /** A SEP that calls main, even if it is never called: C++ has no function of that name. */
  lemma CallOfMain(program: Program)
    requires program.logics == WithHelper(CALL_MAIN, []) && IsLoaded(program)
    ensures IsPortable(program.logics) && RunLoaded(1, program, []).0 == EvalResult.Value(VoidTree)
    ensures var (helper, main) := (EmitLogic(SEPS, program.logics["helper"]), EmitLogic(SEPS, program.logics["main"]));
            helper.Ok? && main.Ok? && !Compiles([main.value, helper.value])
  {
    hide RunLoaded, Compiles, EmitAll, EmitLogic, CalleeName;
    NothingIsRun(program);
    CallIsEmitted();
    HelperIsEmitted(false, CALL_MAIN, [CDo(CCall(CalleeName("main"), []))], {});
    HelperIsEmitted(true, [], [], {});
    assert [CDo(CCall(CalleeName("main"), []))] + [] == [CDo(CCall(CalleeName("main"), []))];
    CallIsRejected(EmitLogic(SEPS, program.logics["main"]).value, EmitLogic(SEPS, program.logics["helper"]).value);
  }

  // ---- Division ----

  /** Rounding down and rounding towards zero differ by one where the signs differ and something remains. */
  lemma RoundingDiffers(a: int, b: int)
    requires b != 0
    ensures FloorDivide(a, b) == Truncated(a, b) <==> a % b == 0 || (a < 0 <==> b < 0)
  {
    if b > 0 {
      QuotientOf(a, b);
      QuotientOf(-a, b);
    } else {
      QuotientOf(-a, -b);
      QuotientOf(a, -b);
      SameRemainder(a, b);
    }
  }

  lemma QuotientOf(a: int, b: int)
    requires b > 0
    ensures a == b * (a / b) + a % b && 0 <= a % b < b
    ensures a % b == 0 <==> (-a) % b == 0
    ensures a % b == 0 ==> (-a) / b == -(a / b)
    ensures a % b != 0 ==> (-a) / b == -(a / b) - 1
  {
    var q, r := a / b, a % b;
    assert -a == b * (-q) - r;
    if r == 0 {
      UniqueQuotient(-a, b, -q, 0);
    } else {
      assert -a == b * (-q - 1) + (b - r);
      UniqueQuotient(-a, b, -q - 1, b - r);
    }
  }

  lemma UniqueQuotient(a: int, b: int, q: int, r: int)
    requires b > 0 && a == b * q + r && 0 <= r < b
    ensures a / b == q && a % b == r
  {
    var d := q - a / b;
    assert b * d == a % b - r;
    ProductIsFar(b, d);
  }

  lemma ProductIsFar(b: int, d: int)
    requires b > 0
    ensures (d >= 1 ==> b * d >= b) && (d <= -1 ==> b * d <= -b)
  {
    if d >= 1 {
      assert b * (d - 1) >= 0;
    } else if d <= -1 {
      assert b * (-d - 1) >= 0;
    }
  }

  lemma SameRemainder(a: int, b: int)
    requires b < 0
    ensures a % b == a % (-b)
  {
  }

  lemma DivisionResults(a: int, b: int)
    requires b != 0
    ensures BinaryResult("//", IntV(a), IntV(b)) == EvalResult.Value(IntV(FloorDivide(a, b)))
    ensures BinaryResult("%", IntV(a), IntV(b)) == EvalResult.Value(IntV(a - b * FloorDivide(a, b)))
  {
  }

  /** Firmware divides integers towards zero, and the interpreter rounds down: the two agree on `//` and on
      `%` if and only if nothing remains or both operands have the same sign. -7 // 2 is -3 in firmware, and -4
      for the interpreter. */
  lemma DivisionTruncates(logics: set<string>, visible: set<string>, l: Expr, r: Expr, a: int, b: int)
    requires EmitExpr(logics, visible, l).Ok? && EmitExpr(logics, visible, r).Ok? && b != 0
    ensures var c := EmitExpr(logics, visible, BinaryExpr(l, "//", r));
            && c.Ok? && c.value.CLibrary? && CRoutine(c.value.routine, a, b).Some?
            && (BinaryResult("//", IntV(a), IntV(b)) == EvalResult.Value(IntV(CRoutine(c.value.routine, a, b).value))
                <==> a % b == 0 || (a < 0 <==> b < 0))
    ensures var c := EmitExpr(logics, visible, BinaryExpr(l, "%", r));
            && c.Ok? && c.value.CLibrary? && CRoutine(c.value.routine, a, b).Some?
            && (BinaryResult("%", IntV(a), IntV(b)) == EvalResult.Value(IntV(CRoutine(c.value.routine, a, b).value))
                <==> a % b == 0 || (a < 0 <==> b < 0))
  {
    DivisionIsEmitted(logics, visible, l, r);
    RoundingDiffers(a, b);
    DivisionResults(a, b);
    hide Truncated, FloorDivide, BinaryResult, EmitExpr;
    SameProduct(b, FloorDivide(a, b), Truncated(a, b));
  }

  lemma DivisionIsEmitted(logics: set<string>, visible: set<string>, l: Expr, r: Expr)
    requires EmitExpr(logics, visible, l).Ok? && EmitExpr(logics, visible, r).Ok?
    ensures EmitExpr(logics, visible, BinaryExpr(l, "//", r))
         == Ok(CLibrary("floor", EmitExpr(logics, visible, l).value, EmitExpr(logics, visible, r).value))
    ensures EmitExpr(logics, visible, BinaryExpr(l, "%", r))
         == Ok(CLibrary("fmod", EmitExpr(logics, visible, l).value, EmitExpr(logics, visible, r).value))
  {
  }

  lemma QuotientTimesDivisor(a: int, b: int, q: int, r: int)
    requires a == b * q + r
    ensures b * q == a <==> r == 0
    ensures (-b) * (-q) == b * q && b * (-q) == -(b * q)
  {
  }

  lemma WholeQuotient(a: int, b: int)
    requires b != 0
    ensures b * Truncated(a, b) == a <==> a % b == 0
  {
    var (m, d) := (if a < 0 then -a else a, if b < 0 then -b else b);
    QuotientOf(m, d);
    QuotientTimesDivisor(m, d, m / d, m % d);
    if b < 0 { SameRemainder(a, b); }
    assert a % b == a % d && (a % d == 0 <==> m % d == 0);
    assert Truncated(a, b) == if (a < 0) == (b < 0) then m / d else -(m / d);
    hide Truncated;
  }

  /** C++ divides integers without a remainder where the interpreter gives the exact quotient: firmware gives back
      the dividend of `/` if and only if nothing remains. 7 / 2 is 3 in firmware, and 3.5 for the interpreter. */
  lemma QuotientsAreTruncated(logics: set<string>, visible: set<string>, l: Expr, r: Expr, a: int, b: int)
    requires EmitExpr(logics, visible, l).Ok? && EmitExpr(logics, visible, r).Ok? && b != 0
    ensures EmitExpr(logics, visible, BinaryExpr(l, "/", r))
         == Ok(CBinary(EmitExpr(logics, visible, l).value, "/", EmitExpr(logics, visible, r).value))
    ensures b * Truncated(a, b) == a <==> a % b == 0
  {
    WholeQuotient(a, b);
    hide Truncated;
    QuotientsAreEmitted(logics, visible, l, r);
  }

  lemma QuotientsAreEmitted(logics: set<string>, visible: set<string>, l: Expr, r: Expr)
    requires EmitExpr(logics, visible, l).Ok? && EmitExpr(logics, visible, r).Ok?
    ensures EmitExpr(logics, visible, BinaryExpr(l, "/", r))
         == Ok(CBinary(EmitExpr(logics, visible, l).value, "/", EmitExpr(logics, visible, r).value))
  {
    var (c, d) := (EmitExpr(logics, visible, l).value, EmitExpr(logics, visible, r).value);
    assert EmitOperator(c, "/", d) == Ok(CBinary(c, "/", d));
    hide EmitOperator;
    assert EmitExpr(logics, visible, BinaryExpr(l, "/", r)) == EmitOperator(c, "/", d);
  }

  /** `**` becomes repeated multiplication. */
  lemma PowersAreEmitted(logics: set<string>, visible: set<string>, l: Expr, r: Expr, a: int, n: nat)
    requires EmitExpr(logics, visible, l).Ok? && EmitExpr(logics, visible, r).Ok?
    ensures var c := EmitExpr(logics, visible, BinaryExpr(l, "**", r));
            && c.Ok? && c.value.CLibrary? && CRoutine(c.value.routine, a, 0) == Some(1)
            && CRoutine(c.value.routine, a, n).Some?
            && CRoutine(c.value.routine, a, n + 1) == Some(a * CRoutine(c.value.routine, a, n).value)
  {
  }

  lemma SameProduct(b: int, f: int, t: int)
    requires b != 0
    ensures b * f == b * t <==> f == t
  {
    if b > 0 {
      ProductIsFar(b, f - t);
      assert b * (f - t) == b * f - b * t;
    } else {
      ProductIsFar(-b, f - t);
      assert (-b) * (f - t) == b * t - b * f;
    }
  }
}
