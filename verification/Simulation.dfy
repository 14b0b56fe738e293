/** The emitted C++ prints what the SEP program prints. Whenever the interpreter finishes
    a portable program without an error, so does its firmware, with the same values on
    the output, in the same order. */
module Simulation {
  import opened Ast
  import opened TypeSpecs
  import opened Trees
  import opened StoreSpec
  import opened Semantics
  import opened Cpp
  import opened CppTypes
  import Safety = CppSafety
  import opened Firmware
  import opened Portability
  import opened FrameAgreement

  /** The firmware of a program: the SEPs in the order of emission, and what became of each. */
  datatype Build = Build(program: Program, order: seq<string>, functions: seq<CFunction>)

  /** Callees come before their callers. */
  ghost predicate CalleesFirst(logics: Logics, order: seq<string>) {
    && (forall i | 0 <= i < |order| :: order[i] in logics)
    && (forall i, j | 0 <= i < j < |order| :: order[i] != order[j])
    && (forall i | 0 <= i < |order| :: Callees(logics, order[i]) <= set n | n in order[..i])
  }

  ghost predicate IsBuild(f: Build) {
    && IsLoaded(f.program)
    && |f.functions| == |f.order|
    && CalleesFirst(f.program.logics, f.order)
    && (forall i | 0 <= i < |f.order| ::
          EmitLogic(f.program.logics.Keys, f.program.logics[f.order[i]]) == Ok(f.functions[i]))
  }

  ghost predicate IsPortable(logics: Logics) {
    forall name | name in logics :: PortableLogic(logics[name])
  }

  /** `limit` functions are declared so far, and main is not among them. */
  ghost predicate Within(f: Build, limit: nat) {
    && IsBuild(f) && IsPortable(f.program.logics)
    && (forall i | 0 <= i < |f.functions| :: ReturnsProperly(f.functions[i].body))
    && limit <= |f.order|
    && (forall i | 0 <= i < limit :: f.order[i] != "main")
  }

  ghost predicate CallsDeclared(f: Build, limit: nat, calls: set<string>) {
    limit <= |f.order| && forall c | c in calls && c in f.program.logics :: c in f.order[..limit]
  }

  /** Both output streams end up on the one output of the board. */
  function Printout(output: seq<Printed>): seq<Value> {
    seq(|output|, i requires 0 <= i < |output| => output[i].value)
  }

  lemma PrintoutAppends(output: seq<Printed>, p: Printed)
    ensures Printout(output + [p]) == Printout(output) + [p.value]
  {
  }

  lemma WithinCounts(f: Build, limit: nat)
    requires Within(f, limit)
    ensures limit <= |f.order| == |f.functions|
  {
  }

  /** What a simulated statement can rely on without looking further. */
  lemma Starting(f: Build, limit: nat, visible: set<string>, frozen: set<string>, env: Env, frames: Frames)
    requires Within(f, limit) && Agrees(visible, frozen, env, frames)
    ensures limit <= |f.order| == |f.functions|
    ensures frames != [] && Grows(frames, frames)
  {
  }

  // ---- Finding the called function ----

  lemma NamesAreIdentifiers(f: Build, limit: nat, i: nat)
    requires Within(f, limit) && i < limit
    ensures IsIdentifier(f.order[i]) && i < |f.functions| && f.functions[i].name == CalleeName(f.order[i])
  {
    hide Identifier;
    hide EmitAll;
    hide IsIdentifier;
    hide CalleeName;
    assert PortableLogic(f.program.logics[f.order[i]]);
  }

  lemma {:induction false} CalleeIsDeclared(f: Build, limit: nat, callee: string) returns (j: nat)
    requires Within(f, limit) && callee in f.order[..limit]
    ensures j < limit && f.order[j] == callee && Declared(f.functions, limit, CalleeName(callee)) == Some(j)
    decreases limit
  {
    hide Identifier;
    hide CalleeName;
    hide IsIdentifier;
    hide EmitLogic;
    hide PortableLogic;
    var last := limit - 1;
    NamesAreIdentifiers(f, limit, last);
    if f.order[last] == callee {
      j := last;
    } else {
      var k :| 0 <= k < limit && f.order[k] == callee;
      NamesAreIdentifiers(f, limit, k);
      NamesAreInjective(f.order[last], callee);
      j := CalleeIsDeclared(f, last, callee);
    }
  }

  // ---- Expressions ----

  /** What an emitted expression can evaluate to: a call may also give nothing. */
  predicate IsPlain(v: Value) { v.VoidTree? || IsBasic(v) }

  predicate ArePlain(vs: seq<Value>) { forall i | 0 <= i < |vs| :: IsPlain(vs[i]) }

  lemma {:induction false} SimulateExpr(f: Build, fuel: nat, limit: nat, globals: Option<Env>, visible: set<string>,
                                        frozen: set<string>, env: Env, frames: Frames, world: World, e: Expr, c: CExpr)
    requires Within(f, limit) && Agrees(visible, frozen, env, frames)
    requires PortableExpr(e) && CallsDeclared(f, limit, CallsIn(e))
    requires EmitExpr(f.program.logics.Keys, visible, e) == Ok(c)
    requires Eval(fuel, f.program, globals, env, world, e).0.Value?
    ensures var (v, w) := Eval(fuel, f.program, globals, env, world, e);
            && IsPlain(v.value)
            && CEval(fuel, f.functions, limit, frames, Printout(world.output), c) == (Got(v.value), Printout(w.output))
    decreases fuel, 1, e, 1
  {
    hide EvalBinary, Call, CallFunction, ListResult, IndexResult, NameResult, EmitOperator;
    hide VariableName;
    hide CalleeName;
    hide Agrees;
    hide Within;
    match e
    case LiteralExpr(_) =>
    case VariableExpr(name) =>
      VisibleValue(visible, frozen, env, frames, name);
      VisibleResult(f.program, globals, env, name);
    case GroupExpr(inner) => SimulateExpr(f, fuel, limit, globals, visible, frozen, env, frames, world, inner, c.inner);
    case UnaryExpr(_, operand) =>
      SimulateExpr(f, fuel, limit, globals, visible, frozen, env, frames, world, operand, c.operand);
    case BinaryExpr(_, _, _) => SimulateBinary(f, fuel, limit, globals, visible, frozen, env, frames, world, e, c);
    case CallExpr(callee, arguments, _) =>
      assert CallsDeclared(f, limit, CallsInAll(arguments));
      SimulateArgs(f, fuel, limit, globals, visible, frozen, env, frames, world, arguments, c.arguments);
      var (vs, w) := EvalArgs(fuel, f.program, globals, env, world, arguments);
      assert callee in CallsIn(e);
      var j := CalleeIsDeclared(f, limit, callee);
      WithinSmaller(f, limit, j);
      NotBuiltin(f, limit, callee);
      CallsTakeValues(fuel, f.program, GlobalsOf(globals, env), w, callee, vs.values);
      SimulateCall(f, fuel, j, GlobalsOf(globals, env), w, vs.values);
    case _ =>
  }

  lemma VisibleValue(visible: set<string>, frozen: set<string>, env: Env, frames: Frames, name: string)
    requires Agrees(visible, frozen, env, frames) && name in visible
    ensures name in env && IsBasic(env[name].value) && Find(frames, VariableName(name)).Some?
    ensures Find(frames, VariableName(name)).value.value == env[name].value
  {
    assert VisibleAgrees(frozen, env, frames, name);
  }

  lemma CallsTakeValues(fuel: nat, program: Program, globals: Env, world: World, callee: string, arguments: seq<Value>)
    requires Call(fuel, program, globals, world, callee, arguments).0.Value?
    ensures VoidTree !in arguments
  {
  }

  lemma VisibleResult(program: Program, globals: Option<Env>, env: Env, name: string)
    requires name in env
    ensures NameResult(program, globals, env, name) == EvalResult.Value(env[name].value)
  {
  }

  lemma NotBuiltin(f: Build, limit: nat, callee: string)
    requires Within(f, limit) && callee in f.program.logics
    ensures !IsBuiltin(f.program.host, callee) && callee !in f.program.categories
    ensures callee !in SHAPE_OPERATIONS && callee !in RANGES
  {
  }

  lemma WithinSmaller(f: Build, limit: nat, j: nat)
    requires Within(f, limit) && j < limit
    ensures Within(f, j) && j < |f.order| && f.order[j] != "main"
  {
  }

  /** An operator that is emitted as such makes a value of both languages of two such values. */
  lemma OperatorsAgree(operator: string, l: Value, r: Value)
    requires operator in {"+", "-", "*", "==", "!=", "<", "<=", ">", ">="} && IsBasic(l) && IsBasic(r)
    requires BinaryResult(operator, l, r).Value?
    ensures IsBasic(BinaryResult(operator, l, r).value)
    ensures CBinaryValue(operator, l, r) == Some(BinaryResult(operator, l, r).value)
  {
  }

  lemma {:induction false} SimulateBinary(f: Build, fuel: nat, limit: nat, globals: Option<Env>, visible: set<string>,
                                          frozen: set<string>, env: Env, frames: Frames, world: World, e: Expr,
                                              c: CExpr)
    requires Within(f, limit) && Agrees(visible, frozen, env, frames)
    requires e.BinaryExpr? && PortableExpr(e) && CallsDeclared(f, limit, CallsIn(e))
    requires EmitExpr(f.program.logics.Keys, visible, e) == Ok(c)
    requires Eval(fuel, f.program, globals, env, world, e).0.Value?
    ensures var (v, w) := Eval(fuel, f.program, globals, env, world, e);
            && IsPlain(v.value)
            && CEval(fuel, f.functions, limit, frames, Printout(world.output), c) == (Got(v.value), Printout(w.output))
    decreases fuel, 1, e, 0
  {
    hide VariableName;
    hide CalleeName;
    hide Agrees;
    hide Within;
    hide BinaryResult;
    var (left, right) := (e.left, e.right);
    assert CallsDeclared(f, limit, CallsIn(left)) && CallsDeclared(f, limit, CallsIn(right));
    EmittedOperator(f.program.logics.Keys, visible, e, c);
    SimulateExpr(f, fuel, limit, globals, visible, frozen, env, frames, world, left, c.left);
    var (l, w) := Eval(fuel, f.program, globals, env, world, left);
    var (r, _) := Eval(fuel, f.program, globals, env, w, right);
    hide Eval, CEval;
    if r.Value? {
      SimulateExpr(f, fuel, limit, globals, visible, frozen, env, frames, w, right, c.right);
    }
    WithinCounts(f, limit);
    SimulateOperator(f, fuel, limit, globals, env, frames, world, e, c);
  }

  lemma EmittedOperator(logics: set<string>, visible: set<string>, e: Expr, c: CExpr)
    requires e.BinaryExpr? && PortableExpr(e) && EmitExpr(logics, visible, e) == Ok(c)
    ensures c.CBinary? && c.operator == e.operator
    ensures e.operator in {"&&", "||", "+", "-", "*", "==", "!=", "<", "<=", ">", ">="}
    ensures EmitExpr(logics, visible, e.left) == Ok(c.left) && EmitExpr(logics, visible, e.right) == Ok(c.right)
  {
  }

  /** The operator itself, once both operands are known to agree. */
  lemma SimulateOperator(f: Build, fuel: nat, limit: nat, globals: Option<Env>, env: Env, frames: Frames, world: World,
                         e: Expr, c: CExpr)
    requires limit <= |f.functions| && e.BinaryExpr? && c.CBinary? && c.operator == e.operator
    requires e.operator in {"&&", "||", "+", "-", "*", "==", "!=", "<", "<=", ">", ">="}
    requires Eval(fuel, f.program, globals, env, world, e).0.Value?
    requires var (l, w) := Eval(fuel, f.program, globals, env, world, e.left);
             && l.Value? && IsPlain(l.value)
             && CEval(fuel, f.functions, limit, frames, Printout(world.output), c.left)
                == (Got(l.value), Printout(w.output))
             && var (r, w') := Eval(fuel, f.program, globals, env, w, e.right);
                r.Value? ==>
                  && IsPlain(r.value)
                  && CEval(fuel, f.functions, limit, frames, Printout(w.output), c.right)
                     == (Got(r.value), Printout(w'.output))
    ensures var (v, w) := Eval(fuel, f.program, globals, env, world, e);
            && IsPlain(v.value)
            && CEval(fuel, f.functions, limit, frames, Printout(world.output), c) == (Got(v.value), Printout(w.output))
  {
    hide BinaryResult, CBinaryValue, Printout;
    var (l, w) := Eval(fuel, f.program, globals, env, world, e.left);
    var (r, w') := Eval(fuel, f.program, globals, env, w, e.right);
    assert Eval(fuel, f.program, globals, env, world, e) == EvalBinary(fuel, f.program, globals, env, world, e);
    if e.operator != "&&" && e.operator != "||" {
      OperatorsAgree(e.operator, l.value, r.value);
    }
  }

  lemma {:induction false} SimulateArgs(f: Build, fuel: nat, limit: nat, globals: Option<Env>, visible: set<string>,
                                        frozen: set<string>, env: Env, frames: Frames, world: World, es: seq<Expr>,
                                        cs: seq<CExpr>)
    requires Within(f, limit) && Agrees(visible, frozen, env, frames)
    requires PortableExprs(es) && CallsDeclared(f, limit, CallsInAll(es))
    requires EmitExprs(f.program.logics.Keys, visible, es) == Ok(cs)
    requires EvalArgs(fuel, f.program, globals, env, world, es).0.Values?
    ensures var (vs, w) := EvalArgs(fuel, f.program, globals, env, world, es);
            && ArePlain(vs.values)
            && CEvalArgs(fuel, f.functions, limit, frames, Printout(world.output), cs)
            == (GotAll(vs.values), Printout(w.output))
    decreases fuel, 1, es, 0
  {
    hide VariableName;
    if es != [] {
      assert CallsDeclared(f, limit, CallsIn(es[0])) && CallsDeclared(f, limit, CallsInAll(es[1..]));
      SimulateExpr(f, fuel, limit, globals, visible, frozen, env, frames, world, es[0], cs[0]);
      var (v, w) := Eval(fuel, f.program, globals, env, world, es[0]);
      SimulateArgs(f, fuel, limit, globals, visible, frozen, env, frames, w, es[1..], cs[1..]);
    }
  }

  // ---- Calls ----

  /** Preparing a value that C++ has as well leaves it as it is. */
  lemma {:induction false} PreparedAsTheyAre(parameters: seq<Parameter>, arguments: seq<Value>)
    requires |parameters| == |arguments| && forall i | 0 <= i < |arguments| :: IsBasic(arguments[i])
    requires PrepareArguments(parameters, arguments).Ok?
    ensures PrepareArguments(parameters, arguments).value == arguments
    decreases |parameters|
  {
    if parameters != [] {
      assert PrepareArgument(parameters[0], arguments[0]) == Result.Ok(arguments[0]);
      PreparedAsTheyAre(parameters[1..], arguments[1..]);
      assert [arguments[0]] + arguments[1..] == arguments;
    }
  }

  /** One parameter, whether it is declared or not. */
  lemma BindsOne(env: Env, p: Parameter, argument: Value)
    requires IsBasic(argument) && p.name !in env
    ensures var bound := if p.declared.None? then AssignIn(env, p.name, argument)
                         else DefineIn(env, p.name, p.declared.value, argument, false);
            bound.Ok? ==>
              && p.name in bound.value && bound.value == env[p.name := bound.value[p.name]]
              && Holds(bound.value[p.name], argument) && !bound.value[p.name].constant
  {
  }

  lemma {:induction false} BindParametersGives(env: Env, parameters: seq<Parameter>, arguments: seq<Value>, env': Env)
    requires |parameters| == |arguments| && forall i | 0 <= i < |arguments| :: IsBasic(arguments[i])
    requires forall i, j | 0 <= i < j < |parameters| :: parameters[i].name != parameters[j].name
    requires forall i | 0 <= i < |parameters| :: parameters[i].name !in env
    requires BindParameters(env, parameters, arguments) == Result.Ok(env')
    ensures forall i | 0 <= i < |parameters| ::
              parameters[i].name in env' && Holds(env'[parameters[i].name], arguments[i])
              && !env'[parameters[i].name].constant
    ensures forall n | n in env :: n in env' && env'[n] == env[n]
    decreases |parameters|
  {
    if parameters != [] {
      hide AssignIn, DefineIn;
      var p := parameters[0];
      BindsOne(env, p, arguments[0]);
      var bound := (if p.declared.None? then AssignIn(env, p.name, arguments[0])
                    else DefineIn(env, p.name, p.declared.value, arguments[0], false)).value;
      BindParametersGives(bound, parameters[1..], arguments[1..], env');
      forall i | 0 <= i < |parameters|
        ensures parameters[i].name in env' && Holds(env'[parameters[i].name], arguments[i])
        ensures !env'[parameters[i].name].constant
      {
        if i > 0 {
          assert parameters[1..][i - 1] == parameters[i] && arguments[1..][i - 1] == arguments[i];
        } else {
          assert p.name in bound;
        }
      }
    }
  }

  lemma {:induction false} BindAllGives(names: seq<string>, values: seq<Value>)
    requires |names| == |values|
    requires forall i, j | 0 <= i < j < |names| :: names[i] != names[j]
    ensures BindAll(names, values).Keys == set n | n in names
    ensures forall i | 0 <= i < |names| :: BindAll(names, values)[names[i]] == Cell(values[i], false)
  {
    if names != [] {
      BindAllGives(names[..|names| - 1], values[..|names| - 1]);
    }
  }

  /** The first frame of a C++ function agrees with the first environment of the call. */
  lemma AgreesOnEntry(logic: Logic, arguments: seq<Value>, env: Env, names: seq<string>)
    requires PortableLogic(logic) && |arguments| == |logic.parameters| == |names|
    requires forall i | 0 <= i < |arguments| :: IsBasic(arguments[i])
    requires BindParameters(map[], logic.parameters, arguments) == Result.Ok(env)
    requires forall i | 0 <= i < |names| :: names[i] == VariableName(logic.parameters[i].name)
    ensures Agrees(set n | n in ParameterNames(logic), {}, env, [BindAll(names, arguments)])
  {
    hide VariableName;
    var sources := ParameterNames(logic);
    var frames := [BindAll(names, arguments)];
    forall i, j | 0 <= i < j < |sources|
      ensures names[i] != names[j] && logic.parameters[i].name != logic.parameters[j].name
    {
      assert sources[i] != sources[j];
      NamesAreInjective(sources[i], sources[j]);
    }
    BindParametersGives(map[], logic.parameters, arguments, env);
    BindAllGives(names, arguments);
    forall x | x in sources
      ensures IsIdentifier(x) && VisibleAgrees({}, env, frames, x)
    {
      var i :| 0 <= i < |sources| && sources[i] == x;
      assert names[i] == VariableName(x) && logic.parameters[i].name == x;
    }
    var visible := set n | n in sources;
    forall i, n | 0 <= i < |frames| && n in frames[i]
      ensures IsNameOf(visible, n)
    {
      var k :| 0 <= k < |names| && names[k] == n;
      assert sources[k] in visible && n == VariableName(sources[k]);
    }
  }

  lemma EmittedParameters(logics: set<string>, logic: Logic, emitted: CFunction)
    requires EmitLogic(logics, logic) == Ok(emitted)
    ensures |emitted.parameters| == |logic.parameters|
    ensures forall i | 0 <= i < |logic.parameters| :: emitted.parameters[i] == VariableName(logic.parameters[i].name)
  {
    hide VariableName;
  }

  lemma BodyIsDeclared(f: Build, j: nat)
    requires Within(f, j) && j < |f.order|
    ensures j < |f.functions| && f.order[j] in f.program.logics
    ensures var logic := f.program.logics[f.order[j]];
            && logic.name == f.order[j]
            && PortableLogic(logic) && EmitLogic(f.program.logics.Keys, logic) == Ok(f.functions[j])
            && CallsDeclared(f, j, CallsInStatements(logic.body))
  {
    hide EmitLogic;
    hide PortableLogic;
    var name := f.order[j];
    forall c | c in CallsInStatements(f.program.logics[name].body) && c in f.program.logics
      ensures c in f.order[..j]
    {
      assert c in Callees(f.program.logics, name);
    }
  }

  lemma {:induction false} SimulateCall(f: Build, fuel: nat, j: nat, globals: Env, world: World, arguments: seq<Value>)
    requires Within(f, j) && j < |f.order| && f.order[j] != "main" && ArePlain(arguments)
    requires Call(fuel, f.program, globals, world, f.order[j], arguments).0.Value?
    ensures var (v, w) := Call(fuel, f.program, globals, world, f.order[j], arguments);
            && IsPlain(v.value)
            && CallFunction(fuel, f.functions, j, Printout(world.output), arguments)
               == (Got(v.value), Printout(w.output))
    decreases fuel, 0, 0, 1
  {
    hide VariableName;
    hide FunctionName;
    hide Agrees;
    hide Within;
    hide PortableLogic;
    hide PrepareArguments;
    hide BindParameters;
    hide ExecAll;
    hide Recorded;
    hide SignatureOf;
    BodyIsDeclared(f, j);
    var name := f.order[j];
    var logic := f.program.logics[name];
    NotBuiltin(f, j, name);
    NothingIsPassed(arguments);
    var entered := EnterCall(f.program.logics, world, name, arguments).value;
    EnteredAsItIs(f.program.logics, world, name, arguments);
    PreparedAsTheyAre(logic.parameters, arguments);
    var env := BindParameters(map[], logic.parameters, arguments).value;
    var names := f.functions[j].parameters;
    EmittedParameters(f.program.logics.Keys, logic, f.functions[j]);
    AgreesOnEntry(logic, arguments, env, names);
    SimulateBody(f, fuel - 1, j, globals, env, [BindAll(names, arguments)], entered.0);
  }

  /** VOID cannot be passed on. */
  lemma NothingIsPassed(arguments: seq<Value>)
    requires ArePlain(arguments) && VoidTree !in arguments
    ensures forall i | 0 <= i < |arguments| :: IsBasic(arguments[i])
  {
    forall i | 0 <= i < |arguments|
      ensures IsBasic(arguments[i])
    {
      assert arguments[i] in arguments;
    }
  }

  lemma EnteredAsItIs(logics: Logics, world: World, callee: string, arguments: seq<Value>)
    requires EnterCall(logics, world, callee, arguments).Ok?
    ensures callee in logics && |arguments| == |logics[callee].parameters|
    ensures PrepareArguments(logics[callee].parameters, arguments)
         == Result.Ok(EnterCall(logics, world, callee, arguments).value.1)
    ensures EnterCall(logics, world, callee, arguments).value.0.output == world.output
  {
  }

  /** Main leaves with a value that is no exit status. */
  ghost predicate LeavesBadly(inMain: bool, c: Completion) {
    inMain && c.Returned? && c.result.Some? && !IsStatus(c.result.value)
  }

  lemma BodiesReturn(f: Build, j: nat)
    requires Within(f, j) && j < |f.functions|
    ensures ReturnsProperly(f.functions[j].body)
  {
    hide IsBuild, IsPortable, ReturnsProperly;
  }

  /** Running a whole body, and what the caller makes of its completion. */
  lemma {:induction false} SimulateBody(f: Build, fuel: nat, j: nat, globals: Env, env: Env, frames: Frames,
                                        world: World)
    requires Within(f, j) && j < |f.order|
    requires Agrees(set n | n in ParameterNames(f.program.logics[f.order[j]]), {}, env, frames)
    requires CallResult(ExecAll(fuel, f.program, Some(globals), env, world,
                                f.program.logics[f.order[j]].body).completion).Value?
    ensures var r := ExecAll(fuel, f.program, Some(globals), env, world, f.program.logics[f.order[j]].body);
            var t := CRunAll(fuel, f.functions, j, frames, Printout(world.output), f.functions[j].body);
            && IsPlain(CallResult(r.completion).value)
            && Finish(f.functions[j], t.completion)
               == (if LeavesBadly(f.order[j] == "main", r.completion) then Stuck
                   else Got(CallResult(r.completion).value))
            && t.output == Printout(r.world.output)
    decreases fuel, 1, f.program.logics[f.order[j]].body, 1
  {
    hide PortableAll, CallsInStatements, AssignedInAll, Assigned, Printout, IsStatus, IsBasic;
    hide VariableName;
    hide Agrees;
    hide Within;
    BodyIsDeclared(f, j);
    assert ReturnsProperly(f.functions[j].body) by { BodiesReturn(f, j); }
    var logic := f.program.logics[f.order[j]];
    var inMain := logic.name == "main";
    var visible := set n | n in ParameterNames(logic);
    var body := EmitAll(f.program.logics.Keys, inMain, visible, logic.body).value;
    var r := ExecAll(fuel, f.program, Some(globals), env, world, logic.body);
    SimulateAll(f, fuel, j, Some(globals), inMain, visible, {}, env, frames, world, logic.body, body.0, body.1);
    EmittedReturns(f.program.logics.Keys, inMain, visible, logic.body, true);
    EmittedReturns(f.program.logics.Keys, inMain, visible, logic.body, false);
    if inMain {
      RunAppended(fuel, f.functions, j, frames, Printout(world.output), body.0, [CExit(None)]);
      AppendedReturns(body.0, CExit(None), true);
      AppendedReturns(body.0, CExit(None), false);
      var t := CRunAll(fuel, f.functions, j, frames, Printout(world.output), body.0);
      RunExit(fuel, f.functions, j, t.frames, t.output);
    } else {
      assert body.0 + [] == body.0;
      if HasReturn(logic.body, true) {
        Safety.NeverThrough(fuel, f.functions, j, frames, Printout(world.output), f.functions[j].body);
      }
    }
  }

  lemma RunExit(fuel: nat, functions: seq<CFunction>, limit: nat, frames: Frames, output: seq<Value>)
    requires limit <= |functions|
    ensures CRunAll(fuel, functions, limit, frames, output, [CExit(None)]) == CState(Left(VoidTree), frames, output)
  {
    assert CRun(fuel, functions, limit, frames, output, CExit(None)) == CState(Left(VoidTree), frames, output);
  }

  lemma {:induction false} RunAppended(fuel: nat, functions: seq<CFunction>, limit: nat, frames: Frames,
                                       output: seq<Value>, a: seq<CStmt>, b: seq<CStmt>)
    requires limit <= |functions|
    ensures var r := CRunAll(fuel, functions, limit, frames, output, a);
            CRunAll(fuel, functions, limit, frames, output, a + b)
            == if r.completion.Through? then CRunAll(fuel, functions, limit, r.frames, r.output, b) else r
    decreases a
  {
    if a == [] {
      assert a + b == b;
    } else {
      assert (a + b)[0] == a[0] && (a + b)[1..] == a[1..] + b;
      var r := CRun(fuel, functions, limit, frames, output, a[0]);
      RunAppended(fuel, functions, limit, r.frames, r.output, a[1..], b);
    }
  }

  /** A function returns in C++ as it does in the source; main only exits. */
  lemma {:induction false} EmittedReturns(logics: set<string>, inMain: bool, visible: set<string>, ss: seq<Stmt>,
                                          valued: bool)
    requires EmitAll(logics, inMain, visible, ss).Ok?
    ensures Returns(EmitAll(logics, inMain, visible, ss).value.0, valued) == (!inMain && HasReturn(ss, valued))
    decreases ss, 0
  {
    hide VariableName;
    if ss != [] {
      var first := EmitStmt(logics, inMain, visible, ss[0]).value;
      StatementEmittedReturns(logics, inMain, visible, ss[0], valued);
      EmittedReturns(logics, inMain, first.1, ss[1..], valued);
      var rest := EmitAll(logics, inMain, first.1, ss[1..]).value;
      assert ([first.0] + rest.0)[1..] == rest.0;
    }
  }

  lemma {:induction false} BranchEmittedReturns(logics: set<string>, inMain: bool, visible: set<string>,
                                                branches: seq<IfBranch>, valued: bool)
    requires EmitBranches(logics, inMain, visible, branches).Ok?
    ensures BranchReturns(EmitBranches(logics, inMain, visible, branches).value, valued)
         == (!inMain && BranchHasReturn(branches, valued))
    decreases branches, 0
  {
    hide VariableName;
    if branches != [] {
      EmittedReturns(logics, inMain, visible, branches[0].body, valued);
      BranchEmittedReturns(logics, inMain, visible, branches[1..], valued);
      var rest := EmitBranches(logics, inMain, visible, branches[1..]).value;
      var all := EmitBranches(logics, inMain, visible, branches).value;
      assert all[1..] == rest;
    }
  }

  lemma {:induction false} StatementEmittedReturns(logics: set<string>, inMain: bool, visible: set<string>, s: Stmt,
                                                   valued: bool)
    requires EmitStmt(logics, inMain, visible, s).Ok?
    ensures StatementReturns(EmitStmt(logics, inMain, visible, s).value.0, valued)
         == (!inMain && StatementHasReturn(s, valued))
    decreases s, 1
  {
    hide VariableName;
    match s
    case WhileStmt(_, _, body) => EmittedReturns(logics, inMain, visible, body, valued);
    case IfStmt(_, branches, elseBody) =>
      BranchEmittedReturns(logics, inMain, visible, branches, valued);
      if elseBody.Body? {
        EmittedReturns(logics, inMain, visible, elseBody.statements, valued);
      }
    case ForStmt(_, variable, _, body) => EmittedReturns(logics, inMain, visible + {variable}, body, valued);
    case _ =>
  }

  lemma {:induction false} AppendedReturns(ss: seq<CStmt>, last: CStmt, valued: bool)
    ensures Returns(ss + [last], valued) == (Returns(ss, valued) || StatementReturns(last, valued))
  {
    if ss == [] {
      assert ss + [last] == [last];
    } else {
      assert (ss + [last])[0] == ss[0] && (ss + [last])[1..] == ss[1..] + [last];
      AppendedReturns(ss[1..], last, valued);
    }
  }

  // ---- Statements ----

  /** The two completions correspond. Main cannot leave with just any value. */
  ghost predicate SameCompletion(inMain: bool, c: Completion, d: CCompletion) {
    match c
    case Normal => d == Through
    case Returned(v) =>
      if v.None? then d == Left(VoidTree)
      else IsPlain(v.value) && d == if LeavesBadly(inMain, c) then Wedged else Left(v.value)
    case _ => false
  }

  ghost predicate Finishes(c: Completion) { c.Normal? || c.Returned? }

  /** What a simulated statement guarantees. */
  ghost predicate Matches(inMain: bool, visible: set<string>, frozen: set<string>, frames: Frames, r: ExecResult,
                          t: CState) {
    && SameCompletion(inMain, r.completion, t.completion)
    && t.output == Printout(r.world.output)
    && Grows(frames, t.frames)
    && (r.completion.Normal? ==> Agrees(visible, frozen, r.env, t.frames))
  }

  lemma {:induction false} SimulateAll(f: Build, fuel: nat, limit: nat, globals: Option<Env>, inMain: bool,
                                       visible: set<string>, frozen: set<string>, env: Env, frames: Frames,
                                           world: World, ss: seq<Stmt>, cs: seq<CStmt>, after: set<string>)
    requires Within(f, limit) && Agrees(visible, frozen, env, frames)
    requires PortableAll(visible, ss) && CallsDeclared(f, limit, CallsInStatements(ss)) && frozen !! AssignedInAll(ss)
    requires EmitAll(f.program.logics.Keys, inMain, visible, ss) == Ok((cs, after))
    requires Finishes(ExecAll(fuel, f.program, globals, env, world, ss).completion)
    ensures visible <= after
    ensures Matches(inMain, after, frozen, frames, ExecAll(fuel, f.program, globals, env, world, ss),
                    CRunAll(fuel, f.functions, limit, frames, Printout(world.output), cs))
    decreases fuel, 1, ss, 0
  {
    hide Agrees;
    hide Within;
    hide Eval;
    hide CEval;
    hide Exec;
    hide CRun;
    hide EmitStmt;
    hide PortableStmt;
    hide EmitExpr;
    hide CallsInStatement;
    hide Grows;
    hide Printout;
    hide Assigned;
    hide VariableName;
    Starting(f, limit, visible, frozen, env, frames);
    if ss != [] {
      var first := EmitStmt(f.program.logics.Keys, inMain, visible, ss[0]).value;
      assert CallsDeclared(f, limit, CallsInStatement(ss[0])) && CallsDeclared(f, limit, CallsInStatements(ss[1..]));
      SimulateStmt(f, fuel, limit, globals, inMain, visible, frozen, env, frames, world, ss[0], first.0, first.1);
      var r := Exec(fuel, f.program, globals, env, world, ss[0]);
      var t := CRun(fuel, f.functions, limit, frames, Printout(world.output), cs[0]);
      if r.completion.Normal? {
        SimulateAll(f, fuel, limit, globals, inMain, first.1, frozen, r.env, t.frames, r.world, ss[1..], cs[1..],
                    after);
        GrowsTransitive(frames, t.frames,
                        CRunAll(fuel, f.functions, limit, t.frames, Printout(r.world.output), cs[1..]).frames);
      } else {
        EmitAllKeepsVisible(f.program.logics.Keys, inMain, first.1, ss[1..]);
      }
    }
  }

  lemma {:induction false} EmitAllKeepsVisible(logics: set<string>, inMain: bool, visible: set<string>, ss: seq<Stmt>)
    requires EmitAll(logics, inMain, visible, ss).Ok?
    ensures visible <= EmitAll(logics, inMain, visible, ss).value.1
    decreases ss
  {
    hide VariableName;
    if ss != [] {
      EmitAllKeepsVisible(logics, inMain, EmitStmt(logics, inMain, visible, ss[0]).value.1, ss[1..]);
    }
  }

  /** A braced block: its frame is opened, and left again with everything it declared. */
  lemma {:induction false} SimulateBlock(f: Build, fuel: nat, limit: nat, globals: Option<Env>, inMain: bool,
                                         visible: set<string>, frozen: set<string>, env: Env, frames: Frames,
                                         world: World, ss: seq<Stmt>)
    requires Within(f, limit) && Agrees(visible, frozen, env, frames)
    requires PortableAll(visible, ss) && CallsDeclared(f, limit, CallsInStatements(ss)) && frozen !! AssignedInAll(ss)
    requires EmitAll(f.program.logics.Keys, inMain, visible, ss).Ok?
    requires Finishes(ExecAll(fuel, f.program, globals, env, world, ss).completion)
    ensures var t := CRunBlock(fuel, f.functions, limit, frames, Printout(world.output),
                               EmitAll(f.program.logics.Keys, inMain, visible, ss).value.0);
            && Matches(inMain, visible, frozen, frames, ExecAll(fuel, f.program, globals, env, world, ss), t)
            && forall i | 0 <= i < |frames| :: t.frames[i].Keys == frames[i].Keys
    decreases fuel, 1, ss, 1
  {
    hide Within;
    hide Agrees;
    hide Grows;
    hide EmitAll;
    hide ExecAll;
    hide CRunAll;
    hide Printout;
    hide PortableAll;
    hide VariableName;
    Starting(f, limit, visible, frozen, env, frames);
    AgreesAfterOpen(visible, frozen, env, frames);
    var c := EmitAll(f.program.logics.Keys, inMain, visible, ss).value;
    var open := frames + [map[]];
    SimulateAll(f, fuel, limit, globals, inMain, visible, frozen, env, open, world, ss, c.0, c.1);
    var r := ExecAll(fuel, f.program, globals, env, world, ss);
    var t := CRunAll(fuel, f.functions, limit, open, Printout(world.output), c.0);
    GrowsLeaves(frames, map[], t.frames);
    if r.completion.Normal? {
      AgreesAfterLeave(visible, frozen, c.1, frozen, env, r.env, frames, map[], t.frames);
    }
  }

  lemma GrowsLeaves(frames: Frames, top: map<string, Cell>, after: Frames)
    requires frames != [] && Grows(frames + [top], after)
    ensures |after| == |frames| + 1 && Grows(frames, after[..|frames|])
    ensures forall i | 0 <= i < |frames| :: after[i].Keys == frames[i].Keys
  {
    var open := frames + [top];
    assert forall i | 0 <= i < |frames| :: open[i].Keys == after[i].Keys;
  }

  lemma {:induction false} SimulateStmt(f: Build, fuel: nat, limit: nat, globals: Option<Env>, inMain: bool,
                                        visible: set<string>, frozen: set<string>, env: Env, frames: Frames,
                                            world: World, s: Stmt, c: CStmt, after: set<string>)
    requires Within(f, limit) && Agrees(visible, frozen, env, frames)
    requires PortableStmt(visible, s) && CallsDeclared(f, limit, CallsInStatement(s)) && frozen !! Assigned(s)
    requires EmitStmt(f.program.logics.Keys, inMain, visible, s) == Ok((c, after))
    requires Finishes(Exec(fuel, f.program, globals, env, world, s).completion)
    ensures visible <= after == VisibleAfter(visible, s)
    ensures Matches(inMain, after, frozen, frames, Exec(fuel, f.program, globals, env, world, s),
                    CRun(fuel, f.functions, limit, frames, Printout(world.output), c))
    decreases fuel, 1, s, 5
  {
    hide Exec;
    hide CRun;
    hide Matches;
    hide Eval;
    hide CEval;
    hide ExecAll;
    hide CRunBlock;
    hide EmitAll;
    hide PortableAll;
    hide PortableBranches;
    hide EmitExpr;
    hide CallsIn;
    hide CallsInStatements;
    hide CallsInBranches;
    hide Grows;
    hide Printout;
    hide AssignedInAll;
    hide CRunAll;
    hide EmitHeader;
    hide EmitAnyDefinition;
    hide AssignedInBranches;
    hide PortableIterable;
    hide CRunFor;
    hide ExecFor;
    hide VariableName;
    hide Agrees;
    hide Within;
    hide NoShadowing;
    Starting(f, limit, visible, frozen, env, frames);
    match s
    case Assignment(_, _) => SimulateDefinition(f, fuel, limit, globals, inMain, visible, frozen, env, frames, world, s,
                                                c, after);
    case ConstDeclaration(_, _) =>
      SimulateDefinition(f, fuel, limit, globals, inMain, visible, frozen, env, frames, world, s, c, after);
    case TypedDeclaration(_, _, _, _) =>
      SimulateDefinition(f, fuel, limit, globals, inMain, visible, frozen, env, frames, world, s, c, after);
    case PrintStmt(e) => SimulatePlain(f, fuel, limit, globals, inMain, visible, frozen, env, frames, world, s, c);
    case PrintErrorStmt(e) => SimulatePlain(f, fuel, limit, globals, inMain, visible, frozen, env, frames, world, s, c);
    case ExpressionStmt(e) => SimulatePlain(f, fuel, limit, globals, inMain, visible, frozen, env, frames, world, s, c);
    case ReturnStmt(result) => SimulatePlain(f, fuel, limit, globals, inMain, visible, frozen, env, frames, world, s,
                                             c);
    case IfStmt(_, _, _) => SimulateWholeIf(f, fuel, limit, globals, inMain, visible, frozen, env, frames, world, s, c);
    case WhileStmt(_, _, _) => SimulateWhile(f, fuel, limit, globals, inMain, visible, frozen, env, frames, world, s,
                                             c);
    case ForStmt(_, _, iterable, _) =>
      if iterable.ListExpr? {
        SimulateForEach(f, fuel, limit, globals, inMain, visible, frozen, env, frames, world, s, c);
      } else {
        SimulateCounting(f, fuel, limit, globals, inMain, visible, frozen, env, frames, world, s, c);
      }
    case _ =>
  }

  /** Statements that evaluate at most one expression and change no variable. */
  lemma {:induction false} SimulatePlain(f: Build, fuel: nat, limit: nat, globals: Option<Env>, inMain: bool,
                                         visible: set<string>, frozen: set<string>, env: Env, frames: Frames,
                                         world: World, s: Stmt, c: CStmt)
    requires Within(f, limit) && Agrees(visible, frozen, env, frames)
    requires s.PrintStmt? || s.PrintErrorStmt? || s.ExpressionStmt? || s.ReturnStmt?
    requires PortableStmt(visible, s) && CallsDeclared(f, limit, CallsInStatement(s))
    requires EmitStmt(f.program.logics.Keys, inMain, visible, s) == Ok((c, visible))
    requires Finishes(Exec(fuel, f.program, globals, env, world, s).completion)
    ensures Matches(inMain, visible, frozen, frames, Exec(fuel, f.program, globals, env, world, s),
                    CRun(fuel, f.functions, limit, frames, Printout(world.output), c))
    decreases fuel, 1, s, 3
  {
    hide Eval;
    hide CEval;
    hide EmitExpr;
    hide Printout;
    hide Agrees;
    hide VariableName;
    hide Within;
    hide NoShadowing;
    Starting(f, limit, visible, frozen, env, frames);
    match s
    case PrintStmt(e) =>
      SimulateExpr(f, fuel, limit, globals, visible, frozen, env, frames, world, e, c.value);
      var (v, w) := Eval(fuel, f.program, globals, env, world, e);
      PrintoutAppends(w.output, Printed(v.value, false));
    case PrintErrorStmt(e) =>
      SimulateExpr(f, fuel, limit, globals, visible, frozen, env, frames, world, e, c.value);
      var (v, w) := Eval(fuel, f.program, globals, env, world, e);
      PrintoutAppends(w.output, Printed(v.value, true));
    case ExpressionStmt(e) => SimulateExpr(f, fuel, limit, globals, visible, frozen, env, frames, world, e,
                                           c.expression);
    case ReturnStmt(result) =>
      if result.Some? {
        SimulateExpr(f, fuel, limit, globals, visible, frozen, env, frames, world, result.value, c.result.value);
      }
  }

  /** The environment after a definition, if it succeeds. */
  ghost function Defined(env: Env, s: Stmt, v: Value): Result<Env>
    requires s.Assignment? || s.ConstDeclaration? || s.TypedDeclaration?
  {
    match s
    case Assignment(name, _) => AssignIn(env, name, v)
    case ConstDeclaration(name, _) => DefineConst(env, name, v)
    case TypedDeclaration(name, declared, _, constant) => DefineIn(env, name, declared, v, constant)
  }

  lemma DefinitionHolds(env: Env, s: Stmt, v: Value)
    requires s.Assignment? || s.ConstDeclaration? || s.TypedDeclaration?
    requires IsBasic(v) && Defined(env, s, v).Ok?
    ensures var (name, _, constant) := Definition(s);
            var after := Defined(env, s, v).value;
            && name in after && after == env[name := after[name]] && Holds(after[name], v)
            && after[name].constant == constant
            && (name in env ==> s.Assignment?)
  {
  }

  lemma AssignsVisible(env: Env, s: Stmt, v: Value, after: Env)
    requires s.Assignment? && Defined(env, s, v) == Result.Ok(after)
    ensures AssignIn(env, s.name, v) == Result.Ok(after)
  {
  }

  lemma DefinitionRuns(fuel: nat, program: Program, globals: Option<Env>, env: Env, world: World, s: Stmt)
    requires s.Assignment? || s.ConstDeclaration? || s.TypedDeclaration?
    requires Finishes(Exec(fuel, program, globals, env, world, s).completion)
    ensures var (v, w) := Eval(fuel, program, globals, env, world, Definition(s).1);
            && v.Value? && !v.value.VoidTree? && Defined(env, s, v.value).Ok?
            && Exec(fuel, program, globals, env, world, s) == ExecResult(Normal, Defined(env, s, v.value).value, w)
  {
    hide Eval;
  }

  lemma {:induction false} SimulateDefinition(f: Build, fuel: nat, limit: nat, globals: Option<Env>, inMain: bool,
                                              visible: set<string>, frozen: set<string>, env: Env, frames: Frames,
                                              world: World, s: Stmt, c: CStmt, after: set<string>)
    requires Within(f, limit) && Agrees(visible, frozen, env, frames)
    requires s.Assignment? || s.ConstDeclaration? || s.TypedDeclaration?
    requires PortableStmt(visible, s) && CallsDeclared(f, limit, CallsInStatement(s)) && frozen !! Assigned(s)
    requires EmitStmt(f.program.logics.Keys, inMain, visible, s) == Ok((c, after))
    requires Finishes(Exec(fuel, f.program, globals, env, world, s).completion)
    ensures visible <= after == VisibleAfter(visible, s)
    ensures Matches(inMain, after, frozen, frames, Exec(fuel, f.program, globals, env, world, s),
                    CRun(fuel, f.functions, limit, frames, Printout(world.output), c))
    decreases fuel, 1, s, 3
  {
    hide Eval;
    hide CEval;
    hide EmitExpr;
    hide Grows;
    hide Printout;
    hide Agrees;
    hide Find;
    hide Update;
    hide Declare;
    hide CallsIn;
    hide PortableExpr;
    hide VariableName;
    hide Exec;
    hide Defined;
    hide Holds;
    hide AssignIn;
    Starting(f, limit, visible, frozen, env, frames);
    var (name, e, constant) := Definition(s);
    DefinitionRuns(fuel, f.program, globals, env, world, s);
    SimulateExpr(f, fuel, limit, globals, visible, frozen, env, frames, world, e, c.value);
    var (v, w) := Eval(fuel, f.program, globals, env, world, e);
    var r := Exec(fuel, f.program, globals, env, world, s);
    DefinitionHolds(env, s, v.value);
    if name in visible {
      VisibleValue(visible, frozen, env, frames, name);
      AssignsVisible(env, s, v.value, r.env);
      AgreesAfterUpdate(visible, frozen, env, r.env, frames, name, v.value);
      assert visible + {name} == visible;
    } else {
      AgreesAfterDeclare(visible, frozen, env, r.env, frames, name, Cell(v.value, constant));
    }
  }

  lemma {:induction false} SimulateWholeIf(f: Build, fuel: nat, limit: nat, globals: Option<Env>, inMain: bool,
                                           visible: set<string>, frozen: set<string>, env: Env, frames: Frames,
                                           world: World, s: Stmt, c: CStmt)
    requires Within(f, limit) && Agrees(visible, frozen, env, frames)
    requires s.IfStmt? && PortableStmt(visible, s)
    requires CallsDeclared(f, limit, CallsInStatement(s)) && frozen !! Assigned(s)
    requires EmitStmt(f.program.logics.Keys, inMain, visible, s) == Ok((c, visible))
    requires Finishes(Exec(fuel, f.program, globals, env, world, s).completion)
    ensures Matches(inMain, visible, frozen, frames, Exec(fuel, f.program, globals, env, world, s),
                    CRun(fuel, f.functions, limit, frames, Printout(world.output), c))
    decreases fuel, 1, s, 4
  {
    hide VariableName;
    hide Agrees;
    hide Within;
    hide EmitExpr;
    hide Printout;
    Starting(f, limit, visible, frozen, env, frames);
    assert s.branches[0..] == s.branches && c.branches[0..] == c.branches;
    SimulateIf(f, fuel, limit, globals, inMain, visible, frozen, env, frames, world, s, c, 0);
  }

  lemma ConditionIsBool(v: Value)
    ensures Condition(v).Ok? <==> IsBool(v)
    ensures IsBool(v) ==> v.ScalarTree? && v.value.Truth? && Condition(v).value == v.value.b
  {
  }

  /** What is left of an if from branch `i` on can be emitted, is portable, and calls and assigns
      nothing that it must not. */
  ghost predicate IsIfFrom(f: Build, limit: nat, inMain: bool, visible: set<string>, frozen: set<string>, s: Stmt,
                           c: CStmt, i: nat)
  {
    && s.IfStmt? && i <= |s.branches| && c.CIf? && |c.branches| == |s.branches|
    && PortableBranches(visible, s.branches[i..])
    && CallsDeclared(f, limit, CallsInBranches(s.branches[i..]))
    && frozen !! AssignedInBranches(s.branches[i..])
    && EmitBranches(f.program.logics.Keys, inMain, visible, s.branches[i..]) == Ok(c.branches[i..])
    && if s.elseBody.NoBody? then c.otherwise.NoElse?
       else
         && PortableAll(visible, s.elseBody.statements)
         && CallsDeclared(f, limit, CallsInStatements(s.elseBody.statements))
         && frozen !! AssignedInAll(s.elseBody.statements)
         && EmitAll(f.program.logics.Keys, inMain, visible, s.elseBody.statements).Ok?
         && c.otherwise == Else(EmitAll(f.program.logics.Keys, inMain, visible, s.elseBody.statements).value.0)
  }

  lemma FirstBranch(f: Build, limit: nat, inMain: bool, visible: set<string>, frozen: set<string>, s: Stmt, c: CStmt,
                    i: nat)
    requires IsIfFrom(f, limit, inMain, visible, frozen, s, c, i) && i < |s.branches|
    ensures IsIfFrom(f, limit, inMain, visible, frozen, s, c, i + 1)
    ensures var (branch, emitted) := (s.branches[i], c.branches[i]);
            && PortableExpr(branch.condition) && CallsDeclared(f, limit, CallsIn(branch.condition))
            && EmitExpr(f.program.logics.Keys, visible, branch.condition) == Ok(emitted.condition)
            && PortableAll(visible, branch.body) && CallsDeclared(f, limit, CallsInStatements(branch.body))
            && frozen !! AssignedInAll(branch.body)
            && EmitAll(f.program.logics.Keys, inMain, visible, branch.body).Ok?
            && emitted.body == EmitAll(f.program.logics.Keys, inMain, visible, branch.body).value.0
  {
    hide EmitExpr, EmitAll, PortableAll, PortableExpr, CallsIn, CallsInStatements, AssignedInAll;
    var (rest, emitted) := (s.branches[i..], c.branches[i..]);
    assert rest[0] == s.branches[i] && rest[1..] == s.branches[i + 1..];
    assert emitted[0] == c.branches[i] && emitted[1..] == c.branches[i + 1..];
  }

  lemma {:induction false} SimulateIf(f: Build, fuel: nat, limit: nat, globals: Option<Env>, inMain: bool,
                                      visible: set<string>, frozen: set<string>, env: Env, frames: Frames, world: World,
                                      s: Stmt, c: CStmt, i: nat)
    requires Within(f, limit) && Agrees(visible, frozen, env, frames)
    requires IsIfFrom(f, limit, inMain, visible, frozen, s, c, i)
    requires Finishes(ExecIf(fuel, f.program, globals, env, world, s, i).completion)
    ensures Matches(inMain, visible, frozen, frames, ExecIf(fuel, f.program, globals, env, world, s, i),
                    CRunIf(fuel, f.functions, limit, frames, Printout(world.output), c, i))
    decreases fuel, 1, s, 3, |s.branches| - i
  {
    hide Condition, IsBool, Agrees, Within, Eval, CEval, ExecAll, CRunBlock, EmitAll, PortableAll, EmitExpr, CallsIn;
    hide CallsInStatements, Grows, Printout, AssignedInAll, CRunAll, VariableName, PortableBranches, CallsInBranches;
    hide AssignedInBranches, EmitBranches;
    Starting(f, limit, visible, frozen, env, frames);
    if i == |s.branches| {
      if s.elseBody.Body? {
        SimulateBlock(f, fuel, limit, globals, inMain, visible, frozen, env, frames, world, s.elseBody.statements);
      }
    } else {
      var branch := s.branches[i];
      FirstBranch(f, limit, inMain, visible, frozen, s, c, i);
      SimulateExpr(f, fuel, limit, globals, visible, frozen, env, frames, world, branch.condition,
                   c.branches[i].condition);
      var (v, w) := Eval(fuel, f.program, globals, env, world, branch.condition);
      ConditionIsBool(v.value);
      if v.value.value.b {
        SimulateBlock(f, fuel, limit, globals, inMain, visible, frozen, env, frames, w, branch.body);
      } else {
        SimulateIf(f, fuel, limit, globals, inMain, visible, frozen, env, frames, w, s, c, i + 1);
      }
    }
  }

  lemma {:induction false} SimulateWhile(f: Build, fuel: nat, limit: nat, globals: Option<Env>, inMain: bool,
                                         visible: set<string>, frozen: set<string>, env: Env, frames: Frames,
                                         world: World, s: Stmt, c: CStmt)
    requires Within(f, limit) && Agrees(visible, frozen, env, frames)
    requires s.WhileStmt? && PortableStmt(visible, s)
    requires CallsDeclared(f, limit, CallsInStatement(s)) && frozen !! Assigned(s)
    requires EmitStmt(f.program.logics.Keys, inMain, visible, s) == Ok((c, visible))
    requires Finishes(Exec(fuel, f.program, globals, env, world, s).completion)
    ensures Matches(inMain, visible, frozen, frames, Exec(fuel, f.program, globals, env, world, s),
                    CRun(fuel, f.functions, limit, frames, Printout(world.output), c))
    decreases fuel, 1, s, 3
  {
    hide Condition, IsBool;
    hide Agrees;
    hide Within;
    hide Eval;
    hide CEval;
    hide ExecAll;
    hide CRunBlock;
    hide EmitAll;
    hide PortableAll;
    hide EmitExpr;
    hide CallsIn;
    hide CallsInStatements;
    hide Grows;
    hide Printout;
    hide AssignedInAll;
    hide VariableName;
    Starting(f, limit, visible, frozen, env, frames);
    assert CallsDeclared(f, limit, CallsIn(s.condition)) && CallsDeclared(f, limit, CallsInStatements(s.body));
    SimulateExpr(f, fuel, limit, globals, visible, frozen, env, frames, world, s.condition, c.condition);
    var (v, w) := Eval(fuel, f.program, globals, env, world, s.condition);
    ConditionIsBool(v.value);
    if v.value.value.b {
      SimulateBlock(f, fuel, limit, globals, inMain, visible, frozen, env, frames, w, s.body);
      var r := ExecAll(fuel, f.program, globals, env, w, s.body);
      var t := CRunBlock(fuel, f.functions, limit, frames, Printout(w.output), c.body);
      if r.completion.Normal? {
        SimulateWhile(f, fuel - 1, limit, globals, inMain, visible, frozen, r.env, t.frames, r.world, s, c);
        GrowsTransitive(frames, t.frames,
                        CRun(fuel - 1, f.functions, limit, t.frames, Printout(r.world.output), c).frames);
      }
    }
  }

  // ---- Loops over the elements of a list literal ----

  lemma {:induction false} SimulateForEach(f: Build, fuel: nat, limit: nat, globals: Option<Env>, inMain: bool,
                                           visible: set<string>, frozen: set<string>, env: Env, frames: Frames,
                                           world: World, s: Stmt, c: CStmt)
    requires Within(f, limit) && Agrees(visible, frozen, env, frames)
    requires s.ForStmt? && s.iterable.ListExpr? && PortableStmt(visible, s)
    requires CallsDeclared(f, limit, CallsInStatement(s)) && frozen !! Assigned(s)
    requires EmitStmt(f.program.logics.Keys, inMain, visible, s) == Ok((c, visible))
    requires Finishes(Exec(fuel, f.program, globals, env, world, s).completion)
    ensures Matches(inMain, visible, frozen, frames, Exec(fuel, f.program, globals, env, world, s),
                    CRun(fuel, f.functions, limit, frames, Printout(world.output), c))
    decreases fuel, 1, s, 3
  {
    hide CEval;
    hide Eval;
    hide EmitAll;
    hide ExecAll;
    hide CRunBlock;
    hide Grows;
    hide Printout;
    hide PortableAll;
    hide EmitExpr;
    hide VariableName;
    hide Agrees;
    hide Within;
    Starting(f, limit, visible, frozen, env, frames);
    var elements := s.iterable.elements;
    AgreesAfterOpen(visible, frozen, env, frames);
    LiteralsAreAlike(f.program.logics.Keys, visible, visible + {s.variable}, elements);
    ListEvaluates(fuel, f.program, globals, env, world, elements);
    SimulateArgs(f, fuel, limit, globals, visible, frozen, env, frames + [map[]], world, elements, c.elements);
    var (vs, w) := EvalArgs(fuel, f.program, globals, env, world, elements);
    NothingIsPassed(vs.values);
    ElementsAreNotNumbers(fuel, f.program, globals, env, world, elements);
    SimulateItems(f, fuel, limit, globals, inMain, visible, frozen, env, frames, w, s.variable, vs.values, s.body);
  }

  /** A list display evaluates to the list of its elements, none of which is VOID. */
  lemma ListEvaluates(fuel: nat, program: Program, globals: Option<Env>, env: Env, world: World, es: seq<Expr>)
    requires Eval(fuel, program, globals, env, world, ListExpr(es)).0.Value?
    ensures var (vs, w) := EvalArgs(fuel, program, globals, env, world, es);
            && vs.Values? && VoidTree !in vs.values
            && Eval(fuel, program, globals, env, world, ListExpr(es)) == (EvalResult.Value(ListTree(vs.values)), w)
  {
  }

  lemma ElementsAreNotNumbers(fuel: nat, program: Program, globals: Option<Env>, env: Env, world: World, es: seq<Expr>)
    requires ListKind(es).Ok? && EvalArgs(fuel, program, globals, env, world, es).0.Values?
    requires forall i | 0 <= i < |es| :: !(es[i].LiteralExpr? && es[i].value.IntLit?)
    ensures ListKind(es).value != "double"
  {
    assert !es[0].value.IntLit?;
    assert Eval(fuel, program, globals, env, world, es[0]).0.Value?;
  }

  lemma {:induction false} SimulateItems(f: Build, fuel: nat, limit: nat, globals: Option<Env>, inMain: bool,
                                         visible: set<string>, frozen: set<string>, env: Env, frames: Frames,
                                         world: World, variable: string, items: seq<Value>, body: seq<Stmt>)
    requires Within(f, limit) && Agrees(visible, frozen, env, frames)
    requires IsIdentifier(variable) && variable !in visible && variable !in AssignedInAll(body)
    requires PortableAll(visible + {variable}, body) && CallsDeclared(f, limit, CallsInStatements(body))
    requires frozen !! AssignedInAll(body) && forall i | 0 <= i < |items| :: IsBasic(items[i])
    requires EmitAll(f.program.logics.Keys, inMain, visible + {variable}, body).Ok?
    requires Finishes(ExecFor(fuel, f.program, globals, env, world, variable, items, body).completion)
    ensures Matches(inMain, visible, frozen, frames,
                    ExecFor(fuel, f.program, globals, env, world, variable, items, body),
                    CRunForEach(fuel, f.functions, limit, frames, Printout(world.output), VariableName(variable), items,
                                EmitAll(f.program.logics.Keys, inMain, visible + {variable}, body).value.0))
    decreases fuel, 1, body, 2
  {
    hide EmitAll;
    hide ExecAll;
    hide CRunBlock;
    hide Printout;
    hide PortableAll;
    hide Find;
    hide NoShadowing;
    hide VariableName;
    hide Within;
    hide Agrees;
    hide Grows;
    Starting(f, limit, visible, frozen, env, frames);
    if items != [] {
      var inner := visible + {variable};
      var frozen' := frozen + {variable};
      BasicAssignment(env, variable, items[0]);
      var env' := AssignIn(env, variable, items[0]).value;
      var top := map[VariableName(variable) := Cell(items[0], true)];
      var cbody := EmitAll(f.program.logics.Keys, inMain, inner, body).value.0;
      AgreesWithLoopVariable(visible, frozen, frozen', env, env', frames, variable, Cell(items[0], true));
      SimulateBlock(f, fuel, limit, globals, inMain, inner, frozen', env', frames + [top], world, body);
      var r := ExecAll(fuel, f.program, globals, env', world, body);
      var t := CRunBlock(fuel, f.functions, limit, frames + [top], Printout(world.output), cbody);
      GrowsLeaves(frames, top, t.frames);
      if r.completion.Normal? {
        AgreesAfterLeave(visible, frozen, inner, frozen', env, r.env, frames, top, t.frames);
        SimulateItems(f, fuel - 1, limit, globals, inMain, visible, frozen, r.env, t.frames[..|frames|], r.world,
                      variable,
                      items[1..], body);
        GrowsTransitive(frames, t.frames[..|frames|],
                        CRunForEach(fuel - 1, f.functions, limit, t.frames[..|frames|], Printout(r.world.output),
                                    VariableName(variable), items[1..], cbody).frames);
      }
    }
  }

  // ---- Counting loops ----

  lemma {:induction false} SimulateCounting(f: Build, fuel: nat, limit: nat, globals: Option<Env>, inMain: bool,
                                            visible: set<string>, frozen: set<string>, env: Env, frames: Frames,
                                            world: World, s: Stmt, c: CStmt)
    requires Within(f, limit) && Agrees(visible, frozen, env, frames)
    requires s.ForStmt? && !s.iterable.ListExpr? && PortableStmt(visible, s)
    requires CallsDeclared(f, limit, CallsInStatement(s)) && frozen !! Assigned(s)
    requires EmitStmt(f.program.logics.Keys, inMain, visible, s) == Ok((c, visible))
    requires Finishes(Exec(fuel, f.program, globals, env, world, s).completion)
    ensures Matches(inMain, visible, frozen, frames, Exec(fuel, f.program, globals, env, world, s),
                    CRun(fuel, f.functions, limit, frames, Printout(world.output), c))
    decreases fuel, 1, s, 3
  {
    hide ExecAll;
    hide CEval;
    hide Printout;
    hide Eval;
    hide VariableName;
    hide Agrees;
    hide Within;
    hide Range;
    hide CRunFor;
    hide ExecFor;
    hide Bounds;
    hide StableBound;
    hide HasIntValue;
    hide Grows;
    hide EmitExpr;
    var inner := visible + {s.variable};
    var changing := AssignedInAll(s.body) + {s.variable};
    Starting(f, limit, visible, frozen, env, frames);
    RangeIsBuiltin(f, limit);
    var start, stop, step := CountingBounds(fuel, f.program, globals, env, world, s.iterable, changing);
    EmittedBounds(f.program.logics.Keys, inner, s, c);
    AgreesAfterOpen(visible, frozen, env, frames);
    SimulateBound(f, fuel, limit, globals, visible, frozen, env, env, frames + [map[]], world, world, fuel, s, 0,
                  c.start,
                  start);
    SimulateRounds(f, fuel, limit, globals, inMain, visible, frozen, env, env, frames, world, world, fuel, s, c, start,
                   stop,
                   step);
    var top := map[VariableName(s.variable) := Cell(IntV(start), false)];
    var t := CRunFor(fuel, f.functions, limit, frames + [top], Printout(world.output), c);
    GrowsLeaves(frames, top, t.frames);
  }

  lemma RangeIsBuiltin(f: Build, limit: nat)
    requires Within(f, limit)
    ensures "number_range" !in f.program.categories
  {
  }

  lemma EmittedBounds(logics: set<string>, inner: set<string>, s: Stmt, c: CStmt)
    requires s.ForStmt? && s.iterable.CallExpr? && 1 <= |s.iterable.arguments| <= 3
    requires EmitHeader(logics, inner, s.variable, s.iterable).Ok? && c.CFor?
    requires var h := EmitHeader(logics, inner, s.variable, s.iterable).value;
             h.CFor? && h.start == c.start && h.stop == c.stop && h.step == c.step
    ensures var bounds := Bounds(s.iterable.arguments);
            && EmitExpr(logics, inner, bounds[0]) == Ok(c.start)
            && EmitExpr(logics, inner, bounds[1]) == Ok(c.stop)
            && EmitExpr(logics, inner, bounds[2]) == Ok(c.step)
  {
    hide VariableName;
    var arguments := s.iterable.arguments;
    forall i | 0 <= i < |arguments|
      ensures EmitExpr(logics, inner, arguments[i]) == Ok(EmitExprs(logics, inner, arguments).value[i])
    {
      EmittedArguments(logics, inner, arguments, i);
    }
  }

  /** A stable bound has the value it had when the loop started, wherever it is evaluated. */
  lemma {:induction false} SimulateBound(f: Build, fuel: nat, limit: nat, globals: Option<Env>, visible: set<string>,
                                         frozen: set<string>, env0: Env, env: Env, frames: Frames, world0: World,
                                         world: World, fuel0: nat, s: Stmt, k: nat, c: CExpr, value: int)
    requires Within(f, limit) && Agrees(visible, frozen, env, frames)
    requires s.ForStmt? && s.iterable.CallExpr? && 1 <= |s.iterable.arguments| <= 3 && k < 3
    requires forall n | n in visible && n != s.variable && n !in AssignedInAll(s.body) :: SameBinding(env0, env, n)
    requires var e := Bounds(s.iterable.arguments)[k];
             && StableBound(e, AssignedInAll(s.body) + {s.variable})
             && EmitExpr(f.program.logics.Keys, visible + {s.variable}, e) == Ok(c)
             && HasIntValue(fuel0, f.program, globals, env0, world0, e, value)
    ensures CEval(fuel, f.functions, limit, frames, Printout(world.output), c)
         == (Got(IntV(value)), Printout(world.output))
    decreases fuel, 1, s, 0
  {
    hide VariableName;
    hide Agrees;
    hide Within;
    var arguments := s.iterable.arguments;
    var e := Bounds(arguments)[k];
    EmissionDependsOnReads(f.program.logics.Keys, visible, s.variable, e);
    EmittedReadsAreVisible(f.program.logics.Keys, visible, e);
    assert forall n | n in Reads(e) :: SameBinding(env, env0, n);
    CallFreeIsStable(e, fuel, fuel0, f.program, globals, env, env0, world, world0);
    WithinCounts(f, limit);
    if j :| 0 <= j < |arguments| && arguments[j] == e {
      SimulateExpr(f, fuel, limit, globals, visible, frozen, env, frames, world, arguments[j], c);
    }
  }

  ghost predicate IsCountingLoop(f: Build, limit: nat, inMain: bool, visible: set<string>, frozen: set<string>, s: Stmt,
                                 c: CStmt)
  {
    && s.ForStmt? && s.iterable.CallExpr? && 1 <= |s.iterable.arguments| <= 3
    && PortableStmt(visible, s)
    && CallsDeclared(f, limit, CallsInStatement(s))
    && frozen !! Assigned(s)
    && EmitStmt(f.program.logics.Keys, inMain, visible, s) == Ok((c, visible))
    && c.CFor?
  }

  /** The values of the bound and the step where the loop starts. */
  ghost predicate HaveValues(f: Build, fuel: nat, globals: Option<Env>, env: Env, world: World, s: Stmt, stop: int,
                             step: int)
  {
    && step != 0
    && s.ForStmt? && s.iterable.CallExpr? && 1 <= |s.iterable.arguments| <= 3
    && HasIntValue(fuel, f.program, globals, env, world, Bounds(s.iterable.arguments)[1], stop)
    && HasIntValue(fuel, f.program, globals, env, world, Bounds(s.iterable.arguments)[2], step)
  }

  /** Nothing that a bound may read has changed since. */
  ghost predicate KeepsBounds(env0: Env, env: Env, visible: set<string>, s: Stmt) {
    s.ForStmt?
    && forall n | n in visible && n != s.variable && n !in AssignedInAll(s.body) :: SameBinding(env0, env, n)
  }

  lemma {:induction false} SimulateRounds(f: Build, fuel: nat, limit: nat, globals: Option<Env>, inMain: bool,
                                          visible: set<string>, frozen: set<string>, env0: Env, env: Env, base: Frames,
                                          world0: World, world: World, fuel0: nat, s: Stmt, c: CStmt, i: int, stop: int,
                                          step: int)
    requires Within(f, limit) && Agrees(visible, frozen, env, base)
    requires IsCountingLoop(f, limit, inMain, visible, frozen, s, c)
    requires HaveValues(f, fuel0, globals, env0, world0, s, stop, step)
    requires KeepsBounds(env0, env, visible, s)
    requires Finishes(ExecFor(fuel, f.program, globals, env, world, s.variable, Range(i, stop, step),
                              s.body).completion)
    ensures var r := ExecFor(fuel, f.program, globals, env, world, s.variable, Range(i, stop, step), s.body);
            var frames := base + [map[VariableName(s.variable) := Cell(IntV(i), false)]];
            var t := CRunFor(fuel, f.functions, limit, frames, Printout(world.output), c);
            && SameCompletion(inMain, r.completion, t.completion)
            && t.output == Printout(r.world.output)
            && Grows(frames, t.frames)
            && (r.completion.Normal? ==> Agrees(visible, frozen, r.env, t.frames[..|base|]))
    decreases fuel, 1, s, 2
  {
    hide VariableName;
    hide Agrees;
    hide Within;
    hide Grows;
    hide StableBound;
    hide HasIntValue;
    hide CEval;
    hide CRunFor;
    hide PortableStmt;
    hide EmitStmt;
    hide Bounds;
    hide ExecAll;
    hide CRunBlock;
    hide EmitAll;
    hide PortableAll;
    hide SameBinding;
    hide Find;
    hide Update;
    hide AssignedInAll;
    hide CallsDeclared;
    LoopFacts(f, limit, inMain, visible, frozen, s, c);
    var inner := visible + {s.variable};
    var name := VariableName(s.variable);
    var top := map[name := Cell(IntV(i), false)];
    var frames := base + [top];
    var env' := Counting(env, s.variable, i);
    CountingHolds(env, s.variable, i);
    var cbody := EmitAll(f.program.logics.Keys, inMain, inner, s.body).value.0;
    var output := Printout(world.output);
    Starting(f, limit, visible, frozen, env, base);
    AgreesWithLoopVariable(visible, frozen, frozen, env, env', base, s.variable, Cell(IntV(i), false));
    FoundOnTop(frames, name);
    LoopVariableOnly(env, env', s.variable);
    KeptAside(env0, env, env', visible, s);
    SimulateHeader(f, fuel, limit, globals, inMain, visible, frozen, env0, env', frames, world0, world, fuel0, s, c,
                   stop,
                   step);
    var items := Range(i, stop, step);
    RoundUnfolds(fuel, f.functions, limit, frames, output, c, i, stop, step);
    if items == [] {
      Starting(f, limit, inner, frozen, env', frames);
      assert frames[..|base|] == base;
    } else {
      assert items[0] == IntV(i) && items[1..] == Range(i + step, stop, step);
      assert AssignIn(env, s.variable, items[0]) == Result.Ok(env');
      SimulateBlock(f, fuel, limit, globals, inMain, inner, frozen, env', frames, world, s.body);
      var r := ExecAll(fuel, f.program, globals, env', world, s.body);
      var t := CRunBlock(fuel, f.functions, limit, frames, output, cbody);
      if r.completion.Normal? {
        GrowsLeaves(base, top, t.frames);
        AfterRound(fuel, f.program, globals, visible, frozen, env, env', r.env, base, top, t.frames, world, s, i, step);
        KeptAside(env0, env, r.env, visible, s);
        SimulateHeader(f, fuel, limit, globals, inMain, visible, frozen, env0, r.env, t.frames, world0, r.world, fuel0,
                       s, c,
                       stop, step);
        var next := t.frames[..|base|] + [map[name := Cell(IntV(i + step), false)]];
        SimulateRounds(f, fuel - 1, limit, globals, inMain, visible, frozen, env0, r.env, t.frames[..|base|], world0,
                       r.world, fuel0, s, c, i + step, stop, step);
        GrowsTransitive(frames, t.frames, next);
        GrowsTransitive(frames, next, CRunFor(fuel - 1, f.functions, limit, next, Printout(r.world.output), c).frames);
      }
    }
  }

  /** The environment of a round: the loop variable is set to the counter, if it can be. */
  ghost function Counting(env: Env, variable: string, i: int): Env {
    var bound := AssignIn(env, variable, IntV(i));
    if bound.Ok? then bound.value else env[variable := Variable(IntV(i), "number", Unknown, false)]
  }

  ghost predicate IsCounter(env: Env, variable: string, i: int) {
    variable in env && Holds(env[variable], IntV(i)) && !env[variable].constant
  }

  lemma CountingHolds(env: Env, variable: string, i: int)
    ensures var env' := Counting(env, variable, i);
            IsCounter(env', variable, i) && env' == env[variable := env'[variable]]
  {
    if AssignIn(env, variable, IntV(i)).Ok? {
      BasicAssignment(env, variable, IntV(i));
    }
  }

  /** Setting the loop variable does not disturb what the bounds may read. */
  lemma KeptAside(env0: Env, env: Env, env': Env, visible: set<string>, s: Stmt)
    requires KeepsBounds(env0, env, visible, s)
    requires forall n | n !in AssignedInAll(s.body) && n != s.variable :: SameBinding(env, env', n)
    ensures KeepsBounds(env0, env', visible, s)
  {
  }

  lemma LoopVariableOnly(env: Env, env': Env, variable: string)
    requires variable in env' && env' == env[variable := env'[variable]]
    ensures forall n | n != variable :: SameBinding(env, env', n)
  {
  }

  lemma LoopFacts(f: Build, limit: nat, inMain: bool, visible: set<string>, frozen: set<string>, s: Stmt, c: CStmt)
    requires IsCountingLoop(f, limit, inMain, visible, frozen, s, c)
    ensures s.ForStmt? && s.iterable.CallExpr? && 1 <= |s.iterable.arguments| <= 3 && PortableStmt(visible, s)
    ensures c.CFor? && c.variable == VariableName(s.variable)
    ensures frozen !! AssignedInAll(s.body) && s.variable !in frozen
    ensures EmitAll(f.program.logics.Keys, inMain, visible + {s.variable}, s.body).Ok?
    ensures c.body == EmitAll(f.program.logics.Keys, inMain, visible + {s.variable}, s.body).value.0
    ensures IsIdentifier(s.variable) && s.variable !in visible && s.variable !in AssignedInAll(s.body)
    ensures PortableAll(visible + {s.variable}, s.body) && CallsDeclared(f, limit, CallsInStatements(s.body))
  {
    hide VariableName;
    hide EmitExpr;
  }

  /** One round of a counting loop whose bounds and counter are known. */
  lemma RoundUnfolds(fuel: nat, functions: seq<CFunction>, limit: nat, frames: Frames, output: seq<Value>, c: CStmt,
                     i: int, stop: int, step: int)
    requires limit <= |functions| && c.CFor?
    requires CEval(fuel, functions, limit, frames, output, c.step) == (Got(IntV(step)), output)
    requires CEval(fuel, functions, limit, frames, output, c.stop) == (Got(IntV(stop)), output)
    requires Find(frames, c.variable) == Some(Cell(IntV(i), false)) && step != 0
    ensures var r := CRunFor(fuel, functions, limit, frames, output, c);
            if Range(i, stop, step) == [] then r == CState(Through, frames, output)
            else fuel > 0 ==>
              var t := CRunBlock(fuel, functions, limit, frames, output, c.body);
              if !t.completion.Through? then r == t
              else
                CEval(fuel, functions, limit, t.frames, t.output, c.step) == (Got(IntV(step)), t.output)
                && Find(t.frames, c.variable) == Some(Cell(IntV(i), false))
                && Update(t.frames, c.variable, IntV(i + step)).Some?
                ==> r == CRunFor(fuel - 1, functions, limit, Update(t.frames, c.variable, IntV(i + step)).value,
                                 t.output, c)
  {
    hide CEval;
    hide CRunBlock;
    hide Find;
    hide Update;
  }

  lemma FoundOnTop(frames: Frames, name: string)
    requires frames != [] && name in frames[|frames| - 1]
    ensures Find(frames, name) == Some(frames[|frames| - 1][name])
  {
  }

  /** Both bounds that are evaluated in every round keep their values. */
  lemma {:induction false} SimulateHeader(f: Build, fuel: nat, limit: nat, globals: Option<Env>, inMain: bool,
                                          visible: set<string>, frozen: set<string>, env0: Env, env: Env,
                                              frames: Frames,
                                          world0: World, world: World, fuel0: nat, s: Stmt, c: CStmt, stop: int,
                                              step: int)
    requires IsCountingLoop(f, limit, inMain, visible, frozen, s, c)
    requires Within(f, limit) && Agrees(visible + {s.variable}, frozen, env, frames)
    requires HaveValues(f, fuel0, globals, env0, world0, s, stop, step)
    requires KeepsBounds(env0, env, visible, s)
    ensures CEval(fuel, f.functions, limit, frames, Printout(world.output), c.step)
         == (Got(IntV(step)), Printout(world.output))
    ensures CEval(fuel, f.functions, limit, frames, Printout(world.output), c.stop)
         == (Got(IntV(stop)), Printout(world.output))
    decreases fuel, 1, s, 1
  {
    hide VariableName;
    hide Agrees;
    hide Within;
    hide HasIntValue;
    var inner := visible + {s.variable};
    EmittedBounds(f.program.logics.Keys, inner, s, c);
    PortableBounds(s.iterable.arguments, AssignedInAll(s.body) + {s.variable});
    assert inner + {s.variable} == inner;
    SimulateBound(f, fuel, limit, globals, inner, frozen, env0, env, frames, world0, world, fuel0, s, 1, c.stop, stop);
    SimulateBound(f, fuel, limit, globals, inner, frozen, env0, env, frames, world0, world, fuel0, s, 2, c.step, step);
  }

  lemma PortableBounds(arguments: seq<Expr>, changing: set<string>)
    requires 1 <= |arguments| <= 3 && forall i | 0 <= i < |arguments| :: StableBound(arguments[i], changing)
    ensures forall k | 0 <= k < 3 :: StableBound(Bounds(arguments)[k], changing)
  {
  }

  /** After a round the counter still has the value of that round, and stepping it rebuilds the loop frame. */
  lemma {:induction false} AfterRound(fuel: nat, program: Program, globals: Option<Env>, visible: set<string>,
                                      frozen: set<string>, env: Env, env': Env, env'': Env, base: Frames,
                                      top: map<string, Cell>, after: Frames, world: World, s: Stmt, i: int, step: int)
    requires s.ForStmt? && PortableStmt(visible, s) && s.variable !in frozen && Agrees(visible, frozen, env, base)
    requires IsCounter(env', s.variable, i) && env' == env[s.variable := env'[s.variable]]
    requires env'' == ExecAll(fuel, program, globals, env', world, s.body).env
    requires top == map[VariableName(s.variable) := Cell(IntV(i), false)]
    requires Agrees(visible + {s.variable}, frozen, env'', after) && Grows(base + [top], after)
    requires after[|base|].Keys == top.Keys
    ensures IsCounter(env'', s.variable, i)
    ensures forall n | n !in AssignedInAll(s.body) && n != s.variable :: SameBinding(env, env'', n)
    ensures Agrees(visible, frozen, env'', after[..|base|])
    ensures Find(after, VariableName(s.variable)) == Some(Cell(IntV(i), false))
    ensures var next := after[..|base|] + [map[VariableName(s.variable) := Cell(IntV(i + step), false)]];
            Update(after, VariableName(s.variable), IntV(i + step)) == Some(next) && Grows(after, next)
  {
    hide VariableName;
    hide NoShadowing;
    forall n | n !in AssignedInAll(s.body)
      ensures SameBinding(env', env'', n)
    {
      UnassignedIsKept(fuel, program, globals, env', world, s.body, n);
    }
    AgreesAfterLeave(visible, frozen, visible + {s.variable}, frozen, env, env'', base, top, after);
    assert VisibleAgrees(frozen, env'', after, s.variable);
    var name := VariableName(s.variable);
    var last := |after| - 1;
    var counted := map[name := Cell(IntV(i + step), false)];
    assert last == |base| && after[last][name := Cell(IntV(i + step), false)] == counted;
    FoundOnTop(after, name);
    assert after[last := after[last][name := Cell(IntV(i + step), false)]]
        == after[..|base|] + [counted];
  }

  // ---- Whole programs ----

  lemma {:induction false} MainIsDeclared(f: Build, limit: nat) returns (m: nat)
    requires IsBuild(f) && limit <= |f.order| && "main" in f.order[..limit]
    ensures m < limit && f.order[m] == "main" && Declared(f.functions, limit, "main") == Some(m)
  {
    hide Identifier;
    hide EmitAll;
    var name := f.order[limit - 1];
    if name == "main" {
      m := limit - 1;
    } else {
      assert EmitLogic(f.program.logics.Keys, f.program.logics[name]) == Ok(f.functions[limit - 1]);
      assert FunctionName(name)[0] == 's';
      assert f.functions[limit - 1].name != "main";
      m := MainIsDeclared(f, limit - 1);
    }
  }

  /** Running a loaded program of SEPs is running the body of main. */
  lemma MainIsRun(fuel: nat, program: Program)
    requires IsLoaded(program) && "main" in program.logics && program.logics["main"].parameters == []
    ensures var r := ExecAll(fuel, program, Some(map[]), map[], World([], map["main" := []]),
                             program.logics["main"].body);
            RunLoaded(fuel + 1, program, []) == (CallResult(r.completion), r.world)
  {
    MainIsEntered(fuel + 1, program);
    hide ExecAll;
    var logic := program.logics["main"];
    assert PrepareArguments(logic.parameters, []) == Result.Ok([]) && SignatureOf([]) == Result.Ok([]);
    assert EnterCall(program.logics, EMPTY_WORLD, "main", []) == Result.Ok((World([], map["main" := []]), []));
    assert BindParameters(map[], logic.parameters, []) == Result.Ok(map[]);
    assert BuiltinResult(program, "main", []) == None;
  }

  lemma MainIsEntered(fuel: nat, program: Program)
    requires "main" in program.logics && program.logics["main"].parameters == []
    ensures RunLoaded(fuel, program, []) == Call(fuel, program, map[], EMPTY_WORLD, "main", [])
  {
    NothingRuns(fuel, program);
    hide ExecAll, Call;
  }

  /** Without fuel main is not entered. */
  lemma MainNeedsFuel(fuel: nat, program: Program)
    requires "main" in program.logics && RunLoaded(fuel, program, []).0.Value? && IsLoaded(program)
    ensures program.logics["main"].parameters == [] && fuel > 0
  {
    if program.logics["main"].parameters == [] {
      MainIsEntered(fuel, program);
      hide ExecAll, RunLoaded;
      assert BuiltinResult(program, "main", []) == None;
    }
  }

  lemma NothingRuns(fuel: nat, program: Program)
    ensures ExecAll(fuel, program, None, map[], EMPTY_WORLD, []) == ExecResult(Normal, map[], EMPTY_WORLD)
  {
  }

  /** For every portable program whose firmware C++ accepts: when the interpreter finishes it without an
      error, the firmware finishes with the same result, and prints the same values in the same order. */
  lemma FirmwarePrintsTheSame(f: Build, fuel: nat)
    requires IsBuild(f) && IsPortable(f.program.logics) && Compiles(f.functions) && "main" in f.order
    requires RunLoaded(fuel, f.program, []).0.Value?
    ensures var (v, w) := RunLoaded(fuel, f.program, []);
            CRunProgram(fuel, f.functions) == (Got(v.value), Printout(w.output))
  {
    hide EmitLogic, RunLoaded, ExecAll, CRunAll, PortableLogic, VariableName, Agrees, Finish, Compiles, IsStatus;
    hide ReturnsProperly;
    Safety.AcceptedReturnsProperly(f.functions);
    assert f.order[..|f.order|] == f.order;
    var m := MainIsDeclared(f, |f.order|);
    MainNeedsFuel(fuel, f.program);
    MainIsRun(fuel - 1, f.program);
    var world := World([], map["main" := []]);
    assert forall i | 0 <= i < m :: f.order[i] != f.order[m];
    BodyIsDeclared(f, m);
    var names := f.functions[m].parameters;
    EmittedParameters(f.program.logics.Keys, f.program.logics["main"], f.functions[m]);
    assert BindParameters(map[], [], []) == Result.Ok(map[]);
    AgreesOnEntry(f.program.logics["main"], [], map[], names);
    SimulateBody(f, fuel - 1, m, map[], map[], [BindAll(names, [])], world);
    assert Printout([]) == [];
    Safety.AcceptedNeverGetsStuck(fuel, f.functions);
  }
}
