/** What one operation of a run does to the environments, as a relation between what was there before
    and what is there afterwards. It says exactly which operations succeed. */
module RunsExact {
  import opened Ast
  import opened TypeSpecs
  import opened Trees
  import opened StoreSpec
  import opened StoreLaws
  import opened StoreExact
  import opened StoreRuns

  // ---- Values ----

  /** The environment whose variable a name stands for. */
  predicate IsFrameOf(frames: Frames, name: string, i: int) {
    && 0 <= i < |frames| && name in frames[i]
    && (i == |frames| - 1 || (i == 0 && name !in frames[|frames| - 1]))
  }

  /** What an expression stands for. */
  ghost predicate IsValue(frames: Frames, e: ValueExpr, value: Tree)
    decreases e
  {
    match e
    case Leaf(leaf) => value == leaf
    case Read(name) => exists i :: IsFrameOf(frames, name, i) && value == frames[i][name].value
    case Element(target, index) => exists list :: IsValue(frames, target, list) && SlotAt(list, [index]) == Some(value)
    case Display(items) =>
      && value.ListTree? && |value.items| == |items|
      && (forall i | 0 <= i < |items| :: IsValue(frames, items[i], value.items[i]))
      && exists s :: FitAll(value.items, s)
  }

  lemma FrameOfIff(frames: Frames, name: string, i: nat)
    requires frames != []
    ensures FrameOf(frames, name) == Some(i) <==> IsFrameOf(frames, name, i)
  {
  }

  lemma SlotAtOne(t: Tree, index: Index)
    ensures SlotAt(t, [index])
         == if t.ListTree? && index.At? && 0 <= index.i < |t.items| then Some(t.items[index.i]) else None
  {
    assert [index][1..] == [];
  }

  lemma {:induction false} EvaluateIff(frames: Frames, e: ValueExpr, value: Tree)
    requires frames != []
    ensures Evaluate(frames, e) == Ok(value) <==> IsValue(frames, e, value)
    decreases e, 1
  {
    match e
    case Leaf(_) =>
    case Read(name) =>
      var i := FrameOf(frames, name);
      if i.Some? { FrameOfIff(frames, name, i.value); }
    case Element(target, index) =>
      var list := Evaluate(frames, target);
      if list.Ok? {
        EvaluateIff(frames, target, list.value);
        SlotAtOne(list.value, index);
      }
      if IsValue(frames, e, value) {
        var l :| IsValue(frames, target, l) && SlotAt(l, [index]) == Some(value);
        EvaluateIff(frames, target, l);
        SlotAtOne(l, index);
      }
    case Display(items) =>
      if value.ListTree? {
        EvaluateAllIff(frames, items, value.items);
        FitsIffTyped(value.items);
      }
  }

  lemma {:induction false} EvaluateAllIff(frames: Frames, es: seq<ValueExpr>, values: seq<Tree>)
    requires frames != []
    ensures EvaluateAll(frames, es) == Ok(values)
       <==> |values| == |es| && forall i | 0 <= i < |es| :: IsValue(frames, es[i], values[i])
    decreases es, 0
  {
    if es != [] {
      var first := Evaluate(frames, es[0]);
      if |values| == |es| {
        EvaluateIff(frames, es[0], values[0]);
        EvaluateAllIff(frames, es[1..], values[1..]);
        assert values == [values[0]] + values[1..];
        assert (forall i | 0 <= i < |es| :: IsValue(frames, es[i], values[i]))
          <==> IsValue(frames, es[0], values[0])
               && forall i | 0 <= i < |es| - 1 :: IsValue(frames, es[1..][i], values[1..][i]) by {
          assert forall i | 0 < i < |es| :: es[i] == es[1..][i - 1] && values[i] == values[1..][i - 1];
        }
      } else if EvaluateAll(frames, es) == Ok(values) {
        EvaluateAllIff(frames, es[1..], values[1..]);
      }
    }
  }

  /** A list has an element type if and only if some type covers its elements. */
  lemma FitsIffTyped(items: seq<Tree>)
    ensures ElementSpec(items).Ok? <==> exists s :: FitAll(items, s)
  {
    if ElementSpec(items).Ok? {
      var s := ElementSpec(items).value;
      RefinesReflexive(s);
      ElementSpecIsLeast(items, s);
    } else if s :| FitAll(items, s) {
      ElementSpecIsLeast(items, s);
    }
  }

  // ---- Environments ----

  /** Only the variable of this name is another one, or new. */
  predicate OnlyVariable(before: map<string, Variable>, after: map<string, Variable>, name: string) {
    && name in after && after.Keys == before.Keys + {name}
    && forall x | x in before && x != name :: after[x] == before[x]
  }

  ghost predicate IsAssigned(before: map<string, Variable>, name: string, value: Tree, after: map<string, Variable>) {
    && OnlyVariable(before, after, name)
    && if name in before then IsNext(before[name], value, after[name]) else IsFirst(value, after[name])
  }

  lemma AssignInIff(before: map<string, Variable>, name: string, value: Tree, after: map<string, Variable>)
    requires name in before ==> Typed(before[name])
    ensures AssignIn(before, name, value) == Ok(after) <==> IsAssigned(before, name, value, after)
  {
    hide Introduce, Reassign, IsNext, IsFirst;
    if name in before {
      var v := Reassign(before[name], value);
      if v.Ok? { ReassignIff(before[name], value, v.value); }
      if name in after { ReassignIff(before[name], value, after[name]); }
    } else {
      var v := Introduce(value);
      if v.Ok? { IntroduceIff(value, v.value); }
      if name in after { IntroduceIff(value, after[name]); }
    }
    if OnlyVariable(before, after, name) {
      assert after == before[name := after[name]];
    }
  }

  ghost predicate IsDefinedIn(before: map<string, Variable>, name: string, declared: DeclaredType, value: Tree,
                              constant: bool, after: map<string, Variable>) {
    IsDeclarable(declared) && name !in before && OnlyVariable(before, after, name)
    && IsDefined(declared, value, constant, after[name])
  }

  lemma DefineInIff(before: map<string, Variable>, name: string, declared: DeclaredType, value: Tree, constant: bool,
                    after: map<string, Variable>)
    ensures DefineIn(before, name, declared, value, constant) == Ok(after)
       <==> IsDefinedIn(before, name, declared, value, constant, after)
  {
    hide StoreSpec.Define, IsDefined;
    if IsDeclarable(declared) {
      var v := StoreSpec.Define(declared, value, constant);
      if v.Ok? { DefineIff(declared, value, constant, v.value); }
      if name in after { DefineIff(declared, value, constant, after[name]); }
      VoidIsNotDefined(declared, constant);
    }
    if OnlyVariable(before, after, name) {
      assert after == before[name := after[name]];
    }
  }

  lemma VoidIsNotDefined(declared: DeclaredType, constant: bool)
    ensures forall v :: !IsDefined(declared, VoidTree, constant, v)
  {
  }

  // ---- Parameters ----

  predicate HasDistinctNames(parameters: seq<Parameter>) {
    forall i, j | 0 <= i < j < |parameters| :: parameters[i].name != parameters[j].name
  }

  /** A parameter holds its argument: as a typed definition has it, or as a first assignment. */
  ghost predicate IsPassed(p: Parameter, argument: Tree, v: Variable) {
    && !argument.VoidTree? && !argument.EmptysTree?
    && if p.declared.Some? then IsDeclarable(p.declared.value) && IsDefined(p.declared.value, argument, false, v)
       else IsFirst(argument, v)
  }

  function NamesIn(parameters: seq<Parameter>): set<string> { set p | p in parameters :: p.name }

  /** All parameters hold their arguments, and the environment keeps what it had. */
  ghost predicate AreBound(before: map<string, Variable>, parameters: seq<Parameter>, arguments: seq<Tree>,
                           after: map<string, Variable>)
  {
    && |arguments| == |parameters|
    && after.Keys == before.Keys + NamesIn(parameters)
    && (forall x | x in before :: after[x] == before[x])
    && forall i | 0 <= i < |parameters| :: IsPassed(parameters[i], arguments[i], after[parameters[i].name])
  }

  /** Preparing an argument twice is preparing it once. */
  lemma PreparedIsDefined(declared: DeclaredType, value: Tree, v: Variable)
    requires IsDeclarable(declared) && !value.EmptysTree? && !value.VoidTree?
    ensures Prepare(declared, value).Ok? ==>
              (StoreSpec.Define(declared, Prepare(declared, value).value, false) == Ok(v)
               <==> StoreSpec.Define(declared, value, false) == Ok(v))
    ensures Prepare(declared, value).Err? ==> StoreSpec.Define(declared, value, false).Err?
  {
    if Prepare(declared, value).Ok? {
      var prepared := StoreSpec.Define(declared, value, false).value;
      DefineIsTyped(declared, value, false);
      if value.ListTree? {
        var s := TypeOf(prepared);
        NormalizeIsIdentity(prepared.value, s);
        RefinesReflexive(s);
        ConformingFitsRefined(prepared.value, s, s);
        DefineIff(declared, prepared.value, false, prepared);
        SameUpToEmptyReflexive(prepared.value);
        assert IsDefined(declared, prepared.value, false, prepared);
      }
    }
  }

  function BindOne(before: map<string, Variable>, p: Parameter, value: Tree): Result<map<string, Variable>> {
    if p.declared.None? then AssignIn(before, p.name, value)
    else DefineIn(before, p.name, p.declared.value, value, false)
  }

  lemma PassedIff(before: map<string, Variable>, p: Parameter, argument: Tree, after: map<string, Variable>)
    requires p.name !in before && !argument.VoidTree? && !argument.EmptysTree?
    ensures (PrepareArgument(p, argument).Ok? && BindOne(before, p, PrepareArgument(p, argument).value) == Ok(after))
       <==> OnlyVariable(before, after, p.name) && IsPassed(p, argument, after[p.name])
  {
    hide StoreSpec.Define, IsDefined, IsFirst, Introduce, Reassign, Prepare, IsNext;
    if OnlyVariable(before, after, p.name) {
      assert after == before[p.name := after[p.name]];
    }
    if p.declared.None? {
      AssignInIff(before, p.name, argument, after);
      UntypedIsNotFirst();
    } else if IsDeclarable(p.declared.value) {
      var declared, prepared := p.declared.value, PrepareArgument(p, argument);
      DefineInIff(before, p.name, declared, argument, false, after);
      if p.name in after {
        PreparedIsDefined(declared, argument, after[p.name]);
        DefineIff(declared, argument, false, after[p.name]);
      }
      if prepared.Ok? {
        PreparedIsPresent(declared, argument);
        DefineInIff(before, p.name, declared, prepared.value, false, after);
        if p.name in after {
          DefineIff(declared, prepared.value, false, after[p.name]);
        }
      }
    }
  }

  lemma UntypedIsNotFirst()
    ensures forall v :: !IsFirst(EmptyTree(Unknown), v)
  {
    forall v
      ensures !IsFirst(EmptyTree(Unknown), v)
    {
      IntroduceIff(EmptyTree(Unknown), v);
    }
  }

  lemma PreparedIsPresent(declared: DeclaredType, value: Tree)
    requires IsDeclarable(declared) && !value.EmptysTree? && !value.VoidTree? && Prepare(declared, value).Ok?
    ensures !Prepare(declared, value).value.VoidTree?
  {
  }

  lemma AreBoundFirst(before: map<string, Variable>, parameters: seq<Parameter>, arguments: seq<Tree>,
                      after: map<string, Variable>)
    requires |arguments| == |parameters| > 0
    requires forall p | p in parameters :: p.name !in before
    ensures AreBound(before, parameters, arguments, after) <==> BoundFrom(before, parameters, arguments, after)
  {
    hide IsPassed, NamesIn;
    var p, more := parameters[0], parameters[1..];
    NamesOf(parameters);
    assert p in parameters;
    if p.name in after {
      var middle := before[p.name := after[p.name]];
      assert middle.Keys == before.Keys + {p.name};
      assert (forall x | x in middle :: x in after && after[x] == middle[x])
        <==> (forall x | x in before :: x in after && after[x] == before[x]);
      assert forall i | 0 < i < |parameters| :: parameters[i] == more[i - 1] && arguments[i] == arguments[1..][i - 1];
    }
  }

  ghost predicate BoundFrom(before: map<string, Variable>, parameters: seq<Parameter>, arguments: seq<Tree>,
                            after: map<string, Variable>)
    requires |arguments| == |parameters| > 0
  {
    var p := parameters[0];
    && p.name in after && IsPassed(p, arguments[0], after[p.name])
    && AreBound(before[p.name := after[p.name]], parameters[1..], arguments[1..], after)
  }

  lemma NamesOf(parameters: seq<Parameter>)
    requires parameters != []
    ensures NamesIn(parameters) == {parameters[0].name} + NamesIn(parameters[1..])
  {
    assert parameters == [parameters[0]] + parameters[1..];
  }

  lemma AreBoundNone(before: map<string, Variable>, after: map<string, Variable>)
    ensures AreBound(before, [], [], after) <==> after == before
  {
    assert NamesIn([]) == {};
    if AreBound(before, [], [], after) {
      assert after.Keys == before.Keys;
    }
  }

  lemma {:induction false} BoundIff(before: map<string, Variable>, parameters: seq<Parameter>, arguments: seq<Tree>,
                                    after: map<string, Variable>)
    requires HasDistinctNames(parameters) && |arguments| == |parameters|
    requires VoidTree !in arguments && EmptysTree !in arguments
    requires forall p | p in parameters :: p.name !in before
    ensures (PrepareArguments(parameters, arguments).Ok?
             && BindParameters(before, parameters, PrepareArguments(parameters, arguments).value) == Ok(after))
       <==> AreBound(before, parameters, arguments, after)
    decreases |parameters|
  {
    hide BindOne, PrepareArgument, IsPassed, AreBound;
    if parameters == [] {
      AreBoundNone(before, after);
    } else {
      var p, more := parameters[0], parameters[1..];
      assert arguments[0] in arguments && p in parameters;
      assert forall q | q in more :: q in parameters && q.name != p.name;
      BoundOneByOne(before, parameters, arguments);
      AreBoundFirst(before, parameters, arguments, after);
      hide PrepareArguments, BindParameters;
      if p.name in after {
        var middle := before[p.name := after[p.name]];
        PassedIff(before, p, arguments[0], middle);
        BoundIff(middle, more, arguments[1..], after);
      }
      var first := PrepareArgument(p, arguments[0]);
      if first.Ok? && BindOne(before, p, first.value).Ok? {
        var middle := BindOne(before, p, first.value).value;
        PassedIff(before, p, arguments[0], middle);
        BoundIff(middle, more, arguments[1..], after);
        KeptByBound(middle, more, arguments[1..], after, p.name);
        assert OnlyVariable(before, middle, p.name) ==> middle == before[p.name := middle[p.name]];
      }
    }
  }

  lemma KeptByBound(before: map<string, Variable>, parameters: seq<Parameter>, arguments: seq<Tree>,
                    after: map<string, Variable>, x: string)
    ensures AreBound(before, parameters, arguments, after) && x in before ==> x in after && after[x] == before[x]
  {
  }

  /** The first parameter, and then the others. */
  lemma BoundOneByOne(before: map<string, Variable>, parameters: seq<Parameter>, arguments: seq<Tree>)
    requires |arguments| == |parameters| > 0
    ensures var first, rest := PrepareArgument(parameters[0], arguments[0]),
                               PrepareArguments(parameters[1..], arguments[1..]);
            var all := PrepareArguments(parameters, arguments);
            && (all.Ok? <==> first.Ok? && rest.Ok?)
            && (all.Ok? ==>
                  var middle := BindOne(before, parameters[0], first.value);
                  BindParameters(before, parameters, all.value)
                    == if middle.Err? then middle else BindParameters(middle.value, parameters[1..], rest.value))
  {
    hide PrepareArgument, AssignIn, DefineIn;
    var all := PrepareArguments(parameters, arguments);
    if all.Ok? {
      assert all.value[1..] == PrepareArguments(parameters[1..], arguments[1..]).value;
    }
  }

  // ---- Operations ----

  /** Only environment `i` is another one. */
  predicate OnlyFrame(before: Frames, after: Frames, i: int) {
    && |after| == |before| && 0 <= i < |before|
    && forall j | 0 <= j < |before| && j != i :: after[j] == before[j]
  }

  /** Of all variables only the one that the name stands for is another one. */
  predicate OnlyTarget(before: Frames, name: string, after: Frames, i: int) {
    IsFrameOf(before, name, i) && OnlyFrame(before, after, i) && OnlyVariable(before[i], after[i], name)
  }

  /** The environments that an operation leaves when it succeeds. */
  ghost predicate IsStep(frames: Frames, op: Operation, after: Frames)
    requires frames != []
  {
    var last := |frames| - 1;
    match op
    case Assign(name, e) =>
      OnlyFrame(frames, after, last)
      && exists value :: IsValue(frames, e, value) && IsAssigned(frames[last], name, value, after[last])
    case Define(name, declared, e, constant) =>
      OnlyFrame(frames, after, last)
      && exists value :: IsValue(frames, e, value)
           && IsDefinedIn(frames[last], name, declared, value, constant, after[last])
    case AssignAt(name, indexes, e) =>
      exists i, value :: OnlyTarget(frames, name, after, i) && IsValue(frames, e, value)
        && IsIndexed(frames[i][name], indexes, value, after[i][name])
    case Reshape(name, path, shape) =>
      exists i :: OnlyTarget(frames, name, after, i) && IsReshapedVariable(frames[i][name], path, shape, after[i][name])
    case Call(parameters, arguments) => IsCalled(frames, parameters, arguments, after)
    case Return => after == if |frames| == 1 then frames else frames[..last]
    case ReturnTo(name, e) =>
      |frames| > 1 && OnlyFrame(frames[..last], after, last - 1)
      && exists value :: IsValue(frames, e, value) && IsAssigned(frames[last - 1], name, value, after[last - 1])
  }

  /** One more environment, with the parameters. */
  ghost predicate IsCalled(frames: Frames, parameters: seq<Parameter>, arguments: seq<ValueExpr>, after: Frames) {
    && |after| == |frames| + 1 && after[..|frames|] == frames && |arguments| == |parameters|
    && exists values :: AreValues(frames, arguments, values)
         && VoidTree !in values && EmptysTree !in values
         && AreBound(map[], parameters, values, after[|frames|])
  }

  ghost predicate AreValues(frames: Frames, es: seq<ValueExpr>, values: seq<Tree>) {
    |values| == |es| && forall i | 0 <= i < |es| :: IsValue(frames, es[i], values[i])
  }

  /** The parser refuses two parameters of one name. */
  predicate IsSensible(op: Operation) { op.Call? ==> HasDistinctNames(op.parameters) }

  /** An operation succeeds if and only if there are such environments, and leaves them. */
  lemma StepIff(frames: Frames, op: Operation, after: Frames)
    requires frames != [] && AllTyped(frames) && IsSensible(op)
    ensures Step(frames, op) == Ok(after) <==> IsStep(frames, op, after)
  {
    hide IsStep, Step;
    match op
    case Assign(_, _) => AssignIff(frames, op, after);
    case Define(_, _, _, _) => DefinitionIff(frames, op, after);
    case AssignAt(_, _, _) => AssignAtIff(frames, op, after);
    case Reshape(_, _, _) => ReshapeStepIff(frames, op, after);
    case Call(_, _) => CallIff(frames, op, after);
    case Return => ReturnIff(frames, after);
    case ReturnTo(_, _) => ReturnToIff(frames, op, after);
  }

  lemma ReplacedFrame(before: Frames, after: Frames, i: nat)
    requires i < |before|
    ensures OnlyFrame(before, after, i) <==> |after| == |before| && after == before[i := after[i]]
  {
  }

  lemma AssignIff(frames: Frames, op: Operation, after: Frames)
    requires frames != [] && AllTyped(frames) && op.Assign?
    ensures Step(frames, op) == Ok(after) <==> IsStep(frames, op, after)
  {
    hide AssignIn, Evaluate, IsValue, IsAssigned, OnlyFrame;
    var last, value := |frames| - 1, Evaluate(frames, op.e);
    ReplacedFrame(frames, after, last);
    OneValue(frames, op.e);
    if value.Ok? {
      var frame := AssignIn(frames[last], op.name, value.value);
      if frame.Ok? { AssignInIff(frames[last], op.name, value.value, frame.value); }
      if |after| == |frames| { AssignInIff(frames[last], op.name, value.value, after[last]); }
    }
  }

  /** An expression stands for one value at most. */
  lemma OneValue(frames: Frames, e: ValueExpr)
    requires frames != []
    ensures forall v :: IsValue(frames, e, v) <==> Evaluate(frames, e) == Ok(v)
  {
    hide Evaluate, IsValue;
    forall v
      ensures IsValue(frames, e, v) <==> Evaluate(frames, e) == Ok(v)
    {
      EvaluateIff(frames, e, v);
    }
  }

  lemma DefinitionIff(frames: Frames, op: Operation, after: Frames)
    requires frames != [] && op.Define?
    ensures Step(frames, op) == Ok(after) <==> IsStep(frames, op, after)
  {
    hide DefineIn, Evaluate, IsValue, IsDefinedIn, OnlyFrame;
    var last, value := |frames| - 1, Evaluate(frames, op.e);
    ReplacedFrame(frames, after, last);
    OneValue(frames, op.e);
    if value.Ok? {
      var frame := DefineIn(frames[last], op.name, op.declared, value.value, op.constant);
      if frame.Ok? { DefineInIff(frames[last], op.name, op.declared, value.value, op.constant, frame.value); }
      if |after| == |frames| { DefineInIff(frames[last], op.name, op.declared, value.value, op.constant, after[last]); }
    }
  }

  lemma OneTarget(frames: Frames, name: string, after: Frames)
    requires frames != []
    ensures forall i: nat :: IsFrameOf(frames, name, i) <==> FrameOf(frames, name) == Some(i)
    ensures forall i :: OnlyTarget(frames, name, after, i) <==>
              && |after| == |frames| && FrameOf(frames, name).Some? && i == FrameOf(frames, name).value
              && name in after[i] && after == frames[i := frames[i][name := after[i][name]]]
  {
    forall i | OnlyTarget(frames, name, after, i)
      ensures after == frames[i := frames[i][name := after[i][name]]]
    {
      assert after[i] == frames[i][name := after[i][name]];
    }
  }

  lemma AssignAtIff(frames: Frames, op: Operation, after: Frames)
    requires frames != [] && AllTyped(frames) && op.AssignAt?
    ensures Step(frames, op) == Ok(after) <==> IsStep(frames, op, after)
  {
    hide AssignIndexes, Evaluate, IsValue, IsIndexed, OnlyTarget, FrameOf, IsFrameOf;
    var name, value, found := op.name, Evaluate(frames, op.e), FrameOf(frames, op.name);
    OneTarget(frames, name, after);
    OneValue(frames, op.e);
    if found.Some? && value.Ok? {
      var i := found.value;
      var w := AssignIndexes(frames[i][name], op.indexes, value.value);
      if w.Ok? { AssignIndexesIff(frames[i][name], op.indexes, value.value, w.value); }
      if |after| == |frames| && name in after[i] {
        AssignIndexesIff(frames[i][name], op.indexes, value.value, after[i][name]);
      }
    }
  }

  lemma ReshapeStepIff(frames: Frames, op: Operation, after: Frames)
    requires frames != [] && AllTyped(frames) && op.Reshape?
    ensures Step(frames, op) == Ok(after) <==> IsStep(frames, op, after)
  {
    hide ReshapeVariable, IsReshapedVariable, OnlyTarget, FrameOf, IsFrameOf;
    var name, found := op.name, FrameOf(frames, op.name);
    OneTarget(frames, name, after);
    if found.Some? {
      var i := found.value;
      var w := ReshapeVariable(frames[i][name], op.path, op.shape);
      if w.Ok? { ReshapeVariableIff(frames[i][name], op.path, op.shape, w.value); }
      if |after| == |frames| && name in after[i] {
        ReshapeVariableIff(frames[i][name], op.path, op.shape, after[i][name]);
      }
    }
  }

  lemma ReturnIff(frames: Frames, after: Frames)
    requires frames != []
    ensures Step(frames, Return) == Ok(after) <==> IsStep(frames, Return, after)
  {
  }

  lemma ReturnToIff(frames: Frames, op: Operation, after: Frames)
    requires frames != [] && AllTyped(frames) && op.ReturnTo?
    ensures Step(frames, op) == Ok(after) <==> IsStep(frames, op, after)
  {
    hide AssignIn, Evaluate, IsValue, IsAssigned, OnlyFrame;
    if |frames| > 1 {
      var last, value := |frames| - 1, Evaluate(frames, op.e);
      ReplacedFrame(frames[..last], after, last - 1);
      OneValue(frames, op.e);
      if value.Ok? {
        var frame := AssignIn(frames[last - 1], op.name, value.value);
        if frame.Ok? { AssignInIff(frames[last - 1], op.name, value.value, frame.value); }
        if |after| == last { AssignInIff(frames[last - 1], op.name, value.value, after[last - 1]); }
      }
    }
  }

  lemma CallIff(frames: Frames, op: Operation, after: Frames)
    requires frames != [] && op.Call? && IsSensible(op)
    ensures Step(frames, op) == Ok(after) <==> IsStep(frames, op, after)
  {
    hide BindParameters, EvaluateAll, PrepareArguments, AreBound, AreValues;
    var parameters, values := op.parameters, EvaluateAll(frames, op.arguments);
    if |after| == |frames| + 1 {
      assert after[..|frames|] == frames ==> after == frames + [after[|frames|]];
    }
    forall vs
      ensures AreValues(frames, op.arguments, vs) <==> values == Ok(vs)
      ensures AreValues(frames, op.arguments, vs) ==> |vs| == |op.arguments|
    {
      ValuesIff(frames, op.arguments, vs);
    }
    if values.Ok? && |values.value| == |parameters| && VoidTree !in values.value && EmptysTree !in values.value {
      var prepared := PrepareArguments(parameters, values.value);
      if prepared.Ok? && BindParameters(map[], parameters, prepared.value).Ok? {
        BoundIff(map[], parameters, values.value, BindParameters(map[], parameters, prepared.value).value);
      }
      if |after| == |frames| + 1 {
        BoundIff(map[], parameters, values.value, after[|frames|]);
      }
    }
  }

  lemma ValuesIff(frames: Frames, es: seq<ValueExpr>, values: seq<Tree>)
    requires frames != []
    ensures AreValues(frames, es, values) <==> EvaluateAll(frames, es) == Ok(values)
    ensures AreValues(frames, es, values) ==> |values| == |es|
  {
    hide EvaluateAll, IsValue;
    EvaluateAllIff(frames, es, values);
  }
}
