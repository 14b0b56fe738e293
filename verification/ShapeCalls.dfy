/** A list shape operation whose arguments call SEPs. The interpreter fetches the list object of the
    variable first, then evaluates the arguments, and at last changes the object that it has fetched.
    Whether the variable notices depends on what the calls have done in between. */
module ShapeCalls {
  import opened Ast
  import opened TypeSpecs
  import opened Trees
  import opened StoreSpec
  import opened HeapLists
  import opened Stores
  import opened Bindings
  import opened StoreRuns
  import opened Machines

  /** The operation gives variable `x` of environment `i` a new value, or one of its slots. */
  predicate Reassigns(frames: StoreRuns.Frames, op: Operation, i: nat, x: string)
    requires frames != []
  {
    && Step(frames, op).Ok?
    && match op
       case Assign(name, _) => name == x && i == |frames| - 1
       case AssignAt(name, _, _) => name == x && FrameOf(frames, x) == Some(i)
       case ReturnTo(name, _) => name == x && i == |frames| - 2
       case _ => false
  }

  /** Some operation of the run does so. */
  predicate RunReassigns(frames: StoreRuns.Frames, ops: seq<Operation>, i: nat, x: string)
    requires frames != []
    decreases ops
  {
    ops != [] && (Reassigns(frames, ops[0], i, x) || RunReassigns(Outcome(frames, ops[0]), ops[1..], i, x))
  }

  /** What is wrong with a variable as the target of a shape operation, if anything is. */
  function TargetFailure(v: Variable): Option<string> {
    if v.constant then Some("E211")
    else if v.value.EmptyTree? then Some("E131")
    else if !v.value.ListTree? then Some("E201")
    else None
  }

  lemma OutcomeKeepsNames(frames: StoreRuns.Frames, op: Operation, i: nat, x: string)
    requires frames != [] && i < |frames| && x in frames[i] && i < |Outcome(frames, op)|
    ensures x in Outcome(frames, op)[i]
  {
    hide Evaluate, Passed, BindParameters, AssignIndexes, ReshapeVariable, Reassign, Introduce;
  }

  /** A name that has a variable keeps it while its environment is open. */
  lemma {:induction false} RunKeepsNames(frames: StoreRuns.Frames, ops: seq<Operation>, i: nat, x: string)
    requires frames != [] && i < |frames| && x in frames[i] && i < OpenThroughout(frames, ops)
    ensures i < |RunAll(frames, ops)| && x in RunAll(frames, ops)[i]
    decreases ops
  {
    hide Outcome;
    if ops != [] {
      OutcomeKeepsNames(frames, ops[0], i, x);
      RunKeepsNames(Outcome(frames, ops[0]), ops[1..], i, x);
    }
  }

  /** What the operation leaves behind: when the variable has been given another list by then, nothing
      that can be seen. */
  function ShapeCalled(frames: StoreRuns.Frames, name: string, ops: seq<Operation>, shape: Shape): StoreRuns.Frames
    requires frames != []
    requires FrameOf(frames, name).Some? ==> FrameOf(frames, name).value < OpenThroughout(frames, ops)
  {
    var i := FrameOf(frames, name);
    if i.None? || TargetFailure(frames[i.value][name]).Some? then frames
    else
      RunKeepsNames(frames, ops, i.value, name);
      var behind := RunAll(frames, ops);
      if RunReassigns(frames, ops, i.value, name) then behind
      else
        var v := ReshapeVariable(behind[i.value][name], [], shape);
        if v.Err? then behind else behind[i.value := behind[i.value][name := v.value]]
  }

  /** How the operation ends, unless it changes a list that no variable has any more. */
  predicate EndsWith(frames: StoreRuns.Frames, name: string, ops: seq<Operation>, shape: Shape, failure: Option<string>)
    requires frames != []
    requires FrameOf(frames, name).Some? ==> FrameOf(frames, name).value < OpenThroughout(frames, ops)
  {
    var i := FrameOf(frames, name);
    if i.None? then failure == Some("E202")
    else if TargetFailure(frames[i.value][name]).Some? then failure == TargetFailure(frames[i.value][name])
    else
      RunKeepsNames(frames, ops, i.value, name);
      var v := ReshapeVariable(RunAll(frames, ops)[i.value][name], [], shape);
      RunReassigns(frames, ops, i.value, name) || failure == if v.Err? then Some(v.code) else None
  }

  /** list_insert(g, 0, f()), where f does g[0] = x: the slots are lost. */
  lemma InsertionIsLost(v: Variable, x: LeafValue, shape: Shape)
    requires !v.constant && v.value.ListTree? && AssignIndexes(v, [At(0)], x).Ok?
    ensures var ops := [Call([], []), AssignAt("g", [At(0)], Leaf(x)), Return];
            && OpenThroughout([map["g" := v]], ops) == 1
            && ShapeCalled([map["g" := v]], "g", ops, shape) == [map["g" := AssignIndexes(v, [At(0)], x).value]]
  {
    hide AssignIndexes;
    var call, assign, back := Call([], []), AssignAt("g", [At(0)], Leaf(x)), Return;
    var ops := [call, assign, back];
    var before, after := map["g" := v], map["g" := AssignIndexes(v, [At(0)], x).value];
    var frames, inside, changed: StoreRuns.Frames := [before], [before, map[]], [after, map[]];
    assert Passed(frames, [], []) == Result.Ok([]);
    assert Outcome(frames, call) == inside;
    assert before["g" := after["g"]] == after && inside[0 := after] == changed;
    assert Outcome(inside, assign) == changed && Outcome(changed, back) == [after];
    assert ops[1..] == [assign, back] && [assign, back][1..] == [back] && [back][1..] == [];
    assert Reassigns(inside, assign, 0, "g");
    hide Outcome, Reassigns;
    assert RunAll([after], []) == [after] && RunAll(changed, [back]) == [after]
        && RunAll(inside, [assign, back]) == [after];
    assert OpenThroughout([after], []) == 1 && OpenThroughout(changed, [back]) == 1;
    assert OpenThroughout(inside, [assign, back]) == 1;
    assert RunReassigns(inside, [assign, back], 0, "g");
  }

  // ---- On the heap ----

  /** The variable still has the object that has been fetched. */
  ghost predicate IsAttached(m: Memory, i: nat, name: string, b: Binding, list: ListObject, element: Spec) {
    && i < |m.frames| && name in m.frames[i] && m.frames[i][name] == b && b in m.held
    && m.held[b].value == ListSlot(list) && m.held[b].element == element
  }

  /** No variable has any of these objects. */
  ghost predicate AreOrphans(m: Memory, lists: set<ListObject>) {
    lists <= m.lists && forall c | c in m.held :: m.held[c].lists !! lists
  }

  lemma StaysAttached(before: Memory, after: Memory, touched: set<Binding>, success: bool, i: nat, name: string,
                      b: Binding, list: ListObject, element: Spec)
    requires IsAttached(before, i, name, b, list, element) && i < |after.frames|
    requires Kept(before, after, touched) && Took(before, after, touched, success) && (b in touched ==> !success)
    ensures IsAttached(after, i, name, b, list, element)
  {
  }

  lemma StayOrphans(before: Memory, after: Memory, touched: set<Binding>, lists: set<ListObject>)
    requires AreOrphans(before, lists) && Kept(before, after, touched)
    ensures AreOrphans(after, lists)
  {
    forall c | c in after.held
      ensures after.held[c].lists !! lists
    {
      assert StillHolds(before, after, c) || after.held[c].lists !! before.lists;
    }
  }

  lemma BecomeOrphans(before: Memory, after: Memory, touched: set<Binding>, b: Binding)
    requires b in before.held && b in touched && before.held[b].lists <= before.lists
    requires forall c | c in before.held && c != b :: before.held[c].lists !! before.held[b].lists
    requires Kept(before, after, touched) && Took(before, after, touched, true)
    ensures AreOrphans(after, before.held[b].lists)
  {
    var lists := before.held[b].lists;
    forall c | c in after.held
      ensures after.held[c].lists !! lists
    {
      if c != b {
        assert StillHolds(before, after, c) || after.held[c].lists !! before.lists;
      } else {
        assert after.held[b].lists !! before.lists;
      }
    }
  }

  /** The targets of an operation are the variables that it reassigns, or reshapes. */
  lemma TargetsAreReassigned(m: Machine, op: Operation, i: nat, name: string)
    requires m.Valid() && i < |m.frames| && name in m.frames[i]
    ensures |m.frames| == |m.view| && m.memory.frames == m.frames && m.memory.lists == m.lists
    ensures Step(m.view, op).Ok? && !op.Reshape? && m.frames[i][name] in Targets(m.frames, op)
       <==> Reassigns(m.view, op, i, name)
  {
    hide Step, Separate, Binding.Valid;
  }

  lemma HeldApart(m: Machine, b: Binding)
    requires m.Valid() && b in m.bindings
    ensures m.memory.held.Keys == m.bindings && m.memory.held[b] == b.Held() && b.Valid()
    ensures b.lists <= m.memory.lists
    ensures forall c | c in m.memory.held && c != b :: m.memory.held[c].lists !! b.lists
  {
    hide Binding.Valid, Named, Shows;
  }

  lemma TargetsAreBindings(m: Machine, op: Operation)
    requires m.Valid()
    ensures Targets(m.frames, op) <= m.bindings
  {
    hide Separate, Shows, Binding.Valid;
  }

  /** A list object with everything it reaches. */
  ghost predicate IsListOf(n: Node, list: ListObject, lists: set<ListObject>)
    reads lists
  {
    n.ListNode? && n.list == list && Live(n, lists) && IsTree(Lists(n))
  }

  /** One operation of the calls in between. The fetched object stays with its variable until that is given a
      new value; from then on no variable has it. */
  method OneOperation(m: Machine, op: Operation, ghost i: nat, ghost name: string, ghost b: Binding,
                      ghost list: ListObject, ghost element: Spec, ghost attached: bool, ghost n: Node,
                      ghost lists: set<ListObject>)
    returns (ghost stays: bool, ghost left: Node, ghost owned: set<ListObject>)
    requires m.Valid() && i < |m.view| && i < |Outcome(m.view, op)|
    requires attached ==> IsAttached(m.memory, i, name, b, list, element)
    requires !attached ==> AreOrphans(m.memory, lists) && IsListOf(n, list, lists)
    modifies m, m.bindings, m.lists
    ensures m.Valid() && fresh(m.bindings - old(m.bindings)) && fresh(m.lists - old(m.lists))
    ensures m.view == Outcome(old(m.view), op) && old(m.bindings) <= m.bindings
    ensures stays == (attached && !Reassigns(old(m.view), op, i, name))
    ensures stays ==> IsAttached(m.memory, i, name, b, list, element)
    ensures !stays ==> AreOrphans(m.memory, owned) && IsListOf(left, list, owned)
  {
    hide Binding.Valid, Separate, Shows, Named, Tracks, Kept, Took, Outcome, Step, Reassigns, Targets;
    m.FrameCount();
    TargetsAreBindings(m, op);
    ghost var before := m.memory;
    ghost var touched := Targets(m.frames, op);
    stays, left, owned := attached, n, lists;
    if attached {
      m.AllHeld();
      TargetsAreReassigned(m, op, i, name);
      HeldApart(m, b);
      stays := !Reassigns(m.view, op, i, name);
      left, owned := b.node, b.lists;
      BindingsHoldLists(b, list);
    }
    assert !attached ==> forall c | c in touched :: c.lists !! lists by {
      m.AllHeld();
    }
    var failure := m.Execute(op);
    m.FrameCount();
    KeptBindings(before, m.memory, touched);
    if !attached {
      StayOrphans(before, m.memory, touched, lists);
    } else if stays {
      StaysAttached(before, m.memory, touched, failure.None? && !op.Reshape?, i, name, b, list, element);
    } else {
      OnlyAssignments(old(m.view), op, i, name);
      BecomeOrphans(before, m.memory, touched, b);
    }
  }

  lemma KeptBindings(before: Memory, after: Memory, touched: set<Binding>)
    requires Kept(before, after, touched)
    ensures before.held.Keys <= after.held.Keys
  {
  }

  lemma OnlyAssignments(frames: StoreRuns.Frames, op: Operation, i: nat, x: string)
    requires frames != [] && Reassigns(frames, op, i, x)
    ensures Step(frames, op).Ok? && !op.Reshape?
  {
  }

  lemma BindingsHoldLists(b: Binding, list: ListObject)
    requires b.Valid() && b.value == ListSlot(list)
    ensures IsListOf(b.node, list, b.lists)
  {
  }

  /** Changing an object that no variable has shows nowhere. */
  method ChangeOrphan(m: Machine, list: ListObject, element: Spec, shape: Shape, ghost n: Node,
                      ghost lists: set<ListObject>)
    returns (failure: Option<string>)
    requires m.Valid() && AreOrphans(m.memory, lists) && IsListOf(n, list, lists)
    modifies lists
    ensures m.Valid()
  {
    hide StoreSpec.Reshape, Binding.Valid, Named, Shows, Tracks;
    m.AllHeld();
    ghost var after: Node;
    failure, after := ReshapeList(list, element, shape, n, lists);
    assert forall c | c in m.bindings :: c.Valid();
  }

  /** Changes the fetched object in place: it is the one that the variable has, or one that no variable has. */
  method ChangeFetched(m: Machine, list: ListObject, element: Spec, shape: Shape, i: nat, name: string, b: Binding,
                       ghost attached: bool, ghost n: Node, ghost lists: set<ListObject>)
    returns (failure: Option<string>)
    requires m.Valid() && i < |m.view| && b in m.bindings && (b.value == ListSlot(list) <==> attached)
    requires attached ==> IsAttached(m.memory, i, name, b, list, element)
    requires !attached ==> AreOrphans(m.memory, lists) && IsListOf(n, list, lists)
    modifies m, m.bindings, m.lists
    ensures m.Valid() && (!attached ==> m.view == old(m.view))
    ensures attached ==>
              && name in old(m.view)[i]
              && var spec := ReshapeVariable(old(m.view)[i][name], [], shape);
                 if spec.Err? then failure == Some(spec.code) && m.view == old(m.view)
                 else failure == None && m.view == old(m.view)[i := old(m.view)[i][name := spec.value]]
  {
    hide StoreSpec.ReshapeVariable, Binding.Valid, Named, Shows, Separate, Tracks, Kept, Took;
    m.FrameCount();
    if b.value == ListSlot(list) {
      m.SameNames(i, name);
      failure := m.ReshapeNamed(i, name, [], shape);
    } else {
      failure := ChangeOrphan(m, list, element, shape, n, lists);
    }
  }

  /** A binding with another list does not hold this one. */
  lemma OrphanIsNotHeld(m: Machine, b: Binding, list: ListObject, n: Node, lists: set<ListObject>)
    requires m.Valid() && b in m.bindings && AreOrphans(m.memory, lists) && IsListOf(n, list, lists)
    ensures b.value != ListSlot(list)
  {
    hide Named, Shows;
    HeldApart(m, b);
  }

  /** What is wrong with the binding of a target. */
  lemma TargetIsSeen(m: Machine, i: nat, name: string)
    requires m.Valid() && i < |m.frames| && name in m.frames[i]
    ensures var b := m.frames[i][name];
            && b in m.bindings && |m.view| == |m.frames| && name in m.view[i]
            && TargetFailure(m.view[i][name])
               == (if b.constant then Some("E211") else if b.value.EmptySlot? then Some("E131")
                   else if !b.value.ListSlot? then Some("E201") else None)
            && (b.value.ListSlot? ==> IsAttached(m.memory, i, name, b, b.value.list, b.element))
  {
    hide Separate;
    var b := m.frames[i][name];
    BindingShows(m, b);
    hide Binding.Valid;
  }

  lemma BindingShows(m: Machine, b: Binding)
    requires m.Valid() && b in m.bindings
    ensures b.value.EmptySlot? <==> TreeOf(b.node).EmptyTree?
    ensures b.value.ListSlot? <==> TreeOf(b.node).ListTree?
  {
    hide Named, Shows, Tracks;
    assert b.Valid();
  }

  /** What the calls of the arguments do. */
  method CallBetween(m: Machine, ops: seq<Operation>, ghost i: nat, ghost name: string, b: Binding, list: ListObject,
                     ghost element: Spec)
    returns (ghost attached: bool, ghost n: Node, ghost lists: set<ListObject>)
    requires m.Valid() && m.view != [] && b in m.bindings && i < OpenThroughout(m.view, ops)
    requires IsAttached(m.memory, i, name, b, list, element)
    modifies m, m.bindings, m.lists
    ensures m.Valid() && fresh(m.bindings - old(m.bindings)) && fresh(m.lists - old(m.lists))
    ensures m.view == RunAll(old(m.view), ops) && b in m.bindings
    ensures attached == !RunReassigns(old(m.view), ops, i, name) && (b.value == ListSlot(list) <==> attached)
    ensures attached ==> IsAttached(m.memory, i, name, b, list, element)
    ensures !attached ==> AreOrphans(m.memory, lists) && IsListOf(n, list, lists)
  {
    hide Binding.Valid, Separate, Named, Shows, Tracks, Kept, Took, Outcome, Reassigns, IsAttached, AreOrphans;
    hide IsListOf;
    attached, n, lists := true, b.node, b.lists;
    ghost var start := m.view;
    assert ops[0..] == ops;
    for k := 0 to |ops|
      invariant m.Valid() && fresh(m.bindings - old(m.bindings)) && fresh(m.lists - old(m.lists)) && m.view != []
      invariant i < OpenThroughout(m.view, ops[k..]) && old(m.bindings) <= m.bindings
      invariant RunAll(m.view, ops[k..]) == RunAll(start, ops)
      invariant RunReassigns(start, ops, i, name) == (!attached || RunReassigns(m.view, ops[k..], i, name))
      invariant attached ==> IsAttached(m.memory, i, name, b, list, element)
      invariant !attached ==> AreOrphans(m.memory, lists) && IsListOf(n, list, lists)
    {
      assert ops[k..][0] == ops[k] && ops[k..][1..] == ops[k + 1..];
      attached, n, lists := OneOperation(m, ops[k], i, name, b, list, element, attached, n, lists);
    }
    assert ops[|ops|..] == [];
    if !attached {
      OrphanIsNotHeld(m, b, list, n, lists);
    } else {
      AttachedHolds(m, i, name, b, list, element);
    }
  }

  /** A shape operation on a variable, with the calls of its arguments in between: fetch, call, change. It
      reaches the variable if and only if no operation of these calls has given the variable a new value. */
  method ShapeCall(m: Machine, name: string, ops: seq<Operation>, shape: Shape) returns (failure: Option<string>)
    requires m.Valid() && m.view != []
    requires FrameOf(m.view, name).Some? ==> FrameOf(m.view, name).value < OpenThroughout(m.view, ops)
    modifies m, m.bindings, m.lists
    ensures m.Valid() && m.view == ShapeCalled(old(m.view), name, ops, shape)
    ensures EndsWith(old(m.view), name, ops, shape, failure)
  {
    hide Binding.Valid, Separate, Named, Shows, Tracks, Kept, Took, Outcome, Reassigns, TargetFailure, IsAttached;
    hide AreOrphans;
    hide ReshapeVariable, IsListOf;
    m.FrameCount();
    var found := m.Find(name);
    if found.None? {
      return Some("E202");
    }
    var i := found.value;
    var b := m.frames[i][name];
    TargetIsSeen(m, i, name);
    if b.constant {
      return Some("E211");
    }
    if b.value.EmptySlot? {
      return Some("E131");
    }
    if !b.value.ListSlot? {
      return Some("E201");
    }
    var (list, element) := (b.value.list, b.element);
    ghost var start := m.view;
    ghost var attached, n, lists := CallBetween(m, ops, i, name, b, list, element);
    RunKeepsNames(start, ops, i, name);
    failure := ChangeFetched(m, list, element, shape, i, name, b, attached, n, lists);
  }

  lemma AttachedHolds(m: Machine, i: nat, name: string, b: Binding, list: ListObject, element: Spec)
    requires m.Valid() && IsAttached(m.memory, i, name, b, list, element)
    ensures b in m.bindings && b.value == ListSlot(list)
  {
    m.AllHeld();
  }
}
