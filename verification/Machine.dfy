/** Whole runs of the store. `StoreRuns` says what a sequence of operations does when lists are
    values; `Machine` executes the same operations with shared list objects and environments. */
module StoreRuns {
  import opened Ast
  import opened TypeSpecs
  import opened Trees
  import opened StoreSpec

  type LeafValue = t: Tree | !t.ListTree? witness VoidTree

  /** What stands on the right of an assignment. Reading a variable or an element yields the
      list object that is there, and a display puts such objects into a new list. */
  datatype ValueExpr =
    | Leaf(leaf: LeafValue)
    | Read(name: string)
    | Element(target: ValueExpr, index: Index)
    | Display(items: seq<ValueExpr>)

  datatype Operation =
    | Assign(name: string, e: ValueExpr)
    | Define(name: string, declared: DeclaredType, e: ValueExpr, constant: bool)
    | AssignAt(name: string, indexes: seq<Index>, e: ValueExpr)
    | Reshape(name: string, path: seq<Index>, shape: Shape)
    | Call(parameters: seq<Parameter>, arguments: seq<ValueExpr>)
    | Return
    | ReturnTo(name: string, e: ValueExpr)

  /** The global environment first, the current one last; those between are waiting callers. */
  type Frames = seq<map<string, Variable>>

  // ---- Values ----

  /** A name stands for the variable of the current environment, or else for the global one. */
  function FrameOf(frames: Frames, name: string): (i: Option<nat>)
    requires frames != []
    ensures i.Some? ==> i.value < |frames| && name in frames[i.value]
  {
    if name in frames[|frames| - 1] then Some(|frames| - 1)
    else if name in frames[0] then Some(0)
    else None
  }

  function Evaluate(frames: Frames, e: ValueExpr): Result<Tree>
    requires frames != []
    decreases e, 1
  {
    match e
    case Leaf(leaf) => Ok(leaf)
    case Read(name) =>
      var i := FrameOf(frames, name);
      if i.None? then Err("E202") else Ok(frames[i.value][name].value)
    case Element(target, index) =>
      var list := Evaluate(frames, target);
      if list.Err? then list
      else if list.value.EmptyTree? then Err("E131")
      else if !list.value.ListTree? || !IsPosition(index) then Err("E201")
      else if index.i >= |list.value.items| then Err("E302")
      else Ok(list.value.items[index.i])
    case Display(items) =>
      var values := EvaluateAll(frames, items);
      if values.Err? then Err(values.code)
      else
        var element := ElementSpec(values.value);
        if element.Err? then Err(element.code) else Ok(ListTree(values.value))
  }

  function EvaluateAll(frames: Frames, es: seq<ValueExpr>): Result<seq<Tree>>
    requires frames != []
    decreases es, 0
  {
    if es == [] then Ok([])
    else
      var first := Evaluate(frames, es[0]);
      if first.Err? then Err(first.code)
      else
        var rest := EvaluateAll(frames, es[1..]);
        if rest.Err? then rest else Ok([first.value] + rest.value)
  }

  // ---- Operations ----

  /** The values that a call hands to its parameters. */
  function Passed(frames: Frames, parameters: seq<Parameter>, arguments: seq<ValueExpr>): (r: Result<seq<Tree>>)
    requires frames != []
    ensures r.Ok? ==> |r.value| == |parameters|
  {
    var values := EvaluateAll(frames, arguments);
    if values.Err? then Err(values.code)
    else if VoidTree in values.value then Err("E127")
    else if EmptysTree in values.value then Err("E133")
    else if |parameters| != |values.value| then Err("E207")
    else PrepareArguments(parameters, values.value)
  }

  /** The new frames, or the failure that leaves everything as it was. */
  function Step(frames: Frames, op: Operation): Result<Frames>
    requires frames != []
  {
    var last := |frames| - 1;
    match op
    case Assign(name, e) =>
      var value := Evaluate(frames, e);
      if value.Err? then Err(value.code)
      else
        var frame := AssignIn(frames[last], name, value.value);
        if frame.Err? then Err(frame.code) else Ok(frames[last := frame.value])
    case Define(name, declared, e, constant) =>
      var value := Evaluate(frames, e);
      if value.Err? then Err(value.code)
      else
        var frame := DefineIn(frames[last], name, declared, value.value, constant);
        if frame.Err? then Err(frame.code) else Ok(frames[last := frame.value])
    case AssignAt(name, indexes, e) =>
      var value := Evaluate(frames, e);
      if value.Err? then Err(value.code)
      else
        var i := FrameOf(frames, name);
        if i.None? then Err("E202")
        else
          var v := AssignIndexes(frames[i.value][name], indexes, value.value);
          if v.Err? then Err(v.code) else Ok(frames[i.value := frames[i.value][name := v.value]])
    case Reshape(name, path, shape) =>
      var i := FrameOf(frames, name);
      if i.None? then Err("E202")
      else
        var v := ReshapeVariable(frames[i.value][name], path, shape);
        if v.Err? then Err(v.code) else Ok(frames[i.value := frames[i.value][name := v.value]])
    case Call(parameters, arguments) =>
      var values := Passed(frames, parameters, arguments);
      if values.Err? then Err(values.code)
      else
        var frame := BindParameters(map[], parameters, values.value);
        if frame.Err? then Err(frame.code) else Ok(frames + [frame.value])
    case Return => Ok(if |frames| == 1 then frames else frames[..last])
    case ReturnTo(name, e) =>
      var value := Returned(frames, e);
      if value.Err? then Err(value.code)
      else
        var frame := AssignIn(frames[last - 1], name, value.value);
        if frame.Err? then Err(frame.code) else Ok(frames[..last][last - 1 := frame.value])
  }

  /** The value that the current call returns. At top level there is nothing to return from. */
  function Returned(frames: Frames, e: ValueExpr): (r: Result<Tree>)
    requires frames != []
    ensures r.Ok? ==> |frames| > 1
  {
    if |frames| == 1 then Err("E110") else Evaluate(frames, e)
  }

  /** What an operation leaves behind, whether it succeeds or not. A value that the caller cannot take has
      been returned all the same. */
  function Outcome(frames: Frames, op: Operation): (after: Frames)
    requires frames != []
    ensures after != []
  {
    var next := Step(frames, op);
    if next.Ok? then next.value
    else if op.ReturnTo? && Returned(frames, op.e).Ok? then frames[..|frames| - 1]
    else frames
  }

  function RunAll(frames: Frames, ops: seq<Operation>): (after: Frames)
    requires frames != []
    ensures after != []
    decreases ops
  {
    if ops == [] then frames else RunAll(Outcome(frames, ops[0]), ops[1..])
  }

  // ---- What every run keeps ----

  predicate AllTyped(frames: Frames) {
    forall i, x | 0 <= i < |frames| && x in frames[i] :: Typed(frames[i][x])
  }

  /** Every variable that was there before still has its type, if its frame is still there. */
  predicate FramesEvolve(before: Frames, after: Frames) {
    forall i, x | 0 <= i < |before| && i < |after| && x in before[i] ::
      x in after[i] && Evolves(before[i][x], after[i][x])
  }

  lemma EvolvesReflexive(v: Variable)
    ensures Evolves(v, v)
  {
    RefinesReflexive(v.element);
  }

  lemma AssignInIsTyped(frame: map<string, Variable>, name: string, value: Tree)
    requires (forall x | x in frame :: Typed(frame[x])) && AssignIn(frame, name, value).Ok?
    ensures var after := AssignIn(frame, name, value).value;
            && (forall x | x in after :: Typed(after[x]))
            && forall x | x in frame :: x in after && Evolves(frame[x], after[x])
  {
    if name in frame {
      ReassignIsTyped(frame[name], value);
    } else {
      IntroduceIsTyped(value);
    }
    forall x | x in frame
      ensures Evolves(frame[x], frame[x])
    {
      EvolvesReflexive(frame[x]);
    }
  }

  lemma DefineInIsTyped(frame: map<string, Variable>, name: string, declared: DeclaredType, value: Tree, constant: bool)
    requires (forall x | x in frame :: Typed(frame[x])) && DefineIn(frame, name, declared, value, constant).Ok?
    ensures var after := DefineIn(frame, name, declared, value, constant).value;
            && name !in frame && name in after && after == frame[name := after[name]]
            && forall x | x in after :: Typed(after[x])
  {
    DefineIsTyped(declared, value, constant);
  }

  lemma {:induction false} BindParametersIsTyped(frame: map<string, Variable>, parameters: seq<Parameter>,
                                                 values: seq<Tree>)
    requires |parameters| == |values| && (forall x | x in frame :: Typed(frame[x]))
    requires BindParameters(frame, parameters, values).Ok?
    ensures var after := BindParameters(frame, parameters, values).value; forall x | x in after :: Typed(after[x])
    decreases |parameters|
  {
    if parameters != [] {
      var p := parameters[0];
      if p.declared.None? {
        AssignInIsTyped(frame, p.name, values[0]);
        BindParametersIsTyped(AssignIn(frame, p.name, values[0]).value, parameters[1..], values[1..]);
      } else {
        DefineInIsTyped(frame, p.name, p.declared.value, values[0], false);
        BindParametersIsTyped(DefineIn(frame, p.name, p.declared.value, values[0], false).value, parameters[1..],
                              values[1..]);
      }
    }
  }

  lemma ReplaceIsTyped(frames: Frames, i: nat, name: string, v: Variable)
    requires AllTyped(frames) && i < |frames| && Typed(v)
    requires name in frames[i] ==> Evolves(frames[i][name], v)
    ensures AllTyped(frames[i := frames[i][name := v]])
    ensures FramesEvolve(frames, frames[i := frames[i][name := v]])
  {
    forall j, x | 0 <= j < |frames| && x in frames[j]
      ensures Evolves(frames[j][x], frames[j][x])
    {
      EvolvesReflexive(frames[j][x]);
    }
  }

  /** One operation keeps every variable typed. Declared types never change, and element types
      are only ever refined. */
  lemma StepIsTyped(frames: Frames, op: Operation)
    requires frames != [] && AllTyped(frames)
    ensures AllTyped(Outcome(frames, op)) && Outcome(frames, op) != []
    ensures FramesEvolve(frames, Outcome(frames, op))
  {
    hide AssignIn, DefineIn, BindParameters, Passed, Evaluate, AssignIndexes, ReshapeVariable, Conforms, Returned;
    var last := |frames| - 1;
    forall j, x | 0 <= j < |frames| && x in frames[j]
      ensures Evolves(frames[j][x], frames[j][x])
    {
      EvolvesReflexive(frames[j][x]);
    }
    if Step(frames, op).Ok? {
      match op
      case Assign(name, e) =>
        AssignInIsTyped(frames[last], name, Evaluate(frames, e).value);
      case Define(name, declared, e, constant) =>
        DefineInIsTyped(frames[last], name, declared, Evaluate(frames, e).value, constant);
      case AssignAt(name, indexes, e) =>
        var i := FrameOf(frames, name).value;
        AssignIndexesIsTyped(frames[i][name], indexes, Evaluate(frames, e).value);
        ReplaceIsTyped(frames, i, name, AssignIndexes(frames[i][name], indexes, Evaluate(frames, e).value).value);
      case Reshape(name, path, shape) =>
        var i := FrameOf(frames, name).value;
        ReshapeVariableIsTyped(frames[i][name], path, shape);
        ReplaceIsTyped(frames, i, name, ReshapeVariable(frames[i][name], path, shape).value);
      case Call(parameters, arguments) =>
        BindParametersIsTyped(map[], parameters, Passed(frames, parameters, arguments).value);
      case Return =>
      case ReturnTo(name, e) =>
        AssignInIsTyped(frames[last - 1], name, Returned(frames, e).value);
    }
  }

  /** How many environments stay open during a whole run. The global one always does. */
  function OpenThroughout(frames: Frames, ops: seq<Operation>): (n: nat)
    requires frames != []
    ensures 1 <= n <= |frames| && n <= |RunAll(frames, ops)|
    decreases ops
  {
    if ops == [] then |frames|
    else
      var n := OpenThroughout(Outcome(frames, ops[0]), ops[1..]);
      if n < |frames| then n else |frames|
  }

  /** In the first `count` environments every variable of before is still there, with its declared
      type, and with an element type that was at most refined. */
  predicate FirstEvolve(before: Frames, after: Frames, count: nat) {
    && count <= |before| && count <= |after|
    && forall i, x | 0 <= i < count && x in before[i] :: x in after[i] && Evolves(before[i][x], after[i][x])
  }

  lemma FirstEvolveTransitive(a: Frames, b: Frames, c: Frames, count: nat)
    requires FirstEvolve(a, b, count) && FirstEvolve(b, c, count)
    ensures FirstEvolve(a, c, count)
  {
    forall i, x | 0 <= i < count && x in a[i]
      ensures x in c[i] && Evolves(a[i][x], c[i][x])
    {
      RefinesTransitive(a[i][x].element, b[i][x].element, c[i][x].element);
    }
  }

  /** After any sequence of operations, calls and returns every variable conforms to its type at
      every depth. In every environment that stayed open, the global one among them, no declared
      type has changed, and element types have moved upward only. */
  lemma {:induction false} RunsAreTyped(frames: Frames, ops: seq<Operation>)
    requires frames != [] && AllTyped(frames)
    ensures AllTyped(RunAll(frames, ops))
    ensures FirstEvolve(frames, RunAll(frames, ops), OpenThroughout(frames, ops))
    decreases ops
  {
    if ops == [] {
      forall i, x | 0 <= i < |frames| && x in frames[i]
        ensures Evolves(frames[i][x], frames[i][x])
      {
        EvolvesReflexive(frames[i][x]);
      }
    } else {
      var next := Outcome(frames, ops[0]);
      StepIsTyped(frames, ops[0]);
      RunsAreTyped(next, ops[1..]);
      FirstEvolveTransitive(frames, next, RunAll(frames, ops), OpenThroughout(frames, ops));
    }
  }
}

/** The same runs on the heap. */
module Machines {
  import opened Ast
  import opened TypeSpecs
  import opened Trees
  import opened StoreSpec
  import opened HeapLists
  import opened Stores
  import opened Bindings
  import opened StoreRuns
  import opened RunsExact
  import Errors = RunErrors

  method LeafSlotOf(t: LeafValue) returns (slot: Slot)
    ensures slot == LeafSlot(t)
  {
    match t
    case ScalarTree(name, value) => slot := ScalarSlot(name, value);
    case EmptyTree(spec) => slot := EmptySlot(spec);
    case VoidTree => slot := VoidSlot;
    case EmptysTree => slot := EmptysSlot;
  }

  /** Every binding is valid, and no list object belongs to two of them. */
  ghost predicate Separate(bindings: set<Binding>, lists: set<ListObject>)
    reads bindings, lists
  {
    && (forall b | b in bindings :: b.lists <= lists && b.Valid())
    && (forall b, c | b in bindings && c in bindings && b != c :: b.lists !! c.lists)
  }

  /** Every variable has a binding of its own. */
  ghost predicate Named(frames: seq<map<string, Binding>>, bindings: set<Binding>) {
    && (forall i, x | 0 <= i < |frames| && x in frames[i] :: frames[i][x] in bindings)
    && (forall i, x, j, y | 0 <= i < |frames| && x in frames[i] && 0 <= j < |frames| && y in frames[j] ::
          frames[i][x] == frames[j][y] ==> i == j && x == y)
  }

  ghost predicate Shows(frames: seq<map<string, Binding>>, bindings: set<Binding>, view: Frames)
    requires Named(frames, bindings)
    reads bindings
  {
    && |view| == |frames|
    && (forall i | 0 <= i < |frames| :: view[i].Keys == frames[i].Keys)
    && (forall i, x | 0 <= i < |frames| && x in frames[i] :: view[i][x] == frames[i][x].Contents())
  }

  /** The bindings of all variables, with what they hold, and all list objects there have been. */
  datatype Memory = Memory(frames: seq<map<string, Binding>>, held: map<Binding, Holding>, lists: set<ListObject>)

  /** The binding of a name, if it has one. */
  ghost function Holders(frame: map<string, Binding>, name: string): set<Binding> {
    if name in frame then {frame[name]} else {}
  }

  /** Variables keep their bindings, and new ones have new bindings. A binding outside of `touched`
      holds what it held; any other holds the same list object as before, or new ones only. */
  ghost predicate Kept(before: Memory, after: Memory, touched: set<Binding>) {
    && before.lists <= after.lists && before.held.Keys <= after.held.Keys
    && (forall j, x | 0 <= j < |before.frames| && j < |after.frames| && x in before.frames[j] ::
          x in after.frames[j] && after.frames[j][x] == before.frames[j][x])
    && (forall j, x | 0 <= j < |after.frames| && x in after.frames[j] ::
          (j < |before.frames| && x in before.frames[j]) || after.frames[j][x] !in before.held)
    && (forall c | c in before.held && c !in touched :: after.held[c] == before.held[c])
    && (forall c | c in after.held :: StillHolds(before, after, c) || after.held[c].lists !! before.lists)
  }

  ghost predicate StillHolds(before: Memory, after: Memory, c: Binding)
    requires c in after.held
  {
    && c in before.held
    && after.held[c].value == before.held[c].value && after.held[c].lists == before.held[c].lists
    && after.held[c].element == before.held[c].element
  }

  /** The bindings in `touched` have been given new list objects, or, without success, hold what they held. */
  ghost predicate Took(before: Memory, after: Memory, touched: set<Binding>, success: bool) {
    forall c | c in touched ::
      c in after.held && if success then after.held[c].lists !! before.lists else StillHolds(before, after, c)
  }

  lemma OneTook(before: Memory, b: Binding, h: Holding, lists: set<ListObject>, success: bool)
    requires b in before.held && if success then h.lists !! before.lists else h == before.held[b]
    ensures Took(before, before.(held := before.held[b := h], lists := lists), {b}, success)
  {
  }

  lemma OneChanged(before: Memory, b: Binding, h: Holding, lists: set<ListObject>)
    requires b in before.held && before.lists <= lists
    requires (h.value == before.held[b].value && h.lists == before.held[b].lists && h.element == before.held[b].element)
          || h.lists !! before.lists
    ensures Kept(before, before.(held := before.held[b := h], lists := lists), {b})
  {
    var after := before.(held := before.held[b := h], lists := lists);
    forall c | c in after.held
      ensures StillHolds(before, after, c) || after.held[c].lists !! before.lists
    {
    }
  }

  lemma OneAdded(before: Memory, after: Memory, i: nat, name: string, b: Binding, touched: set<Binding>)
    requires i < |before.frames| && name !in before.frames[i] && b !in before.held
    requires after.frames == before.frames[i := before.frames[i][name := b]] && before.lists <= after.lists
    requires after.held.Keys == before.held.Keys + {b} && after.held[b].lists !! before.lists
    requires forall c | c in before.held :: after.held[c] == before.held[c]
    ensures Kept(before, after, touched)
  {
  }

  /** Nothing but the number of environments has changed. */
  lemma FramesChanged(before: Memory, after: Memory, touched: set<Binding>)
    requires after.held == before.held && after.lists == before.lists
    requires forall j | 0 <= j < |before.frames| && j < |after.frames| :: after.frames[j] == before.frames[j]
    requires forall j | |before.frames| <= j < |after.frames| :: after.frames[j] == map[]
    ensures Kept(before, after, touched)
  {
  }

  lemma KeptItself(m: Memory, touched: set<Binding>)
    ensures Kept(m, m, touched)
  {
  }

  lemma NoneTook(before: Memory, after: Memory, success: bool)
    ensures Took(before, after, {}, success)
  {
  }

  lemma MoreTouched(before: Memory, after: Memory, touched: set<Binding>, more: set<Binding>)
    requires Kept(before, after, touched) && touched <= more
    ensures Kept(before, after, more)
  {
  }

  /** Two steps in a row, the second of which may also touch bindings that the first one added. */
  lemma KeptTransitive(a: Memory, b: Memory, c: Memory, touched: set<Binding>, added: set<Binding>)
    requires Kept(a, b, touched) && Kept(b, c, touched + added) && added !! a.held.Keys
    requires |a.frames| <= |b.frames| && |c.frames| <= |b.frames|
    ensures Kept(a, c, touched)
  {
    forall x | x in c.held
      ensures StillHolds(a, c, x) || c.held[x].lists !! a.lists
    {
      if StillHolds(b, c, x) {
        assert StillHolds(a, b, x) || b.held[x].lists !! a.lists;
      }
    }
  }

  /** One more variable of the last environment has been bound. */
  lemma OneMoreBound(a: Memory, b: Memory, c: Memory, name: string)
    requires a.frames != [] && |a.frames| == |b.frames| == |c.frames|
    requires Kept(a, b, a.frames[|a.frames| - 1].Values) && Kept(b, c, Holders(b.frames[|b.frames| - 1], name))
    ensures Kept(a, c, a.frames[|a.frames| - 1].Values)
  {
    var last := |a.frames| - 1;
    var touched := a.frames[last].Values;
    var holders := Holders(b.frames[last], name);
    var added := holders - touched;
    assert added !! a.held.Keys by {
      if name in b.frames[last] && name in a.frames[last] {
        assert b.frames[last][name] == a.frames[last][name] && a.frames[last][name] in touched;
      }
    }
    MoreTouched(b, c, holders, touched + added);
    KeptTransitive(a, b, c, touched, added);
  }

  /** Binding the parameters of a call touches nothing that was there before. */
  lemma BoundInside(before: Memory, entered: Memory, bound: Memory)
    requires entered == before.(frames := before.frames + [map[]]) && |bound.frames| == |entered.frames|
    requires Kept(entered, bound, entered.frames[|entered.frames| - 1].Values)
    ensures Kept(before, bound, {})
  {
    assert entered.frames[|before.frames|].Values == {};
    forall c | c in bound.held
      ensures StillHolds(before, bound, c) || bound.held[c].lists !! before.lists
    {
      assert StillHolds(entered, bound, c) || bound.held[c].lists !! entered.lists;
    }
  }

  lemma Closed(before: Memory, bound: Memory, after: Memory)
    requires Kept(before, bound, {}) && bound.frames != []
             && after == bound.(frames := bound.frames[..|bound.frames| - 1])
    ensures Kept(before, after, {})
  {
    forall c | c in after.held
      ensures StillHolds(before, after, c) || after.held[c].lists !! before.lists
    {
      assert StillHolds(before, bound, c) || bound.held[c].lists !! before.lists;
    }
  }

  /** The environment in which a name is looked up. */
  ghost function Scope(frames: seq<map<string, Binding>>, name: string): map<string, Binding>
    requires frames != []
  {
    if name in frames[|frames| - 1] then frames[|frames| - 1] else frames[0]
  }

  ghost function CallersHolders(frames: seq<map<string, Binding>>, name: string): set<Binding> {
    if |frames| < 2 then {} else Holders(frames[|frames| - 2], name)
  }

  /** The bindings that an operation may change. */
  ghost function Targets(frames: seq<map<string, Binding>>, op: Operation): set<Binding>
    requires frames != []
  {
    var last := |frames| - 1;
    match op
    case Assign(name, _) => Holders(frames[last], name)
    case AssignAt(name, _, _) => Holders(Scope(frames, name), name)
    case Reshape(name, _, _) => Holders(Scope(frames, name), name)
    case ReturnTo(name, _) => CallersHolders(frames, name)
    case _ => {}
  }

  ghost predicate Tracks(frames: seq<map<string, Binding>>, bindings: set<Binding>, lists: set<ListObject>,
                         memory: Memory)
    reads bindings
  {
    && memory.frames == frames && memory.lists == lists && memory.held.Keys == bindings
    && forall b | b in bindings :: memory.held[b] == b.Held()
  }

  lemma TracksAdded(before: Memory, bindings: set<Binding>, frames: seq<map<string, Binding>>, b: Binding,
                    lists: set<ListObject>)
    requires Tracks(before.frames, bindings, before.lists, before)
    ensures Tracks(frames, bindings + {b}, lists, Memory(frames, before.held[b := b.Held()], lists))
  {
  }

  lemma TracksLists(frames: seq<map<string, Binding>>, bindings: set<Binding>, lists: set<ListObject>, memory: Memory,
                    more: set<ListObject>)
    requires Tracks(frames, bindings, lists, memory)
    ensures Tracks(frames, bindings, more, memory.(lists := more))
  {
  }

  /** The parameters are bound one after the other. */
  lemma BoundFirst(frame: map<string, Variable>, parameters: seq<Parameter>, ts: seq<Tree>, i: nat)
    requires |parameters| == |ts| && i < |ts|
    ensures var p := parameters[i];
            var bound := if p.declared.None? then AssignIn(frame, p.name, ts[i])
                         else DefineIn(frame, p.name, p.declared.value, ts[i], false);
            BindParameters(frame, parameters[i..], ts[i..])
              == if bound.Err? then bound else BindParameters(bound.value, parameters[i + 1..], ts[i + 1..])
  {
    hide AssignIn, DefineIn;
    assert parameters[i..][1..] == parameters[i + 1..] && ts[i..][1..] == ts[i + 1..];
  }

  lemma BoundNone(frame: map<string, Variable>)
    ensures BindParameters(frame, [], []) == Result.Ok(frame)
  {
  }

  /** One binding has changed. */
  lemma StillTracks(before: Memory, bindings: set<Binding>, b: Binding)
    requires b in bindings && before.held.Keys == bindings
    requires forall c | c in bindings && c != b :: before.held[c] == c.Held()
    ensures Tracks(before.frames, bindings, before.lists, before.(held := before.held[b := b.Held()]))
  {
  }

  lemma SeparateAdded(bindings: set<Binding>, lists: set<ListObject>, b: Binding)
    requires Separate(bindings, lists) && b !in bindings && b.Valid() && b.lists !! lists
    ensures Separate(bindings + {b}, lists + b.lists)
  {
    hide Binding.Valid;
  }

  lemma NamedAdded(frames: seq<map<string, Binding>>, bindings: set<Binding>, i: nat, name: string, b: Binding)
    requires Named(frames, bindings) && i < |frames| && name !in frames[i] && b !in bindings
    ensures Named(frames[i := frames[i][name := b]], bindings + {b})
  {
  }

  lemma ShowsAdded(frames: seq<map<string, Binding>>, bindings: set<Binding>, view: Frames, i: nat, name: string,
                   b: Binding)
    requires Named(frames, bindings) && i < |frames| && name !in frames[i] && b !in bindings
    requires Shows(frames, bindings, view)
    ensures Named(frames[i := frames[i][name := b]], bindings + {b})
    ensures Shows(frames[i := frames[i][name := b]], bindings + {b}, view[i := view[i][name := b.Contents()]])
  {
    hide Binding.Contents;
    NamedAdded(frames, bindings, i, name, b);
  }

  /** An operation behind a call that has ended. */
  lemma AfterClosing(before: Memory, closed: Memory, after: Memory, touched: set<Binding>, success: bool)
    requires before.frames != [] && closed == before.(frames := before.frames[..|before.frames| - 1])
    requires Kept(closed, after, touched) && |after.frames| == |closed.frames| && Took(closed, after, touched, success)
    ensures Kept(before, after, touched) && Took(before, after, touched, success)
  {
    forall c | c in after.held
      ensures StillHolds(before, after, c) || after.held[c].lists !! before.lists
    {
      assert StillHolds(closed, after, c) || after.held[c].lists !! closed.lists;
    }
  }

  class Machine {
    var frames: seq<map<string, Binding>>
    ghost var bindings: set<Binding>
    ghost var lists: set<ListObject>
    /** The contents of all variables, as values. */
    ghost var view: Frames
    /** The bindings of all variables, and what they hold. */
    ghost var memory: Memory

    ghost predicate Valid()
      reads this, bindings, lists
    {
      && frames != []
      && Separate(bindings, lists)
      && Named(frames, bindings)
      && Shows(frames, bindings, view)
      && Tracks(frames, bindings, lists, memory)
    }

    constructor ()
      ensures Valid() && view == [map[]] && fresh(bindings) && fresh(lists)
    {
      frames, bindings, lists, view := [map[]], {}, {}, [map[]];
      memory := Memory([map[]], map[], {});
    }

    method Find(name: string) returns (i: Option<nat>)
      requires Valid()
      ensures i == FrameOf(view, name)
      ensures i.Some? ==> i.value < |frames| && name in frames[i.value]
      ensures i.Some? ==> {frames[i.value][name]} == Holders(Scope(frames, name), name)
    {
      var last := |frames| - 1;
      if name in frames[last] {
        return Some(last);
      }
      i := if name in frames[0] then Some(0) else None;
    }

    /** Evaluating creates new list objects for displays only; anything read is shared. */
    method Value(e: ValueExpr) returns (r: Result<Slot>, ghost n: Node, ghost made: set<ListObject>)
      requires Valid()
      ensures var spec := Evaluate(view, e);
              if spec.Err? then r == Err(spec.code)
              else r == Ok(SlotOf(n)) && TreeOf(n) == spec.value && Live(n, lists + made)
      ensures fresh(made)
      decreases e, 1
    {
      n, made := LeafNode(VoidTree), {};
      match e
      case Leaf(leaf) =>
        var slot := LeafSlotOf(leaf);
        n := LeafNode(leaf);
        r := Ok(slot);
      case Read(name) =>
        var i := Find(name);
        if i.None? {
          r := Err("E202");
          return;
        }
        var b := frames[i.value][name];
        n := b.node;
        LiveWithinMore(n, b.lists, lists + made);
        r := Ok(b.value);
      case Element(target, index) =>
        var list: Result<Slot>;
        list, n, made := Value(target);
        if list.Err? {
          r := list;
          return;
        }
        if list.value.EmptySlot? {
          r := Err("E131");
          return;
        }
        if !list.value.ListSlot? || !IsPosition(index) {
          r := Err("E201");
          return;
        }
        var items := list.value.list.items;
        if index.i >= |items| {
          r := Err("E302");
          return;
        }
        TreeAt(n.items, index.i);
        n := n.items[index.i];
        r := Ok(items[index.i]);
      case Display(items) =>
        var values: Result<seq<Slot>>;
        ghost var ns: seq<Node>;
        values, ns, made := Values(items);
        if values.Err? {
          r := Err(values.code);
          return;
        }
        var element := ElementTypeOf(values.value, ns, lists + made);
        if element.Err? {
          r := Err(element.code);
          return;
        }
        var list: Result<ListObject>;
        ghost var all: set<ListObject>;
        list, n, all := NewList(values.value, ns, lists + made);
        made := made + {list.value};
        assert all == lists + made;
        r := Ok(ListSlot(list.value));
    }

    method Values(es: seq<ValueExpr>) returns (r: Result<seq<Slot>>, ghost ns: seq<Node>, ghost made: set<ListObject>)
      requires Valid()
      ensures var spec := EvaluateAll(view, es);
              if spec.Err? then r == Err(spec.code)
              else r == Ok(SlotsOf(ns)) && TreesOf(ns) == spec.value && LiveAll(ns, lists + made)
      ensures fresh(made)
      decreases es, 0
    {
      ns, made := [], {};
      if es == [] {
        assert SlotsOf([]) == [] && TreesOf([]) == [];
        r := Ok([]);
        return;
      }
      var first: Result<Slot>;
      ghost var n: Node;
      first, n, made := Value(es[0]);
      if first.Err? {
        r := Err(first.code);
        return;
      }
      var rest: Result<seq<Slot>>;
      ghost var more: set<ListObject>;
      rest, ns, more := Values(es[1..]);
      if rest.Err? {
        r := rest;
        return;
      }
      FirstNode(n, ns, lists + made, lists + more);
      assert lists + (made + more) == (lists + made) + (lists + more);
      ns, made := [n] + ns, made + more;
      r := Ok([first.value] + rest.value);
    }

    method AssignExisting(i: nat, name: string, value: Slot, ghost n: Node, ghost within: set<ListObject>)
      returns (failure: Option<string>)
      requires Valid() && Live(n, within) && value == SlotOf(n) && i < |frames| && name in frames[i]
      modifies this`lists, this`view, this`memory, bindings
      ensures Valid() && fresh(lists - old(lists))
      ensures Kept(old(memory), memory, {frames[i][name]})
      ensures Took(old(memory), memory, {frames[i][name]}, failure.None?)
      ensures var spec := Reassign(old(view)[i][name], TreeOf(n));
              if spec.Err? then failure == Some(spec.code) && view == old(view)
              else failure == None && view == old(view)[i := old(view)[i][name := spec.value]]
    {
      hide Kept, Tracks;
      hide Binding.Valid;
      hide Binding.Contents;
      hide Live;
      hide Reassign;
      var b := frames[i][name];
      FrameCount();
      AllHeld();
      hide Named, Shows, Took, StillHolds;
      ghost var before := memory;
      failure := b.Assign(value, n, within);
      StillTracks(before, bindings, b);
      Changed(i, name, b, b.lists);
      SameEntry(old(view), i, name);
      OneChanged(before, b, b.Held(), lists);
      OneTook(before, b, b.Held(), lists, failure.None?);
    }

    /** The first assignment to a name. */
    method AssignNew(name: string, value: Slot, ghost n: Node, ghost within: set<ListObject>)
      returns (failure: Option<string>)
      requires Valid() && Live(n, within) && value == SlotOf(n) && name !in frames[|frames| - 1]
      modifies this
      ensures Valid() && fresh(bindings - old(bindings)) && fresh(lists - old(lists))
      ensures |frames| == |old(frames)| && Kept(old(memory), memory, {})
      ensures var last := |old(frames)| - 1;
              var spec := Introduce(TreeOf(n));
              if spec.Err? then failure == Some(spec.code) && view == old(view)
              else failure == None && view == old(view)[last := old(view)[last][name := spec.value]]
    {
      hide Kept, Tracks;
      hide Introduce;
      hide Separate;
      hide Binding.Valid;
      hide Binding.Contents;
      hide Live;
      FrameCount();
      var added := IntroduceBinding(value, n, within);
      if added.Err? {
        KeptItself(memory, {});
        return Some(added.code);
      }
      AddBinding(|frames| - 1, name, added.value);
      failure := None;
    }

    /** Assignment in the current environment. */
    method AssignHere(name: string, value: Slot, ghost n: Node, ghost within: set<ListObject>)
      returns (failure: Option<string>)
      requires Valid() && Live(n, within) && value == SlotOf(n)
      modifies this, bindings
      ensures Valid() && fresh(bindings - old(bindings)) && fresh(lists - old(lists))
      ensures |frames| == |old(frames)|
      ensures Kept(old(memory), memory, Holders(old(frames)[|frames| - 1], name))
      ensures Took(old(memory), memory, Holders(old(frames)[|frames| - 1], name), failure.None?)
      ensures var last := |old(frames)| - 1;
              var spec := AssignIn(old(view)[last], name, TreeOf(n));
              if spec.Err? then failure == Some(spec.code) && view == old(view)
              else failure == None && view == old(view)[last := spec.value]
    {
      hide Kept, Tracks, Took;
      hide Reassign;
      hide Introduce;
      hide Separate;
      hide Binding.Valid;
      hide Binding.Contents;
      hide Live;
      SameNames(|frames| - 1, name);
      hide Named, Shows;
      var last := |frames| - 1;
      if name in frames[last] {
        failure := AssignExisting(last, name, value, n, within);
      } else {
        failure := AssignNew(name, value, n, within);
        NoneTook(old(memory), memory, failure.None?);
      }
    }

    /** Indexed assignment to a variable of this or the global environment. */
    method AssignElement(i: nat, name: string, indexes: seq<Index>, value: Slot, ghost n: Node,
                         ghost within: set<ListObject>)
      returns (failure: Option<string>)
      requires Valid() && Live(n, within) && value == SlotOf(n) && i < |frames| && name in frames[i]
      modifies this`lists, this`view, this`memory, bindings
      ensures Valid() && fresh(lists - old(lists))
      ensures Kept(old(memory), memory, {frames[i][name]})
      ensures Took(old(memory), memory, {frames[i][name]}, failure.None?)
      ensures var spec := AssignIndexes(old(view)[i][name], indexes, TreeOf(n));
              if spec.Err? then failure == Some(spec.code) && view == old(view)
              else failure == None && view == old(view)[i := old(view)[i][name := spec.value]]
    {
      hide Kept, Tracks;
      hide Binding.Valid;
      hide Binding.Contents;
      hide Live;
      hide AssignIndexes;
      var b := frames[i][name];
      FrameCount();
      AllHeld();
      hide Named, Shows, Took, StillHolds;
      ghost var before := memory;
      failure := b.AssignAt(indexes, value, n, within);
      StillTracks(before, bindings, b);
      Changed(i, name, b, b.lists);
      SameEntry(old(view), i, name);
      OneChanged(before, b, b.Held(), lists);
      OneTook(before, b, b.Held(), lists, failure.None?);
    }

    /** A shape operation changes list objects of one binding in place; no other variable notices. */
    method ReshapeNamed(i: nat, name: string, path: seq<Index>, shape: Shape) returns (failure: Option<string>)
      requires Valid() && i < |frames| && name in frames[i]
      modifies this`lists, this`view, this`memory, bindings, lists
      ensures Valid() && lists == old(lists)
      ensures Kept(old(memory), memory, {frames[i][name]})
      ensures Took(old(memory), memory, {frames[i][name]}, false)
      ensures forall o | o in lists && o !in old(frames[i][name].lists) :: unchanged(o)
      ensures var spec := ReshapeVariable(old(view)[i][name], path, shape);
              if spec.Err? then failure == Some(spec.code) && view == old(view)
              else failure == None && view == old(view)[i := old(view)[i][name := spec.value]]
    {
      hide Kept, Tracks;
      hide Binding.Valid;
      hide Binding.Contents;
      hide ReshapeVariable;
      var b := frames[i][name];
      FrameCount();
      AllHeld();
      ghost var before := memory;
      failure := b.Reshape(path, shape);
      StillTracks(before, bindings, b);
      Changed(i, name, b, b.lists);
      SameEntry(old(view), i, name);
      OneChanged(before, b, b.Held(), lists);
    }

    /** Books a change of one binding, whose list objects are new or were its own. */
    ghost method Changed(i: nat, name: string, b: Binding, made: set<ListObject>)
      requires frames != [] && Named(frames, bindings) && i < |frames| && name in frames[i] && b == frames[i][name]
      requires b.Valid() && b.lists == made
      requires forall c | c in bindings && c != b :: c.lists <= lists && c.Valid() && c.lists !! made
      requires forall c, d | c in bindings && d in bindings && c != d && c != b && d != b :: c.lists !! d.lists
      requires |view| == |frames| && forall j | 0 <= j < |frames| :: view[j].Keys == frames[j].Keys
      requires forall j, x | 0 <= j < |frames| && x in frames[j]
               && frames[j][x] != b :: view[j][x] == frames[j][x].Contents()
      requires Tracks(frames, bindings, lists, memory.(held := memory.held[b := b.Held()]))
      modifies this`lists, this`view, this`memory
      ensures Valid() && lists == old(lists) + made
      ensures memory == old(memory).(held := old(memory).held[b := b.Held()], lists := old(lists) + made)
      ensures view == old(view)[i := old(view)[i][name := b.Contents()]]
    {
      hide Tracks;
      hide Binding.Valid;
      hide Binding.Contents;
      hide Live;
      ghost var after := memory.(held := memory.held[b := b.Held()], lists := lists + made);
      TracksLists(frames, bindings, lists, memory.(held := memory.held[b := b.Held()]), lists + made);
      StillSeparate(bindings, b, lists, made);
      StillShows(frames, bindings, view, i, name, b);
      hide Separate;
      hide Shows;
      hide Named;
      view, lists, memory := view[i := view[i][name := b.Contents()]], lists + made, after;
    }

    /** A new binding, with list objects of its own, for a new name. */
    method AddBinding(i: nat, name: string, b: Binding)
      requires Valid() && i < |frames| && name !in frames[i]
      requires b !in bindings && b.Valid() && b.lists !! lists
      modifies this
      ensures Valid() && bindings == old(bindings) + {b} && lists == old(lists) + b.lists
      ensures |frames| == |old(frames)| && Kept(old(memory), memory, {})
      ensures view == old(view)[i := old(view)[i][name := b.Contents()]]
    {
      hide Binding.Valid;
      hide Binding.Contents;
      hide Separate;
      hide Named;
      hide Shows;
      hide Kept;
      InsertBinding(i, name, b);
      OneAdded(old(memory), memory, i, name, b, {});
    }

    method InsertBinding(i: nat, name: string, b: Binding)
      requires Valid() && i < |frames| && name !in frames[i]
      requires b !in bindings && b.Valid() && b.lists !! lists
      modifies this
      ensures Valid() && bindings == old(bindings) + {b} && lists == old(lists) + b.lists
      ensures memory == Memory(old(frames)[i := old(frames)[i][name := b]], old(memory).held[b := b.Held()], lists)
      ensures |frames| == |old(frames)|
      ensures view == old(view)[i := old(view)[i][name := b.Contents()]]
    {
      hide Binding.Valid;
      hide Binding.Contents;
      hide Live;
      FrameCount();
      hide Tracks;
      SeparateAdded(bindings, lists, b);
      ShowsAdded(frames, bindings, view, i, name, b);
      hide Separate, Named, Shows;
      TracksAdded(memory, bindings, frames[i := frames[i][name := b]], b, lists + b.lists);
      frames := frames[i := frames[i][name := b]];
      view := view[i := view[i][name := b.Contents()]];
      bindings, lists := bindings + {b}, lists + b.lists;
      memory := Memory(frames, memory.held[b := b.Held()], lists);
    }

    method DefineHere(name: string, declared: DeclaredType, value: Slot, constant: bool, ghost n: Node,
                      ghost within: set<ListObject>)
      returns (failure: Option<string>)
      requires Valid() && Live(n, within) && value == SlotOf(n)
      modifies this
      ensures Valid() && fresh(bindings - old(bindings)) && fresh(lists - old(lists))
      ensures |frames| == |old(frames)|
      ensures Kept(old(memory), memory, {})
      ensures var last := |old(frames)| - 1;
              var spec := DefineIn(old(view)[last], name, declared, TreeOf(n), constant);
              if spec.Err? then failure == Some(spec.code) && view == old(view)
              else failure == None && view == old(view)[last := spec.value]
    {
      hide Kept, Tracks;
      hide StoreSpec.Define;
      hide Binding.Valid;
      hide Binding.Contents;
      hide Separate;
      LeafOrList(n, within);
      hide Live;
      hide TreeOf;
      hide SlotOf;
      var last := |frames| - 1;
      if !IsDeclarable(declared) {
        KeptItself(memory, {});
        return Some(UNMODELLED);
      }
      if value.VoidSlot? {
        KeptItself(memory, {});
        return Some("E126");
      }
      if name in frames[last] {
        KeptItself(memory, {});
        return Some("E210");
      }
      var added := DefineBinding(declared, value, constant, n, within);
      if added.Err? {
        KeptItself(memory, {});
        return Some(added.code);
      }
      AddBinding(last, name, added.value);
      failure := None;
    }

    /** Declared parameters prepare their arguments, which copies the lists among them. */
    method PrepareAll(parameters: seq<Parameter>, values: seq<Slot>, ghost ns: seq<Node>, ghost within: set<ListObject>)
      returns (r: Result<seq<Slot>>, ghost prepared: seq<Node>, ghost more: set<ListObject>)
      requires LiveAll(ns, within) && values == SlotsOf(ns) && |parameters| == |values| && VoidSlot !in values
      ensures |TreesOf(ns)| == |parameters|
      ensures var spec := PrepareArguments(parameters, TreesOf(ns));
              if spec.Err? then r == Err(spec.code)
              else r == Ok(SlotsOf(prepared)) && TreesOf(prepared) == spec.value && LiveAll(prepared, more)
    {
      TreesCount(ns);
      ghost var ts := TreesOf(ns);
      prepared, more := [], within;
      if parameters == [] {
        assert SlotsOf([]) == [] && TreesOf([]) == [];
        r := Ok([]);
        return;
      }
      assert Live(ns[0], within) && TreesOf(ns[1..]) == ts[1..] && SlotsOf(ns[1..]) == values[1..];
      TreeAt(ns, 0);
      var first: Result<Slot>;
      ghost var n: Node;
      ghost var made: set<ListObject>;
      first, n, made := PrepareOne(parameters[0], values[0], ns[0], within);
      if first.Err? {
        r := Err(first.code);
        return;
      }
      var rest: Result<seq<Slot>>;
      ghost var others: seq<Node>;
      rest, others, more := PrepareAll(parameters[1..], values[1..], ns[1..], within);
      if rest.Err? {
        r := rest;
        return;
      }
      FirstNode(n, others, made, more);
      prepared, more := [n] + others, made + more;
      r := Ok([first.value] + rest.value);
    }

    method PrepareOne(p: Parameter, value: Slot, ghost n: Node, ghost within: set<ListObject>)
      returns (r: Result<Slot>, ghost copy: Node, ghost made: set<ListObject>)
      requires Live(n, within) && value == SlotOf(n) && !value.VoidSlot?
      ensures var spec := PrepareArgument(p, TreeOf(n));
              if spec.Err? then r == Err(spec.code)
              else r == Ok(SlotOf(copy)) && TreeOf(copy) == spec.value && Live(copy, made)
    {
      copy, made := n, within;
      if p.declared.Some? {
        if !IsDeclarable(p.declared.value) {
          r := Err(UNMODELLED);
          return;
        }
        r, copy, made := PrepareTyped(p.declared.value, value, n, within);
        return;
      }
      r := if value == EmptySlot(Unknown) then Err("E129") else Ok(value);
    }

    /** What a call hands to its parameters. */
    method Pass(parameters: seq<Parameter>, arguments: seq<ValueExpr>)
      returns (r: Result<seq<Slot>>, ghost ns: seq<Node>, ghost within: set<ListObject>)
      requires Valid()
      ensures var spec := Passed(view, parameters, arguments);
              if spec.Err? then r == Err(spec.code)
              else r == Ok(SlotsOf(ns)) && TreesOf(ns) == spec.value && LiveAll(ns, within)
    {
      hide PrepareArguments;
      hide EvaluateAll;
      hide TreeOf;
      hide SlotOf;
      hide TreesOf;
      hide SlotsOf;
      hide LiveAll;
      ghost var made: set<ListObject>;
      r, ns, made := Values(arguments);
      within := lists + made;
      if r.Err? {
        return;
      }
      LeavesAmong(ns, within);
      if VoidSlot in r.value {
        r := Err("E127");
        return;
      }
      if EmptysSlot in r.value {
        r := Err("E133");
        return;
      }
      TreesCount(ns);
      if |parameters| != |r.value| {
        r := Err("E207");
        return;
      }
      r, ns, within := PrepareAll(parameters, r.value, ns, within);
    }

    /** A call opens an environment of its own and assigns the arguments to the parameters there. */
    method EnterCall(parameters: seq<Parameter>, arguments: seq<ValueExpr>) returns (failure: Option<string>)
      requires Valid()
      modifies this, bindings
      ensures Valid() && fresh(bindings - old(bindings)) && fresh(lists - old(lists))
      ensures Kept(old(memory), memory, {})
      ensures var spec := Step(old(view), Call(parameters, arguments));
              if spec.Err? then failure == Some(spec.code) && view == old(view)
              else failure == None && view == spec.value
    {
      hide Kept, Tracks;
      hide TreeOf;
      hide SlotOf;
      hide TreesOf;
      hide SlotsOf;
      hide Named;
      hide Shows;
      hide BindParameters;
      hide Passed;
      hide LiveAll;
      FrameCount();
      hide Binding.Valid;
      hide Binding.Contents;
      hide Separate;
      var values: Result<seq<Slot>>;
      ghost var ns: seq<Node>;
      ghost var within: set<ListObject>;
      values, ns, within := Pass(parameters, arguments);
      if values.Err? {
        KeptItself(memory, {});
        return Some(values.code);
      }
      TreesCount(ns);
      ghost var outer := view;
      OpenFrame();
      FrameCount();
      ghost var entered := memory;
      failure := BindAll(parameters, values.value, ns, within);
      FrameCount();
      BoundInside(old(memory), entered, memory);
      if failure.Some? {
        ghost var bound := memory;
        CloseFrame();
        FrameCount();
        Closed(old(memory), bound, memory);
      }
    }

    method BindOne(p: Parameter, value: Slot, ghost n: Node, ghost within: set<ListObject>)
      returns (failure: Option<string>)
      requires Valid() && Live(n, within) && value == SlotOf(n)
      modifies this, bindings
      ensures Valid() && fresh(bindings - old(bindings)) && fresh(lists - old(lists))
      ensures |frames| == |old(frames)| && Kept(old(memory), memory, Holders(old(frames)[|frames| - 1], p.name))
      ensures var last := |old(frames)| - 1;
              var spec := if p.declared.None? then AssignIn(old(view)[last], p.name, TreeOf(n))
                          else DefineIn(old(view)[last], p.name, p.declared.value, TreeOf(n), false);
              if spec.Err? then failure == Some(spec.code) && view == old(view)
              else failure == None && view == old(view)[last := spec.value]
    {
      hide Kept, Tracks, Separate, Named, Shows;
      hide Binding.Valid;
      hide Binding.Contents;
      hide AssignIn;
      hide DefineIn;
      if p.declared.None? {
        failure := AssignHere(p.name, value, n, within);
      } else {
        failure := DefineHere(p.name, p.declared.value, value, false, n, within);
        MoreTouched(old(memory), memory, {}, Holders(old(frames)[|frames| - 1], p.name));
      }
    }

    /** Binds parameter number `i`, behind those before it. */
    method BindAt(parameters: seq<Parameter>, values: seq<Slot>, i: nat, ghost ns: seq<Node>,
                  ghost within: set<ListObject>, ghost start: Memory)
      returns (failure: Option<string>)
      requires Valid() && LiveAll(ns, within) && values == SlotsOf(ns) && i < |parameters| == |values| == |ns|
      requires |TreesOf(ns)| == |ns| && |start.frames| == |frames|
      requires Kept(start, memory, start.frames[|frames| - 1].Values)
      modifies this, bindings
      ensures Valid() && fresh(bindings - old(bindings)) && fresh(lists - old(lists))
      ensures |frames| == |old(frames)| == |view| == |old(view)| && view[..|view| - 1] == old(view)[..|view| - 1]
      ensures Kept(start, memory, start.frames[|frames| - 1].Values)
      ensures var ts, last := TreesOf(ns), |view| - 1;
              var spec := BindParameters(old(view)[last], parameters[i..], ts[i..]);
              if failure.None? then spec == BindParameters(view[last], parameters[i + 1..], ts[i + 1..])
              else spec == Err(failure.value)
    {
      hide Kept, Tracks, Separate, Named, Shows;
      hide Binding.Valid;
      hide Binding.Contents;
      hide AssignIn, DefineIn;
      TreeAt(ns, i);
      FrameCount();
      ghost var ts := TreesOf(ns);
      BoundFirst(view[|view| - 1], parameters, ts, i);
      hide BindParameters, TreesOf, Holders;
      assert Live(ns[i], within);
      ghost var before := memory;
      failure := BindOne(parameters[i], values[i], ns[i], within);
      FrameCount();
      OneMoreBound(start, before, memory, parameters[i].name);
    }

    method BindAll(parameters: seq<Parameter>, values: seq<Slot>, ghost ns: seq<Node>, ghost within: set<ListObject>)
      returns (failure: Option<string>)
      requires Valid() && LiveAll(ns, within) && values == SlotsOf(ns) && |parameters| == |values|
      modifies this, bindings
      ensures Valid() && fresh(bindings - old(bindings)) && fresh(lists - old(lists))
      ensures |frames| == |old(frames)| == |view| == |old(view)|
      ensures Kept(old(memory), memory, old(frames)[|frames| - 1].Values)
      ensures var last := |old(frames)| - 1;
              var spec := BindParameters(old(view)[last], parameters, TreesOf(ns));
              && view[..last] == old(view)[..last]
              && if spec.Err? then failure == Some(spec.code) else failure == None && view[last] == spec.value
    {
      hide Kept, Tracks, Separate, Named, Shows;
      hide Binding.Valid;
      hide Binding.Contents;
      TreesCount(ns);
      FrameCount();
      BoundNone(view[|frames| - 1]);
      ghost var start, ts := memory, TreesOf(ns);
      KeptItself(start, frames[|frames| - 1].Values);
      assert parameters[0..] == parameters && ts[0..] == ts;
      assert parameters[|parameters|..] == [] && ts[|parameters|..] == [];
      hide BindParameters, TreesOf, Live;
      var last := |frames| - 1;
      for i := 0 to |parameters|
        invariant Valid() && fresh(bindings - old(bindings)) && fresh(lists - old(lists)) && LiveAll(ns, within)
        invariant |frames| == |old(frames)| == |view| && view[..last] == old(view)[..last]
        invariant Kept(start, memory, start.frames[last].Values)
        invariant BindParameters(old(view)[last], parameters, ts)
                  == BindParameters(view[last], parameters[i..], ts[i..])
      {
        failure := BindAt(parameters, values, i, ns, within, start);
        if failure.Some? {
          return;
        }
      }
      failure := None;
    }

    method OpenFrame()
      requires Valid()
      modifies this`frames, this`view, this`memory
      ensures memory == old(memory).(frames := frames)
      ensures frames == old(frames) + [map[]]
      ensures Kept(old(memory), memory, {})
      ensures Valid() && view == old(view) + [map[]] && |frames| == |old(frames)| + 1
    {
      hide Binding.Valid;
      hide Binding.Contents;
      frames, view := frames + [map[]], view + [map[]];
      memory := memory.(frames := frames);
      FramesChanged(old(memory), memory, {});
    }

    method CloseFrame()
      requires Valid() && |frames| > 1
      modifies this`frames, this`view, this`memory
      ensures memory == old(memory).(frames := frames)
      ensures frames == old(frames)[..|old(frames)| - 1]
      ensures Kept(old(memory), memory, {})
      ensures Valid() && view == old(view)[..|old(view)| - 1]
    {
      hide Binding.Valid;
      hide Binding.Contents;
      frames, view := frames[..|frames| - 1], view[..|view| - 1];
      memory := memory.(frames := frames);
      FramesChanged(old(memory), memory, {});
    }

    /** One operation, each in its own way. */
    method Perform(op: Operation) returns (failure: Option<string>)
      requires Valid()
      modifies this, bindings, lists
      ensures Valid() && fresh(bindings - old(bindings)) && fresh(lists - old(lists))
      ensures Kept(old(memory), memory, Targets(old(frames), op))
      ensures Took(old(memory), memory, Targets(old(frames), op), failure.None? && !op.Reshape?)
      ensures forall o | o in old(lists)
              && (op.Reshape? ==> forall c | c in Targets(old(frames), op) :: o !in old(c.lists)) ::
                unchanged(o)
      ensures view == Outcome(old(view), op)
      ensures failure == var next := Step(old(view), op); if next.Err? then Some(next.code) else None
    {
      hide Kept, Tracks, Took;
      hide Binding.Valid;
      hide Binding.Contents;
      hide Separate;
      hide Named;
      hide Shows;
      match op
      case Assign(name, e) => failure := ExecuteAssign(name, e);
      case Define(name, declared, e, constant) =>
        failure := ExecuteDefine(name, declared, e, constant);
        NoneTook(old(memory), memory, failure.None?);
      case AssignAt(name, indexes, e) => failure := ExecuteAssignAt(name, indexes, e);
      case Reshape(name, path, shape) =>
        var i := Find(name);
        if i.None? {
          KeptItself(memory, Holders(Scope(frames, name), name));
          NothingTaken(name);
          return Some("E202");
        }
        failure := ReshapeNamed(i.value, name, path, shape);
      case Call(parameters, arguments) =>
        failure := EnterCall(parameters, arguments);
        NoneTook(old(memory), memory, failure.None?);
      case Return =>
        FrameCount();
        if |frames| > 1 {
          CloseFrame();
        } else {
          KeptItself(memory, {});
        }
        failure := None;
        NoneTook(old(memory), memory, true);
      case ReturnTo(name, e) => failure := ExecuteReturn(name, e);
    }

    /** Executes one operation. It succeeds if and only if there are environments that the operation can leave,
        and leaves these; a failure has the code that the environments and the operation determine. A failing operation
        changes nothing that can be seen. Any other binding holds what it held, and the objects of all its lists are
        as they were. */
    method Execute(op: Operation) returns (failure: Option<string>)
      requires Valid()
      modifies this, bindings, lists
      ensures Valid() && fresh(bindings - old(bindings)) && fresh(lists - old(lists))
      ensures Kept(old(memory), memory, Targets(old(frames), op))
      ensures Took(old(memory), memory, Targets(old(frames), op), failure.None? && !op.Reshape?)
      ensures forall o | o in old(lists)
              && (op.Reshape? ==> forall c | c in Targets(old(frames), op) :: o !in old(c.lists)) ::
                unchanged(o)
      ensures view == Outcome(old(view), op)
      ensures failure == var next := Step(old(view), op); if next.Err? then Some(next.code) else None
      ensures IsSensible(op) ==>
                if failure.None? then IsStep(old(view), op, view) else forall after :: !IsStep(old(view), op, after)
      ensures Errors.ChangesVariable(op) && failure.Some? ==> Errors.FailsAsStep(old(view), op, failure.value)
    {
      StepIsExact(op);
      FailureIsExact(op);
      hide *;
      failure := Perform(op);
    }

    lemma FailureIsExact(op: Operation)
      requires Valid()
      ensures view != []
      ensures Errors.ChangesVariable(op) && Step(view, op).Err? ==> Errors.FailsAsStep(view, op, Step(view, op).code)
    {
      ViewIsTyped();
      hide Step, Errors.FailsAsStep, Binding.Valid, Separate, Named, Tracks;
      if Errors.ChangesVariable(op) && Step(view, op).Err? { Errors.StepFails(view, op, Step(view, op).code); }
    }

    lemma StepIsExact(op: Operation)
      requires Valid()
      ensures view != []
      ensures IsSensible(op) ==>
                var next := Step(view, op);
                if next.Ok? then IsStep(view, op, next.value) else forall after :: !IsStep(view, op, after)
    {
      ViewIsTyped();
      hide IsStep, Step, Binding.Valid, Separate, Named, Tracks;
      if IsSensible(op) {
        forall after: StoreRuns.Frames
          ensures Step(view, op) == Result.Ok(after) <==> IsStep(view, op, after)
        {
          StepIff(view, op, after);
        }
      }
    }

    /** Closes the current environment, and assigns the value in the one behind it. */
    method ReturnInto(name: string, value: Slot, ghost n: Node, ghost made: set<ListObject>)
      returns (failure: Option<string>)
      requires Valid() && |frames| > 1 && Live(n, lists + made) && value == SlotOf(n)
      modifies this, bindings
      ensures Valid() && fresh(bindings - old(bindings)) && fresh(lists - old(lists))
      ensures Kept(old(memory), memory, CallersHolders(old(frames), name))
      ensures Took(old(memory), memory, CallersHolders(old(frames), name), failure.None?)
      ensures |old(view)| == |old(frames)|
      ensures var last := |old(view)| - 1;
              var spec := AssignIn(old(view)[last - 1], name, TreeOf(n));
              if spec.Err? then failure == Some(spec.code) && view == old(view)[..last]
              else failure == None && view == old(view)[..last][last - 1 := spec.value]
    {
      hide Kept, Tracks, Took, Separate, Named, Shows;
      hide Binding.Valid;
      hide Binding.Contents;
      hide AssignIn, Live;
      FrameCount();
      CloseFrame();
      FrameCount();
      ghost var closed := memory;
      failure := AssignHere(name, value, n, lists + made);
      FrameCount();
      AfterClosing(old(memory), closed, memory, CallersHolders(old(frames), name), failure.None?);
    }

    /** A returned list is the object of the callee; the caller's variable gets a copy of its own. */
    method ExecuteReturn(name: string, e: ValueExpr) returns (failure: Option<string>)
      requires Valid()
      modifies this, bindings
      ensures Valid() && fresh(bindings - old(bindings)) && fresh(lists - old(lists))
      ensures Kept(old(memory), memory, CallersHolders(old(frames), name))
      ensures Took(old(memory), memory, CallersHolders(old(frames), name), failure.None?)
      ensures view == Outcome(old(view), ReturnTo(name, e))
      ensures failure == var next := Step(old(view), ReturnTo(name, e)); if next.Err? then Some(next.code) else None
    {
      hide Kept, Tracks, Took;
      hide Binding.Valid;
      hide Binding.Contents;
      hide Separate;
      hide Named;
      hide Shows;
      hide Evaluate;
      hide AssignIn;
      FrameCount();
      if |frames| == 1 {
        KeptItself(memory, CallersHolders(frames, name));
        NothingTaken(name);
        return Some("E110");
      }
      var value: Result<Slot>;
      ghost var n: Node;
      ghost var made: set<ListObject>;
      value, n, made := Value(e);
      if value.Err? {
        KeptItself(memory, CallersHolders(frames, name));
        NothingTaken(name);
        return Some(value.code);
      }
      failure := ReturnInto(name, value.value, n, made);
    }

    /** Every binding conforms to its type, so every variable that can be seen does. */
    lemma ViewIsTyped()
      requires Valid()
      ensures AllTyped(view)
    {
      forall i, x | 0 <= i < |view| && x in view[i]
        ensures Typed(view[i][x])
      {
        var b := frames[i][x];
        assert b in bindings && b.Valid() && view[i][x] == b.Contents();
      }
    }

    lemma SameNames(i: nat, name: string)
      requires Valid() && i < |frames|
      ensures |view| == |frames| && (name in view[i] <==> name in frames[i])
    {
    }

    /** What is found by a name holds what it held when nothing has happened. */
    lemma NothingTaken(name: string)
      requires Valid()
      ensures Took(memory, memory, Holders(frames[|frames| - 1], name), false)
      ensures Took(memory, memory, Holders(Scope(frames, name), name), false)
      ensures Took(memory, memory, CallersHolders(frames, name), false)
    {
      hide Separate, Shows;
    }

    lemma AllHeld()
      requires Valid()
      ensures memory.held.Keys == bindings && forall b | b in bindings :: memory.held[b] == b.Held()
    {
    }

    lemma FrameCount()
      requires Valid()
      ensures |frames| == |view| > 0
      ensures memory.frames == frames && memory.lists == lists && memory.held.Keys == bindings
    {
    }

    method ExecuteAssign(name: string, e: ValueExpr) returns (failure: Option<string>)
      requires Valid()
      modifies this, bindings
      ensures Valid() && fresh(bindings - old(bindings)) && fresh(lists - old(lists))
      ensures Kept(old(memory), memory, Holders(old(frames)[|old(frames)| - 1], name))
      ensures Took(old(memory), memory, Holders(old(frames)[|old(frames)| - 1], name), failure.None?)
      ensures var next := Step(old(view), Assign(name, e));
              if next.Err? then failure == Some(next.code) && view == old(view)
              else failure == None && view == next.value
    {
      hide Kept, Tracks, Took;
      hide Binding.Valid;
      hide Binding.Contents;
      hide Separate;
      hide Named;
      hide Shows;
      hide Evaluate;
      hide AssignIn;
      FrameCount();
      var value: Result<Slot>;
      ghost var n: Node;
      ghost var made: set<ListObject>;
      value, n, made := Value(e);
      if value.Err? {
        KeptItself(memory, Holders(frames[|frames| - 1], name));
        NothingTaken(name);
        return Some(value.code);
      }
      failure := AssignHere(name, value.value, n, lists + made);
    }

    method ExecuteDefine(name: string, declared: DeclaredType, e: ValueExpr, constant: bool)
      returns (failure: Option<string>)
      requires Valid()
      modifies this, bindings
      ensures Valid() && fresh(bindings - old(bindings)) && fresh(lists - old(lists))
      ensures Kept(old(memory), memory, {})
      ensures var next := Step(old(view), Define(name, declared, e, constant));
              if next.Err? then failure == Some(next.code) && view == old(view)
              else failure == None && view == next.value
    {
      hide Kept, Tracks;
      hide Binding.Valid;
      hide Binding.Contents;
      hide Separate;
      hide Named;
      hide Shows;
      hide Evaluate;
      hide DefineIn;
      FrameCount();
      var value: Result<Slot>;
      ghost var n: Node;
      ghost var made: set<ListObject>;
      value, n, made := Value(e);
      if value.Err? {
        KeptItself(memory, {});
        return Some(value.code);
      }
      failure := DefineHere(name, declared, value.value, constant, n, lists + made);
    }

    method ExecuteAssignAt(name: string, indexes: seq<Index>, e: ValueExpr) returns (failure: Option<string>)
      requires Valid()
      modifies this, bindings
      ensures Valid() && fresh(bindings - old(bindings)) && fresh(lists - old(lists))
      ensures Kept(old(memory), memory, Holders(Scope(old(frames), name), name))
      ensures Took(old(memory), memory, Holders(Scope(old(frames), name), name), failure.None?)
      ensures var next := Step(old(view), AssignAt(name, indexes, e));
              if next.Err? then failure == Some(next.code) && view == old(view)
              else failure == None && view == next.value
    {
      hide Kept, Tracks, Took;
      hide Binding.Valid;
      hide Binding.Contents;
      hide Separate;
      hide Named;
      hide Shows;
      hide Evaluate;
      hide AssignIndexes;
      FrameCount();
      var value: Result<Slot>;
      ghost var n: Node;
      ghost var made: set<ListObject>;
      value, n, made := Value(e);
      if value.Err? {
        KeptItself(memory, Holders(Scope(frames, name), name));
        NothingTaken(name);
        return Some(value.code);
      }
      var i := Find(name);
      if i.None? {
        KeptItself(memory, Holders(Scope(frames, name), name));
        NothingTaken(name);
        return Some("E202");
      }
      failure := AssignElement(i.value, name, indexes, value.value, n, lists + made);
    }

    method ExecuteAll(ops: seq<Operation>)
      requires Valid()
      modifies this, bindings, lists
      ensures Valid() && view == RunAll(old(view), ops)
    {
      hide Binding.Valid;
      hide Binding.Contents;
      hide Separate;
      hide Outcome;
      hide Kept, Took, Tracks, Targets;
      hide Named, Shows;
      FrameCount();
      ghost var all := RunAll(view, ops);
      assert ops[0..] == ops;
      for i := 0 to |ops|
        invariant Valid() && fresh(bindings - old(bindings)) && fresh(lists - old(lists))
        invariant |frames| == |view| && all == RunAll(view, ops[i..])
      {
        assert ops[i..][0] == ops[i] && ops[i..][1..] == ops[i + 1..];
        var failure := Execute(ops[i]);
        FrameCount();
      }
    }

    /** A whole run with shared list objects ends with the variables that the same run with
        lists as values ends with; and no list object belongs to two places. */
    method Run(ops: seq<Operation>)
      requires Valid()
      modifies this, bindings, lists
      ensures Valid() && view == RunAll(old(view), ops)
      ensures AllTyped(old(view)) && AllTyped(view)
      ensures FirstEvolve(old(view), view, OpenThroughout(old(view), ops))
    {
      ViewIsTyped();
      RunsAreTyped(view, ops);
      hide *;
      ExecuteAll(ops);
    }
  }

  /** Every list object that a variable reaches has one owner: it stands in one place of that
      variable, and no other variable reaches it. */
  lemma EveryListHasOneOwner(m: Machine, i: nat, x: string, j: nat, y: string, l: ListObject)
    requires m.Valid()
    requires i < |m.frames| && x in m.frames[i] && l in Lists(m.frames[i][x].node)
    requires j < |m.frames| && y in m.frames[j] && l in Lists(m.frames[j][y].node)
    ensures i == j && x == y && Lists(m.frames[i][x].node)[l] == 1
  {
    hide Binding.Valid;
    BindingIsValid(m, i, x);
    BindingIsValid(m, j, y);
    hide Shows;
    OwnsOnce(m.frames[i][x], l);
    OwnsOnce(m.frames[j][y], l);
  }

  lemma BindingIsValid(m: Machine, i: nat, x: string)
    requires m.Valid() && i < |m.frames| && x in m.frames[i]
    ensures m.frames[i][x] in m.bindings && m.frames[i][x].Valid()
  {
    hide Binding.Valid;
    hide Shows;
  }

  lemma OwnsOnce(b: Binding, l: ListObject)
    requires b.Valid() && l in Lists(b.node)
    ensures l in b.lists && Lists(b.node)[l] == 1
  {
    LiveReaches(b.node, b.lists);
    assert l in Reached(b.node);
  }

  lemma LeafOrList(n: Node, within: set<ListObject>)
    requires Live(n, within)
    ensures SlotOf(n).VoidSlot? <==> TreeOf(n).VoidTree?
  {
  }

  lemma StillSeparate(bindings: set<Binding>, b: Binding, lists: set<ListObject>, made: set<ListObject>)
    requires b.Valid() && b.lists == made
    requires forall c | c in bindings && c != b :: c.lists <= lists && c.Valid() && c.lists !! made
    requires forall c, d | c in bindings && d in bindings && c != d && c != b && d != b :: c.lists !! d.lists
    ensures Separate(bindings, lists + made)
  {
    hide Binding.Valid;
  }

  lemma StillShows(frames: seq<map<string, Binding>>, bindings: set<Binding>, view: Frames, i: nat, name: string,
                   b: Binding)
    requires Named(frames, bindings) && i < |frames| && name in frames[i] && b == frames[i][name]
    requires |view| == |frames| && forall j | 0 <= j < |frames| :: view[j].Keys == frames[j].Keys
    requires forall j, x | 0 <= j < |frames| && x in frames[j]
             && frames[j][x] != b :: view[j][x] == frames[j][x].Contents()
    ensures Shows(frames, bindings, view[i := view[i][name := b.Contents()]])
  {
    hide Binding.Contents;
  }

  lemma SameEntry(view: Frames, i: nat, name: string)
    requires i < |view| && name in view[i]
    ensures view[i := view[i][name := view[i][name]]] == view
  {
    assert view[i][name := view[i][name]] == view[i];
  }

  lemma FirstNode(n: Node, ns: seq<Node>, a: set<ListObject>, b: set<ListObject>)
    requires Live(n, a) && LiveAll(ns, b)
    ensures LiveAll([n] + ns, a + b)
    ensures SlotsOf([n] + ns) == [SlotOf(n)] + SlotsOf(ns) && TreesOf([n] + ns) == [TreeOf(n)] + TreesOf(ns)
  {
    LiveWithinMore(n, a, a + b);
    LiveAllWithinMore(ns, b, a + b);
    var all := [n] + ns;
    forall i | 0 <= i < |all|
      ensures TreesOf(all)[i] == ([TreeOf(n)] + TreesOf(ns))[i]
    {
      TreeAt(all, i);
      if i > 0 {
        TreeAt(ns, i - 1);
      }
    }
  }
}
