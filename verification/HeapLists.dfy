/** List objects on the heap. A list variable holds a reference, so one object can be reached
    from many places. A `Node` is a snapshot of what a slot reaches: the tree of its values,
    with the list object that holds each level. */
module HeapLists {
  import opened Ast
  import opened TypeSpecs
  import opened Trees

  datatype Slot =
    | ScalarSlot(typeName: ScalarName, value: Payload)
    | EmptySlot(spec: Spec)
    | ListSlot(list: ListObject)
    | VoidSlot
    | EmptysSlot

  class ListObject {
    var items: seq<Slot>

    constructor (items: seq<Slot>)
      ensures this.items == items
    {
      this.items := items;
    }
  }

  datatype Node =
    | LeafNode(leaf: Tree)
    | ListNode(list: ListObject, items: seq<Node>)

  ghost predicate IsLeaf(t: Tree) { !t.ListTree? }

  ghost function LeafSlot(t: Tree): Slot
    requires IsLeaf(t)
  {
    match t
    case ScalarTree(name, value) => ScalarSlot(name, value)
    case EmptyTree(spec) => EmptySlot(spec)
    case VoidTree => VoidSlot
    case EmptysTree => EmptysSlot
  }

  /** The slot that a snapshot was taken of. */
  ghost function SlotOf(n: Node): Slot {
    if n.ListNode? then ListSlot(n.list) else if IsLeaf(n.leaf) then LeafSlot(n.leaf) else VoidSlot
  }

  ghost function SlotsOf(ns: seq<Node>): seq<Slot> {
    seq(|ns|, i requires 0 <= i < |ns| => SlotOf(ns[i]))
  }

  /** The value, with the list objects forgotten. */
  ghost function TreeOf(n: Node): Tree
    decreases n, 1
  {
    if n.ListNode? then ListTree(TreesOf(n.items)) else n.leaf
  }

  ghost function TreesOf(ns: seq<Node>): seq<Tree>
    decreases ns, 0
  {
    seq(|ns|, i requires 0 <= i < |ns| => TreeOf(ns[i]))
  }

  /** Every list object reached, as often as it is reached. */
  ghost function Lists(n: Node): multiset<ListObject>
    decreases n, 1
  {
    if n.ListNode? then multiset{n.list} + ListsOf(n.items) else multiset{}
  }

  ghost function ListsOf(ns: seq<Node>): multiset<ListObject>
    decreases ns, 0
  {
    if ns == [] then multiset{} else Lists(ns[0]) + ListsOf(ns[1..])
  }

  ghost function Reached(n: Node): set<ListObject> {
    set l | l in Lists(n)
  }

  ghost function ReachedBy(ns: seq<Node>): set<ListObject> {
    set l | l in ListsOf(ns)
  }

  /** The heap still is as it was when the snapshot was taken; `within` holds every list object reached. */
  ghost predicate Live(n: Node, within: set<ListObject>)
    reads within
    decreases n
  {
    if n.ListNode? then
      && n.list in within
      && n.list.items == SlotsOf(n.items)
      && forall i | 0 <= i < |n.items| :: Live(n.items[i], within)
    else IsLeaf(n.leaf)
  }

  ghost predicate LiveAll(ns: seq<Node>, within: set<ListObject>)
    reads within
  {
    forall i | 0 <= i < |ns| :: Live(ns[i], within)
  }

  /** No list object is reached twice: the value is a tree of objects, not just a graph. */
  ghost predicate IsTree(lists: multiset<ListObject>) {
    forall l | l in lists :: lists[l] == 1
  }

  lemma {:induction false} PartsAreReached(ns: seq<Node>)
    ensures forall i | 0 <= i < |ns| :: Lists(ns[i]) <= ListsOf(ns) && Reached(ns[i]) <= ReachedBy(ns)
  {
    if ns != [] {
      PartsAreReached(ns[1..]);
      forall i | 0 <= i < |ns|
        ensures Lists(ns[i]) <= ListsOf(ns)
      {
        if i > 0 {
          assert ns[i] == ns[1..][i - 1];
        }
      }
    }
  }

  lemma {:induction false} ListsOfConcat(a: seq<Node>, b: seq<Node>)
    ensures ListsOf(a + b) == ListsOf(a) + ListsOf(b)
  {
    if a == [] {
      assert a + b == b;
    } else {
      assert (a + b)[0] == a[0] && (a + b)[1..] == a[1..] + b;
      ListsOfConcat(a[1..], b);
    }
  }

  lemma ListsOfSingle(n: Node)
    ensures ListsOf([n]) == Lists(n)
  {
    assert [n][1..] == [];
  }

  /** Exchanging one part exchanges what it reaches. */
  lemma ListsOfUpdate(ns: seq<Node>, i: nat, n: Node)
    requires i < |ns|
    ensures ListsOf(ns[i := n]) + Lists(ns[i]) == ListsOf(ns) + Lists(n)
  {
    assert ns == ns[..i] + ([ns[i]] + ns[i + 1..]);
    assert ns[i := n] == ns[..i] + ([n] + ns[i + 1..]);
    ListsOfConcat(ns[..i], [ns[i]] + ns[i + 1..]);
    ListsOfConcat(ns[..i], [n] + ns[i + 1..]);
    ListsOfConcat([ns[i]], ns[i + 1..]);
    ListsOfConcat([n], ns[i + 1..]);
    ListsOfSingle(n);
    ListsOfSingle(ns[i]);
  }

  /** In a tree of objects, different parts reach different objects. */
  lemma PartsAreDisjoint(ns: seq<Node>, i: nat, j: nat)
    requires i < |ns| && j < |ns| && i != j && IsTree(ListsOf(ns))
    ensures Reached(ns[i]) !! Reached(ns[j])
  {
    var (a, b) := if i < j then (i, j) else (j, i);
    assert ns == ns[..a] + ([ns[a]] + ns[a + 1..]);
    ListsOfConcat(ns[..a], [ns[a]] + ns[a + 1..]);
    ListsOfConcat([ns[a]], ns[a + 1..]);
    ListsOfSingle(ns[a]);
    PartsAreReached(ns[a + 1..]);
    assert ns[a + 1..][b - a - 1] == ns[b];
    var both := Lists(ns[a]) + Lists(ns[b]);
    assert both <= ListsOf(ns);
    SmallerIsTree(both, ListsOf(ns));
    forall l | l in Reached(ns[a])
      ensures l !in Reached(ns[b])
    {
      assert both[l] == Lists(ns[a])[l] + Lists(ns[b])[l] == 1;
    }
  }

  lemma SmallerIsTree(a: multiset<ListObject>, b: multiset<ListObject>)
    requires a <= b && IsTree(b)
    ensures IsTree(a)
  {
    forall l | l in a
      ensures a[l] == 1
    {
      assert 1 <= a[l] <= b[l] && l in b;
    }
  }

  lemma {:induction false} LiveWithinMore(n: Node, within: set<ListObject>, more: set<ListObject>)
    requires Live(n, within) && within <= more
    ensures Live(n, more)
    decreases n
  {
    if n.ListNode? {
      forall i | 0 <= i < |n.items|
        ensures Live(n.items[i], more)
      {
        LiveWithinMore(n.items[i], within, more);
      }
    }
  }

  lemma LiveAllWithinMore(ns: seq<Node>, within: set<ListObject>, more: set<ListObject>)
    requires LiveAll(ns, within) && within <= more
    ensures LiveAll(ns, more)
  {
    forall i | 0 <= i < |ns|
      ensures Live(ns[i], more)
    {
      LiveWithinMore(ns[i], within, more);
    }
  }

  lemma {:induction false} LiveReaches(n: Node, within: set<ListObject>)
    requires Live(n, within)
    ensures Reached(n) <= within
    decreases n, 1
  {
    if n.ListNode? {
      LiveAllReaches(n.items, within);
    }
  }

  lemma {:induction false} LiveAllReaches(ns: seq<Node>, within: set<ListObject>)
    requires LiveAll(ns, within)
    ensures ReachedBy(ns) <= within
    decreases ns, 0
  {
    if ns != [] {
      assert Live(ns[0], within);
      LiveReaches(ns[0], within);
      LiveAllReaches(ns[1..], within);
    }
  }

  /** A snapshot does not depend on objects that it does not reach. */
  lemma {:induction false} LiveAvoiding(n: Node, within: set<ListObject>, avoided: set<ListObject>)
    requires Live(n, within) && Reached(n) !! avoided
    ensures Live(n, within - avoided)
    decreases n, 1
  {
    if n.ListNode? {
      assert n.list in Lists(n);
      assert forall l | l in ListsOf(n.items) :: l in Lists(n);
      LiveAllAvoiding(n.items, within, avoided);
    }
  }

  lemma {:induction false} LiveAllAvoiding(ns: seq<Node>, within: set<ListObject>, avoided: set<ListObject>)
    requires LiveAll(ns, within) && ReachedBy(ns) !! avoided
    ensures LiveAll(ns, within - avoided)
    decreases ns, 0
  {
    PartsAreReached(ns);
    forall i | 0 <= i < |ns|
      ensures Live(ns[i], within - avoided)
    {
      assert Reached(ns[i]) <= ReachedBy(ns);
      LiveAvoiding(ns[i], within, avoided);
    }
  }

  /** In a tree of objects, the elements of a list do not reach the list itself. */
  lemma ListIsNotBelow(n: Node, within: set<ListObject>)
    requires n.ListNode? && Live(n, within) && IsTree(Lists(n))
    ensures n.list !in ReachedBy(n.items) && IsTree(ListsOf(n.items))
    ensures LiveAll(n.items, within - {n.list})
  {
    assert Lists(n) == multiset{n.list} + ListsOf(n.items);
    assert n.list in Lists(n) && Lists(n)[n.list] == 1 + ListsOf(n.items)[n.list];
    SmallerIsTree(ListsOf(n.items), Lists(n));
    LiveAllAvoiding(n.items, within, {n.list});
  }

  // ---- Reading the types of values ----

  /** A VOID or EMPTYS slot among the elements is refused before anything else. */
  method ElementTypeOf(items: seq<Slot>, ghost ns: seq<Node>, ghost within: set<ListObject>) returns (r: Result<Spec>)
    requires LiveAll(ns, within) && items == SlotsOf(ns)
    ensures r == ElementSpec(TreesOf(ns))
    decreases ns, 1
  {
    LeavesAmong(ns, within);
    if VoidSlot in items {
      return Err("E127");
    }
    if EmptysSlot in items {
      return Err("E133");
    }
    r := MergedType(items, ns, within);
  }

  /** Merges the types of the items, one after the other. */
  method MergedType(items: seq<Slot>, ghost ns: seq<Node>, ghost within: set<ListObject>) returns (r: Result<Spec>)
    requires LiveAll(ns, within) && items == SlotsOf(ns)
    ensures r == FoldSpecs(Unknown, TreesOf(ns))
    decreases ns, 0
  {
    ghost var ts := TreesOf(ns);
    var found := Unknown;
    for i := 0 to |items|
      invariant LiveAll(ns, within)
      invariant FoldSpecs(Unknown, ts) == FoldSpecs(found, ts[i..])
    {
      assert ts[i..][0] == TreeOf(ns[i]) && ts[i..][1..] == ts[i + 1..];
      assert Live(ns[i], within);
      var actual := TypeOf(items[i], ns[i], within);
      if actual.Err? {
        return actual;
      }
      if !Compatible(found, actual.value) {
        return Err("E203");
      }
      found := Merge(found, actual.value);
    }
    return Ok(found);
  }

  method TypeOf(slot: Slot, ghost n: Node, ghost within: set<ListObject>) returns (r: Result<Spec>)
    requires Live(n, within) && slot == SlotOf(n)
    ensures r == ValueSpec(TreeOf(n))
    decreases n, 2
  {
    match slot
    case ScalarSlot(name, _) => r := Ok(Scalar(name));
    case EmptySlot(spec) => r := Ok(spec);
    case ListSlot(list) =>
      var element := ElementTypeOf(list.items, n.items, within);
      r := if element.Err? then element else Ok(ListOf(element.value));
    case VoidSlot => r := Err("E127");
    case EmptysSlot => r := Err("E133");
  }

  lemma LeavesAmong(ns: seq<Node>, within: set<ListObject>)
    requires LiveAll(ns, within)
    ensures VoidSlot in SlotsOf(ns) <==> VoidTree in TreesOf(ns)
    ensures EmptysSlot in SlotsOf(ns) <==> EmptysTree in TreesOf(ns)
  {
    forall i | 0 <= i < |ns|
      ensures SlotsOf(ns)[i] == VoidSlot <==> TreesOf(ns)[i] == VoidTree
      ensures SlotsOf(ns)[i] == EmptysSlot <==> TreesOf(ns)[i] == EmptysTree
    {
      assert Live(ns[i], within);
    }
  }

  // ---- Copying ----

  ghost function Before(prefix: seq<Tree>, rest: Result<seq<Tree>>): Result<seq<Tree>> {
    if rest.Ok? then Ok(prefix + rest.value) else rest
  }

  lemma BeforeNothing(rest: Result<seq<Tree>>, prefix: seq<Tree>)
    ensures Before([], rest) == rest && Before(prefix, Ok([])) == Ok(prefix)
  {
    assert rest.Ok? ==> [] + rest.value == rest.value;
    assert prefix + [] == prefix;
  }

  lemma BeforeMore(prefix: seq<Tree>, t: Tree, rest: Result<seq<Tree>>)
    ensures Before(prefix, Before([t], rest)) == Before(prefix + [t], rest)
  {
    assert rest.Ok? ==> prefix + ([t] + rest.value) == (prefix + [t]) + rest.value;
  }

  lemma AppendedNodes(ns: seq<Node>, n: Node)
    ensures SlotsOf(ns + [n]) == SlotsOf(ns) + [SlotOf(n)]
    ensures TreesOf(ns + [n]) == TreesOf(ns) + [TreeOf(n)]
    ensures ListsOf(ns + [n]) == ListsOf(ns) + Lists(n)
    ensures ReachedBy(ns + [n]) == ReachedBy(ns) + Reached(n)
  {
    AppendedLists(ns, n);
    AppendedTrees(ns, n);
    hide Lists;
    hide TreeOf;
    hide ListsOf;
    hide SlotOf;
  }

  lemma AppendedLists(ns: seq<Node>, n: Node)
    ensures ListsOf(ns + [n]) == ListsOf(ns) + Lists(n)
  {
    ListsOfConcat(ns, [n]);
    ListsOfSingle(n);
  }

  lemma AppendedTrees(ns: seq<Node>, n: Node)
    ensures TreesOf(ns + [n]) == TreesOf(ns) + [TreeOf(n)]
  {
    var longer := ns + [n];
    forall i | 0 <= i < |longer|
      ensures TreesOf(longer)[i] == (TreesOf(ns) + [TreeOf(n)])[i]
    {
      assert TreesOf(longer)[i] == TreeOf(longer[i]);
      if i < |ns| {
        assert longer[i] == ns[i];
      }
    }
  }

  lemma AppendedLive(ns: seq<Node>, within: set<ListObject>, n: Node, reached: set<ListObject>)
    requires LiveAll(ns, within) && Live(n, reached)
    ensures LiveAll(ns + [n], within + reached)
  {
    LiveAllWithinMore(ns, within, within + reached);
    LiveWithinMore(n, reached, within + reached);
  }

  lemma AppendedIsTree(ns: seq<Node>, n: Node)
    requires IsTree(ListsOf(ns)) && IsTree(Lists(n)) && ReachedBy(ns) !! Reached(n)
    ensures IsTree(ListsOf(ns + [n]))
  {
    AppendedNodes(ns, n);
    forall l | l in ListsOf(ns + [n])
      ensures ListsOf(ns + [n])[l] == 1
    {
      assert l in ReachedBy(ns) || l in Reached(n);
    }
  }

  /** Normalising copies a list at every level: the copy shares no object with anything. */
  method NormalizedCopy(slot: Slot, spec: Spec, ghost n: Node, ghost within: set<ListObject>)
    returns (r: Result<Slot>, ghost copy: Node, ghost made: set<ListObject>)
    requires Live(n, within) && slot == SlotOf(n)
    ensures var normal := Normalize(TreeOf(n), spec);
            if normal.Err? then r == Err(normal.code)
            else r == Ok(SlotOf(copy)) && TreeOf(copy) == normal.value
    ensures fresh(made) && (r.Ok? ==> Live(copy, made) && IsTree(Lists(copy)))
    decreases n, 1
  {
    copy, made := LeafNode(EmptyTree(spec)), {};
    match slot
    case EmptySlot(_) => r := Ok(EmptySlot(spec));
    case ListSlot(list) =>
      if !spec.ListOf? {
        r := Err("E203");
        return;
      }
      var inner: Result<ListObject>;
      inner, copy, made := NormalizedListCopy(list.items, spec.element, n.items, within);
      r := if inner.Err? then Err(inner.code) else Ok(ListSlot(inner.value));
    case ScalarSlot(name, _) =>
      if spec.ListOf? {
        r := Err("E201");
        return;
      }
      copy := n;
      r := if spec == Scalar(name) then Ok(slot) else Err("E203");
    case VoidSlot => r := Err(if spec.ListOf? then "E201" else "E203");
    case EmptysSlot => r := Err(if spec.ListOf? then "E201" else "E203");
  }

  method NormalizedListCopy(items: seq<Slot>, element: Spec, ghost ns: seq<Node>, ghost within: set<ListObject>)
    returns (r: Result<ListObject>, ghost copy: Node, ghost made: set<ListObject>)
    requires LiveAll(ns, within) && items == SlotsOf(ns)
    ensures var normal := NormalizeList(TreesOf(ns), element);
            if normal.Err? then r == Err(normal.code)
            else r.Ok? && SlotOf(copy) == ListSlot(r.value) && TreeOf(copy) == ListTree(normal.value)
    ensures fresh(made) && (r.Ok? ==> Live(copy, made) && IsTree(Lists(copy)))
    decreases ns, 0
  {
    copy, made := LeafNode(VoidTree), {};
    if items != [] && element.Unknown? {
      r := Err("E134");
      return;
    }
    ghost var ts := TreesOf(ns);
    var result := [];
    ghost var copies: seq<Node> := [];
    BeforeNothing(NormalizeItems(ts, element), []);
    assert TreesOf([]) == [];
    assert ts[0..] == ts;
    for i := 0 to |items|
      invariant NormalizeItems(ts, element) == Before(TreesOf(copies), NormalizeItems(ts[i..], element))
      invariant result == SlotsOf(copies) && LiveAll(copies, made) && LiveAll(ns, within)
      invariant fresh(made) && IsTree(ListsOf(copies))
    {
      assert ts[i..][0] == TreeOf(ns[i]) && ts[i..][1..] == ts[i + 1..];
      assert Live(ns[i], within);
      var slot: Result<Slot>;
      ghost var one: Node;
      ghost var reached: set<ListObject>;
      slot, one, reached := NormalizedCopy(items[i], element, ns[i], within);
      if slot.Err? {
        r := Err(slot.code);
        return;
      }
      AppendCopy(copies, made, one, reached);
      BeforeMore(TreesOf(copies), TreeOf(one), NormalizeItems(ts[i + 1..], element));
      result := result + [slot.value];
      copies, made := copies + [one], made + reached;
    }
    BeforeNothing(Ok([]), TreesOf(copies));
    r, copy, made := NewList(result, copies, made);
  }

  /** One more copied element, which shares nothing with the ones before it. */
  lemma AppendCopy(copies: seq<Node>, made: set<ListObject>, one: Node, reached: set<ListObject>)
    requires LiveAll(copies, made) && IsTree(ListsOf(copies))
    requires Live(one, reached) && IsTree(Lists(one)) && made !! reached
    ensures LiveAll(copies + [one], made + reached) && IsTree(ListsOf(copies + [one]))
    ensures SlotsOf(copies + [one]) == SlotsOf(copies) + [SlotOf(one)]
    ensures TreesOf(copies + [one]) == TreesOf(copies) + [TreeOf(one)]
  {
    AppendedNodes(copies, one);
    LiveAllReaches(copies, made);
    LiveReaches(one, reached);
    AppendedIsTree(copies, one);
    AppendedLive(copies, made, one, reached);
  }

  /** A new list object around slots that share nothing. */
  method NewList(slots: seq<Slot>, ghost ns: seq<Node>, ghost within: set<ListObject>)
    returns (r: Result<ListObject>, ghost n: Node, ghost made: set<ListObject>)
    requires LiveAll(ns, within) && slots == SlotsOf(ns)
    ensures r.Ok? && fresh(r.value) && made == within + {r.value}
    ensures n == ListNode(r.value, ns) && Live(n, made)
    ensures IsTree(ListsOf(ns)) ==> IsTree(Lists(n))
  {
    var list := new ListObject(slots);
    n, made := ListNode(list, ns), within + {list};
    LiveAllWithinMore(ns, within, made);
    LiveAllReaches(ns, within);
    assert Lists(n) == multiset{list} + ListsOf(ns);
    assert list !in ReachedBy(ns);
    r := Ok(list);
  }
}
