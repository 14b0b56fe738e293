/** The list algorithms of the store on the heap: copying while clearing or updating, and the shape
    operations, which change list objects in place. Each is proved to do to the objects what
    `StoreSpec` does to values, and to share no object in what it builds. */
module Stores {
  import opened Ast
  import opened TypeSpecs
  import opened Trees
  import opened StoreSpec
  import opened HeapLists

  // ---- Rebuilding lists ----

  /** EMPTYS: a new list of the same shape, with an EMPTY in the place of every leaf. */
  method ClearedCopy(items: seq<Slot>, element: Spec, ghost ns: seq<Node>, ghost within: set<ListObject>)
    returns (list: ListObject, ghost copy: Node, ghost made: set<ListObject>)
    requires LiveAll(ns, within) && items == SlotsOf(ns)
    ensures SlotOf(copy) == ListSlot(list) && TreeOf(copy) == ListTree(ClearItems(TreesOf(ns), element))
    ensures fresh(made) && Live(copy, made) && IsTree(Lists(copy))
    decreases ns, 0
  {
    ghost var ts := TreesOf(ns);
    ClearItemsAt(ts, element);
    var result := [];
    ghost var copies: seq<Node> := [];
    made := {};
    for i := 0 to |items|
      invariant result == SlotsOf(copies) && LiveAll(copies, made) && LiveAll(ns, within)
      invariant fresh(made) && IsTree(ListsOf(copies))
      invariant TreesOf(copies) == ClearItems(ts, element)[..i]
    {
      assert Live(ns[i], within);
      var slot: Slot;
      ghost var one: Node;
      ghost var reached: set<ListObject>;
      slot, one, reached := ClearedSlot(items[i], element, ns[i], within);
      AppendCopy(copies, made, one, reached);
      assert ts[i] == TreeOf(ns[i]);
      result := result + [slot];
      copies, made := copies + [one], made + reached;
    }
    var r: Result<ListObject>;
    r, copy, made := NewList(result, copies, made);
    list := r.value;
  }

  method ClearedSlot(slot: Slot, element: Spec, ghost n: Node, ghost within: set<ListObject>)
    returns (cleared: Slot, ghost copy: Node, ghost made: set<ListObject>)
    requires Live(n, within) && slot == SlotOf(n)
    ensures SlotOf(copy) == cleared && TreeOf(copy) == ClearItem(TreeOf(n), element)
    ensures fresh(made) && Live(copy, made) && IsTree(Lists(copy))
    decreases n, 1
  {
    match slot
    case ListSlot(inner) =>
      var list: ListObject;
      list, copy, made := ClearedCopy(inner.items, if element.ListOf? then element.element
                                      else Unknown, n.items, within);
      cleared := ListSlot(list);
    case ScalarSlot(name, _) =>
      var spec := if element.Unknown? then Scalar(name) else element;
      cleared, copy, made := EmptySlot(spec), LeafNode(EmptyTree(spec)), {};
    case EmptySlot(own) =>
      var spec := if element.Unknown? then own else element;
      cleared, copy, made := EmptySlot(spec), LeafNode(EmptyTree(spec)), {};
    case VoidSlot =>
      cleared, copy, made := EmptySlot(element), LeafNode(EmptyTree(element)), {};
    case EmptysSlot =>
      cleared, copy, made := EmptySlot(element), LeafNode(EmptyTree(element)), {};
  }

  lemma UpdatedNodes(ns: seq<Node>, i: nat, n: Node)
    requires i < |ns|
    ensures SlotsOf(ns[i := n]) == SlotsOf(ns)[i := SlotOf(n)]
    ensures TreesOf(ns[i := n]) == TreesOf(ns)[i := TreeOf(n)]
  {
    var changed := ns[i := n];
    forall k | 0 <= k < |ns|
      ensures TreesOf(changed)[k] == TreesOf(ns)[i := TreeOf(n)][k]
    {
      assert TreesOf(changed)[k] == TreeOf(changed[k]);
    }
  }

  /** The recursive rebuilding of an indexed assignment: every list on the way is copied, but
      the copy still shares its other elements with the original. */
  method UpdatedCopy(items: seq<Slot>, indexes: seq<Index>, expected: Spec, value: Slot,
                     ghost ns: seq<Node>, ghost nv: Node, ghost within: set<ListObject>)
    returns (r: Result<ListObject>, adopted: Spec, ghost copy: Node, ghost made: set<ListObject>)
    requires indexes != []
    requires LiveAll(ns, within) && items == SlotsOf(ns) && Live(nv, within) && value == SlotOf(nv)
    ensures var spec := UpdateItems(TreesOf(ns), indexes, expected, TreeOf(nv));
            if spec.Err? then r == Err(spec.code)
            else
              && r.Ok? && adopted == spec.value.1
              && SlotOf(copy) == ListSlot(r.value) && TreeOf(copy) == ListTree(spec.value.0)
    ensures fresh(made) && (r.Ok? ==> Live(copy, within + made))
    decreases indexes
  {
    adopted, copy, made := expected, LeafNode(VoidTree), {};
    if !IsPosition(indexes[0]) {
      r := Err("E201");
      return;
    }
    if indexes[0].i >= |items| {
      r := Err("E302");
      return;
    }
    var i := indexes[0].i;
    var current := items[i];
    assert Live(ns[i], within) && TreesOf(ns)[i] == TreeOf(ns[i]);
    var slot: Result<Slot>;
    ghost var one: Node;
    if |indexes| > 1 {
      if current.EmptySlot? {
        r := Err("E131");
        return;
      }
      if !current.ListSlot? {
        r := Err("E201");
        return;
      }
      var child := Ok(expected);
      if expected.ListOf? {
        child := Ok(expected.element);
      } else {
        child := ElementTypeOf(current.list.items, ns[i].items, within);
      }
      if child.Err? {
        r := Err(child.code);
        return;
      }
      var inner: Result<ListObject>;
      inner, adopted, one, made :=
        UpdatedCopy(current.list.items, indexes[1..], child.value, value, ns[i].items, nv, within);
      if inner.Err? {
        r := Err(inner.code);
        return;
      }
      slot, adopted := Ok(ListSlot(inner.value)), ListOf(adopted);
    } else {
      slot, adopted, one, made := UpdatedSlot(current, expected, value, ns[i], nv, within);
      if slot.Err? {
        r := Err(slot.code);
        return;
      }
    }
    assert Live(one, within + made);
    LiveAllWithinMore(ns, within, within + made);
    UpdatedNodes(ns, i, one);
    ghost var list: set<ListObject>;
    r, copy, list := NewList(items[i := slot.value], ns[i := one], within + made);
    made := made + {r.value};
    assert list == within + made;
    adopted := Merge(expected, adopted);
  }

  method UpdatedSlot(current: Slot, expected: Spec, value: Slot, ghost n: Node, ghost nv: Node,
                     ghost within: set<ListObject>)
    returns (r: Result<Slot>, adopted: Spec, ghost copy: Node, ghost made: set<ListObject>)
    requires Live(n, within) && current == SlotOf(n) && Live(nv, within) && value == SlotOf(nv)
    ensures var spec := UpdateSlot(TreeOf(n), expected, TreeOf(nv));
            if spec.Err? then r == Err(spec.code)
            else r == Ok(SlotOf(copy)) && adopted == spec.value.1 && TreeOf(copy) == spec.value.0
    ensures fresh(made) && (r.Ok? ==> Live(copy, within + made))
  {
    adopted, copy, made := expected, LeafNode(VoidTree), {};
    match value
    case EmptysSlot =>
      if !current.ListSlot? {
        r := Err("E133");
        return;
      }
      var list: ListObject;
      list, copy, made :=
        ClearedCopy(current.list.items, if expected.ListOf? then expected.element else Unknown, n.items, within);
      LiveWithinMore(copy, made, within + made);
      r := Ok(ListSlot(list));
    case EmptySlot(_) =>
      var spec := Ok(expected);
      if expected.Unknown? {
        spec := TypeOf(current, n, within);
      }
      if spec.Err? {
        r := Err(spec.code);
        return;
      }
      adopted, copy := spec.value, LeafNode(EmptyTree(spec.value));
      r := Ok(EmptySlot(spec.value));
    case VoidSlot => r := Err("E201");
    case _ => r, adopted, copy, made := PresentCopy(expected, value, nv, within);
  }

  method PresentCopy(expected: Spec, value: Slot, ghost nv: Node, ghost within: set<ListObject>)
    returns (r: Result<Slot>, adopted: Spec, ghost copy: Node, ghost made: set<ListObject>)
    requires Live(nv, within) && value == SlotOf(nv) && (value.ScalarSlot? || value.ListSlot?)
    ensures forall current :: var spec := UpdateSlot(current, expected, TreeOf(nv));
            if spec.Err? then r == Err(spec.code)
            else r == Ok(SlotOf(copy)) && adopted == spec.value.1 && TreeOf(copy) == spec.value.0
    ensures fresh(made) && (r.Ok? ==> Live(copy, within + made))
  {
    adopted, copy, made := expected, LeafNode(VoidTree), {};
    var actual := TypeOf(value, nv, within);
    if actual.Err? {
      r := Err(actual.code);
      return;
    }
    if !Compatible(expected, actual.value) {
      r := Err("E201");
      return;
    }
    adopted := Merge(expected, actual.value);
    r, copy, made := NormalizedCopy(value, adopted, nv, within);
    if r.Ok? {
      LiveWithinMore(copy, made, within + made);
    }
  }

  // ---- Changing lists in place ----

  /** Overwrites the items of a list object; nothing it reaches is touched. */
  method Overwrite(list: ListObject, items: seq<Slot>, ghost n: Node, ghost ns: seq<Node>,
                   ghost within: set<ListObject>)
    requires n.ListNode? && n.list == list && Live(n, within) && IsTree(Lists(n))
    requires items == SlotsOf(ns) && ListsOf(ns) <= ListsOf(n.items)
    requires forall m | m in ns :: m in n.items || (m.LeafNode? && IsLeaf(m.leaf))
    modifies list
    ensures Live(ListNode(list, ns), within) && IsTree(Lists(ListNode(list, ns)))
    ensures Lists(ListNode(list, ns)) <= Lists(n)
  {
    ListIsNotBelow(n, within);
    forall i | 0 <= i < |ns|
      ensures Live(ns[i], within - {list})
    {
      if ns[i] in n.items {
        var k :| 0 <= k < |n.items| && n.items[k] == ns[i];
      }
    }
    assert LiveAll(ns, within - {list});
    list.items := items;
    LiveAllWithinMore(ns, within - {list}, within);
    assert Lists(ListNode(list, ns)) == multiset{list} + ListsOf(ns);
    SmallerIsTree(Lists(ListNode(list, ns)), Lists(n));
  }

  /** Deletes `count` slots of a list. */
  method RemoveRange(list: ListObject, position: Position, count: nat, ghost n: Node, ghost within: set<ListObject>)
    returns (failure: Option<string>, ghost ns: seq<Node>)
    requires n.ListNode? && n.list == list && Live(n, within) && IsTree(Lists(n))
    modifies list
    ensures var spec := RemoveSlots(TreesOf(n.items), position, count);
            if spec.Err? then failure == Some(spec.code) && ns == n.items && list.items == old(list.items)
            else failure == None && TreesOf(ns) == spec.value
    ensures Live(ListNode(list, ns), within) && IsTree(Lists(ListNode(list, ns)))
    ensures Lists(ListNode(list, ns)) <= Lists(n)
  {
    hide ListsOf;
    hide Lists;
    hide IsTree;
    ns := n.items;
    if count > |list.items| {
      return Some("E603"), ns;
    }
    var i := PositionIn(position, |list.items| - count);
    if i.Err? {
      return Some(i.code), ns;
    }
    ns := n.items[..i.value] + [] + n.items[i.value + count..];
    SplicedNodes(n.items, i.value, i.value + count, []);
    EmptyNodesReachNothing(0, Unknown);
    assert [] == EmptyNodes(0, Unknown);
    Overwrite(list, list.items[..i.value] + [] + list.items[i.value + count..], n, ns, within);
    failure := None;
  }

  /** Replacing a stretch of elements by others that reach no list. */
  lemma SplicedNodes(ns: seq<Node>, i: nat, j: nat, middle: seq<Node>)
    requires i <= j <= |ns|
    ensures var spliced := ns[..i] + middle + ns[j..];
            && SlotsOf(spliced) == SlotsOf(ns)[..i] + SlotsOf(middle) + SlotsOf(ns)[j..]
            && TreesOf(spliced) == TreesOf(ns)[..i] + TreesOf(middle) + TreesOf(ns)[j..]
            && (forall m | m in spliced :: m in ns || m in middle)
            && (ListsOf(middle) == multiset{} ==> ListsOf(spliced) <= ListsOf(ns))
  {
    SplicedLists(ns, i, j, middle);
    SplicedTrees(ns, i, j, middle);
  }

  lemma SplicedLists(ns: seq<Node>, i: nat, j: nat, middle: seq<Node>)
    requires i <= j <= |ns|
    ensures ListsOf(middle) == multiset{} ==> ListsOf(ns[..i] + middle + ns[j..]) <= ListsOf(ns)
  {
    assert ns == ns[..i] + (ns[i..j] + ns[j..]);
    ListsOfConcat(ns[..i], ns[i..j] + ns[j..]);
    ListsOfConcat(ns[i..j], ns[j..]);
    ListsOfConcat(ns[..i] + middle, ns[j..]);
    ListsOfConcat(ns[..i], middle);
  }

  lemma SplicedTrees(ns: seq<Node>, i: nat, j: nat, middle: seq<Node>)
    requires i <= j <= |ns|
    ensures TreesOf(ns[..i] + middle + ns[j..]) == TreesOf(ns)[..i] + TreesOf(middle) + TreesOf(ns)[j..]
  {
    hide TreeOf;
    var spliced := ns[..i] + middle + ns[j..];
    var expected := TreesOf(ns)[..i] + TreesOf(middle) + TreesOf(ns)[j..];
    forall k | 0 <= k < |spliced|
      ensures TreesOf(spliced)[k] == expected[k]
    {
      assert TreesOf(spliced)[k] == TreeOf(spliced[k]);
    }
  }

  ghost function EmptyNodes(count: nat, spec: Spec): seq<Node> {
    seq(count, _ => LeafNode(EmptyTree(spec)))
  }

  lemma {:induction false} EmptyNodesReachNothing(count: nat, spec: Spec)
    ensures ListsOf(EmptyNodes(count, spec)) == multiset{}
    ensures TreesOf(EmptyNodes(count, spec)) == Empties(count, spec)
    ensures SlotsOf(EmptyNodes(count, spec)) == seq(count, _ => EmptySlot(spec))
  {
    if count > 0 {
      assert EmptyNodes(count, spec)[1..] == EmptyNodes(count - 1, spec);
      EmptyNodesReachNothing(count - 1, spec);
    }
  }

  /** Inserts `count` EMPTY slots of the element type. */
  method InsertRange(list: ListObject, element: Spec, position: Position, count: nat, ghost n: Node,
                     ghost within: set<ListObject>)
    returns (failure: Option<string>, ghost ns: seq<Node>)
    requires n.ListNode? && n.list == list && Live(n, within) && IsTree(Lists(n))
    modifies list
    ensures var spec := InsertEmpty(TreesOf(n.items), element, position, count);
            if spec.Err? then failure == Some(spec.code) && ns == n.items && list.items == old(list.items)
            else failure == None && TreesOf(ns) == spec.value
    ensures Live(ListNode(list, ns), within) && IsTree(Lists(ListNode(list, ns)))
    ensures Lists(ListNode(list, ns)) <= Lists(n)
  {
    hide ListsOf;
    hide Lists;
    hide IsTree;
    ns := n.items;
    var known := Ok(element);
    if element.Unknown? {
      known := ElementTypeOf(list.items, n.items, within);
    }
    if known.Err? {
      return Some(known.code), ns;
    }
    if known.value.Unknown? {
      return Some("E134"), ns;
    }
    var i := PositionIn(position, |list.items|);
    if i.Err? {
      return Some(i.code), ns;
    }
    ghost var added := EmptyNodes(count, known.value);
    EmptyNodesReachNothing(count, known.value);
    ns := n.items[..i.value] + added + n.items[i.value..];
    SplicedNodes(n.items, i.value, i.value, added);
    Overwrite(list, list.items[..i.value] + seq(count, _ => EmptySlot(known.value)) + list.items[i.value..], n, ns,
              within);
    failure := None;
  }

  // ---- Columns ----

  ghost predicate RowsHave(rows: seq<Node>, column: nat) {
    forall r | 0 <= r < |rows| :: rows[r].ListNode? && column < |rows[r].items|
  }

  ghost function CellsOf(rows: seq<Node>, column: nat): seq<Node>
    requires RowsHave(rows, column)
  {
    seq(|rows|, r requires 0 <= r < |rows| => rows[r].items[column])
  }

  ghost function WithColumn(rows: seq<Node>, column: nat, cells: seq<Node>): seq<Node>
    requires RowsHave(rows, column) && |cells| == |rows|
  {
    seq(|rows|, r requires 0 <= r < |rows| => ListNode(rows[r].list, rows[r].items[column := cells[r]]))
  }

  lemma FirstAndRest(ns: seq<Node>)
    requires ns != []
    ensures ListsOf(ns) == Lists(ns[0]) + ListsOf(ns[1..])
  {
  }

  /** Two sums of multisets agree when their parts do. */
  lemma AddPairwise<T>(a: multiset<T>, b: multiset<T>, c: multiset<T>, d: multiset<T>,
                       a0: multiset<T>, b0: multiset<T>, c0: multiset<T>, d0: multiset<T>,
                       a1: multiset<T>, b1: multiset<T>, c1: multiset<T>, d1: multiset<T>)
    requires a == a0 + a1 && b == b0 + b1 && c == c0 + c1 && d == d0 + d1
    requires a0 + b0 == c0 + d0 && a1 + b1 == c1 + d1
    ensures a + b == c + d
  {
    assert a + b == (a0 + b0) + (a1 + b1);
    assert c + d == (c0 + d0) + (c1 + d1);
  }

  lemma RowLists(row: Node, column: nat, cell: Node)
    requires row.ListNode? && column < |row.items|
    ensures Lists(ListNode(row.list, row.items[column := cell])) + Lists(row.items[column]) == Lists(row) + Lists(cell)
  {
    ListsOfUpdate(row.items, column, cell);
    var changed := row.items[column := cell];
    assert Lists(ListNode(row.list, changed)) == multiset{row.list} + ListsOf(changed);
    assert Lists(row) == multiset{row.list} + ListsOf(row.items);
    hide ListsOf;
    hide Lists;
    var own, nothing := multiset{row.list}, multiset{};
    AddPairwise(Lists(ListNode(row.list, changed)), Lists(row.items[column]), Lists(row), Lists(cell),
                own, nothing, own, nothing,
                ListsOf(changed), Lists(row.items[column]), ListsOf(row.items), Lists(cell));
  }

  /** Exchanging a column exchanges what its cells reach, and nothing else. */
  lemma {:induction false} ColumnLists(rows: seq<Node>, column: nat, cells: seq<Node>)
    requires RowsHave(rows, column) && |cells| == |rows|
    ensures ListsOf(WithColumn(rows, column, cells)) + ListsOf(CellsOf(rows, column)) == ListsOf(rows) + ListsOf(cells)
    decreases |rows|
  {
    hide Lists;
    if rows != [] {
      ColumnLists(rows[1..], column, cells[1..]);
      var after := WithColumn(rows, column, cells);
      var displaced := CellsOf(rows, column);
      assert after[1..] == WithColumn(rows[1..], column, cells[1..]);
      assert displaced[1..] == CellsOf(rows[1..], column);
      assert after[0] == ListNode(rows[0].list, rows[0].items[column := cells[0]])
          && displaced[0] == rows[0].items[column];
      ColumnListsStep(rows, column, cells, after, displaced);
    }
  }

  lemma ColumnListsStep(rows: seq<Node>, column: nat, cells: seq<Node>, after: seq<Node>, displaced: seq<Node>)
    requires rows != [] && |cells| == |rows| && after != [] && displaced != []
    requires rows[0].ListNode? && column < |rows[0].items|
    requires after[0] == ListNode(rows[0].list, rows[0].items[column := cells[0]])
             && displaced[0] == rows[0].items[column]
    requires ListsOf(after[1..]) + ListsOf(displaced[1..]) == ListsOf(rows[1..]) + ListsOf(cells[1..])
    ensures ListsOf(after) + ListsOf(displaced) == ListsOf(rows) + ListsOf(cells)
  {
    hide ListsOf;
    hide Lists;
    FirstAndRest(after);
    FirstAndRest(displaced);
    FirstAndRest(rows);
    FirstAndRest(cells);
    RowLists(rows[0], column, cells[0]);
    AddPairwise(ListsOf(after), ListsOf(displaced), ListsOf(rows), ListsOf(cells),
                Lists(after[0]), Lists(displaced[0]), Lists(rows[0]), Lists(cells[0]),
                ListsOf(after[1..]), ListsOf(displaced[1..]), ListsOf(rows[1..]), ListsOf(cells[1..]));
  }

  ghost function ShiftedCells(rows: seq<Node>, column: nat, count: nat, cell: Spec): seq<Node>
    requires RowsHave(rows, column) && count <= |rows|
  {
    CellsOf(rows, column)[count..] + EmptyNodes(count, cell)
  }

  ghost function ShiftedRows(ns: seq<Node>, start: nat, column: nat, count: nat, cell: Spec): seq<Node>
    requires start + count <= |ns| && RowsHave(ns[start..], column)
  {
    ns[..start] + WithColumn(ns[start..], column, ShiftedCells(ns[start..], column, count, cell))
  }

  lemma ShiftedRowsLists(ns: seq<Node>, start: nat, column: nat, count: nat, cell: Spec)
    requires start + count <= |ns| && RowsHave(ns[start..], column)
    ensures ListsOf(ShiftedRows(ns, start, column, count, cell)) <= ListsOf(ns)
  {
    hide Lists;
    hide ListsOf;
    hide WithColumn;
    hide CellsOf;
    var rows := ns[start..];
    var cells := CellsOf(rows, column);
    var shifted := ShiftedCells(rows, column, count, cell);
    assert |cells| == |rows| by { CellsAt(rows, column); }
    ColumnLists(rows, column, shifted);
    EmptyNodesReachNothing(count, cell);
    ListsOfConcat(cells[count..], EmptyNodes(count, cell));
    ListsOfConcat(cells[..count], cells[count..]);
    assert cells[..count] + cells[count..] == cells;
    ListsOfConcat(ns[..start], rows);
    ListsOfConcat(ns[..start], WithColumn(rows, column, shifted));
    assert ns[..start] + rows == ns;
    FewerCells(ListsOf(ns[..start]), ListsOf(rows), ListsOf(WithColumn(rows, column, shifted)), ListsOf(cells),
               ListsOf(cells[..count]), ListsOf(shifted));
  }

  lemma CellsAt(rows: seq<Node>, column: nat)
    requires RowsHave(rows, column)
    ensures |CellsOf(rows, column)| == |rows|
  {
  }

  lemma FewerCells<T>(above: multiset<T>, rows: multiset<T>, after: multiset<T>, cells: multiset<T>,
                      dropped: multiset<T>, shifted: multiset<T>)
    requires after + cells == rows + shifted && cells == dropped + shifted
    ensures above + after <= above + rows
  {
    forall t | t in above + after
      ensures (above + after)[t] <= (above + rows)[t]
    {
      assert (after + cells)[t] == (rows + shifted)[t];
    }
  }

  lemma ShiftedRowsTrees(ns: seq<Node>, start: nat, column: nat, count: nat, cell: Spec)
    requires start + count <= |ns| && RowsHave(ns[start..], column)
    ensures HasColumn(TreesOf(ns), start, column)
    ensures TreesOf(ShiftedRows(ns, start, column, count, cell)) == ShiftColumn(TreesOf(ns), start, column, count, cell)
  {
    var after := ShiftedRows(ns, start, column, count, cell);
    ColumnInTrees(ns, start, column);
    forall r | 0 <= r < |ns|
      ensures TreesOf(after)[r] == ShiftColumn(TreesOf(ns), start, column, count, cell)[r]
    {
      if r < start {
        assert after[r] == ns[r];
      } else {
        ShiftedRowTree(ns, start, column, count, cell, r);
      }
    }
  }

  lemma ColumnInTrees(ns: seq<Node>, start: nat, column: nat)
    requires start <= |ns| && RowsHave(ns[start..], column)
    ensures HasColumn(TreesOf(ns), start, column)
    ensures forall r | start <= r < |ns| :: ns[r].ListNode? && column < |ns[r].items|
                                            && TreesOf(ns)[r].items[column] == TreeOf(ns[r].items[column])
  {
    forall r | start <= r < |ns|
      ensures ns[r].ListNode? && column < |ns[r].items| && TreesOf(ns)[r] == ListTree(TreesOf(ns[r].items))
    {
      assert ns[r] == ns[start..][r - start];
    }
  }

  lemma ShiftedRowTree(ns: seq<Node>, start: nat, column: nat, count: nat, cell: Spec, r: nat)
    requires start + count <= |ns| && RowsHave(ns[start..], column) && start <= r < |ns|
    ensures HasColumn(TreesOf(ns), start, column)
    ensures TreeOf(ShiftedRows(ns, start, column, count, cell)[r])
            == ShiftColumn(TreesOf(ns), start, column, count, cell)[r]
  {
    hide TreesOf;
    hide TreeOf;
    hide EmptyNodes;
    ColumnInTrees(ns, start, column);
    var row := ns[r];
    assert ns[start..][r - start] == row;
    RowTree(row, column, LeafNode(VoidTree));
    NodeAt(ns[start..], column, count, cell, r - start);
    ShiftedRowIs(ns, start, column, count, cell, r);
    hide ShiftedCells;
    hide ShiftedRows;
    hide CellsOf;
    hide WithColumn;
    var moved := ShiftedCells(ns[start..], column, count, cell)[r - start];
    MovedCell(ns, start, column, count, cell, r);
    RowTree(row, column, moved);
    TreesCount(ns);
    ShiftColumnAt(TreesOf(ns), start, column, count, cell, r);
    hide ShiftColumn;
    hide Cell;
    TreeAt(ns, r);
  }

  lemma ShiftedRowIs(ns: seq<Node>, start: nat, column: nat, count: nat, cell: Spec, r: nat)
    requires start + count <= |ns| && RowsHave(ns[start..], column) && start <= r < |ns|
    ensures ns[r].ListNode? && column < |ns[r].items|
    ensures |ShiftedRows(ns, start, column, count, cell)| == |ns|
    ensures |ShiftedCells(ns[start..], column, count, cell)| == |ns| - start
    ensures ShiftedRows(ns, start, column, count, cell)[r]
         == ListNode(ns[r].list, ns[r].items[column := ShiftedCells(ns[start..], column, count, cell)[r - start]])
  {
    assert ns[start..][r - start] == ns[r];
  }

  lemma TreeAt(ns: seq<Node>, r: nat)
    requires r < |ns|
    ensures |TreesOf(ns)| == |ns| && TreesOf(ns)[r] == TreeOf(ns[r])
  {
  }

  lemma RowTree(row: Node, column: nat, moved: Node)
    requires row.ListNode? && column < |row.items|
    ensures |TreesOf(row.items)| == |row.items| && TreeOf(row) == ListTree(TreesOf(row.items))
    ensures TreeOf(ListNode(row.list, row.items[column := moved]))
         == ListTree(TreesOf(row.items)[column := TreeOf(moved)])
  {
    UpdatedNodes(row.items, column, moved);
  }

  lemma MovedCell(ns: seq<Node>, start: nat, column: nat, count: nat, cell: Spec, r: nat)
    requires start + count <= |ns| && RowsHave(ns[start..], column) && start <= r < |ns|
    ensures HasColumn(TreesOf(ns), start, column)
    ensures TreeOf(ShiftedCells(ns[start..], column, count, cell)[r - start])
         == if r + count < |ns| then Cell(TreesOf(ns), start, column, r + count) else EmptyTree(cell)
  {
    hide TreeOf, TreesOf, ShiftedCells, HasColumn, Cell;
    MovedNode(ns, start, column, count, cell, r);
    ColumnStays(ns, start, column);
    if r + count < |ns| {
      CellInTrees(ns, start, column, r + count);
    } else {
      LeafTree(EmptyTree(cell));
    }
  }

  lemma MovedNode(ns: seq<Node>, start: nat, column: nat, count: nat, cell: Spec, r: nat)
    requires start + count <= |ns| && RowsHave(ns[start..], column) && start <= r < |ns|
    ensures r + count < |ns| ==> ns[r + count].ListNode? && column < |ns[r + count].items|
    ensures |ShiftedCells(ns[start..], column, count, cell)| == |ns| - start
    ensures ShiftedCells(ns[start..], column, count, cell)[r - start]
         == if r + count < |ns| then ns[r + count].items[column] else LeafNode(EmptyTree(cell))
  {
    hide ShiftedCells;
    var rows := ns[start..];
    NodeAt(rows, column, count, cell, r - start);
    if r + count < |ns| {
      assert rows[r - start + count] == ns[r + count];
    }
  }

  lemma ColumnStays(ns: seq<Node>, start: nat, column: nat)
    requires start <= |ns| && RowsHave(ns[start..], column)
    ensures HasColumn(TreesOf(ns), start, column)
  {
    ColumnInTrees(ns, start, column);
  }

  lemma CellInTrees(ns: seq<Node>, start: nat, column: nat, q: nat)
    requires start <= q < |ns| && RowsHave(ns[start..], column)
    ensures HasColumn(TreesOf(ns), start, column) && ns[q].ListNode? && column < |ns[q].items|
    ensures Cell(TreesOf(ns), start, column, q) == TreeOf(ns[q].items[column])
  {
    ColumnInTrees(ns, start, column);
  }

  lemma LeafTree(t: Tree)
    ensures TreeOf(LeafNode(t)) == t
  {
  }

  lemma NodeAt(rows: seq<Node>, column: nat, count: nat, cell: Spec, k: nat)
    requires RowsHave(rows, column) && count <= |rows| && k < |rows|
    ensures |ShiftedCells(rows, column, count, cell)| == |rows|
    ensures ShiftedCells(rows, column, count, cell)[k]
         == if k + count < |rows| then rows[k + count].items[column] else LeafNode(EmptyTree(cell))
  {
  }

  ghost function ListsOfRows(rows: seq<Node>): set<ListObject>
    requires forall r | 0 <= r < |rows| :: rows[r].ListNode?
  {
    set r | 0 <= r < |rows| :: rows[r].list
  }

  lemma RowReaches(row: Node, within: set<ListObject>)
    requires row.ListNode? && Live(row, within) && IsTree(Lists(row))
    ensures row.list in Reached(row) && row.list in within
    ensures ReachedBy(row.items) <= Reached(row) - {row.list}
    ensures LiveAll(row.items, within)
  {
    ListIsNotBelow(row, within);
    assert row.list in Lists(row);
    assert forall l | l in ListsOf(row.items) :: l in Lists(row);
  }

  /** What is known about one element of a list: it is live, a tree, and does not reach the list. */
  lemma ElementApart(n: Node, r: nat, within: set<ListObject>)
    requires n.ListNode? && Live(n, within) && IsTree(Lists(n)) && r < |n.items|
    ensures Live(n.items[r], within) && IsTree(Lists(n.items[r])) && n.list !in Reached(n.items[r])
    ensures forall s | 0 <= s < |n.items| && s != r :: Reached(n.items[r]) !! Reached(n.items[s])
  {
    ListIsNotBelow(n, within);
    PartsAreReached(n.items);
    SmallerIsTree(Lists(n.items[r]), ListsOf(n.items));
    forall s | 0 <= s < |n.items| && s != r
      ensures Reached(n.items[r]) !! Reached(n.items[s])
    {
      PartsAreDisjoint(n.items, r, s);
    }
  }

  /** In a tree of objects all rows are different objects, and no cell and no other row reaches one. */
  lemma RowsAreApart(n: Node, start: nat, within: set<ListObject>, deep: set<ListObject>)
    requires n.ListNode? && Live(n, within) && IsTree(Lists(n)) && start <= |n.items|
    requires forall r | start <= r < |n.items| :: n.items[r].ListNode?
    requires deep == within - (ListsOfRows(n.items[start..]) + {n.list})
    ensures forall r | start <= r < |n.items| :: n.items[r].list in within && n.items[r].list != n.list
    ensures forall r, s | start <= r < s < |n.items| :: n.items[r].list != n.items[s].list
    ensures forall r | start <= r < |n.items| :: LiveAll(n.items[r].items, deep)
    ensures forall r | 0 <= r < start :: Live(n.items[r], deep)
  {
    hide Lists;
    hide Live;
    hide LiveAll;
    hide Reached;
    hide ReachedBy;
    hide IsTree;
    var ns := n.items;
    var avoided := ListsOfRows(ns[start..]) + {n.list};
    forall r | 0 <= r < |ns|
      ensures Live(ns[r], within) && IsTree(Lists(ns[r])) && n.list !in Reached(ns[r])
      ensures forall s | 0 <= s < |ns| && s != r :: Reached(ns[r]) !! Reached(ns[s])
    {
      ElementApart(n, r, within);
    }
    forall r | start <= r < |ns|
      ensures ns[r].list in Reached(ns[r]) && ns[r].list in within
      ensures ReachedBy(ns[r].items) <= Reached(ns[r]) - {ns[r].list} && LiveAll(ns[r].items, within)
    {
      RowReaches(ns[r], within);
    }
    assert forall l | l in ListsOfRows(ns[start..]) :: exists r :: start <= r < |ns| && l == ns[r].list by {
      forall l | l in ListsOfRows(ns[start..])
        ensures exists r :: start <= r < |ns| && l == ns[r].list
      {
        var k :| 0 <= k < |ns[start..]| && ns[start..][k].list == l;
        assert ns[start + k].list == l;
      }
    }
    forall r | start <= r < |ns|
      ensures LiveAll(ns[r].items, deep)
    {
      LiveAllAvoiding(ns[r].items, within, avoided);
    }
    forall r | 0 <= r < start
      ensures Live(ns[r], deep)
    {
      LiveAvoiding(ns[r], within, avoided);
    }
  }

  /** Overwrites one column, row object by row object. */
  method ShiftColumnUp(list: ListObject, start: nat, column: nat, count: nat, cell: Spec, ghost n: Node,
                       ghost within: set<ListObject>)
    returns (ghost ns: seq<Node>)
    requires n.ListNode? && n.list == list && Live(n, within) && IsTree(Lists(n))
    requires start + count <= |n.items| && RowsHave(n.items[start..], column)
    modifies within
    ensures ns == ShiftedRows(n.items, start, column, count, cell)
    ensures Live(ListNode(list, ns), within) && IsTree(Lists(ListNode(list, ns)))
    ensures Lists(ListNode(list, ns)) <= Lists(n)
  {
    hide IsTree;
    hide Lists;
    hide ListsOf;
    ghost var rows := n.items[start..];
    ghost var rowLists := ListsOfRows(rows);
    ghost var deep := within - (rowLists + {list});
    RowsAreApart(n, start, within, deep);
    var affected := list.items[start..];
    var values := ReadColumn(affected, column, rows, within);
    var shifted := values[count..] + seq(count, _ => EmptySlot(cell));
    ghost var moved := ShiftedCells(rows, column, count, cell);
    MovedSlots(rows, column, count, cell);
    WriteColumn(affected, column, shifted, rows, moved, rowLists);
    ns := ShiftedRows(n.items, start, column, count, cell);
    ShiftedAreLive(n, start, column, count, cell, within, deep);
    ShiftedRowsLists(n.items, start, column, count, cell);
    ShiftedIsTree(n, ns);
  }

  method ReadColumn(affected: seq<Slot>, column: nat, ghost rows: seq<Node>, ghost within: set<ListObject>)
    returns (values: seq<Slot>)
    requires LiveAll(rows, within) && RowsHave(rows, column) && affected == SlotsOf(rows)
    ensures values == SlotsOf(CellsOf(rows, column))
  {
    ghost var cells := CellsOf(rows, column);
    values := [];
    for k := 0 to |affected|
      invariant values == SlotsOf(cells[..k])
    {
      assert affected[k] == ListSlot(rows[k].list) && Live(rows[k], within);
      values := values + [affected[k].list.items[column]];
    }
    assert cells[..|affected|] == cells;
  }

  lemma MovedSlots(rows: seq<Node>, column: nat, count: nat, cell: Spec)
    requires RowsHave(rows, column) && count <= |rows|
    ensures SlotsOf(ShiftedCells(rows, column, count, cell))
         == SlotsOf(CellsOf(rows, column))[count..] + seq(count, _ => EmptySlot(cell))
  {
    EmptyNodesReachNothing(count, cell);
  }

  /** Every row object gets its new cell; as they are all different, none is written twice. */
  method WriteColumn(affected: seq<Slot>, column: nat, shifted: seq<Slot>, ghost rows: seq<Node>,
                     ghost moved: seq<Node>, ghost rowLists: set<ListObject>)
    requires RowsHave(rows, column) && affected == SlotsOf(rows) && shifted == SlotsOf(moved) && |moved| == |rows|
    requires rowLists == ListsOfRows(rows)
    requires forall r, s | 0 <= r < s < |rows| :: rows[r].list != rows[s].list
    requires forall r | 0 <= r < |rows| :: rows[r].list.items == SlotsOf(rows[r].items)
    modifies rowLists
    ensures forall r | 0 <= r < |rows| :: rows[r].list.items == SlotsOf(rows[r].items[column := moved[r]])
  {
    for k := 0 to |affected|
      invariant forall r | 0 <= r < k :: rows[r].list.items == SlotsOf(rows[r].items[column := moved[r]])
      invariant forall r | k <= r < |rows| :: rows[r].list.items == SlotsOf(rows[r].items)
    {
      assert affected[k] == ListSlot(rows[k].list) && rows[k].list in rowLists;
      var row := affected[k].list;
      row.items := row.items[column := shifted[k]];
      assert SlotsOf(rows[k].items)[column := SlotOf(moved[k])] == SlotsOf(rows[k].items[column := moved[k]]);
    }
  }

  lemma ShiftedIsTree(n: Node, ns: seq<Node>)
    requires n.ListNode? && IsTree(Lists(n)) && ListsOf(ns) <= ListsOf(n.items)
    ensures Lists(ListNode(n.list, ns)) <= Lists(n) && IsTree(Lists(ListNode(n.list, ns)))
  {
    assert Lists(ListNode(n.list, ns)) == multiset{n.list} + ListsOf(ns);
    SmallerIsTree(Lists(ListNode(n.list, ns)), Lists(n));
  }

  lemma ShiftedAreLive(n: Node, start: nat, column: nat, count: nat, cell: Spec, within: set<ListObject>,
                       deep: set<ListObject>)
    requires n.ListNode? && n.list in within && deep <= within && n.list.items == SlotsOf(n.items)
    requires start + count <= |n.items| && RowsHave(n.items[start..], column)
    requires forall r | start <= r < |n.items| :: n.items[r].ListNode? && n.items[r].list in within
    requires var rows := n.items[start..];
             forall r | 0 <= r < |rows| ::
               rows[r].list.items == SlotsOf(rows[r].items[column := ShiftedCells(rows, column, count, cell)[r]])
    requires forall r | start <= r < |n.items| :: LiveAll(n.items[r].items, deep)
    requires forall r | 0 <= r < start :: Live(n.items[r], deep)
    ensures Live(ListNode(n.list, ShiftedRows(n.items, start, column, count, cell)), within)
  {
    var ns := ShiftedRows(n.items, start, column, count, cell);
    forall r | 0 <= r < |ns|
      ensures Live(ns[r], within) && SlotOf(ns[r]) == SlotOf(n.items[r])
    {
      if r < start {
        LiveWithinMore(n.items[r], deep, within);
      } else {
        ShiftedRowIsLive(n.items, start, column, count, cell, within, deep, r);
      }
    }
    assert SlotsOf(ns) == SlotsOf(n.items);
  }

  lemma ShiftedRowIsLive(ns: seq<Node>, start: nat, column: nat, count: nat, cell: Spec, within: set<ListObject>,
                         deep: set<ListObject>, r: nat)
    requires deep <= within && start + count <= |ns| && RowsHave(ns[start..], column) && start <= r < |ns|
    requires forall q | start <= q < |ns| :: ns[q].ListNode? && ns[q].list in within && LiveAll(ns[q].items, deep)
    requires var rows := ns[start..];
             forall q | 0 <= q < |rows| ::
               rows[q].list.items == SlotsOf(rows[q].items[column := ShiftedCells(rows, column, count, cell)[q]])
    ensures var after := ShiftedRows(ns, start, column, count, cell)[r];
            Live(after, within) && SlotOf(after) == SlotOf(ns[r])
  {
    hide ShiftedCells;
    var rows := ns[start..];
    var k := r - start;
    assert rows[k] == ns[r];
    NodeAt(rows, column, count, cell, k);
    var moved := ShiftedCells(rows, column, count, cell)[k];
    if k + count < |rows| {
      assert rows[k + count] == ns[r + count] && LiveAll(ns[r + count].items, deep);
    }
    assert Live(moved, deep);
    var items := rows[k].items[column := moved];
    assert LiveAll(ns[r].items, deep);
    assert LiveAll(items, deep);
    LiveAllWithinMore(items, deep, within);
    assert ShiftedRows(ns, start, column, count, cell)[r] == ListNode(rows[k].list, items);
  }

  // ---- Shape operations ----

  /** One element can change without disturbing the others. */
  lemma ElementOnItsOwn(n: Node, i: nat, within: set<ListObject>, own: set<ListObject>)
    requires n.ListNode? && Live(n, within) && IsTree(Lists(n)) && i < |n.items| && own == Reached(n.items[i])
    ensures Live(n.items[i], own) && IsTree(Lists(n.items[i]))
    ensures own <= within - {n.list}
    ensures forall k | 0 <= k < |n.items| && k != i :: Live(n.items[k], within - own)
  {
    ElementApart(n, i, within);
    LiveReaches(n.items[i], within);
    LiveAvoiding(n.items[i], within, within - own);
    assert within - (within - own) == own;
    forall k | 0 <= k < |n.items| && k != i
      ensures Live(n.items[k], within - own)
    {
      ElementApart(n, k, within);
      LiveAvoiding(n.items[k], within, own);
    }
  }

  /** And puts the changed element back in its place. */
  lemma ElementChanged(n: Node, i: nat, child: Node, within: set<ListObject>, own: set<ListObject>)
    requires n.ListNode? && IsTree(Lists(n)) && i < |n.items| && n.list in within && own <= within
    requires n.list.items == SlotsOf(n.items) && SlotOf(child) == SlotOf(n.items[i])
    requires Live(child, own) && Lists(child) <= Lists(n.items[i])
    requires forall k | 0 <= k < |n.items| && k != i :: Live(n.items[k], within - own)
    ensures var after := ListNode(n.list, n.items[i := child]);
            && Live(after, within) && IsTree(Lists(after)) && Lists(after) <= Lists(n)
            && TreeOf(after) == ListTree(TreesOf(n.items)[i := TreeOf(child)])
  {
    var ns := n.items[i := child];
    UpdatedNodes(n.items, i, child);
    assert SlotsOf(ns) == SlotsOf(n.items);
    forall k | 0 <= k < |ns|
      ensures Live(ns[k], within)
    {
      if k == i {
        LiveWithinMore(child, own, within);
      } else {
        LiveWithinMore(n.items[k], within - own, within);
      }
    }
    ListsOfUpdate(n.items, i, child);
    FewerLists(ListsOf(ns), Lists(n.items[i]), ListsOf(n.items), Lists(child));
    ShiftedIsTree(n, ns);
  }

  lemma FewerLists<T>(after: multiset<T>, lost: multiset<T>, before: multiset<T>, gained: multiset<T>)
    requires after + lost == before + gained && gained <= lost
    ensures after <= before
  {
    forall t | t in after
      ensures after[t] <= before[t]
    {
      assert (after + lost)[t] == (before + gained)[t];
    }
  }

  /** A failing operation leaves every list as it was. */
  twostate predicate Untouched(within: set<ListObject>)
    reads within
  {
    forall l | l in within :: l.items == old(l.items)
  }

  method ReshapeList(list: ListObject, element: Spec, shape: Shape, ghost n: Node, ghost within: set<ListObject>)
    returns (failure: Option<string>, ghost after: Node)
    requires n.ListNode? && n.list == list && Live(n, within) && IsTree(Lists(n))
    modifies within
    ensures var spec := Reshape(TreesOf(n.items), element, shape);
            if spec.Err? then failure == Some(spec.code) && after == n && Untouched(within)
            else failure == None && TreeOf(after) == ListTree(spec.value)
    ensures SlotOf(after) == ListSlot(list) && Live(after, within) && IsTree(Lists(after)) && Lists(after) <= Lists(n)
  {
    after := n;
    if !IsCount(shape.count) {
      return Some("E201"), after;
    }
    var count := shape.count.i;
    match shape
    case Insert(position, _) =>
      ghost var ns: seq<Node>;
      failure, ns := InsertRange(list, element, position, count, n, within);
      after := ListNode(list, ns);
    case Remove(position, _) =>
      ghost var ns: seq<Node>;
      failure, ns := RemoveRange(list, position, count, n, within);
      after := ListNode(list, ns);
    case RemoveHorizontal(row, position, _) =>
      failure, after := RemoveInRow(list, row, position, count, n, within);
    case RemoveVertical(column, position, _) =>
      failure, after := RemoveInColumn(list, element, column, position, count, n, within);
  }

  method RemoveInRow(list: ListObject, row: Index, position: Position, count: nat, ghost n: Node,
                     ghost within: set<ListObject>)
    returns (failure: Option<string>, ghost after: Node)
    requires n.ListNode? && n.list == list && Live(n, within) && IsTree(Lists(n)) && count >= 1
    modifies within
    ensures forall element :: var spec :=
            Reshape(TreesOf(n.items), element, RemoveHorizontal(row, position, At(count)));
            if spec.Err? then failure == Some(spec.code) && after == n && Untouched(within)
            else failure == None && TreeOf(after) == ListTree(spec.value)
    ensures SlotOf(after) == ListSlot(list) && Live(after, within) && IsTree(Lists(after)) && Lists(after) <= Lists(n)
  {
    hide IsTree;
    hide Lists;
    hide ListsOf;
    hide RemoveSlots;
    after := n;
    if !IsPosition(row) {
      return Some("E201"), after;
    }
    if row.i >= |list.items| {
      return Some("E603"), after;
    }
    var slot := list.items[row.i];
    if !slot.ListSlot? {
      return Some("E201"), after;
    }
    ghost var child := n.items[row.i];
    ghost var own := Reached(child);
    ElementOnItsOwn(n, row.i, within, own);
    TreeAt(n.items, row.i);
    ghost var ns: seq<Node>;
    failure, ns := RemoveRange(slot.list, position, count, child, own);
    ghost var shorter := ListNode(slot.list, ns);
    ElementChanged(n, row.i, shorter, within, own);
    after := ListNode(list, n.items[row.i := shorter]);
  }

  method RemoveInColumn(list: ListObject, element: Spec, column: Index, position: Position, count: nat, ghost n: Node,
                        ghost within: set<ListObject>)
    returns (failure: Option<string>, ghost after: Node)
    requires n.ListNode? && n.list == list && Live(n, within) && IsTree(Lists(n))
    modifies within
    ensures var spec := RemoveColumnCells(TreesOf(n.items), element, column, position, count);
            if spec.Err? then failure == Some(spec.code) && after == n && Untouched(within)
            else failure == None && TreeOf(after) == ListTree(spec.value)
    ensures SlotOf(after) == ListSlot(list) && Live(after, within) && IsTree(Lists(after)) && Lists(after) <= Lists(n)
  {
    hide IsTree;
    hide Lists;
    hide ListsOf;
    hide TreeOf;
    hide ShiftColumn;
    TreesCount(n.items);
    TreeOfList(n);
    after := n;
    if !IsPosition(column) {
      return Some("E201"), after;
    }
    if count > |list.items| {
      return Some("E603"), after;
    }
    var start := PositionIn(position, |list.items| - count);
    if start.Err? {
      return Some(start.code), after;
    }
    var affected := list.items[start.value..];
    var complete := CheckColumn(affected, column.i, n.items, start.value, within);
    if !complete {
      return Some("E605"), after;
    }
    var cell := ColumnType(affected, element, column.i, n.items, start.value, within);
    if cell.Err? {
      return Some(cell.code), after;
    }
    if cell.value.Unknown? {
      return Some("E134"), after;
    }
    ShiftedRowsTrees(n.items, start.value, column.i, count, cell.value);
    ghost var ns := ShiftColumnUp(list, start.value, column.i, count, cell.value, n, within);
    after := ListNode(list, ns);
    TreeOfList(after);
    failure := None;
  }

  /** The type of the new cells: the known one, or what the cells of the column tell. */
  method ColumnType(affected: seq<Slot>, element: Spec, column: nat, ghost ns: seq<Node>, ghost start: nat,
                    ghost within: set<ListObject>)
    returns (cell: Result<Spec>)
    requires LiveAll(ns, within) && start <= |ns| && affected == SlotsOf(ns)[start..] && RowsHave(ns[start..], column)
    ensures HasColumn(TreesOf(ns), start, column)
    ensures cell == if element.ListOf? && !element.element.Unknown? then Ok(element.element)
                    else FoldSpecs(Unknown, seq(|ns| - start, k requires 0 <= k < |ns| - start =>
                                                  Cell(TreesOf(ns), start, column, start + k)))
  {
    ghost var rows := ns[start..];
    assert SlotsOf(rows) == affected && LiveAll(rows, within);
    ColumnInTrees(ns, start, column);
    ColumnTrees(ns, start, column);
    if element.ListOf? && !element.element.Unknown? {
      return Ok(element.element);
    }
    var values := ReadColumn(affected, column, rows, within);
    CellsAreLive(rows, column, within);
    cell := MergedType(values, CellsOf(rows, column), within);
  }

  lemma TreesCount(ns: seq<Node>)
    ensures |TreesOf(ns)| == |ns| == |SlotsOf(ns)|
  {
  }

  lemma TreeOfList(n: Node)
    requires n.ListNode?
    ensures TreeOf(n) == ListTree(TreesOf(n.items))
  {
  }

  method CheckColumn(affected: seq<Slot>, column: nat, ghost ns: seq<Node>, ghost start: nat,
                     ghost within: set<ListObject>)
    returns (complete: bool)
    requires LiveAll(ns, within) && start <= |ns| && affected == SlotsOf(ns)[start..]
    ensures complete == HasColumn(TreesOf(ns), start, column)
    ensures complete ==> RowsHave(ns[start..], column)
  {
    for k := 0 to |affected|
      invariant forall r | start <= r < start + k ::
                  ns[r].ListNode? && TreesOf(ns)[r].ListTree? && column < |ns[r].items| == |TreesOf(ns)[r].items|
    {
      assert affected[k] == SlotOf(ns[start + k]) && Live(ns[start + k], within);
      TreeAt(ns, start + k);
      if !affected[k].ListSlot? || column >= |affected[k].list.items| {
        assert !(TreesOf(ns)[start + k].ListTree? && column < |TreesOf(ns)[start + k].items|);
        return false;
      }
    }
    complete := true;
  }

  lemma CellsAreLive(rows: seq<Node>, column: nat, within: set<ListObject>)
    requires RowsHave(rows, column) && LiveAll(rows, within)
    ensures LiveAll(CellsOf(rows, column), within)
  {
    forall r | 0 <= r < |rows|
      ensures Live(rows[r].items[column], within)
    {
      assert Live(rows[r], within);
    }
  }

  lemma ColumnTrees(ns: seq<Node>, start: nat, column: nat)
    requires start <= |ns| && RowsHave(ns[start..], column)
    ensures HasColumn(TreesOf(ns), start, column)
    ensures TreesOf(CellsOf(ns[start..], column))
         == seq(|ns| - start, k requires 0 <= k < |ns| - start => Cell(TreesOf(ns), start, column, start + k))
  {
    hide TreeOf;
    hide TreesOf;
    TreesCount(ns);
    TreesCount(CellsOf(ns[start..], column));
    ColumnInTrees(ns, start, column);
    var cells := CellsOf(ns[start..], column);
    forall k | 0 <= k < |ns| - start
      ensures TreesOf(cells)[k] == Cell(TreesOf(ns), start, column, start + k)
    {
      assert ns[start..][k] == ns[start + k];
      TreeAt(cells, k);
    }
  }

  /** Follows the indexes to the list that the operation changes, and changes it there. */
  method ReshapeBehind(list: ListObject, element: Spec, path: seq<Index>, shape: Shape, ghost n: Node,
                       ghost within: set<ListObject>)
    returns (failure: Option<string>, ghost after: Node)
    requires n.ListNode? && n.list == list && Live(n, within) && IsTree(Lists(n))
    modifies within
    ensures var spec := ReshapeAt(TreesOf(n.items), element, path, shape);
            if spec.Err? then failure == Some(spec.code) && after == n && Untouched(within)
            else failure == None && TreeOf(after) == ListTree(spec.value)
    ensures SlotOf(after) == ListSlot(list) && Live(after, within) && IsTree(Lists(after)) && Lists(after) <= Lists(n)
    decreases path
  {
    hide IsTree;
    hide Lists;
    hide ListsOf;
    hide Reshape;
    hide ElementSpec;
    after := n;
    if path == [] {
      failure, after := ReshapeList(list, element, shape, n, within);
      return;
    }
    if !IsPosition(path[0]) {
      return Some("E201"), after;
    }
    if path[0].i >= |list.items| {
      return Some("E603"), after;
    }
    var i := path[0].i;
    var slot := list.items[i];
    TreeAt(n.items, i);
    assert Live(n.items[i], within);
    if slot.EmptySlot? {
      return Some("E131"), after;
    }
    if !slot.ListSlot? {
      return Some("E201"), after;
    }
    ghost var child := n.items[i];
    var inner := Ok(Unknown);
    if element.ListOf? {
      inner := Ok(element.element);
    } else {
      inner := ElementTypeOf(slot.list.items, child.items, within);
    }
    if inner.Err? {
      return Some(inner.code), after;
    }
    ghost var own := Reached(child);
    ElementOnItsOwn(n, i, within, own);
    ghost var changed: Node;
    failure, changed := ReshapeBehind(slot.list, inner.value, path[1..], shape, child, own);
    ElementChanged(n, i, changed, within, own);
    after := ListNode(list, n.items[i := changed]);
  }
}
