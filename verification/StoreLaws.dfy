/** What the store operations promise: an indexed assignment touches one slot, a removal
    undoes an insertion, and a vertical removal moves exactly one column. */
module StoreLaws {
  import opened Ast
  import opened TypeSpecs
  import opened Trees
  import opened StoreSpec

  // ---- Indexed assignment touches one slot ----

  /** `u` differs from `t` in the slot behind the path; elsewhere at most in the types that
      EMPTY slots retain. All lengths on the way are kept. */
  predicate DiffersOnlyAt(t: Tree, u: Tree, path: seq<Index>)
    decreases path
  {
    path != [] ==>
      && t.ListTree? && u.ListTree? && |t.items| == |u.items|
      && path[0].At? && 0 <= path[0].i < |t.items|
      && DiffersOnlyAt(t.items[path[0].i], u.items[path[0].i], path[1..])
      && forall k | 0 <= k < |t.items| && k != path[0].i :: SameUpToEmpty(t.items[k], u.items[k])
  }

  /** What stands behind a path. */
  function SlotAt(t: Tree, path: seq<Index>): Option<Tree>
    decreases path
  {
    if path == [] then Some(t)
    else if t.ListTree? && path[0].At? && 0 <= path[0].i < |t.items| then SlotAt(t.items[path[0].i], path[1..])
    else None
  }

  /** The new content of the addressed slot: the value itself, EMPTY, or the cleared list. */
  predicate IsStored(value: Tree, before: Tree, after: Tree) {
    match value
    case EmptysTree => before.ListTree? && IsEmptys(after) && SameShape(before, after)
    case _ => SameUpToEmpty(value, after)
  }

  lemma {:induction false} SameUpToEmptyReflexive(t: Tree)
    ensures SameUpToEmpty(t, t)
    decreases t
  {
    if t.ListTree? {
      forall i | 0 <= i < |t.items|
        ensures SameUpToEmpty(t.items[i], t.items[i])
      {
        SameUpToEmptyReflexive(t.items[i]);
      }
    }
  }

  lemma {:induction false} SameUpToEmptyTransitive(a: Tree, b: Tree, c: Tree)
    requires SameUpToEmpty(a, b) && SameUpToEmpty(b, c)
    ensures SameUpToEmpty(a, c)
    decreases a
  {
    if a.ListTree? {
      forall i | 0 <= i < |a.items|
        ensures SameUpToEmpty(a.items[i], c.items[i])
      {
        SameUpToEmptyTransitive(a.items[i], b.items[i], c.items[i]);
      }
    }
  }

  lemma {:induction false} EmptysUpToEmpty(t: Tree, u: Tree)
    requires SameUpToEmpty(t, u)
    ensures SameShape(t, u) && (IsEmptys(t) ==> IsEmptys(u))
    decreases t
  {
    if t.ListTree? {
      forall i | 0 <= i < |t.items|
        ensures SameShape(t.items[i], u.items[i])
        ensures t.items[i].EmptyTree? || IsEmptys(t.items[i]) ==> u.items[i].EmptyTree? || IsEmptys(u.items[i])
      {
        EmptysUpToEmpty(t.items[i], u.items[i]);
      }
    }
  }

  lemma {:induction false} SameShapeTransitive(a: Tree, b: Tree, c: Tree)
    requires SameShape(a, b) && SameShape(b, c)
    ensures SameShape(a, c)
    decreases a
  {
    if a.ListTree? {
      forall i | 0 <= i < |a.items|
        ensures SameShape(a.items[i], c.items[i])
      {
        SameShapeTransitive(a.items[i], b.items[i], c.items[i]);
      }
    }
  }

  lemma {:induction false} UpdateTouchesOneSlot(items: seq<Tree>, indexes: seq<Index>, expected: Spec, value: Tree)
    requires indexes != [] && ConformAll(items, expected) && UpdateItems(items, indexes, expected, value).Ok?
    ensures var updated := ListTree(UpdateItems(items, indexes, expected, value).value.0);
            && DiffersOnlyAt(ListTree(items), updated, indexes)
            && SlotAt(ListTree(items), indexes).Some? && SlotAt(updated, indexes).Some?
            && IsStored(value, SlotAt(ListTree(items), indexes).value, SlotAt(updated, indexes).value)
    decreases indexes
  {
    var i := indexes[0].i;
    var updated := UpdateItems(items, indexes, expected, value).value.0;
    assert Conforms(items[i], expected);
    forall k | 0 <= k < |items| && k != i
      ensures SameUpToEmpty(items[k], updated[k])
    {
      SameUpToEmptyReflexive(items[k]);
    }
    if |indexes| == 1 {
      assert indexes[1..] == [];
      SlotIsStored(items[i], expected, value);
    } else {
      UpdateTouchesOneSlot(items[i].items, indexes[1..], expected.element, value);
    }
  }

  lemma SlotIsStored(current: Tree, expected: Spec, value: Tree)
    requires Conforms(current, expected) && !expected.Unknown? && UpdateSlot(current, expected, value).Ok?
    ensures IsStored(value, current, UpdateSlot(current, expected, value).value.0)
  {
    if value.EmptysTree? {
      ClearKeepsShape(current, expected);
    } else if !value.EmptyTree? {
      MergeIsLeastUpperBound(expected, ValueSpec(value).value, expected);
      NormalizeConforms(value, Merge(expected, ValueSpec(value).value));
    }
  }

  lemma {:induction false} DiffersOnlyAtUpToEmpty(t: Tree, u: Tree, w: Tree, path: seq<Index>)
    requires DiffersOnlyAt(t, u, path) && SameUpToEmpty(u, w)
    ensures DiffersOnlyAt(t, w, path)
    ensures SlotAt(u, path).Some? ==>
              SlotAt(w, path).Some? && SameUpToEmpty(SlotAt(u, path).value, SlotAt(w, path).value)
    decreases path
  {
    if path != [] {
      var i := path[0].i;
      DiffersOnlyAtUpToEmpty(t.items[i], u.items[i], w.items[i], path[1..]);
      forall k | 0 <= k < |t.items| && k != i
        ensures SameUpToEmpty(t.items[k], w.items[k])
      {
        SameUpToEmptyTransitive(t.items[k], u.items[k], w.items[k]);
      }
    }
  }

  /** A successful indexed assignment, at any depth, stores the value in the addressed slot.
      Every other slot keeps its value, and every list its length. */
  lemma AssignIndexesTouchesOneSlot(v: Variable, indexes: seq<Index>, value: Tree)
    requires Typed(v) && AssignIndexes(v, indexes, value).Ok?
    ensures var after := AssignIndexes(v, indexes, value).value.value;
            && DiffersOnlyAt(v.value, after, indexes)
            && SlotAt(v.value, indexes).Some? && SlotAt(after, indexes).Some?
            && IsStored(value, SlotAt(v.value, indexes).value, SlotAt(after, indexes).value)
  {
    UpdateTouchesOneSlot(v.value.items, indexes, v.element, value);
    var (updated, adopted) := UpdateItems(v.value.items, indexes, v.element, value).value;
    var after := AssignIndexes(v, indexes, value).value.value;
    NormalizeListConforms(updated, adopted);
    DiffersOnlyAtUpToEmpty(v.value, ListTree(updated), after, indexes);
    var before, stored, final := SlotAt(v.value, indexes).value, SlotAt(ListTree(updated), indexes).value,
                                 SlotAt(after, indexes).value;
    if value.EmptysTree? {
      EmptysUpToEmpty(stored, final);
      SameShapeTransitive(before, stored, final);
    } else {
      SameUpToEmptyTransitive(value, stored, final);
    }
  }

  // ---- Clearing ----

  /** Assigning EMPTYS to a list keeps its jagged shape and its type, and leaves nothing but EMPTY. */
  lemma ClearingAVariable(v: Variable)
    requires Typed(v) && !v.constant && v.value.ListTree?
    ensures var cleared := Reassign(v, EmptysTree);
            && cleared.Ok? && Typed(cleared.value)
            && SameShape(v.value, cleared.value.value) && IsEmptys(cleared.value.value)
            && Reassign(cleared.value, EmptysTree) == cleared
  {
    ReassignIsTyped(v, EmptysTree);
    ClearKeepsShape(v.value, ListOf(v.element));
  }

  // ---- Shape operations ----

  /** Removing what was just inserted, at the same position, restores the list. */
  lemma InsertThenRemove(items: seq<Tree>, element: Spec, position: Position, count: Index)
    requires Reshape(items, element, Insert(position, count)).Ok?
    ensures var longer := Reshape(items, element, Insert(position, count)).value;
            && |longer| == |items| + count.i
            && Reshape(longer, element, Remove(position, count)) == Ok(items)
  {
    var i := PositionIn(position, |items|).value;
    var longer := Reshape(items, element, Insert(position, count)).value;
    assert Without(longer, i, count.i) == items;
  }

  /** Inserted slots are EMPTY of the element type, and all others move without changing. */
  lemma InsertExact(items: seq<Tree>, element: Spec, position: Position, count: Index, k: nat)
    requires !element.Unknown? && Reshape(items, element, Insert(position, count)).Ok?
    requires k < |items| + count.i
    ensures var i := PositionIn(position, |items|).value;
            var longer := Reshape(items, element, Insert(position, count)).value;
            |longer| == |items| + count.i
            && longer[k] == if k < i then items[k]
                            else if k < i + count.i then EmptyTree(element)
                            else items[k - count.i]
  {
  }

  /** The cells of a column, from a row down. */
  function Column(items: seq<Tree>, start: nat, column: nat): seq<Tree>
    requires HasColumn(items, start, column) && start <= |items|
  {
    seq(|items| - start, k requires 0 <= k < |items| - start => items[start + k].items[column])
  }

  /** A vertical removal on jagged rows: from the chosen row down the column loses its first
      `count` cells and gains as many EMPTY ones at the end. No row changes its length, and no
      other cell changes. */
  lemma RemoveVerticalExact(items: seq<Tree>, element: Spec, column: Index, position: Position, count: Index)
    requires Reshape(items, ListOf(element), RemoveVertical(column, position, count)).Ok?
    requires ConformAll(items, ListOf(element))
    ensures var after := Reshape(items, ListOf(element), RemoveVertical(column, position, count)).value;
            var start := PositionIn(position, |items| - count.i).value;
            && |after| == |items|
            && HasColumn(items, start, column.i) && HasColumn(after, start, column.i)
            && Column(after, start, column.i) == Column(items, start, column.i)[count.i..] + Empties(count.i, element)
            && (forall r | 0 <= r < start :: after[r] == items[r])
            && (forall r | start <= r < |items| :: |after[r].items| == |items[r].items|)
            && (forall r, c | start <= r < |items| && 0 <= c < |items[r].items| && c != column.i ::
                  after[r].items[c] == items[r].items[c])
  {
    var start := PositionIn(position, |items| - count.i).value;
    var after := Reshape(items, ListOf(element), RemoveVertical(column, position, count)).value;
    assert Conforms(items[start], ListOf(element));
    assert Conforms(items[start].items[column.i], element) && !element.Unknown?;
    assert after == ShiftColumn(items, start, column.i, count.i, element);
    forall k | 0 <= k < |items| - start
      ensures Column(after, start, column.i)[k]
           == (Column(items, start, column.i)[count.i..] + Empties(count.i, element))[k]
    {
      assert after[start + k] == ListTree(items[start + k].items[column.i :=
        if start + k + count.i < |items| then Cell(items, start, column.i, start + k + count.i)
            else EmptyTree(element)]);
      assert after[start + k].items[column.i]
          == if start + k + count.i < |items| then items[start + k + count.i].items[column.i] else EmptyTree(element);
    }
    assert Column(after, start, column.i) == Column(items, start, column.i)[count.i..] + Empties(count.i, element);
  }

  // ---- front and back ----

  function WithPosition(shape: Shape, position: Position): Shape {
    shape.(position := position)
  }

  /** The last position that an operation can have, or a negative number if there is none. */
  function LastPosition(items: seq<Tree>, shape: Shape): int {
    var count := if shape.count.At? then shape.count.i else 0;
    match shape
    case Insert(_, _) => |items|
    case Remove(_, _) => |items| - count
    case RemoveHorizontal(row, _, _) =>
      if IsPosition(row) && row.i < |items| && items[row.i].ListTree? then |items[row.i].items| - count else -1
    case RemoveVertical(_, _, _) => |items| - count
  }

  /** A selector stands for one position: the first one if it is spelled `front`, and otherwise, even
      in capitals, the last one. */
  lemma SelectorPicks(items: seq<Tree>, element: Spec, shape: Shape, name: string)
    ensures var last := LastPosition(items, shape);
            var picked := if name == "front" || last < 0 then 0 else last;
            && Reshape(items, element, WithPosition(shape, Selector(name)))
               == Reshape(items, element, WithPosition(shape, Numbered(At(picked))))
            && (picked == 0 <==> name == "front" || last <= 0)
  {
    hide ElementSpec, FoldSpecs;
  }
}
