/** What the store operations store, and when they succeed, without a word on how they compute it:
    every operation is a relation between a variable, a value and the variable that comes out, and
    each relation holds of exactly one outcome if the operation succeeds, and of none if it fails. */
module StoreExact {
  import opened Ast
  import opened TypeSpecs
  import opened Trees
  import opened StoreSpec
  import opened StoreLaws

  // ---- Normalising ----

  /** Normalising gives the one value that conforms and differs in the types of EMPTY slots only; it
      fails if and only if there is none. */
  lemma {:induction false} NormalizeIff(t: Tree, s: Spec, u: Tree)
    requires !s.Unknown?
    ensures Normalize(t, s) == Ok(u) <==> SameUpToEmpty(t, u) && Conforms(u, s)
    decreases t, 1
  {
    if t.ListTree? && s.ListOf? {
      NormalizeListIff(t.items, s.element, if u.ListTree? then u.items else []);
    }
  }

  lemma {:induction false} NormalizeListIff(items: seq<Tree>, element: Spec, after: seq<Tree>)
    ensures NormalizeList(items, element) == Ok(after)
       <==> SameItemsUpToEmpty(items, after) && ConformAll(after, element)
    decreases items, 0
  {
    if NormalizeList(items, element) == Ok(after) {
      NormalizeListConforms(items, element);
    } else if SameItemsUpToEmpty(items, after) && ConformAll(after, element) && items != [] {
      assert SameUpToEmpty(items[0], after[0]) && Conforms(after[0], element);
      assert after == [after[0]] + after[1..];
      NothingConformsToUnknown(after[0]);
      NormalizeIff(items[0], element, after[0]);
      forall i | 0 <= i < |items| - 1
        ensures SameUpToEmpty(items[1..][i], after[1..][i]) && Conforms(after[1..][i], element)
      {
        assert items[1..][i] == items[i + 1] && after[1..][i] == after[i + 1];
      }
      NormalizeListIff(items[1..], element, after[1..]);
    }
  }

  /** Of the values that differ in EMPTY slots only, one conforms. */
  lemma {:induction false} ConformingIsUnique(t: Tree, u: Tree, w: Tree, s: Spec)
    requires SameUpToEmpty(t, u) && SameUpToEmpty(t, w) && Conforms(u, s) && Conforms(w, s)
    ensures u == w
  {
    NothingConformsToUnknown(u);
    NormalizeIff(t, s, u);
    NormalizeIff(t, s, w);
  }

  // ---- The type that a value gives ----

  /** The least type, from `floor` on, that covers the value. */
  ghost predicate IsLeastType(value: Tree, floor: Spec, s: Spec) {
    && Refines(floor, s) && Fits(value, s)
    && forall e :: Refines(floor, e) && Fits(value, e) ==> Refines(s, e)
  }

  lemma {:induction false} LeastTypeIff(value: Tree, floor: Spec, s: Spec)
    ensures IsLeastType(value, floor, s)
       <==> ValueSpec(value).Ok? && Compatible(floor, ValueSpec(value).value)
            && s == Merge(floor, ValueSpec(value).value)
  {
    ValueSpecIsLeast(value, s);
    if ValueSpec(value).Ok? {
      var actual := ValueSpec(value).value;
      if IsLeastType(value, floor, s) {
        BoundedIsCompatible(floor, actual, s);
      }
      if Compatible(floor, actual) {
        var merged := Merge(floor, actual);
        RefinesReflexive(merged);
        MergeIsLeastUpperBound(floor, actual, merged);
        ValueSpecIsLeast(value, merged);
        forall e | Refines(floor, e) && Fits(value, e)
          ensures Refines(merged, e)
        {
          ValueSpecIsLeast(value, e);
          MergeIsLeastUpperBound(floor, actual, e);
        }
        if IsLeastType(value, floor, s) {
          RefinesAntisymmetric(s, merged);
        }
      }
    }
  }

  function TypeOf(v: Variable): Spec { SlotSpec(v.declaredType, v.element) }

  // ---- Assignment ----

  /** The variable that a first assignment makes: it holds the value, up to the types of EMPTY slots,
      and has the least type that covers it. */
  ghost predicate IsFirst(value: Tree, v: Variable) {
    && !v.constant && Typed(v)
    && SameUpToEmpty(value, v.value)
    && IsLeastType(value, Unknown, TypeOf(v))
  }

  lemma IntroduceIff(value: Tree, v: Variable)
    ensures Introduce(value) == Ok(v) <==> IsFirst(value, v)
  {
    LeastTypeIff(value, Unknown, TypeOf(v));
    if value.ListTree? && ElementSpec(value.items).Ok? {
      var element := ElementSpec(value.items).value;
      if v.value.ListTree? {
        NormalizeListIff(value.items, element, v.value.items);
      }
      if NormalizeList(value.items, element).Ok? {
        NormalizeListConforms(value.items, element);
      }
    }
  }

  /** The variable that an assignment makes of an existing one. */
  ghost predicate IsNext(v: Variable, value: Tree, w: Variable) {
    && !v.constant && !w.constant && w.declaredType == v.declaredType && Typed(w)
    && match value
       case VoidTree => false
       case EmptysTree =>
         && w.element == v.element && v.declaredType == "list"
         && if v.value.EmptyTree? then w.value == ListTree([]) else SameShape(v.value, w.value) && IsEmptys(w.value)
       case EmptyTree(_) => w.element == v.element && w.value.EmptyTree?
       case _ => SameUpToEmpty(value, w.value) && IsLeastType(value, TypeOf(v), TypeOf(w))
  }

  /** A conforming value that consists of EMPTY slots is told by its shape. */
  lemma {:induction false} ClearedIsUnique(t: Tree, u: Tree, s: Spec)
    requires Conforms(t, s) && Conforms(u, s) && SameShape(t, u) && (u.EmptyTree? || IsEmptys(u))
    ensures u == ClearItem(t, s)
    decreases t
  {
    if t.ListTree? {
      ClearItemsAt(t.items, s.element);
      forall i | 0 <= i < |t.items|
        ensures u.items[i] == ClearItem(t.items[i], s.element)
      {
        ClearedIsUnique(t.items[i], u.items[i], s.element);
      }
    }
  }

  lemma ReassignIff(v: Variable, value: Tree, w: Variable)
    requires Typed(v)
    ensures Reassign(v, value) == Ok(w) <==> IsNext(v, value, w)
  {
    match value
    case VoidTree =>
    case EmptysTree => ClearIff(v, w);
    case EmptyTree(_) => NothingConformsToUnknown(v.value);
    case ScalarTree(_, _) => LeastTypeIff(value, TypeOf(v), TypeOf(w));
    case ListTree(_) => ReassignListIff(v, value, w);
  }

  lemma ClearIff(v: Variable, w: Variable)
    requires Typed(v)
    ensures Reassign(v, EmptysTree) == Ok(w) <==> IsNext(v, EmptysTree, w)
  {
    if v.value.ListTree? {
      ClearConforms(v.value, TypeOf(v));
      ClearKeepsShape(v.value, TypeOf(v));
      if IsNext(v, EmptysTree, w) {
        ClearedIsUnique(v.value, w.value, TypeOf(v));
      }
    }
  }

  lemma ReassignListIff(v: Variable, value: Tree, w: Variable)
    requires Typed(v) && value.ListTree?
    ensures Reassign(v, value) == Ok(w) <==> IsNext(v, value, w)
  {
    LeastTypeIff(value, TypeOf(v), TypeOf(w));
    if Reassign(v, value) == Ok(w) {
      ReassignIsTyped(v, value);
      NormalizeListIff(value.items, w.element, w.value.items);
    } else if IsNext(v, value, w) {
      assert w.value.ListTree?;
      NormalizeListIff(value.items, w.element, w.value.items);
    }
  }

  // ---- Typed definitions ----

  /** The variable that a typed definition makes: it has the declared type, whatever the value is known
      to be, and it takes a value for which that type can be refined so as to cover it. */
  ghost predicate IsDefined(declared: DeclaredType, value: Tree, constant: bool, v: Variable) {
    && v.declaredType == declared.name && v.element == declared.element && v.constant == constant && Typed(v)
    && match value
       case VoidTree => false
       case EmptysTree => !constant && v.value == ListTree([])
       case EmptyTree(spec) => !constant && v.value.EmptyTree? && (spec.Unknown? || TypeName(value) == declared.name)
       case _ => SameUpToEmpty(value, v.value) && exists upper :: Refines(TypeOf(v), upper) && Fits(value, upper)
  }

  lemma DefineIff(declared: DeclaredType, value: Tree, constant: bool, v: Variable)
    requires IsDeclarable(declared)
    ensures Define(declared, value, constant) == Ok(v) <==> IsDefined(declared, value, constant, v)
  {
    if Define(declared, value, constant) == Ok(v) {
      DefineIsTyped(declared, value, constant);
    }
    match value
    case ListTree(_) => DefineListIff(declared, value, constant, v);
    case ScalarTree(name, _) => assert Refines(Scalar(name), Scalar(name)) && Fits(value, Scalar(name));
    case _ =>
  }

  lemma DefineListIff(declared: DeclaredType, value: Tree, constant: bool, v: Variable)
    requires IsDeclarable(declared) && value.ListTree?
    ensures Define(declared, value, constant) == Ok(v) <==> IsDefined(declared, value, constant, v)
  {
    var s, actual := SlotSpec(declared.name, declared.element), ValueSpec(value);
    if v.value.ListTree? {
      NormalizeListIff(value.items, declared.element, v.value.items);
    }
    if Define(declared, value, constant) == Ok(v) {
      NormalizeListConforms(value.items, declared.element);
      var upper := Merge(s, actual.value);
      MergeIsLeastUpperBound(s, actual.value, upper);
      RefinesReflexive(upper);
      ValueSpecIsLeast(value, upper);
      assert Refines(s, upper) && Fits(value, upper);
    } else if IsDefined(declared, value, constant, v) {
      var upper :| Refines(s, upper) && Fits(value, upper);
      ValueSpecIsLeast(value, upper);
      BoundedIsCompatible(s, actual.value, upper);
    }
  }

  // ---- Indexed assignment ----

  /** The type of the slots behind `depth` indexes. */
  function SpecAt(s: Spec, depth: nat): Spec {
    if depth == 0 then s else if s.ListOf? then SpecAt(s.element, depth - 1) else Unknown
  }

  /** The variable that an indexed assignment makes: it differs in the addressed slot only, which holds the
      value, up to the types of EMPTY slots; and its element type is the least one that covers the value. */
  ghost predicate IsIndexed(v: Variable, indexes: seq<Index>, value: Tree, w: Variable) {
    && !v.constant && !w.constant && v.declaredType == "list" && w.declaredType == "list" && Typed(w)
    && indexes != [] && DiffersOnlyAt(v.value, w.value, indexes)
    && SlotAt(v.value, indexes).Some? && SlotAt(w.value, indexes).Some?
    && IsStored(value, SlotAt(v.value, indexes).value, SlotAt(w.value, indexes).value)
    && !value.VoidTree?
    && if value.EmptyTree? || value.EmptysTree? then w.element == v.element
       else IsLeastElement(value, v.element, w.element, |indexes| - 1)
  }

  /** The least element type, from `floor` on, whose slots at this depth take the value. */
  ghost predicate IsLeastElement(value: Tree, floor: Spec, s: Spec, depth: nat) {
    && Refines(floor, s) && Fits(value, SpecAt(s, depth))
    && forall e :: Refines(floor, e) && Fits(value, SpecAt(e, depth)) ==> Refines(s, e)
  }

  /** An element type with another type at this depth. */
  function WithSpecAt(s: Spec, depth: nat, inner: Spec): Spec
    decreases depth
  {
    if depth == 0 then inner else ListOf(WithSpecAt(if s.ListOf? then s.element else Unknown, depth - 1, inner))
  }

  lemma {:induction false} WithSpecIsLeast(s: Spec, depth: nat, inner: Spec, upper: Spec)
    requires Refines(SpecAt(s, depth), inner) && !SpecAt(s, depth).Unknown?
    ensures Refines(s, WithSpecAt(s, depth, inner)) && SpecAt(WithSpecAt(s, depth, inner), depth) == inner
    ensures Refines(s, upper) && Refines(inner, SpecAt(upper, depth)) ==> Refines(WithSpecAt(s, depth, inner), upper)
  {
    if depth > 0 {
      WithSpecIsLeast(s.element, depth - 1, inner, if upper.ListOf? then upper.element else Unknown);
    }
  }

  lemma {:induction false} SpecAtRefines(a: Spec, b: Spec, depth: nat)
    requires Refines(a, b)
    ensures Refines(SpecAt(a, depth), SpecAt(b, depth))
  {
    if depth > 0 && a.ListOf? {
      SpecAtRefines(a.element, b.element, depth - 1);
    }
  }

  /** What stands behind a path conforms to the type of that depth. */
  lemma {:induction false} SlotConforms(t: Tree, s: Spec, path: seq<Index>)
    requires Conforms(t, s) && SlotAt(t, path).Some?
    ensures Conforms(SlotAt(t, path).value, SpecAt(s, |path|))
    decreases path
  {
    if path != [] {
      SlotConforms(t.items[path[0].i], s.element, path[1..]);
    }
  }

  /** Whether the slot takes the value, and which type is adopted for it. */
  predicate Takes(current: Tree, expected: Spec, value: Tree) {
    match value
    case VoidTree => false
    case EmptysTree => current.ListTree?
    case EmptyTree(_) => true
    case _ =>
      && ValueSpec(value).Ok? && Compatible(expected, ValueSpec(value).value)
      && Normalize(value, Merge(expected, ValueSpec(value).value)).Ok?
  }

  function Adopted(expected: Spec, value: Tree): Spec {
    if value.EmptyTree? || value.EmptysTree? || ValueSpec(value).Err? then expected
    else Merge(expected, ValueSpec(value).value)
  }

  lemma {:induction false} UpdateIff(items: seq<Tree>, indexes: seq<Index>, expected: Spec, value: Tree)
    requires indexes != [] && ConformAll(items, expected)
    ensures var slot, depth := SlotAt(ListTree(items), indexes), |indexes| - 1;
            var r := UpdateItems(items, indexes, expected, value);
            && (r.Ok? <==> slot.Some? && Takes(slot.value, SpecAt(expected, depth), value))
            && (slot.Some? ==> !SpecAt(expected, depth).Unknown?)
            && (r.Ok? ==> r.value.1 == WithSpecAt(expected, depth, Adopted(SpecAt(expected, depth), value)))
    decreases indexes
  {
    if IsPosition(indexes[0]) && indexes[0].i < |items| {
      var i, inner := indexes[0].i, indexes[1..];
      assert Conforms(items[i], expected);
      NothingConformsToUnknown(items[i]);
      if inner == [] {
        if Takes(items[i], expected, value) { MergeAdopted(expected, value); }
      } else {
        if items[i].ListTree? {
          UpdateIff(items[i].items, inner, expected.element, value);
          var r := UpdateItems(items[i].items, inner, expected.element, value);
          if r.Ok? {
            UpdateItemsFits(items[i].items, inner, expected.element, value);
            MergeRefined(expected, ListOf(r.value.1));
          }
        }
      }
    }
  }

  lemma MergeRefined(a: Spec, b: Spec)
    requires Refines(a, b)
    ensures Compatible(a, b) && Merge(a, b) == b
  {
    RefinesReflexive(b);
    BoundedIsCompatible(a, b, b);
    MergeIsLeastUpperBound(a, b, b);
    RefinesAntisymmetric(Merge(a, b), b);
  }

  lemma MergeAdopted(expected: Spec, value: Tree)
    requires Adopted(expected, value) == expected || Compatible(expected, ValueSpec(value).value)
    ensures Merge(expected, Adopted(expected, value)) == Adopted(expected, value)
  {
    RefinesReflexive(expected);
    if ValueSpec(value).Ok? && Compatible(expected, ValueSpec(value).value) {
      MergeIsLeastUpperBound(expected, ValueSpec(value).value, expected);
    }
    MergeRefined(expected, Adopted(expected, value));
  }

  lemma AdoptedIsLeast(v: Variable, value: Tree, depth: nat)
    requires !value.EmptyTree? && !value.EmptysTree? && ValueSpec(value).Ok? && !SpecAt(v.element, depth).Unknown?
    requires Compatible(SpecAt(v.element, depth), ValueSpec(value).value)
    ensures var inner := Adopted(SpecAt(v.element, depth), value);
            IsLeastElement(value, v.element, WithSpecAt(v.element, depth, inner), depth)
  {
    var expected, actual := SpecAt(v.element, depth), ValueSpec(value).value;
    var inner := Merge(expected, actual);
    MergeIsLeastUpperBound(expected, actual, inner);
    RefinesReflexive(inner);
    ValueSpecIsLeast(value, inner);
    WithSpecIsLeast(v.element, depth, inner, v.element);
    forall e | Refines(v.element, e) && Fits(value, SpecAt(e, depth))
      ensures Refines(WithSpecAt(v.element, depth, inner), e)
    {
      ValueSpecIsLeast(value, SpecAt(e, depth));
      SpecAtRefines(v.element, e, depth);
      MergeIsLeastUpperBound(expected, actual, SpecAt(e, depth));
      WithSpecIsLeast(v.element, depth, inner, e);
    }
  }

  lemma IndexedIsExact(v: Variable, indexes: seq<Index>, value: Tree)
    requires Typed(v) && AssignIndexes(v, indexes, value).Ok?
    ensures IsIndexed(v, indexes, value, AssignIndexes(v, indexes, value).value)
  {
    var depth, w := |indexes| - 1, AssignIndexes(v, indexes, value).value;
    AssignIndexesIsTyped(v, indexes, value);
    AssignIndexesTouchesOneSlot(v, indexes, value);
    UpdateIff(v.value.items, indexes, v.element, value);
    if value.EmptyTree? || value.EmptysTree? {
      var expected := SpecAt(v.element, depth);
      RefinesReflexive(expected);
      RefinesReflexive(v.element);
      WithSpecIsLeast(v.element, depth, expected, v.element);
      RefinesAntisymmetric(w.element, v.element);
    } else {
      AdoptedIsLeast(v, value, depth);
    }
  }

  lemma IndexedSucceeds(v: Variable, indexes: seq<Index>, value: Tree, w: Variable)
    requires Typed(v) && IsIndexed(v, indexes, value, w)
    ensures AssignIndexes(v, indexes, value).Ok?
  {
    var depth := |indexes| - 1;
    UpdateIff(v.value.items, indexes, v.element, value);
    if !value.EmptyTree? && !value.EmptysTree? {
      var expected, finer := SpecAt(v.element, depth), SpecAt(w.element, depth);
      ValueSpecIsLeast(value, finer);
      var actual := ValueSpec(value).value;
      SpecAtRefines(v.element, w.element, depth);
      BoundedIsCompatible(expected, actual, finer);
      var inner := Merge(expected, actual);
      MergeIsLeastUpperBound(expected, actual, finer);
      AdoptedIsLeast(v, value, depth);
      WithSpecIsLeast(v.element, depth, inner, v.element);
      SpecAtRefines(w.element, WithSpecAt(v.element, depth, inner), depth);
      RefinesAntisymmetric(inner, finer);
      SlotConforms(w.value, TypeOf(w), indexes);
      var after := SlotAt(w.value, indexes).value;
      NothingConformsToUnknown(after);
      NormalizeIff(value, inner, after);
    }
    FinalNormalizeSucceeds(v, indexes, value);
  }

  /** Conforming values that differ from a third one in the same slot only are equal if these slots are. */
  lemma {:induction false} SameOutsideSlot(t: Tree, u: Tree, w: Tree, path: seq<Index>, s: Spec)
    requires DiffersOnlyAt(t, u, path) && DiffersOnlyAt(t, w, path) && Conforms(u, s) && Conforms(w, s)
    requires SlotAt(u, path).Some? && SlotAt(u, path) == SlotAt(w, path)
    ensures u == w
    decreases path
  {
    if path != [] {
      var i := path[0].i;
      SameOutsideSlot(t.items[i], u.items[i], w.items[i], path[1..], s.element);
      forall k | 0 <= k < |t.items| && k != i
        ensures u.items[k] == w.items[k]
      {
        ConformingIsUnique(t.items[k], u.items[k], w.items[k], s.element);
      }
    }
  }

  lemma IndexedIsUnique(v: Variable, indexes: seq<Index>, value: Tree, w: Variable, x: Variable)
    requires Typed(v) && IsIndexed(v, indexes, value, w) && IsIndexed(v, indexes, value, x)
    ensures w == x
  {
    if !value.EmptyTree? && !value.EmptysTree? {
      RefinesAntisymmetric(w.element, x.element);
    }
    var s := TypeOf(w);
    SlotConforms(w.value, s, indexes);
    SlotConforms(x.value, s, indexes);
    var before, u, z := SlotAt(v.value, indexes).value, SlotAt(w.value, indexes).value, SlotAt(x.value, indexes).value;
    if value.EmptysTree? {
      SlotConforms(v.value, s, indexes);
      ClearedIsUnique(before, u, SpecAt(s, |indexes|));
      ClearedIsUnique(before, z, SpecAt(s, |indexes|));
    } else {
      ConformingIsUnique(value, u, z, SpecAt(s, |indexes|));
    }
    SameOutsideSlot(v.value, w.value, x.value, indexes, s);
  }

  /** An indexed assignment succeeds if and only if there is such a variable, and makes it. */
  lemma AssignIndexesIff(v: Variable, indexes: seq<Index>, value: Tree, w: Variable)
    requires Typed(v)
    ensures AssignIndexes(v, indexes, value) == Ok(w) <==> IsIndexed(v, indexes, value, w)
  {
    if AssignIndexes(v, indexes, value).Ok? {
      IndexedIsExact(v, indexes, value);
    }
    if IsIndexed(v, indexes, value, w) {
      IndexedSucceeds(v, indexes, value, w);
      IndexedIsExact(v, indexes, value);
      IndexedIsUnique(v, indexes, value, w, AssignIndexes(v, indexes, value).value);
    }
  }

  // ---- Shape operations ----

  /** Position `i` is what a selector or number stands for, up to `maximum`. Only `front` is the front. */
  predicate IsPlaced(position: Position, maximum: int, i: int) {
    && 0 <= i <= maximum
    && (position.Selector? ==> i == if position.name == "front" then 0 else maximum)
    && (position.Numbered? ==> position.index == At(i))
  }

  /** `longer` is `shorter` with `count` more slots at position `i`. */
  predicate IsLonger(shorter: seq<Tree>, longer: seq<Tree>, i: int, count: int) {
    && 0 <= i <= |shorter| && 0 <= count && |longer| == |shorter| + count
    && (forall k | 0 <= k < i :: longer[k] == shorter[k])
    && (forall k | i <= k < |shorter| :: longer[k + count] == shorter[k])
  }

  ghost predicate IsInserted(items: seq<Tree>, element: Spec, position: Position, count: int, after: seq<Tree>) {
    && !element.Unknown?
    && exists i :: IsPlaced(position, |items|, i) && IsLonger(items, after, i, count)
         && forall k | i <= k < i + count :: after[k] == EmptyTree(element)
  }

  ghost predicate IsRemoved(items: seq<Tree>, position: Position, count: int, after: seq<Tree>) {
    exists i :: IsPlaced(position, |items| - count, i) && IsLonger(after, items, i, count)
  }

  /** The same rows, but for one. */
  predicate SameOtherRows(items: seq<Tree>, after: seq<Tree>, row: int) {
    && |after| == |items| && 0 <= row < |items|
    && forall k | 0 <= k < |items| && k != row :: after[k] == items[k]
  }

  /** From row `start` on, the column moves up by `count` cells, and EMPTY cells follow. */
  predicate IsShifted(items: seq<Tree>, cell: Spec, start: int, column: int, count: int, after: seq<Tree>) {
    && |after| == |items| && 0 <= start <= |items| && 0 <= column && 0 <= count <= |items|
    && HasColumn(items, start, column) && HasColumn(after, start, column)
    && (forall r | 0 <= r < start :: after[r] == items[r])
    && (forall r | start <= r < |items| :: |after[r].items| == |items[r].items|)
    && (forall r, c | start <= r < |items| && 0 <= c < |items[r].items| && c != column ::
          after[r].items[c] == items[r].items[c])
    && (forall r | start <= r < |items| - count :: after[r].items[column] == items[r + count].items[column])
    && (forall r | start <= r < |items| && |items| - count <= r :: after[r].items[column] == EmptyTree(cell))
  }

  /** The lists that a shape operation makes of a list. */
  ghost predicate IsReshaped(items: seq<Tree>, element: Spec, shape: Shape, after: seq<Tree>) {
    && shape.count.At? && shape.count.i >= 1
    && match shape
       case Insert(position, count) => IsInserted(items, element, position, count.i, after)
       case Remove(position, count) => IsRemoved(items, position, count.i, after)
       case RemoveHorizontal(row, position, count) =>
         && row.At? && SameOtherRows(items, after, row.i) && items[row.i].ListTree? && after[row.i].ListTree?
         && IsRemoved(items[row.i].items, position, count.i, after[row.i].items)
       case RemoveVertical(column, position, count) =>
         && column.At? && element.ListOf?
         && exists start :: IsPlaced(position, |items| - count.i, start)
              && IsShifted(items, element.element, start, column.i, count.i, after)
  }

  lemma PlacedIff(position: Position, maximum: nat, i: nat)
    ensures PositionIn(position, maximum) == Ok(i) <==> IsPlaced(position, maximum, i)
  {
  }

  lemma InsertIff(items: seq<Tree>, element: Spec, position: Position, count: nat, after: seq<Tree>)
    requires ConformAll(items, element)
    ensures InsertEmpty(items, element, position, count) == Ok(after)
       <==> IsInserted(items, element, position, count, after)
  {
    if element.Unknown? {
      UnknownIsEmpty(items);
    } else if PositionIn(position, |items|).Ok? {
      var i := PositionIn(position, |items|).value;
      PlacedIff(position, |items|, i);
      LongerIff(items, i, count, element, after);
    }
  }

  lemma LongerIff(items: seq<Tree>, i: nat, count: nat, element: Spec, after: seq<Tree>)
    requires i <= |items|
    ensures after == items[..i] + Empties(count, element) + items[i..]
       <==> IsLonger(items, after, i, count) && forall k | i <= k < i + count :: after[k] == EmptyTree(element)
  {
    var longer := items[..i] + Empties(count, element) + items[i..];
    assert forall k | i <= k < |items| :: longer[k + count] == items[k];
    if IsLonger(items, after, i, count) && forall k | i <= k < i + count :: after[k] == EmptyTree(element) {
      forall k | i + count <= k < |after|
        ensures after[k] == longer[k]
      {
        assert after[(k - count) + count] == items[k - count];
      }
      assert after == longer;
    }
  }

  lemma RemoveIff(items: seq<Tree>, position: Position, count: nat, after: seq<Tree>)
    ensures RemoveSlots(items, position, count) == Ok(after) <==> IsRemoved(items, position, count, after)
  {
    if count <= |items| && PositionIn(position, |items| - count).Ok? {
      var i := PositionIn(position, |items| - count).value;
      PlacedIff(position, |items| - count, i);
      var shorter := Without(items, i, count);
      assert IsLonger(shorter, items, i, count);
      if IsRemoved(items, position, count, after) {
        assert forall k | 0 <= k < |after| :: after[k] == shorter[k];
        assert after == shorter;
      }
    }
  }

  lemma HorizontalIff(items: seq<Tree>, element: Spec, shape: Shape, after: seq<Tree>)
    requires shape.RemoveHorizontal?
    ensures Reshape(items, element, shape) == Ok(after) <==> IsReshaped(items, element, shape, after)
  {
    if IsCount(shape.count) && IsPosition(shape.row) && shape.row.i < |items| && items[shape.row.i].ListTree? {
      var row, shorter := shape.row.i, RemoveSlots(items[shape.row.i].items, shape.position, shape.count.i);
      if shorter.Ok? {
        RemoveIff(items[row].items, shape.position, shape.count.i, shorter.value);
      }
      if |after| == |items| && after[row].ListTree? {
        RemoveIff(items[row].items, shape.position, shape.count.i, after[row].items);
      }
      if IsReshaped(items, element, shape, after) {
        assert after[row] == ListTree(after[row].items);
        assert after == items[row := after[row]];
      }
    }
  }

  lemma ShiftIff(items: seq<Tree>, cell: Spec, start: nat, column: nat, count: nat, after: seq<Tree>)
    requires HasColumn(items, start, column) && start <= |items| && 1 <= count <= |items|
    ensures ShiftColumn(items, start, column, count, cell) == after
       <==> IsShifted(items, cell, start, column, count, after)
  {
    var shifted := ShiftColumn(items, start, column, count, cell);
    forall r | start <= r < |items|
      ensures shifted[r] == ListTree(items[r].items[column :=
                if r + count < |items| then Cell(items, start, column, r + count) else EmptyTree(cell)])
    {
      ShiftColumnAt(items, start, column, count, cell, r);
    }
    if IsShifted(items, cell, start, column, count, after) {
      forall r | 0 <= r < |items|
        ensures after[r] == shifted[r]
      {
        if r >= start {
          assert after[r].items == shifted[r].items;
        }
      }
      assert after == shifted;
    }
  }

  lemma VerticalIff(items: seq<Tree>, element: Spec, shape: Shape, after: seq<Tree>)
    requires shape.RemoveVertical? && ConformAll(items, element)
    ensures Reshape(items, element, shape) == Ok(after) <==> IsReshaped(items, element, shape, after)
  {
    hide ShiftColumn, FoldSpecs, IsShifted;
    if IsCount(shape.count) && shape.count.i <= |items| && PositionIn(shape.position, |items| - shape.count.i).Ok? {
      var start := PositionIn(shape.position, |items| - shape.count.i).value;
      PlacedIff(shape.position, |items| - shape.count.i, start);
      if IsPosition(shape.column) && HasColumn(items, start, shape.column.i) {
        assert Conforms(items[start], element) && items[start].ListTree?;
        assert Conforms(items[start].items[shape.column.i], element.element) && !element.element.Unknown?;
        ShiftIff(items, element.element, start, shape.column.i, shape.count.i, after);
      } else {
        NotShifted(items, element, shape, start, after);
      }
    }
  }

  lemma NotShifted(items: seq<Tree>, element: Spec, shape: Shape, start: nat, after: seq<Tree>)
    requires shape.RemoveVertical? && shape.count.At?
    requires !(IsPosition(shape.column) && HasColumn(items, start, shape.column.i))
    ensures shape.column.At? && element.ListOf? ==>
              !IsShifted(items, element.element, start, shape.column.i, shape.count.i, after)
  {
  }

  /** A shape operation succeeds if and only if there is such a list, and makes it. */
  lemma ReshapeIff(items: seq<Tree>, element: Spec, shape: Shape, after: seq<Tree>)
    requires ConformAll(items, element)
    ensures Reshape(items, element, shape) == Ok(after) <==> IsReshaped(items, element, shape, after)
  {
    match shape
    case Insert(position, count) => if IsCount(count) { InsertIff(items, element, position, count.i, after); }
    case Remove(position, count) => if IsCount(count) { RemoveIff(items, position, count.i, after); }
    case RemoveHorizontal(_, _, _) => HorizontalIff(items, element, shape, after);
    case RemoveVertical(_, _, _) => VerticalIff(items, element, shape, after);
  }

  /** The same behind a path of indexes: all lists on the way keep their other slots. */
  ghost predicate IsReshapedAt(t: Tree, s: Spec, path: seq<Index>, shape: Shape, u: Tree)
    decreases path
  {
    && t.ListTree? && u.ListTree? && s.ListOf?
    && if path == [] then IsReshaped(t.items, s.element, shape, u.items)
       else
         && path[0].At? && SameOtherRows(t.items, u.items, path[0].i)
         && IsReshapedAt(t.items[path[0].i], s.element, path[1..], shape, u.items[path[0].i])
  }

  lemma {:induction false} ReshapeAtIff(items: seq<Tree>, element: Spec, path: seq<Index>, shape: Shape,
                                        after: seq<Tree>)
    requires ConformAll(items, element)
    ensures ReshapeAt(items, element, path, shape) == Ok(after)
       <==> IsReshapedAt(ListTree(items), ListOf(element), path, shape, ListTree(after))
    decreases path
  {
    if path == [] {
      ReshapeIff(items, element, shape, after);
    } else if IsPosition(path[0]) && path[0].i < |items| {
      var i := path[0].i;
      assert Conforms(items[i], element);
      if items[i].ListTree? {
        var inner := ReshapeAt(items[i].items, element.element, path[1..], shape);
        if inner.Ok? {
          ReshapeAtIff(items[i].items, element.element, path[1..], shape, inner.value);
          assert SameOtherRows(items, items[i := ListTree(inner.value)], i);
        }
        if |after| == |items| && after[i].ListTree? {
          ReshapeAtIff(items[i].items, element.element, path[1..], shape, after[i].items);
          assert after[i] == ListTree(after[i].items);
          assert SameOtherRows(items, after, i) ==> after == items[i := after[i]];
        }
      }
    }
  }

  ghost predicate IsReshapedVariable(v: Variable, path: seq<Index>, shape: Shape, w: Variable) {
    && !v.constant && w == v.(value := w.value)
    && IsReshapedAt(v.value, TypeOf(v), path, shape, w.value)
  }

  lemma ReshapeVariableIff(v: Variable, path: seq<Index>, shape: Shape, w: Variable)
    requires Typed(v)
    ensures ReshapeVariable(v, path, shape) == Ok(w) <==> IsReshapedVariable(v, path, shape, w)
  {
    if v.value.ListTree? && !v.constant && w.value.ListTree? {
      ReshapeAtIff(v.value.items, v.element, path, shape, w.value.items);
    }
  }
}
