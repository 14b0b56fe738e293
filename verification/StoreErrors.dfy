/** Which error a store operation ends with, told from the variable and the value alone. An operation ends with
    a code if and only if the relation of this module holds, so the errors of the source come in its order. */
module StoreErrors {
  import opened Ast
  import opened TypeSpecs
  import opened Trees
  import opened StoreSpec
  import opened StoreLaws
  import opened StoreExact

  // ---- Values that a type does not take ----

  /** `x` is `t`, or an element of it at some depth. */
  predicate Occurs(x: Tree, t: Tree) {
    x == t || (t.ListTree? && exists i | 0 <= i < |t.items| :: Occurs(x, t.items[i]))
  }

  /** No type covers the value: it is VOID or EMPTYS, has one of them inside, or mixes types. */
  ghost predicate HasNoType(value: Tree) {
    forall s :: !Fits(value, s)
  }

  /** Why it has none; E203 stands for types that do not go together. */
  ghost predicate IsMixture(value: Tree, code: string) {
    || (code == "E127" && Occurs(VoidTree, value))
    || (code == "E133" && Occurs(EmptysTree, value))
    || code == "E203"
  }

  lemma HasNoTypeIff(value: Tree)
    ensures HasNoType(value) <==> ValueSpec(value).Err?
  {
    if ValueSpec(value).Ok? {
      RefinesReflexive(ValueSpec(value).value);
      ValueSpecIsLeast(value, ValueSpec(value).value);
    } else {
      forall s
        ensures !Fits(value, s)
      {
        ValueSpecIsLeast(value, s);
      }
    }
  }

  lemma {:induction false} UntypedIsMixture(t: Tree)
    requires ValueSpec(t).Err?
    ensures IsMixture(t, ValueSpec(t).code)
    decreases t, 1
  {
    if t.ListTree? {
      if VoidTree in t.items {
        var i :| 0 <= i < |t.items| && t.items[i] == VoidTree;
        assert Occurs(VoidTree, t.items[i]);
      } else if EmptysTree in t.items {
        var i :| 0 <= i < |t.items| && t.items[i] == EmptysTree;
        assert Occurs(EmptysTree, t.items[i]);
      } else {
        UntypedFold(Unknown, t.items);
      }
    }
  }

  lemma {:induction false} UntypedFold(found: Spec, items: seq<Tree>)
    requires FoldSpecs(found, items).Err?
    ensures var code := FoldSpecs(found, items).code;
            code == "E203" || exists i :: 0 <= i < |items| && IsMixture(items[i], code)
    decreases items, 0
  {
    var actual := ValueSpec(items[0]);
    if actual.Err? {
      UntypedIsMixture(items[0]);
      assert IsMixture(items[0], actual.code);
    } else if Compatible(found, actual.value) {
      UntypedFold(Merge(found, actual.value), items[1..]);
      var code := FoldSpecs(found, items).code;
      if code != "E203" {
        var i :| 0 <= i < |items| - 1 && IsMixture(items[1..][i], code);
        assert items[1..][i] == items[i + 1];
      }
    }
  }

  /** A value without a type has it to itself; a type that cannot be reached from `floor` is E201; and a list
      with elements whose type stays open is E134. */
  ghost predicate IsRefused(value: Tree, floor: Spec, code: string) {
    if HasNoType(value) then ValueSpec(value) == Err(code) && IsMixture(value, code)
    else if forall s :: Refines(floor, s) ==> !Fits(value, s) then code == "E201"
    else code == "E134" && forall s :: IsLeastType(value, floor, s) ==> !Determined(value, s)
  }

  lemma RefusedIff(value: Tree, floor: Spec, code: string)
    ensures IsRefused(value, floor, code)
       <==> var actual := ValueSpec(value);
            if actual.Err? then actual.code == code
            else if !Compatible(floor, actual.value) then code == "E201"
            else code == "E134" && !Determined(value, Merge(floor, actual.value))
  {
    HasNoTypeIff(value);
    var actual := ValueSpec(value);
    if actual.Err? {
      UntypedIsMixture(value);
    } else {
      forall s | Refines(floor, s) && Fits(value, s)
        ensures Compatible(floor, actual.value)
      {
        ValueSpecIsLeast(value, s);
        BoundedIsCompatible(floor, actual.value, s);
      }
      if Compatible(floor, actual.value) {
        var least := Merge(floor, actual.value);
        LeastTypeIff(value, floor, least);
        assert Refines(floor, least) && Fits(value, least);
        forall s | IsLeastType(value, floor, s)
          ensures s == least
        {
          LeastTypeIff(value, floor, s);
        }
      }
    }
  }

  // ---- Assignment ----

  ghost predicate FailsFirst(value: Tree, code: string) {
    match value
    case VoidTree => code == "E126"
    case EmptysTree => code == "E133"
    case EmptyTree(spec) => spec.Unknown? && code == "E129"
    case _ => IsRefused(value, Unknown, code)
  }

  lemma IntroduceFails(value: Tree, code: string)
    ensures Introduce(value) == Err(code) <==> FailsFirst(value, code)
  {
    RefusedIff(value, Unknown, code);
    if value.ListTree? && ElementSpec(value.items).Ok? {
      ListIsNormalized(value, Unknown, ElementSpec(value.items).value);
    }
  }

  /** A covered list is normalised unless the type of some elements stays open. */
  lemma ListIsNormalized(value: Tree, floor: Spec, element: Spec)
    requires value.ListTree? && ElementSpec(value.items).Ok?
    requires Compatible(floor, ListOf(ElementSpec(value.items).value))
    requires ListOf(element) == Merge(floor, ListOf(ElementSpec(value.items).value))
    ensures NormalizeList(value.items, element).Ok? <==> Determined(value, ListOf(element))
    ensures NormalizeList(value.items, element).Err? ==> NormalizeList(value.items, element).code == "E134"
  {
    LeastTypeIff(value, floor, ListOf(element));
    NormalizeListIffDetermined(value.items, element);
  }

  ghost predicate FailsNext(v: Variable, value: Tree, code: string) {
    if value.VoidTree? then code == "E126"
    else if v.constant then code == "E211"
    else match value
    case EmptysTree => v.declaredType != "list" && code == "E133"
    case EmptyTree(_) => false
    case _ => IsRefused(value, TypeOf(v), code)
  }

  lemma ReassignFails(v: Variable, value: Tree, code: string)
    requires Typed(v)
    ensures Reassign(v, value) == Err(code) <==> FailsNext(v, value, code)
  {
    RefusedIff(value, TypeOf(v), code);
    if value.ListTree? && ElementSpec(value.items).Ok? {
      var actual := ElementSpec(value.items).value;
      if v.declaredType == "list" && Compatible(v.element, actual) {
        ListIsNormalized(value, TypeOf(v), Merge(v.element, actual));
      }
    }
  }

  // ---- Typed definitions ----

  ghost predicate FailsToDefine(declared: DeclaredType, value: Tree, constant: bool, code: string) {
    match value
    case VoidTree => code == "E126"
    case EmptysTree => if constant then code == "E130" else declared.name != "list" && code == "E133"
    case EmptyTree(spec) =>
      if constant then code == "E130" else !spec.Unknown? && TypeName(value) != declared.name && code == "E201"
    case ScalarTree(name, _) => name != declared.name && code == "E201"
    case ListTree(_) =>
      var s := SlotSpec(declared.name, declared.element);
      if declared.name != "list" then code == "E201"
      else if HasNoType(value) then ValueSpec(value) == Err(code) && IsMixture(value, code)
      else if forall upper :: Refines(s, upper) ==> !Fits(value, upper) then code == "E201"
      else !Determined(value, s) && code == "E134"
  }

  lemma DefineFails(declared: DeclaredType, value: Tree, constant: bool, code: string)
    requires IsDeclarable(declared)
    ensures Define(declared, value, constant) == Err(code) <==> FailsToDefine(declared, value, constant, code)
  {
    if value.ListTree? && declared.name == "list" {
      var s := SlotSpec(declared.name, declared.element);
      RefusedIff(value, s, code);
      HasNoTypeIff(value);
      if ElementSpec(value.items).Ok? && Compatible(declared.element, ElementSpec(value.items).value) {
        var upper := Merge(s, ListOf(ElementSpec(value.items).value));
        LeastTypeIff(value, s, upper);
        assert Refines(s, upper) && Fits(value, upper);
        BelowListIff(value.items, declared.element, upper.element);
      } else if ElementSpec(value.items).Ok? {
        forall upper | Refines(s, upper)
          ensures !Fits(value, upper)
        {
          ValueSpecIsLeast(value, upper);
          if Fits(value, upper) { BoundedIsCompatible(s, ValueSpec(value).value, upper); }
        }
      }
    }
  }

  /** Normalising to a type that can be refined so as to cover the value. */
  lemma {:induction false} BelowIff(t: Tree, s: Spec, upper: Spec)
    requires Fits(t, upper) && Refines(s, upper) && !s.Unknown?
    ensures Normalize(t, s).Ok? <==> Determined(t, s)
    ensures Normalize(t, s).Err? ==> Normalize(t, s).code == "E134"
    decreases t, 1
  {
    if t.ListTree? { BelowListIff(t.items, s.element, upper.element); }
  }

  lemma {:induction false} BelowListIff(items: seq<Tree>, element: Spec, upper: Spec)
    requires FitAll(items, upper) && Refines(element, upper)
    ensures NormalizeList(items, element).Ok? <==> DetermineAll(items, element)
    ensures NormalizeList(items, element).Err? ==> NormalizeList(items, element).code == "E134"
    decreases items, 0
  {
    if items != [] && !element.Unknown? {
      BelowIff(items[0], element, upper);
      BelowListIff(items[1..], element, upper);
      assert DetermineAll(items, element) <==> Determined(items[0], element) && DetermineAll(items[1..], element) by {
        assert forall i | 0 < i < |items| :: items[i] == items[1..][i - 1];
      }
    }
  }

  // ---- Paths ----

  /** The path leads nowhere: behind `depth` indexes there is no list, or none with the next index. */
  predicate IsLostAt(t: Tree, path: seq<Index>, depth: int, outside: string, code: string) {
    && 0 <= depth < |path| && SlotAt(t, path[..depth]).Some? && SlotAt(t, path[..depth + 1]).None?
    && code == match SlotAt(t, path[..depth]).value
               case EmptyTree(_) => "E131"
               case ListTree(_) => if IsPosition(path[depth]) then outside else "E201"
               case _ => "E201"
  }

  ghost predicate IsLost(t: Tree, path: seq<Index>, outside: string, code: string) {
    exists depth :: IsLostAt(t, path, depth, outside, code)
  }

  /** One step of a path. */
  lemma LostIff(t: Tree, path: seq<Index>, outside: string, code: string)
    requires path != []
    ensures IsLost(t, path, outside, code)
       <==> if SlotAt(t, path[..1]).None? then IsLostAt(t, path, 0, outside, code)
            else IsLost(SlotAt(t, path[..1]).value, path[1..], outside, code)
  {
    assert SlotAt(t, path[..0]) == Some(t);
    assert path[..1][0] == path[0] && path[..1][1..] == [];
    var inner := path[1..];
    forall d | 0 < d <= |path|
      ensures SlotAt(t, path[..d])
           == if SlotAt(t, path[..1]).None? then None else SlotAt(SlotAt(t, path[..1]).value, inner[..d - 1])
    {
      assert path[..d][0] == path[0] && path[..d][1..] == inner[..d - 1];
    }
    if SlotAt(t, path[..1]).Some? {
      var u := SlotAt(t, path[..1]).value;
      forall d | 0 < d < |path|
        ensures IsLostAt(t, path, d, outside, code) <==> IsLostAt(u, inner, d - 1, outside, code)
      {
        assert path[d] == inner[d - 1];
      }
      if IsLost(u, inner, outside, code) {
        var d :| IsLostAt(u, inner, d, outside, code);
        assert IsLostAt(t, path, d + 1, outside, code);
      }
    }
  }

  // ---- Indexed assignment ----

  ghost predicate FailsToStore(current: Tree, expected: Spec, value: Tree, code: string) {
    match value
    case VoidTree => code == "E201"
    case EmptysTree => !current.ListTree? && code == "E133"
    case EmptyTree(_) => false
    case _ => IsRefused(value, expected, code)
  }

  ghost predicate FailsToIndex(v: Variable, indexes: seq<Index>, value: Tree, code: string) {
    if v.constant then code == "E211"
    else if !v.value.ListTree? then code == "E201"
    else if indexes == [] then code == "E302"
    else if SlotAt(v.value, indexes).None? then IsLost(v.value, indexes, "E302", code)
    else FailsToStore(SlotAt(v.value, indexes).value, SpecAt(v.element, |indexes| - 1), value, code)
  }

  lemma StoreFails(current: Tree, expected: Spec, value: Tree, code: string)
    requires Conforms(current, expected)
    ensures UpdateSlot(current, expected, value) == Err(code) <==> FailsToStore(current, expected, value, code)
  {
    NothingConformsToUnknown(current);
    RefusedIff(value, expected, code);
    if ValueSpec(value).Ok? && Compatible(expected, ValueSpec(value).value) {
      var adopted := Merge(expected, ValueSpec(value).value);
      LeastTypeIff(value, expected, adopted);
      NormalizeIffDetermined(value, adopted);
    }
  }

  lemma {:induction false} UpdateFails(items: seq<Tree>, indexes: seq<Index>, expected: Spec, value: Tree, code: string)
    requires indexes != [] && ConformAll(items, expected)
    ensures UpdateItems(items, indexes, expected, value) == Err(code)
       <==> var slot := SlotAt(ListTree(items), indexes);
            if slot.None? then IsLost(ListTree(items), indexes, "E302", code)
            else FailsToStore(slot.value, SpecAt(expected, |indexes| - 1), value, code)
    decreases indexes
  {
    hide FailsToStore;
    var t := ListTree(items);
    LostIff(t, indexes, "E302", code);
    assert indexes[..1][0] == indexes[0] && indexes[..1][1..] == [] && SlotAt(t, []) == Some(t);
    if IsPosition(indexes[0]) && indexes[0].i < |items| {
      var i, inner := indexes[0].i, indexes[1..];
      assert Conforms(items[i], expected) && SlotAt(t, indexes) == SlotAt(items[i], inner);
      if inner == [] {
        assert SpecAt(expected, 0) == expected;
        StoreFails(items[i], expected, value, code);
      } else {
        assert inner[..0] == [] && inner[..1][0] == inner[0];
        LostIff(items[i], inner, "E302", code);
        if items[i].ListTree? {
          UpdateFails(items[i].items, inner, expected.element, value, code);
        }
      }
    }
  }

  lemma AssignIndexesFails(v: Variable, indexes: seq<Index>, value: Tree, code: string)
    requires Typed(v)
    ensures AssignIndexes(v, indexes, value) == Err(code) <==> FailsToIndex(v, indexes, value, code)
  {
    hide FailsToStore, UpdateItems, IsLost;
    if !v.constant && v.value.ListTree? && indexes != [] {
      UpdateFails(v.value.items, indexes, v.element, value, code);
      if UpdateItems(v.value.items, indexes, v.element, value).Ok? {
        FinalNormalizeSucceeds(v, indexes, value);
      }
    }
  }

  // ---- Shape operations ----

  ghost predicate HasPlace(position: Position, maximum: int) {
    exists i :: IsPlaced(position, maximum, i)
  }

  /** No position up to `maximum` is meant. */
  ghost predicate IsMisplaced(position: Position, maximum: int, code: string) {
    && !HasPlace(position, maximum) && position.Numbered?
    && code == if IsPosition(position.index) then "E603" else "E201"
  }

  /** From the position on, some row has no cell in the column. */
  ghost predicate MeetsShortRow(items: seq<Tree>, position: Position, maximum: int, column: Index) {
    exists start, r :: IsPlaced(position, maximum, start) && IsShortRow(items, start, r, column)
  }

  predicate IsShortRow(items: seq<Tree>, start: int, r: int, column: Index) {
    start <= r < |items| && SlotAt(ListTree(items), [At(r), column]).None?
  }

  ghost predicate FailsToRemove(items: seq<Tree>, position: Position, count: int, code: string) {
    if count > |items| then code == "E603"
    else IsMisplaced(position, |items| - count, code)
  }

  /** E201 for what is no number or no row, E603 for what lies outside, E605 for a row that is too short, and
      E134 for slots of an unknown type. */
  ghost predicate FailsToReshape(items: seq<Tree>, element: Spec, shape: Shape, code: string) {
    if !IsCount(shape.count) then code == "E201"
    else match shape
    case Insert(position, _) =>
      if element.Unknown? then code == "E134"
      else IsMisplaced(position, |items|, code)
    case Remove(position, count) => FailsToRemove(items, position, count.i, code)
    case RemoveHorizontal(row, position, count) =>
      var found := SlotAt(ListTree(items), [row]);
      if found.None? then code == if IsPosition(row) then "E603" else "E201"
      else if !found.value.ListTree? then code == "E201"
      else FailsToRemove(found.value.items, position, count.i, code)
    case RemoveVertical(column, position, count) =>
      if !IsPosition(column) then code == "E201"
      else if count.i <= |items| && HasPlace(position, |items| - count.i) then
        code == "E605" && MeetsShortRow(items, position, |items| - count.i, column)
      else FailsToRemove(items, position, count.i, code)
  }

  lemma MisplacedIff(position: Position, maximum: nat, code: string)
    ensures PositionIn(position, maximum) == Err(code) <==> IsMisplaced(position, maximum, code)
  {
    if PositionIn(position, maximum).Ok? {
      PlacedIff(position, maximum, PositionIn(position, maximum).value);
    }
  }

  lemma RemoveFails(items: seq<Tree>, position: Position, count: nat, code: string)
    ensures RemoveSlots(items, position, count) == Err(code) <==> FailsToRemove(items, position, count, code)
  {
    if count <= |items| { MisplacedIff(position, |items| - count, code); }
  }

  lemma RowIs(items: seq<Tree>, row: Index)
    ensures SlotAt(ListTree(items), [row])
         == if IsPosition(row) && row.i < |items| then Some(items[row.i]) else None
  {
    assert [row][1..] == [];
  }

  lemma CellIs(items: seq<Tree>, r: nat, column: Index)
    requires r < |items|
    ensures SlotAt(ListTree(items), [At(r), column])
         == if items[r].ListTree? && IsPosition(column) && column.i < |items[r].items|
            then Some(items[r].items[column.i]) else None
  {
    assert [At(r), column][1..] == [column] && [column][1..] == [];
    assert SlotAt(ListTree(items), [At(r), column]) == SlotAt(items[r], [column]);
    if items[r].ListTree? { RowIs(items[r].items, column); }
  }

  lemma ShortRowIff(items: seq<Tree>, position: Position, maximum: nat, start: nat, column: Index)
    requires IsPosition(column) && PositionIn(position, maximum) == Ok(start)
    ensures MeetsShortRow(items, position, maximum, column) <==> !HasColumn(items, start, column.i)
  {
    PlacedIff(position, maximum, start);
    forall r | start <= r < |items|
      ensures IsShortRow(items, start, r, column) <==> !(items[r].ListTree? && column.i < |items[r].items|)
    {
      CellIs(items, r, column);
    }
  }

  lemma VerticalFails(items: seq<Tree>, element: Spec, shape: Shape, code: string)
    requires shape.RemoveVertical? && IsCount(shape.count) && ConformAll(items, element)
    ensures Reshape(items, element, shape) == Err(code) <==> FailsToReshape(items, element, shape, code)
  {
    hide ShiftColumn, FoldSpecs;
    var count, column := shape.count.i, shape.column;
    if IsPosition(column) && count <= |items| {
      MisplacedIff(shape.position, |items| - count, code);
      var found := PositionIn(shape.position, |items| - count);
      if found.Ok? {
        var start := found.value;
        PlacedIff(shape.position, |items| - count, start);
        ShortRowIff(items, shape.position, |items| - count, start, column);
        if HasColumn(items, start, column.i) {
          assert Conforms(items[start], element) && items[start].ListTree?;
          assert Conforms(items[start].items[column.i], element.element) && !element.element.Unknown?;
        }
      }
    }
  }

  lemma ReshapeFails(items: seq<Tree>, element: Spec, shape: Shape, code: string)
    requires ConformAll(items, element)
    ensures Reshape(items, element, shape) == Err(code) <==> FailsToReshape(items, element, shape, code)
  {
    if IsCount(shape.count) {
      match shape
      case Insert(position, _) =>
        if element.Unknown? { UnknownIsEmpty(items); }
        MisplacedIff(position, |items|, code);
      case Remove(position, count) => RemoveFails(items, position, count.i, code);
      case RemoveHorizontal(row, position, count) =>
        RowIs(items, row);
        if IsPosition(row) && row.i < |items| && items[row.i].ListTree? {
          RemoveFails(items[row.i].items, position, count.i, code);
        }
      case RemoveVertical(_, _, _) => VerticalFails(items, element, shape, code);
    }
  }

  ghost predicate FailsToReshapeAt(t: Tree, element: Spec, path: seq<Index>, shape: Shape, code: string) {
    var slot := SlotAt(t, path);
    if slot.None? then IsLost(t, path, "E603", code)
    else if slot.value.EmptyTree? then code == "E131"
    else if !slot.value.ListTree? then code == "E201"
    else FailsToReshape(slot.value.items, SpecAt(element, |path|), shape, code)
  }

  lemma {:induction false} ReshapeAtFails(items: seq<Tree>, element: Spec, path: seq<Index>, shape: Shape, code: string)
    requires ConformAll(items, element)
    ensures ReshapeAt(items, element, path, shape) == Err(code)
       <==> FailsToReshapeAt(ListTree(items), element, path, shape, code)
    decreases path
  {
    hide FailsToReshape, Reshape, IsLost;
    var t := ListTree(items);
    if path == [] {
      ReshapeFails(items, element, shape, code);
    } else {
      LostIff(t, path, "E603", code);
      assert path[..1][0] == path[0] && path[..1][1..] == [] && SlotAt(t, []) == Some(t);
      if IsPosition(path[0]) && path[0].i < |items| {
        var i, inner := path[0].i, path[1..];
        assert Conforms(items[i], element) && SlotAt(t, path) == SlotAt(items[i], inner);
        if items[i].ListTree? {
          ReshapeAtFails(items[i].items, element.element, inner, shape, code);
        } else {
          LeafIsLost(items[i], inner, "E603", code);
        }
      }
    }
  }

  /** Nothing stands behind a leaf. */
  lemma LeafIsLost(t: Tree, path: seq<Index>, outside: string, code: string)
    requires !t.ListTree?
    ensures path != [] ==> SlotAt(t, path).None?
    ensures path != [] ==> (IsLost(t, path, outside, code) <==> code == if t.EmptyTree? then "E131" else "E201")
  {
    if path != [] {
      LostIff(t, path, outside, code);
      assert path[..1] != [] && SlotAt(t, path[..0]) == Some(t);
    }
  }

  ghost predicate FailsToReshapeVariable(v: Variable, path: seq<Index>, shape: Shape, code: string) {
    if v.constant then code == "E211"
    else if v.value.EmptyTree? then code == "E131"
    else if !v.value.ListTree? then code == "E201"
    else FailsToReshapeAt(v.value, v.element, path, shape, code)
  }

  lemma ReshapeVariableFails(v: Variable, path: seq<Index>, shape: Shape, code: string)
    requires Typed(v)
    ensures ReshapeVariable(v, path, shape) == Err(code) <==> FailsToReshapeVariable(v, path, shape, code)
  {
    hide FailsToReshapeAt, ReshapeAt;
    if v.value.ListTree? { ReshapeAtFails(v.value.items, v.element, path, shape, code); }
  }
}

/** Which error an operation of a run ends with. */
module RunErrors {
  import opened Ast
  import opened TypeSpecs
  import opened Trees
  import opened StoreSpec
  import opened StoreExact
  import opened StoreErrors
  import opened StoreRuns
  import opened RunsExact

  // ---- Expressions ----

  ghost predicate HasValue(frames: Frames, e: ValueExpr) { exists value :: IsValue(frames, e, value) }

  /** The first `n` of these expressions have values. */
  ghost predicate HaveValues(frames: Frames, es: seq<ValueExpr>, n: nat)
    requires n <= |es|
  {
    forall i | 0 <= i < n :: HasValue(frames, es[i])
  }

  ghost predicate IsUnknownName(frames: Frames, name: string) {
    forall i :: !IsFrameOf(frames, name, i)
  }

  /** E202 for a name that nobody has; for an index, what it is asked of and how; for a display, the first element
      that has no value, or elements without a common type. */
  ghost predicate FailsToEvaluate(frames: Frames, e: ValueExpr, code: string)
    decreases e, 1
  {
    match e
    case Leaf(_) => false
    case Read(name) => IsUnknownName(frames, name) && code == "E202"
    case Element(target, index) =>
      if !HasValue(frames, target) then FailsToEvaluate(frames, target, code)
      else exists list :: IsValue(frames, target, list) && IsLostAt(list, [index], 0, "E302", code)
    case Display(items) =>
      if !HaveValues(frames, items, |items|) then
        exists i: nat :: i < |items| && HaveValues(frames, items, i) && FailsToEvaluate(frames, items[i], code)
      else exists values :: AreValues(frames, items, values) && HasNoType(ListTree(values))
             && ValueSpec(ListTree(values)) == Err(code)
  }

  lemma HasValueIff(frames: Frames, e: ValueExpr)
    requires frames != []
    ensures HasValue(frames, e) <==> Evaluate(frames, e).Ok?
    ensures Evaluate(frames, e).Ok? ==> IsValue(frames, e, Evaluate(frames, e).value)
  {
    OneValue(frames, e);
  }

  lemma {:induction false} EvaluateFails(frames: Frames, e: ValueExpr, code: string)
    requires frames != []
    ensures Evaluate(frames, e) == Err(code) <==> FailsToEvaluate(frames, e, code)
    decreases e, 1
  {
    hide IsValue;
    match e
    case Leaf(_) =>
    case Read(name) =>
      var i := FrameOf(frames, name);
      if i.Some? { FrameOfIff(frames, name, i.value); }
    case Element(target, index) =>
      HasValueIff(frames, target);
      OneValue(frames, target);
      EvaluateFails(frames, target, code);
      if Evaluate(frames, target).Ok? {
        SlotAtOne(Evaluate(frames, target).value, index);
        assert [index][..0] == [] && [index][..1] == [index];
      }
    case Display(items) => DisplayFails(frames, items, code);
  }

  lemma {:induction false} DisplayFails(frames: Frames, items: seq<ValueExpr>, code: string)
    requires frames != []
    ensures Evaluate(frames, Display(items)) == Err(code) <==> FailsToEvaluate(frames, Display(items), code)
    decreases items, 1
  {
    AllFail(frames, items, code);
    var values := EvaluateAll(frames, items);
    forall vs
      ensures AreValues(frames, items, vs) <==> values == Ok(vs)
    {
      ValuesIff(frames, items, vs);
    }
    if values.Ok? {
      HasNoTypeIff(ListTree(values.value));
      assert AreValues(frames, items, values.value);
    }
  }

  /** The first failure among expressions is that of the first one, or the first one behind it. */
  lemma FirstFailureIs(frames: Frames, es: seq<ValueExpr>, code: string)
    requires es != [] && (HasValue(frames, es[0]) ==> !FailsToEvaluate(frames, es[0], code))
    ensures (exists i: nat :: i < |es| && HaveValues(frames, es, i) && FailsToEvaluate(frames, es[i], code))
       <==> if !HasValue(frames, es[0]) then FailsToEvaluate(frames, es[0], code)
            else exists i: nat :: i < |es| - 1 && HaveValues(frames, es[1..], i)
                   && FailsToEvaluate(frames, es[i + 1], code)
  {
    hide HasValue, FailsToEvaluate;
    if i: nat :| i < |es| && HaveValues(frames, es, i) && FailsToEvaluate(frames, es[i], code) {
      if i > 0 {
        MoreValues(frames, es, i - 1);
        assert HaveValues(frames, es[1..], i - 1);
      }
    }
    if HasValue(frames, es[0]) {
      if i: nat :| i < |es| - 1 && HaveValues(frames, es[1..], i) && FailsToEvaluate(frames, es[i + 1], code) {
        MoreValues(frames, es, i);
        assert HaveValues(frames, es, i + 1);
      }
    } else if FailsToEvaluate(frames, es[0], code) {
      assert HaveValues(frames, es, 0);
    }
  }

  lemma MoreValues(frames: Frames, es: seq<ValueExpr>, i: nat)
    requires i < |es|
    ensures HaveValues(frames, es, i + 1) <==> HasValue(frames, es[0]) && HaveValues(frames, es[1..], i)
  {
    assert forall j | 0 <= j < i :: es[1..][j] == es[j + 1];
    if HasValue(frames, es[0]) && HaveValues(frames, es[1..], i) {
      forall j | 0 <= j < i + 1
        ensures HasValue(frames, es[j])
      {
        if j > 0 { assert es[j] == es[1..][j - 1]; }
      }
    }
  }

  lemma {:induction false} AllFail(frames: Frames, es: seq<ValueExpr>, code: string)
    requires frames != []
    ensures HaveValues(frames, es, |es|) <==> EvaluateAll(frames, es).Ok?
    ensures EvaluateAll(frames, es) == Err(code)
       <==> exists i: nat :: i < |es| && HaveValues(frames, es, i) && FailsToEvaluate(frames, es[i], code)
    decreases es, 0
  {
    if es != [] {
      HasValueIff(frames, es[0]);
      EvaluateFails(frames, es[0], code);
      AllFail(frames, es[1..], code);
      FirstFailureIs(frames, es, code);
      hide FailsToEvaluate, Evaluate, HasValue, HaveValues;
      MoreValues(frames, es, |es| - 1);
    }
  }

  // ---- Operations ----

  ghost predicate FailsToAssign(frame: map<string, Variable>, name: string, value: Tree, code: string) {
    if name in frame then FailsNext(frame[name], value, code) else FailsFirst(value, code)
  }

  ghost predicate FailsToDefineIn(frame: map<string, Variable>, op: Operation, value: Tree, code: string)
    requires op.Define?
  {
    if !IsDeclarable(op.declared) then code == UNMODELLED
    else if value.VoidTree? then code == "E126"
    else if op.name in frame then code == "E210"
    else FailsToDefine(op.declared, value, op.constant, code)
  }

  /** The operations that change a variable: all but calls, and returns without a value. */
  predicate ChangesVariable(op: Operation) { !op.Call? && !op.Return? }

  /** The error of an operation: that of its value, and then that of the variable. */
  ghost predicate FailsAsStep(frames: Frames, op: Operation, code: string)
    requires frames != [] && ChangesVariable(op)
  {
    var last := |frames| - 1;
    if op.ReturnTo? && last == 0 then code == "E110"
    else if !op.Reshape? && !HasValue(frames, op.e) then FailsToEvaluate(frames, op.e, code)
    else match op
    case Assign(name, e) => exists value :: IsValue(frames, e, value) && FailsToAssign(frames[last], name, value, code)
    case Define(_, _, e, _) =>
      exists value :: IsValue(frames, e, value) && FailsToDefineIn(frames[last], op, value, code)
    case AssignAt(name, indexes, e) =>
      if IsUnknownName(frames, name) then code == "E202"
      else exists i, value :: IsFrameOf(frames, name, i) && IsValue(frames, e, value)
             && FailsToIndex(frames[i][name], indexes, value, code)
    case Reshape(name, path, shape) =>
      if IsUnknownName(frames, name) then code == "E202"
      else exists i :: IsFrameOf(frames, name, i) && FailsToReshapeVariable(frames[i][name], path, shape, code)
    case ReturnTo(name, e) =>
      exists value :: IsValue(frames, e, value) && FailsToAssign(frames[last - 1], name, value, code)
    case _ => false
  }

  lemma StepFails(frames: Frames, op: Operation, code: string)
    requires frames != [] && AllTyped(frames) && ChangesVariable(op)
    ensures Step(frames, op) == Err(code) <==> FailsAsStep(frames, op, code)
  {
    hide FailsAsStep, Step, FailsToEvaluate;
    if op.Reshape? {
      ReshapeStepFails(frames, op, code);
    } else if HasValue(frames, op.e) {
      ValuedStepFails(frames, op, code);
    } else {
      EvaluateFails(frames, op.e, code);
      HasValueIff(frames, op.e);
      UnvaluedStepFails(frames, op, code);
    }
  }

  lemma UnvaluedStepFails(frames: Frames, op: Operation, code: string)
    requires frames != [] && ChangesVariable(op) && !op.Reshape? && !HasValue(frames, op.e)
    requires Evaluate(frames, op.e).Err?
    requires Evaluate(frames, op.e) == Err(code) <==> FailsToEvaluate(frames, op.e, code)
    ensures Step(frames, op) == Err(code) <==> FailsAsStep(frames, op, code)
  {
    hide Evaluate, HasValue, FailsToEvaluate;
  }

  lemma ReshapeStepFails(frames: Frames, op: Operation, code: string)
    requires frames != [] && AllTyped(frames) && op.Reshape?
    ensures Step(frames, op) == Err(code) <==> FailsAsStep(frames, op, code)
  {
    hide FailsToReshapeVariable, ReshapeVariable;
    var i := TargetOf(frames, op.name);
    if i.Some? { ReshapeVariableFails(frames[i.value][op.name], op.path, op.shape, code); }
  }

  lemma ValuedStepFails(frames: Frames, op: Operation, code: string)
    requires frames != [] && AllTyped(frames) && ChangesVariable(op) && !op.Reshape? && HasValue(frames, op.e)
    ensures Step(frames, op) == Err(code) <==> FailsAsStep(frames, op, code)
  {
    hide FailsNext, FailsFirst, FailsToDefine, FailsToIndex, IsValue, Evaluate;
    var last := |frames| - 1;
    HasValueIff(frames, op.e);
    OneValue(frames, op.e);
    match op
    case Assign(name, e) => AssignFails(frames[last], name, Evaluate(frames, e).value, code);
    case Define(_, declared, e, constant) =>
      if IsDeclarable(declared) { DefineFails(declared, Evaluate(frames, e).value, constant, code); }
    case AssignAt(name, indexes, e) =>
      var i := TargetOf(frames, name);
      if i.Some? { AssignIndexesFails(frames[i.value][name], indexes, Evaluate(frames, e).value, code); }
    case ReturnTo(name, e) =>
      if last > 0 { AssignFails(frames[last - 1], name, Evaluate(frames, e).value, code); }
    case _ =>
  }

  lemma AssignFails(frame: map<string, Variable>, name: string, value: Tree, code: string)
    requires name in frame ==> Typed(frame[name])
    ensures AssignIn(frame, name, value) == Err(code) <==> FailsToAssign(frame, name, value, code)
  {
    if name in frame { ReassignFails(frame[name], value, code); } else { IntroduceFails(value, code); }
  }

  lemma TargetOf(frames: Frames, name: string) returns (i: Option<nat>)
    requires frames != [] && AllTyped(frames)
    ensures i == FrameOf(frames, name)
    ensures IsUnknownName(frames, name) <==> i.None?
    ensures forall k :: IsFrameOf(frames, name, k) <==> i.Some? && k == i.value
    ensures i.Some? ==> i.value < |frames| && name in frames[i.value] && Typed(frames[i.value][name])
  {
    i := FrameOf(frames, name);
    if i.Some? { FrameOfIff(frames, name, i.value); }
  }
}
