/** The typed store, with lists as values: assignment, typed definition, indexed assignment
    and the list shape operations, and the invariant that they keep. */
module StoreSpec {
  import opened Ast
  import opened TypeSpecs
  import opened Trees

  /** A variable; `element` is the element type of a list, and unknown for anything else. */
  datatype Variable = Variable(value: Tree, declaredType: string, element: Spec, constant: bool)

  function SlotSpec(declaredType: string, element: Spec): Spec {
    if declaredType == "list" then ListOf(element)
    else if declaredType == "VOID" || declaredType == "EMPTYS" then Unknown
    else Scalar(declaredType)
  }

  /** The invariant of a variable: its value conforms to its type at every depth. */
  predicate Typed(v: Variable) {
    && Conforms(v.value, SlotSpec(v.declaredType, v.element))
    && (v.declaredType != "list" ==> v.element.Unknown?)
  }

  /** A variable may change its value, and the element type may be refined; nothing else. */
  predicate Evolves(before: Variable, after: Variable) {
    && after.declaredType == before.declaredType
    && after.constant == before.constant
    && Refines(before.element, after.element)
  }

  // ---- Assignment ----

  /** A new variable takes its type from its first value. */
  function Introduce(value: Tree): Result<Variable> {
    match value
    case VoidTree => Err("E126")
    case EmptysTree => Err("E133")
    case EmptyTree(spec) =>
      if spec.Unknown? then Err("E129")
      else Ok(Variable(value, TypeName(value), if spec.ListOf? then spec.element else Unknown, false))
    case ScalarTree(name, _) => Ok(Variable(value, name, Unknown, false))
    case ListTree(items) =>
      var element := ElementSpec(items);
      if element.Err? then Err(element.code)
      else
        var normal := NormalizeList(items, element.value);
        if normal.Err? then Err(normal.code) else Ok(Variable(ListTree(normal.value), "list", element.value, false))
  }

  function Reassign(v: Variable, value: Tree): Result<Variable> {
    if value.VoidTree? then Err("E126")
    else if v.constant then Err("E211")
    else match value
    case EmptysTree =>
      var cleared := Clear(v.value, v.declaredType, v.element);
      if cleared.Err? then Err(cleared.code) else Ok(v.(value := cleared.value))
    case EmptyTree(_) => Ok(v.(value := EmptyTree(SlotSpec(v.declaredType, v.element))))
    case ScalarTree(name, _) => if v.declaredType != name then Err("E201") else Ok(v.(value := value))
    case ListTree(items) =>
      var actual := ElementSpec(items);
      if actual.Err? then Err(actual.code)
      else if v.declaredType != "list" || !Compatible(v.element, actual.value) then Err("E201")
      else
        var element := Merge(v.element, actual.value);
        var normal := NormalizeList(items, element);
        if normal.Err? then Err(normal.code) else Ok(v.(value := ListTree(normal.value), element := element))
  }

  /** A typed definition fixes the declared type, whatever the value is known to be. */
  function Define(declared: DeclaredType, value: Tree, constant: bool): Result<Variable>
    requires declared.name != "VOID" && declared.name != "EMPTYS"
  {
    if value.VoidTree? then Err("E126")
    else if constant && (value.EmptyTree? || value.EmptysTree?) then Err("E130")
    else
      var prepared := Prepare(declared, value);
      if prepared.Err? then Err(prepared.code)
      else Ok(Variable(prepared.value, declared.name, declared.element, constant))
  }

  function Prepare(declared: DeclaredType, value: Tree): Result<Tree>
    requires declared.name != "VOID" && declared.name != "EMPTYS"
  {
    match value
    case EmptysTree => if declared.name == "list" then Ok(ListTree([])) else Err("E133")
    case EmptyTree(spec) =>
      if !spec.Unknown? && TypeName(value) != declared.name then Err("E201")
      else Ok(EmptyTree(SlotSpec(declared.name, declared.element)))
    case ListTree(items) =>
      if declared.name != "list" then Err("E201")
      else
        var actual := ElementSpec(items);
        if actual.Err? then Err(actual.code)
        else if !Compatible(declared.element, actual.value) then Err("E201")
        else
          var normal := NormalizeList(items, declared.element);
          if normal.Err? then Err(normal.code) else Ok(ListTree(normal.value))
    case _ => if TypeName(value) != declared.name then Err("E201") else Ok(value)
  }

  /** What the parser can declare: VOID and EMPTYS are no types of variables, and only lists have elements. */
  predicate IsDeclarable(declared: DeclaredType) {
    && declared.name != "VOID" && declared.name != "EMPTYS"
    && (declared.name != "list" ==> declared.element.Unknown?)
  }

  /** An assignment in an environment. */
  function AssignIn(frame: map<string, Variable>, name: string, value: Tree): Result<map<string, Variable>> {
    var v := if name in frame then Reassign(frame[name], value) else Introduce(value);
    if v.Err? then Err(v.code) else Ok(frame[name := v.value])
  }

  /** A typed definition in an environment. */
  function DefineIn(frame: map<string, Variable>, name: string, declared: DeclaredType, value: Tree, constant: bool):
    Result<map<string, Variable>>
  {
    if !IsDeclarable(declared) then Err(UNMODELLED)
    else if value.VoidTree? then Err("E126")
    else if name in frame then Err("E210")
    else
      var v := Define(declared, value, constant);
      if v.Err? then Err(v.code) else Ok(frame[name := v.value])
  }

  // ---- Parameters ----

  /** A declared parameter prepares its argument; the others need a type to be inferred. */
  function PrepareArgument(p: Parameter, value: Tree): Result<Tree> {
    if p.declared.Some? then
      if IsDeclarable(p.declared.value) then Prepare(p.declared.value, value) else Err(UNMODELLED)
    else if value == EmptyTree(Unknown) then Err("E129")
    else Ok(value)
  }

  function PrepareArguments(parameters: seq<Parameter>, arguments: seq<Tree>): (r: Result<seq<Tree>>)
    requires |parameters| == |arguments|
    ensures r.Ok? ==> |r.value| == |arguments|
  {
    if parameters == [] then Ok([])
    else
      var first := PrepareArgument(parameters[0], arguments[0]);
      if first.Err? then Err(first.code)
      else
        var rest := PrepareArguments(parameters[1..], arguments[1..]);
        if rest.Err? then rest else Ok([first.value] + rest.value)
  }

  /** Binds parameters in order, exactly as assignments and typed definitions would. */
  function BindParameters(frame: map<string, Variable>, parameters: seq<Parameter>, values: seq<Tree>):
    Result<map<string, Variable>>
    requires |parameters| == |values|
    decreases |parameters|
  {
    if parameters == [] then Ok(frame)
    else
      var p := parameters[0];
      var bound := if p.declared.None? then AssignIn(frame, p.name, values[0])
                   else DefineIn(frame, p.name, p.declared.value, values[0], false);
      if bound.Err? then bound else BindParameters(bound.value, parameters[1..], values[1..])
  }

  // ---- Indexed assignment ----

  /** An index is checked when it is used; anything but an integer is refused. */
  datatype Index = At(i: int) | NotAnInteger

  predicate IsPosition(index: Index) { index.At? && index.i >= 0 }

  /** Replaces the slot behind the indexes, and merges what is learned about its type. */
  function UpdateItems(items: seq<Tree>, indexes: seq<Index>, expected: Spec, value: Tree): Result<(seq<Tree>, Spec)>
    requires indexes != []
    decreases indexes
  {
    if !IsPosition(indexes[0]) then Err("E201")
    else if indexes[0].i >= |items| then Err("E302")
    else
      var i := indexes[0].i;
      var slot :=
        if |indexes| == 1 then UpdateSlot(items[i], expected, value)
        else if items[i].EmptyTree? then Err("E131")
        else if !items[i].ListTree? then Err("E201")
        else
          var child := if expected.ListOf? then Ok(expected.element) else ElementSpec(items[i].items);
          if child.Err? then Err(child.code)
          else
            var inner := UpdateItems(items[i].items, indexes[1..], child.value, value);
            if inner.Err? then Err(inner.code) else Ok((ListTree(inner.value.0), ListOf(inner.value.1)));
      if slot.Err? then Err(slot.code) else Ok((items[i := slot.value.0], Merge(expected, slot.value.1)))
  }

  /** The new content of a slot, and the type adopted for it. */
  function UpdateSlot(current: Tree, expected: Spec, value: Tree): Result<(Tree, Spec)> {
    match value
    case EmptysTree =>
      if !current.ListTree? then Err("E133")
      else Ok((ListTree(ClearItems(current.items, if expected.ListOf? then expected.element else Unknown)), expected))
    case EmptyTree(_) =>
      var slot := if expected.Unknown? then ValueSpec(current) else Ok(expected);
      if slot.Err? then Err(slot.code) else Ok((EmptyTree(slot.value), slot.value))
    case VoidTree => Err("E201")
    case _ =>
      var actual := ValueSpec(value);
      if actual.Err? then Err(actual.code)
      else if !Compatible(expected, actual.value) then Err("E201")
      else
        var adopted := Merge(expected, actual.value);
        var normal := Normalize(value, adopted);
        if normal.Err? then Err(normal.code) else Ok((normal.value, adopted))
  }

  /** The rebuilt list is normalised once more as a whole, to the merged element type. */
  function AssignIndexes(v: Variable, indexes: seq<Index>, value: Tree): Result<Variable> {
    if v.constant then Err("E211")
    else if v.declaredType != "list" || !v.value.ListTree? then Err("E201")
    else if indexes == [] then Err("E302")
    else
      var updated := UpdateItems(v.value.items, indexes, v.element, value);
      if updated.Err? then Err(updated.code)
      else
        var normal := NormalizeList(updated.value.0, updated.value.1);
        if normal.Err? then Err(normal.code)
        else Ok(v.(value := ListTree(normal.value), element := updated.value.1))
  }

  // ---- List shape operations ----

  /** front and back, by their spelling, or an index. Only "front" means the front. */
  datatype Position = Selector(name: string) | Numbered(index: Index)

  datatype Shape =
    | Insert(position: Position, count: Index)
    | Remove(position: Position, count: Index)
    | RemoveHorizontal(row: Index, position: Position, count: Index)
    | RemoveVertical(column: Index, position: Position, count: Index)

  function PositionIn(position: Position, maximum: nat): (r: Result<nat>)
    ensures r.Ok? ==> r.value <= maximum
  {
    match position
    case Selector(name) => Ok(if name == "front" then 0 else maximum)
    case Numbered(index) =>
      if !IsPosition(index) then Err("E201") else if index.i > maximum then Err("E603") else Ok(index.i)
  }

  predicate IsCount(count: Index) { count.At? && count.i >= 1 }

  function Without(items: seq<Tree>, i: nat, count: nat): seq<Tree>
    requires i + count <= |items|
  {
    items[..i] + items[i + count..]
  }

  function Empties(count: nat, spec: Spec): seq<Tree> {
    seq(count, _ => EmptyTree(spec))
  }

  function InsertEmpty(items: seq<Tree>, element: Spec, position: Position, count: nat): Result<seq<Tree>> {
    var known := if element.Unknown? then ElementSpec(items) else Ok(element);
    if known.Err? then Err(known.code)
    else if known.value.Unknown? then Err("E134")
    else
      var i := PositionIn(position, |items|);
      if i.Err? then Err(i.code) else Ok(items[..i.value] + Empties(count, known.value) + items[i.value..])
  }

  function RemoveSlots(items: seq<Tree>, position: Position, count: nat): (r: Result<seq<Tree>>)
    ensures r.Ok? ==> forall t | t in r.value :: t in items
  {
    if count > |items| then Err("E603")
    else
      var i := PositionIn(position, |items| - count);
      if i.Err? then Err(i.code) else Ok(Without(items, i.value, count))
  }

  /** From row `start` down, every row has a cell in this column. */
  predicate HasColumn(items: seq<Tree>, start: nat, column: nat) {
    forall r | start <= r < |items| :: items[r].ListTree? && column < |items[r].items|
  }

  function Cell(items: seq<Tree>, start: nat, column: nat, r: nat): Tree
    requires HasColumn(items, start, column) && start <= r < |items|
  {
    items[r].items[column]
  }

  /** The column moves up by `count` cells from row `start` down, and typed EMPTY cells follow. */
  function ShiftColumn(items: seq<Tree>, start: nat, column: nat, count: nat, cell: Spec): seq<Tree>
    requires HasColumn(items, start, column)
  {
    seq(|items|, r requires 0 <= r < |items| =>
      if r < start then items[r]
      else ListTree(items[r].items[column :=
        if r + count < |items| then Cell(items, start, column, r + count) else EmptyTree(cell)]))
  }

  lemma ShiftColumnAt(items: seq<Tree>, start: nat, column: nat, count: nat, cell: Spec, r: nat)
    requires HasColumn(items, start, column) && start <= r < |items|
    ensures |ShiftColumn(items, start, column, count, cell)| == |items|
    ensures ShiftColumn(items, start, column, count, cell)[r] == ListTree(items[r].items[column :=
              if r + count < |items| then Cell(items, start, column, r + count) else EmptyTree(cell)])
  {
  }

  function RemoveColumnCells(items: seq<Tree>, element: Spec, column: Index, position: Position, count: nat):
    Result<seq<Tree>>
  {
    if !IsPosition(column) then Err("E201")
    else if count > |items| then Err("E603")
    else
      var start := PositionIn(position, |items| - count);
      if start.Err? then Err(start.code)
      else if !HasColumn(items, start.value, column.i) then Err("E605")
      else
        var cells := seq(|items| - start.value, k requires 0 <= k < |items| - start.value =>
                           Cell(items, start.value, column.i, start.value + k));
        var cell := if element.ListOf? && !element.element.Unknown? then Ok(element.element)
            else FoldSpecs(Unknown, cells);
        if cell.Err? then Err(cell.code)
        else if cell.value.Unknown? then Err("E134")
        else Ok(ShiftColumn(items, start.value, column.i, count, cell.value))
  }

  /** One shape operation on the items of a list with the given element type. */
  function Reshape(items: seq<Tree>, element: Spec, shape: Shape): Result<seq<Tree>> {
    if !IsCount(shape.count) then Err("E201")
    else
      var count := shape.count.i;
      match shape
      case Insert(position, _) => InsertEmpty(items, element, position, count)
      case Remove(position, _) => RemoveSlots(items, position, count)
      case RemoveHorizontal(row, position, _) =>
        if !IsPosition(row) then Err("E201")
        else if row.i >= |items| then Err("E603")
        else if !items[row.i].ListTree? then Err("E201")
        else
          var shorter := RemoveSlots(items[row.i].items, position, count);
          if shorter.Err? then shorter else Ok(items[row.i := ListTree(shorter.value)])
      case RemoveVertical(column, position, _) => RemoveColumnCells(items, element, column, position, count)
  }

  /** Follows the indexes from a list variable to the row that an operation names. */
  function ReshapeAt(items: seq<Tree>, element: Spec, path: seq<Index>, shape: Shape): Result<seq<Tree>>
    decreases path
  {
    if path == [] then Reshape(items, element, shape)
    else if !IsPosition(path[0]) then Err("E201")
    else if path[0].i >= |items| then Err("E603")
    else
      var i := path[0].i;
      if items[i].EmptyTree? then Err("E131")
      else if !items[i].ListTree? then Err("E201")
      else
        var child := if element.ListOf? then Ok(element.element) else ElementSpec(items[i].items);
        if child.Err? then Err(child.code)
        else
          var inner := ReshapeAt(items[i].items, child.value, path[1..], shape);
          if inner.Err? then inner else Ok(items[i := ListTree(inner.value)])
  }

  function ReshapeVariable(v: Variable, path: seq<Index>, shape: Shape): Result<Variable> {
    if v.constant then Err("E211")
    else if v.value.EmptyTree? then Err("E131")
    else if !v.value.ListTree? then Err("E201")
    else
      var items := ReshapeAt(v.value.items, v.element, path, shape);
      if items.Err? then Err(items.code) else Ok(v.(value := ListTree(items.value)))
  }

  // ---- Every operation keeps the type invariant ----

  lemma IntroduceIsTyped(value: Tree)
    requires Introduce(value).Ok?
    ensures Typed(Introduce(value).value)
  {
    if value.ListTree? {
      NormalizeListConforms(value.items, ElementSpec(value.items).value);
    }
  }

  lemma ReassignIsTyped(v: Variable, value: Tree)
    requires Typed(v) && Reassign(v, value).Ok?
    ensures Typed(Reassign(v, value).value) && Evolves(v, Reassign(v, value).value)
  {
    RefinesReflexive(v.element);
    match value
    case EmptysTree =>
      ClearConforms(v.value, SlotSpec(v.declaredType, v.element));
    case ListTree(items) =>
      var actual := ElementSpec(items).value;
      MergeIsLeastUpperBound(v.element, actual, v.element);
      NormalizeListConforms(items, Merge(v.element, actual));
    case _ =>
  }

  lemma DefineIsTyped(declared: DeclaredType, value: Tree, constant: bool)
    requires declared.name != "VOID" && declared.name != "EMPTYS"
    requires declared.name != "list" ==> declared.element.Unknown?
    requires Define(declared, value, constant).Ok?
    ensures Typed(Define(declared, value, constant).value)
  {
    if value.ListTree? {
      NormalizeListConforms(value.items, declared.element);
    }
  }

  /** What an indexed assignment adopts refines what was expected, and every slot is still
      covered by it: so the closing normalisation cannot fail. */
  lemma {:induction false} UpdateItemsFits(items: seq<Tree>, indexes: seq<Index>, expected: Spec, value: Tree)
    requires indexes != [] && ConformAll(items, expected) && UpdateItems(items, indexes, expected, value).Ok?
    ensures var (updated, adopted) := UpdateItems(items, indexes, expected, value).value;
            && |updated| == |items| > 0
            && Refines(expected, adopted) && !adopted.Unknown?
            && forall i | 0 <= i < |updated| :: Fits(updated[i], adopted) && Determined(updated[i], adopted)
    decreases indexes
  {
    var i := indexes[0].i;
    assert Conforms(items[i], expected);
    var (updated, adopted) := UpdateItems(items, indexes, expected, value).value;
    var slot: (Tree, Spec);
    if |indexes| == 1 {
      slot := UpdateSlot(items[i], expected, value).value;
      UpdateSlotFits(items[i], expected, value);
    } else {
      var inner := UpdateItems(items[i].items, indexes[1..], expected.element, value).value;
      slot := (ListTree(inner.0), ListOf(inner.1));
      UpdateItemsFits(items[i].items, indexes[1..], expected.element, value);
    }
    RefinedCompatible(expected, slot.1);
    MergeIsLeastUpperBound(expected, slot.1, slot.1);
    RefinesReflexive(slot.1);
    RefinesAntisymmetric(slot.1, adopted);
    forall k | 0 <= k < |updated|
      ensures Fits(updated[k], adopted) && Determined(updated[k], adopted)
    {
      if k != i {
        assert Conforms(items[k], expected);
        ConformingFitsRefined(items[k], expected, adopted);
      }
    }
  }

  lemma RefinedCompatible(a: Spec, b: Spec)
    requires Refines(a, b)
    ensures Compatible(a, b)
  {
    RefinesReflexive(b);
    BoundedIsCompatible(a, b, b);
  }

  lemma UpdateSlotFits(current: Tree, expected: Spec, value: Tree)
    requires Conforms(current, expected) && !expected.Unknown? && UpdateSlot(current, expected, value).Ok?
    ensures var (slot, adopted) := UpdateSlot(current, expected, value).value;
            Refines(expected, adopted) && Fits(slot, adopted) && Determined(slot, adopted)
  {
    RefinesReflexive(expected);
    if value.EmptysTree? {
      ClearConforms(current, expected);
      ConformingFitsRefined(ClearItem(current, expected), expected, expected);
    } else if !value.EmptyTree? {
      var actual := ValueSpec(value).value;
      var adopted := Merge(expected, actual);
      MergeIsLeastUpperBound(expected, actual, adopted);
      RefinesReflexive(adopted);
      NormalizeConforms(value, adopted);
      ConformingFitsRefined(Normalize(value, adopted).value, adopted, adopted);
    }
  }

  /** An indexed assignment fails before it changes anything, or not at all: once the slot is
      updated, normalising the whole list succeeds. */
  lemma FinalNormalizeSucceeds(v: Variable, indexes: seq<Index>, value: Tree)
    requires Typed(v) && v.value.ListTree? && indexes != []
    requires UpdateItems(v.value.items, indexes, v.element, value).Ok?
    ensures var (updated, adopted) := UpdateItems(v.value.items, indexes, v.element, value).value;
            NormalizeList(updated, adopted).Ok?
  {
    UpdateItemsFits(v.value.items, indexes, v.element, value);
    var (updated, adopted) := UpdateItems(v.value.items, indexes, v.element, value).value;
    NormalizeListIffDetermined(updated, adopted);
  }

  lemma AssignIndexesIsTyped(v: Variable, indexes: seq<Index>, value: Tree)
    requires Typed(v) && AssignIndexes(v, indexes, value).Ok?
    ensures Typed(AssignIndexes(v, indexes, value).value) && Evolves(v, AssignIndexes(v, indexes, value).value)
  {
    UpdateItemsFits(v.value.items, indexes, v.element, value);
    var (updated, adopted) := UpdateItems(v.value.items, indexes, v.element, value).value;
    NormalizeListConforms(updated, adopted);
  }

  lemma NothingConformsToUnknown(t: Tree)
    ensures !Conforms(t, Unknown)
  {
  }

  lemma UnknownIsEmpty(items: seq<Tree>)
    requires ConformAll(items, Unknown)
    ensures items == [] && ElementSpec(items) == Ok(Unknown)
  {
    if items != [] {
      NothingConformsToUnknown(items[0]);
    }
  }

  lemma ReshapeConforms(items: seq<Tree>, element: Spec, shape: Shape)
    requires ConformAll(items, element) && Reshape(items, element, shape).Ok?
    ensures ConformAll(Reshape(items, element, shape).value, element)
  {
    match shape
    case Insert(_, _) =>
      if element.Unknown? {
        UnknownIsEmpty(items);
      }
    case Remove(position, count) => assert forall t | t in items :: Conforms(t, element);
    case RemoveHorizontal(row, position, count) =>
      var cells := items[row.i].items;
      assert Conforms(items[row.i], element);
      assert forall t | t in cells :: Conforms(t, element.element);
    case RemoveVertical(column, position, count) =>
      var start := PositionIn(position, |items| - count.i).value;
      assert Conforms(items[start], element);
      assert Conforms(items[start].items[column.i], element.element) && !element.element.Unknown?;
      assert Reshape(items, element, shape).value == ShiftColumn(items, start, column.i, count.i, element.element);
      forall r | 0 <= r < |items|
        ensures Conforms(Reshape(items, element, shape).value[r], element)
      {
        assert Conforms(items[r], element);
        if r >= start && r + count.i < |items| {
          assert Conforms(items[r + count.i], element);
          assert Conforms(Cell(items, start, column.i, r + count.i), element.element);
        }
      }
  }

  lemma {:induction false} ReshapeAtConforms(items: seq<Tree>, element: Spec, path: seq<Index>, shape: Shape)
    requires ConformAll(items, element) && ReshapeAt(items, element, path, shape).Ok?
    ensures ConformAll(ReshapeAt(items, element, path, shape).value, element)
    decreases path
  {
    if path == [] {
      ReshapeConforms(items, element, shape);
    } else {
      var i := path[0].i;
      assert Conforms(items[i], element);
      ReshapeAtConforms(items[i].items, element.element, path[1..], shape);
    }
  }

  lemma ReshapeVariableIsTyped(v: Variable, path: seq<Index>, shape: Shape)
    requires Typed(v) && ReshapeVariable(v, path, shape).Ok?
    ensures Typed(ReshapeVariable(v, path, shape).value) && Evolves(v, ReshapeVariable(v, path, shape).value)
  {
    ReshapeAtConforms(v.value.items, v.element, path, shape);
    RefinesReflexive(v.element);
  }
}
