/** Variables that hold list objects. A binding owns the objects that it reaches, and assigning to
    it, or reshaping it, is proved to do exactly what the same operation does when lists are plain
    values. */
module Bindings {
  import opened Ast
  import opened TypeSpecs
  import opened Trees
  import opened StoreSpec
  import opened HeapLists
  import opened Stores

  datatype Holding = Holding(value: Slot, node: Node, lists: set<ListObject>, declaredType: string, element: Spec)

  class Binding {
    var value: Slot
    var declaredType: string
    var element: Spec
    const constant: bool
    ghost var node: Node
    ghost var lists: set<ListObject>

    /** The value conforms to the type, and its list objects form a tree of the binding's own. */
    ghost predicate Valid()
      reads this, lists
    {
      && value == SlotOf(node)
      && Live(node, lists)
      && IsTree(Lists(node))
      && Typed(Contents())
    }

    /** Everything that the binding holds. */
    ghost function Held(): Holding
      reads this
    {
      Holding(value, node, lists, declaredType, element)
    }

    ghost function Contents(): Variable
      reads this
    {
      Variable(TreeOf(node), declaredType, element, constant)
    }

    constructor (value: Slot, declaredType: string, element: Spec, constant: bool, ghost node: Node,
                 ghost lists: set<ListObject>)
      requires value == SlotOf(node) && Live(node, lists) && IsTree(Lists(node))
      requires Typed(Variable(TreeOf(node), declaredType, element, constant))
      ensures Valid() && Contents() == Variable(TreeOf(node), declaredType, element, constant)
      ensures this.lists == lists
    {
      this.value, this.declaredType, this.element, this.constant := value, declaredType, element, constant;
      this.node, this.lists := node, lists;
    }

    /** Assignment to an existing variable. The new list objects are the binding's own. */
    method Assign(incoming: Slot, ghost n: Node, ghost within: set<ListObject>) returns (failure: Option<string>)
      requires Valid() && Live(n, within) && incoming == SlotOf(n)
      modifies this
      ensures Valid()
      ensures var spec := Reassign(old(Contents()), TreeOf(n));
              if spec.Err? then failure == Some(spec.code) && unchanged(this)
              else failure == None && Contents() == spec.value && fresh(lists)
    {
      ghost var before := Contents();
      if Reassign(before, TreeOf(n)).Ok? {
        ReassignIsTyped(before, TreeOf(n));
      }
      if incoming.VoidSlot? {
        return Some("E126");
      }
      if constant {
        return Some("E211");
      }
      match incoming
      case EmptysSlot =>
        failure := ClearValue();
      case EmptySlot(_) =>
        var slot := SlotSpec(declaredType, element);
        value, node, lists := EmptySlot(slot), LeafNode(EmptyTree(slot)), {};
        failure := None;
      case ScalarSlot(name, _) =>
        if declaredType != name {
          return Some("E201");
        }
        value, node, lists := incoming, n, {};
        failure := None;
      case ListSlot(list) =>
        failure := AssignList(list, n, within);
    }

    method ClearValue() returns (failure: Option<string>)
      requires Valid() && !constant
      modifies this
      ensures Valid()
      ensures var spec := Reassign(old(Contents()), EmptysTree);
              if spec.Err? then failure == Some(spec.code) && unchanged(this)
              else failure == None && Contents() == spec.value && fresh(lists)
    {
      ghost var before := Contents();
      if Reassign(before, EmptysTree).Ok? {
        ReassignIsTyped(before, EmptysTree);
      }
      if declaredType != "list" {
        return Some("E133");
      }
      if value.EmptySlot? {
        var r: Result<ListObject>;
        assert TreesOf([]) == [] && SlotsOf([]) == [];
        r, node, lists := NewList([], [], {});
        value := ListSlot(r.value);
      } else {
        if !value.ListSlot? {
          return Some("E133");
        }
        var cleared: ListObject;
        cleared, node, lists := ClearedCopy(value.list.items, element, node.items, lists);
        value := ListSlot(cleared);
      }
      failure := None;
    }

    method AssignList(list: ListObject, ghost n: Node, ghost within: set<ListObject>) returns (failure: Option<string>)
      requires Valid() && !constant && Live(n, within) && SlotOf(n) == ListSlot(list)
      modifies this
      ensures Valid()
      ensures var spec := Reassign(old(Contents()), TreeOf(n));
              if spec.Err? then failure == Some(spec.code) && unchanged(this)
              else failure == None && Contents() == spec.value && fresh(lists)
    {
      ghost var before := Contents();
      if Reassign(before, TreeOf(n)).Ok? {
        ReassignIsTyped(before, TreeOf(n));
      }
      var actual := ElementTypeOf(list.items, n.items, within);
      if actual.Err? {
        return Some(actual.code);
      }
      if declaredType != "list" || !Compatible(element, actual.value) {
        return Some("E201");
      }
      var merged := Merge(element, actual.value);
      var copy: Result<ListObject>;
      ghost var copied: Node;
      ghost var made: set<ListObject>;
      copy, copied, made := NormalizedListCopy(list.items, merged, n.items, within);
      if copy.Err? {
        return Some(copy.code);
      }
      value, element := ListSlot(copy.value), merged;
      node, lists := copied, made;
      failure := None;
    }

    /** Indexed assignment. The list is rebuilt along the indexes, stored, and then copied as a
        whole; the copy cannot fail any more, so a failure leaves the variable as it was. */
    method AssignAt(indexes: seq<Index>, incoming: Slot, ghost n: Node, ghost within: set<ListObject>)
      returns (failure: Option<string>)
      requires Valid() && Live(n, within) && incoming == SlotOf(n)
      modifies this
      ensures Valid()
      ensures var spec := AssignIndexes(old(Contents()), indexes, TreeOf(n));
              if spec.Err? then failure == Some(spec.code) && unchanged(this)
              else failure == None && Contents() == spec.value && fresh(lists)
    {
      hide IsTree;
      hide Lists;
      hide UpdateItems;
      hide NormalizeList;
      hide Conforms;
      hide Merge;
      hide Compatible;
      ghost var before := Contents();
      if constant {
        return Some("E211");
      }
      if declaredType != "list" || !value.ListSlot? {
        return Some("E201");
      }
      if indexes == [] {
        return Some("E302");
      }
      ghost var all := lists + within;
      LiveWithinMore(node, lists, all);
      LiveWithinMore(n, within, all);
      var updated: Result<ListObject>;
      var adopted: Spec;
      ghost var rebuilt: Node;
      ghost var made: set<ListObject>;
      updated, adopted, rebuilt, made := UpdatedCopy(value.list.items, indexes, element, incoming, node.items, n, all);
      if updated.Err? {
        return Some(updated.code);
      }
      FinalNormalizeSucceeds(before, indexes, TreeOf(n));
      AssignIndexesIsTyped(before, indexes, TreeOf(n));
      value, element := ListSlot(updated.value), adopted;
      var copy: Result<ListObject>;
      copy, node, lists := NormalizedListCopy(updated.value.items, element, rebuilt.items, all + made);
      value := ListSlot(copy.value);
      failure := None;
    }

    /** A list shape operation changes the list objects of this binding, and no others. */
    method Reshape(path: seq<Index>, shape: Shape) returns (failure: Option<string>)
      requires Valid()
      modifies this, lists
      ensures Valid() && lists == old(lists) && value == old(value) && element == old(element)
      ensures var spec := ReshapeVariable(old(Contents()), path, shape);
              if spec.Err? then failure == Some(spec.code) && Contents() == old(Contents())
              else failure == None && Contents() == spec.value
    {
      ghost var before := Contents();
      if ReshapeVariable(before, path, shape).Ok? {
        ReshapeVariableIsTyped(before, path, shape);
      }
      if constant {
        return Some("E211");
      }
      if value.EmptySlot? {
        return Some("E131");
      }
      if !value.ListSlot? {
        return Some("E201");
      }
      ghost var after: Node;
      failure, after := ReshapeBehind(value.list, element, path, shape, node, lists);
      node := after;
    }
  }

  /** The binding of a new name takes its type from the first value. */
  method IntroduceBinding(incoming: Slot, ghost n: Node, ghost within: set<ListObject>) returns (r: Result<Binding>)
    requires Live(n, within) && incoming == SlotOf(n)
    ensures var spec := Introduce(TreeOf(n));
            if spec.Err? then r == Err(spec.code)
            else r.Ok? && r.value.Valid() && r.value.Contents() == spec.value && fresh(r.value) && fresh(r.value.lists)
  {
    if Introduce(TreeOf(n)).Ok? {
      IntroduceIsTyped(TreeOf(n));
    }
    match incoming
    case VoidSlot => r := Err("E126");
    case EmptysSlot => r := Err("E133");
    case EmptySlot(spec) =>
      if spec.Unknown? {
        return Err("E129");
      }
      var b := new Binding(incoming, if spec.ListOf? then "list" else spec.name,
                           if spec.ListOf? then spec.element else Unknown, false, n, {});
      r := Ok(b);
    case ScalarSlot(name, _) =>
      var b := new Binding(incoming, name, Unknown, false, n, {});
      r := Ok(b);
    case ListSlot(list) =>
      var element := ElementTypeOf(list.items, n.items, within);
      if element.Err? {
        return Err(element.code);
      }
      var copy: Result<ListObject>;
      ghost var copied: Node;
      ghost var made: set<ListObject>;
      copy, copied, made := NormalizedListCopy(list.items, element.value, n.items, within);
      if copy.Err? {
        return Err(copy.code);
      }
      var b := new Binding(ListSlot(copy.value), "list", element.value, false, copied, made);
      r := Ok(b);
  }

  /** The binding of a typed definition. */
  method DefineBinding(declared: DeclaredType, incoming: Slot, constant: bool, ghost n: Node,
                       ghost within: set<ListObject>)
    returns (r: Result<Binding>)
    requires declared.name != "VOID" && declared.name != "EMPTYS"
    requires declared.name != "list" ==> declared.element.Unknown?
    requires Live(n, within) && incoming == SlotOf(n) && !incoming.VoidSlot?
    ensures var spec := Define(declared, TreeOf(n), constant);
            if spec.Err? then r == Err(spec.code)
            else r.Ok? && r.value.Valid() && r.value.Contents() == spec.value && fresh(r.value) && fresh(r.value.lists)
  {
    if Define(declared, TreeOf(n), constant).Ok? {
      DefineIsTyped(declared, TreeOf(n), constant);
    }
    if constant && (incoming.EmptySlot? || incoming.EmptysSlot?) {
      return Err("E130");
    }
    var prepared: Result<Slot>;
    ghost var copy: Node;
    ghost var made: set<ListObject>;
    prepared, copy, made := PrepareTyped(declared, incoming, n, within);
    if prepared.Err? {
      return Err(prepared.code);
    }
    var b := new Binding(prepared.value, declared.name, declared.element, constant, copy, made);
    r := Ok(b);
  }

  method PrepareTyped(declared: DeclaredType, incoming: Slot, ghost n: Node, ghost within: set<ListObject>)
    returns (r: Result<Slot>, ghost copy: Node, ghost made: set<ListObject>)
    requires declared.name != "VOID" && declared.name != "EMPTYS"
    requires Live(n, within) && incoming == SlotOf(n) && !incoming.VoidSlot?
    ensures var spec := Prepare(declared, TreeOf(n));
            if spec.Err? then r == Err(spec.code) else r == Ok(SlotOf(copy)) && TreeOf(copy) == spec.value
    ensures fresh(made) && (r.Ok? ==> Live(copy, made) && IsTree(Lists(copy)))
  {
    copy, made := LeafNode(VoidTree), {};
    match incoming
    case EmptysSlot =>
      if declared.name != "list" {
        r := Err("E133");
        return;
      }
      assert TreesOf([]) == [] && SlotsOf([]) == [];
      var list: Result<ListObject>;
      list, copy, made := NewList([], [], {});
      r := Ok(ListSlot(list.value));
    case EmptySlot(spec) =>
      if !spec.Unknown? && (if spec.ListOf? then "list" else spec.name) != declared.name {
        r := Err("E201");
        return;
      }
      var slot := SlotSpec(declared.name, declared.element);
      copy := LeafNode(EmptyTree(slot));
      r := Ok(EmptySlot(slot));
    case ListSlot(list) =>
      if declared.name != "list" {
        r := Err("E201");
        return;
      }
      var actual := ElementTypeOf(list.items, n.items, within);
      if actual.Err? {
        r := Err(actual.code);
        return;
      }
      if !Compatible(declared.element, actual.value) {
        r := Err("E201");
        return;
      }
      var inner: Result<ListObject>;
      inner, copy, made := NormalizedListCopy(list.items, declared.element, n.items, within);
      r := if inner.Err? then Err(inner.code) else Ok(ListSlot(inner.value));
    case ScalarSlot(name, _) =>
      copy := n;
      r := if name != declared.name then Err("E201") else Ok(incoming);
  }
}
