/** Values of the typed store, and what normalising and clearing do to them. A list is
    written here as a value; that list objects in fact behave like values is the subject
    of `Stores`. */
module Trees {
  import opened Ast
  import opened TypeSpecs

  /** What a scalar holds. The store only ever hands it on. */
  datatype Payload =
    | Whole(i: int)
    | Truth(b: bool)
    | Text(s: string)
    | Problem(category: string, message: string)
    | Other(text: string)

  /** An EMPTY slot retains a type. VOID and EMPTYS are no values, but can reach an assignment. */
  datatype Tree =
    | ScalarTree(typeName: ScalarName, value: Payload)
    | EmptyTree(spec: Spec)
    | ListTree(items: seq<Tree>)
    | VoidTree
    | EmptysTree

  function TypeName(t: Tree): string {
    match t
    case ScalarTree(name, _) => name
    case EmptyTree(spec) => if spec.Unknown? then "EMPTY" else if spec.ListOf? then "list" else spec.name
    case ListTree(_) => "list"
    case VoidTree => "VOID"
    case EmptysTree => "EMPTYS"
  }

  // ---- Which type a value has ----

  /** VOID and EMPTYS have no specification; the store never asks for one. */
  function ValueSpec(t: Tree): Result<Spec>
    decreases t, 1
  {
    match t
    case ScalarTree(name, _) => Ok(Scalar(name))
    case EmptyTree(spec) => Ok(spec)
    case ListTree(items) =>
      var element := ElementSpec(items);
      if element.Err? then element else Ok(ListOf(element.value))
    case VoidTree => Err("E127")
    case EmptysTree => Err("E133")
  }

  function ElementSpec(items: seq<Tree>): Result<Spec>
    decreases items, 1
  {
    if VoidTree in items then Err("E127")
    else if EmptysTree in items then Err("E133")
    else FoldSpecs(Unknown, items)
  }

  /** Merges the specifications of the items, one by one, into the one found so far. */
  function FoldSpecs(found: Spec, items: seq<Tree>): Result<Spec>
    decreases items, 0
  {
    if items == [] then Ok(found)
    else
      var actual := ValueSpec(items[0]);
      if actual.Err? then actual
      else if !Compatible(found, actual.value) then Err("E203")
      else FoldSpecs(Merge(found, actual.value), items[1..])
  }

  /** A specification covers a value: every present scalar has exactly its type, and every
      EMPTY slot retains a type that the specification refines. */
  predicate Fits(t: Tree, s: Spec) {
    match t
    case ScalarTree(name, _) => s == Scalar(name)
    case EmptyTree(spec) => Refines(spec, s)
    case ListTree(items) => s.ListOf? && forall i | 0 <= i < |items| :: Fits(items[i], s.element)
    case _ => false
  }

  predicate FitAll(items: seq<Tree>, s: Spec) {
    forall i | 0 <= i < |items| :: Fits(items[i], s)
  }

  /** The type of a value is the least specification that covers it, and there is one exactly
      when some specification does. */
  lemma {:induction false} ValueSpecIsLeast(t: Tree, s: Spec)
    ensures ValueSpec(t).Ok? ==> (Fits(t, s) <==> Refines(ValueSpec(t).value, s))
    ensures ValueSpec(t).Err? ==> !Fits(t, s)
    decreases t, 1
  {
    match t
    case ListTree(items) =>
      ElementSpecIsLeast(items, if s.ListOf? then s.element else Unknown);
    case _ =>
  }

  lemma {:induction false} ElementSpecIsLeast(items: seq<Tree>, s: Spec)
    ensures ElementSpec(items).Ok? ==> (FitAll(items, s) <==> Refines(ElementSpec(items).value, s))
    ensures ElementSpec(items).Err? ==> !FitAll(items, s)
    decreases items, 1
  {
    if VoidTree in items {
      var i :| 0 <= i < |items| && items[i] == VoidTree;
      assert !Fits(items[i], s);
    } else if EmptysTree in items {
      var i :| 0 <= i < |items| && items[i] == EmptysTree;
      assert !Fits(items[i], s);
    } else {
      FoldIsLeast(Unknown, items, s);
    }
  }

  lemma {:induction false} FoldIsLeast(found: Spec, items: seq<Tree>, s: Spec)
    ensures FoldSpecs(found, items).Ok? ==>
              (Refines(found, s) && FitAll(items, s) <==> Refines(FoldSpecs(found, items).value, s))
    ensures FoldSpecs(found, items).Err? ==> !(Refines(found, s) && FitAll(items, s))
    decreases items, 0
  {
    if items != [] {
      var first := items[0];
      assert FitAll(items, s) <==> Fits(first, s) && FitAll(items[1..], s) by {
        assert forall i | 0 < i < |items| :: items[i] == items[1..][i - 1];
      }
      ValueSpecIsLeast(first, s);
      var actual := ValueSpec(first);
      if actual.Ok? {
        CompatibleIffBounded(found, actual.value);
        assert Refines(found, s) && Refines(actual.value, s) ==> IsUpperBound(s, found, actual.value);
        if Compatible(found, actual.value) {
          MergeIsLeastUpperBound(found, actual.value, s);
          FoldIsLeast(Merge(found, actual.value), items[1..], s);
        }
      }
    }
  }

  /** The element type does not depend on the order of the elements. */
  lemma ElementSpecIgnoresOrder(a: seq<Tree>, b: seq<Tree>)
    requires multiset(a) == multiset(b)
    ensures ElementSpec(a).Ok? <==> ElementSpec(b).Ok?
    ensures ElementSpec(a).Ok? ==> ElementSpec(a) == ElementSpec(b)
  {
    if ElementSpec(a).Ok? {
      SameElementSpec(a, b);
    }
    if ElementSpec(b).Ok? {
      SameElementSpec(b, a);
    }
  }

  lemma SameElementSpec(a: seq<Tree>, b: seq<Tree>)
    requires multiset(a) == multiset(b) && ElementSpec(a).Ok?
    ensures ElementSpec(b) == ElementSpec(a)
  {
    var s := ElementSpec(a).value;
    RefinesReflexive(s);
    ElementSpecIsLeast(a, s);
    SameItemsFit(a, b, s);
    ElementSpecIsLeast(b, s);
    var s' := ElementSpec(b).value;
    RefinesReflexive(s');
    ElementSpecIsLeast(b, s');
    SameItemsFit(b, a, s');
    ElementSpecIsLeast(a, s');
    RefinesAntisymmetric(s, s');
  }

  lemma SameItemsFit(a: seq<Tree>, b: seq<Tree>, s: Spec)
    requires multiset(a) == multiset(b) && FitAll(a, s)
    ensures FitAll(b, s)
  {
    forall i | 0 <= i < |b|
      ensures Fits(b[i], s)
    {
      assert b[i] in multiset(b);
      assert b[i] in multiset(a);
      var j :| 0 <= j < |a| && a[j] == b[i];
    }
  }

  // ---- Conformance and normalising ----

  /** Every EMPTY slot retains exactly the type of its slot, at every depth; a list whose
      element type is unknown is empty. */
  predicate Conforms(t: Tree, s: Spec) {
    match t
    case ScalarTree(name, _) => s == Scalar(name)
    case EmptyTree(spec) => spec == s && !s.Unknown?
    case ListTree(items) => s.ListOf? && forall i | 0 <= i < |items| :: Conforms(items[i], s.element)
    case _ => false
  }

  predicate ConformAll(items: seq<Tree>, s: Spec) {
    forall i | 0 <= i < |items| :: Conforms(items[i], s)
  }

  function Normalize(t: Tree, s: Spec): Result<Tree>
    decreases t, 1
  {
    if t.EmptyTree? then Ok(EmptyTree(s))
    else if s.ListOf? then
      if !t.ListTree? then Err("E201")
      else
        var items := NormalizeList(t.items, s.element);
        if items.Err? then Err(items.code) else Ok(ListTree(items.value))
    else if s.Unknown? || TypeName(t) != s.name then Err("E203")
    else Ok(t)
  }

  /** EMPTY elements need a known element type. */
  function NormalizeList(items: seq<Tree>, element: Spec): Result<seq<Tree>>
    decreases items, 1
  {
    if items != [] && element.Unknown? then Err("E134") else NormalizeItems(items, element)
  }

  function NormalizeItems(items: seq<Tree>, element: Spec): Result<seq<Tree>>
    decreases items, 0
  {
    if items == [] then Ok([])
    else
      var first := Normalize(items[0], element);
      if first.Err? then Err(first.code)
      else
        var rest := NormalizeItems(items[1..], element);
        if rest.Err? then rest else Ok([first.value] + rest.value)
  }

  /** Two values differ at most in the types that their EMPTY slots retain. */
  predicate SameUpToEmpty(t: Tree, u: Tree) {
    match t
    case EmptyTree(_) => u.EmptyTree?
    case ListTree(items) => u.ListTree? && |items| == |u.items|
        && forall i | 0 <= i < |items| :: SameUpToEmpty(items[i], u.items[i])
    case _ => u == t
  }

  predicate SameItemsUpToEmpty(a: seq<Tree>, b: seq<Tree>) {
    |a| == |b| && forall i | 0 <= i < |a| :: SameUpToEmpty(a[i], b[i])
  }

  /** Normalising makes a value conform, and changes nothing but the types of EMPTY slots. */
  lemma {:induction false} NormalizeConforms(t: Tree, s: Spec)
    requires Normalize(t, s).Ok? && !s.Unknown?
    ensures Conforms(Normalize(t, s).value, s) && SameUpToEmpty(t, Normalize(t, s).value)
    decreases t, 1
  {
    if t.ListTree? && s.ListOf? {
      NormalizeListConforms(t.items, s.element);
    }
  }

  lemma {:induction false} NormalizeListConforms(items: seq<Tree>, element: Spec)
    requires NormalizeList(items, element).Ok?
    ensures ConformAll(NormalizeList(items, element).value, element)
    ensures SameItemsUpToEmpty(items, NormalizeList(items, element).value)
    decreases items, 0
  {
    if items != [] {
      NormalizeConforms(items[0], element);
      NormalizeListConforms(items[1..], element);
      var rest := NormalizeItems(items[1..], element).value;
      var all := NormalizeList(items, element).value;
      forall i | 0 < i < |items|
        ensures SameUpToEmpty(items[i], all[i]) && Conforms(all[i], element)
      {
        assert items[i] == items[1..][i - 1] && all[i] == rest[i - 1];
      }
    }
  }

  /** No non-empty list meets an unknown element type. */
  predicate Determined(t: Tree, s: Spec) {
    t.ListTree? && s.ListOf? ==>
      && (t.items != [] ==> !s.element.Unknown?)
      && forall i | 0 <= i < |t.items| :: Determined(t.items[i], s.element)
  }

  predicate DetermineAll(items: seq<Tree>, element: Spec) {
    && (items != [] ==> !element.Unknown?)
    && forall i | 0 <= i < |items| :: Determined(items[i], element)
  }

  /** A covered value can be normalised exactly when its EMPTY slots get a known type;
      otherwise an element type is missing. */
  lemma {:induction false} NormalizeIffDetermined(t: Tree, s: Spec)
    requires Fits(t, s) && !s.Unknown?
    ensures Normalize(t, s).Ok? <==> Determined(t, s)
    ensures Normalize(t, s).Err? ==> Normalize(t, s).code == "E134"
    decreases t, 1
  {
    if t.ListTree? {
      NormalizeListIffDetermined(t.items, s.element);
    }
  }

  lemma {:induction false} NormalizeListIffDetermined(items: seq<Tree>, element: Spec)
    requires FitAll(items, element)
    ensures NormalizeList(items, element).Ok? <==> DetermineAll(items, element)
    ensures NormalizeList(items, element).Err? ==> NormalizeList(items, element).code == "E134"
    decreases items, 0
  {
    if items != [] && !element.Unknown? {
      NormalizeIffDetermined(items[0], element);
      NormalizeListIffDetermined(items[1..], element);
      assert DetermineAll(items, element) <==> Determined(items[0], element) && DetermineAll(items[1..], element) by {
        assert forall i | 0 < i < |items| :: items[i] == items[1..][i - 1];
      }
    }
  }

  /** A conforming value stays good when its specification is refined. */
  lemma {:induction false} ConformingFitsRefined(t: Tree, s: Spec, finer: Spec)
    requires Conforms(t, s) && Refines(s, finer)
    ensures Fits(t, finer) && Determined(t, finer) && !finer.Unknown?
    decreases t
  {
    if t.ListTree? {
      assert t.items != [] ==> Conforms(t.items[0], s.element);
      forall i | 0 <= i < |t.items|
        ensures Fits(t.items[i], finer.element) && Determined(t.items[i], finer.element) && !finer.element.Unknown?
      {
        ConformingFitsRefined(t.items[i], s.element, finer.element);
      }
    }
  }

  /** A conforming value is not changed by normalising it to its own specification. */
  lemma {:induction false} NormalizeIsIdentity(t: Tree, s: Spec)
    requires Conforms(t, s)
    ensures Normalize(t, s) == Ok(t)
    decreases t, 1
  {
    if t.ListTree? {
      NormalizeListIsIdentity(t.items, s.element);
    }
  }

  lemma {:induction false} NormalizeListIsIdentity(items: seq<Tree>, element: Spec)
    requires ConformAll(items, element)
    ensures NormalizeList(items, element) == Ok(items)
    decreases items, 0
  {
    if items != [] {
      NormalizeIsIdentity(items[0], element);
      NormalizeListIsIdentity(items[1..], element);
      assert !element.Unknown?;
      assert [items[0]] + items[1..] == items;
    }
  }

  // ---- Clearing with EMPTYS ----

  function LeafSpec(t: Tree): Spec {
    if t.ScalarTree? then Scalar(t.typeName) else if t.EmptyTree? then t.spec else Unknown
  }

  function ClearItems(items: seq<Tree>, element: Spec): seq<Tree>
    decreases items, 0
  {
    if items == [] then [] else [ClearItem(items[0], element)] + ClearItems(items[1..], element)
  }

  function ClearItem(t: Tree, element: Spec): Tree
    decreases t, 1
  {
    if t.ListTree? then ListTree(ClearItems(t.items, if element.ListOf? then element.element else Unknown))
    else EmptyTree(if element.Unknown? then LeafSpec(t) else element)
  }

  /** Clearing needs a container; an EMPTY list becomes an empty one. */
  function Clear(t: Tree, declaredType: string, element: Spec): Result<Tree> {
    if declaredType != "list" then Err("E133")
    else if t.EmptyTree? then Ok(ListTree([]))
    else if !t.ListTree? then Err("E133")
    else Ok(ListTree(ClearItems(t.items, element)))
  }

  predicate IsEmptys(t: Tree) {
    t.ListTree? && forall i | 0 <= i < |t.items| :: t.items[i].EmptyTree? || IsEmptys(t.items[i])
  }

  /** The same jagged shape: equal lengths at every depth. */
  predicate SameShape(t: Tree, u: Tree) {
    (t.ListTree? <==> u.ListTree?)
    && (t.ListTree? ==> |t.items| == |u.items| && forall i | 0 <= i < |t.items| :: SameShape(t.items[i], u.items[i]))
  }

  lemma {:induction false} ClearItemsAt(items: seq<Tree>, element: Spec)
    ensures |ClearItems(items, element)| == |items|
    ensures forall i | 0 <= i < |items| :: ClearItems(items, element)[i] == ClearItem(items[i], element)
  {
    if items != [] {
      ClearItemsAt(items[1..], element);
    }
  }

  /** Clearing keeps the shape, leaves only EMPTY leaves, and can be repeated without effect. */
  lemma {:induction false} ClearKeepsShape(t: Tree, element: Spec)
    ensures SameShape(t, ClearItem(t, element))
    ensures t.ListTree? ==> IsEmptys(ClearItem(t, element))
    ensures ClearItem(ClearItem(t, element), element) == ClearItem(t, element)
    decreases t
  {
    if t.ListTree? {
      var inner := if element.ListOf? then element.element else Unknown;
      var once := ClearItems(t.items, inner);
      ClearItemsAt(t.items, inner);
      ClearItemsAt(once, inner);
      forall i | 0 <= i < |t.items|
        ensures SameShape(t.items[i], once[i]) && (once[i].EmptyTree? || IsEmptys(once[i]))
        ensures ClearItem(once[i], inner) == once[i]
      {
        ClearKeepsShape(t.items[i], inner);
      }
      assert ClearItems(once, inner) == once;
    }
  }

  /** What conforms still does when cleared. */
  lemma {:induction false} ClearConforms(t: Tree, s: Spec)
    requires Conforms(t, s)
    ensures Conforms(ClearItem(t, s), s)
    decreases t
  {
    if t.ListTree? {
      ClearItemsAt(t.items, s.element);
      forall i | 0 <= i < |t.items|
        ensures Conforms(ClearItem(t.items[i], s.element), s.element)
      {
        ClearConforms(t.items[i], s.element);
      }
    }
  }
}
