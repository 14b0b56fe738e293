/** Type specifications of list elements, and the order in which they are refined.

    A specification is nothing yet, the name of a scalar type, or a list of a
    further specification. It is only ever refined: the unknown leaf is replaced
    by something more precise. `Refines` is that order; merging two compatible
    specifications is its least upper bound. */
module TypeSpecs {

  /** The type name of a present value that is not a list, such as "number". */
  type ScalarName = n: string | n != "list" && n != "VOID" && n != "EMPTYS" witness "number"

  /** The source writes `Unknown` as None, and `ListOf(s)` as the pair ("list", s). */
  datatype Spec = Unknown | Scalar(name: ScalarName) | ListOf(element: Spec)

  /** `precise` says at least as much as `vague`, at every depth. */
  predicate Refines(vague: Spec, precise: Spec) {
    || vague.Unknown?
    || (vague.Scalar? && precise == vague)
    || (vague.ListOf? && precise.ListOf? && Refines(vague.element, precise.element))
  }

  predicate Compatible(expected: Spec, actual: Spec) {
    if expected.Unknown? || actual.Unknown? then true
    else if expected.ListOf? && actual.ListOf? then Compatible(expected.element, actual.element)
    else expected == actual
  }

  function Merge(left: Spec, right: Spec): Spec {
    if left.Unknown? then right
    else if right.Unknown? then left
    else if left.ListOf? && right.ListOf? then ListOf(Merge(left.element, right.element))
    else left
  }

  lemma RefinesReflexive(s: Spec)
    ensures Refines(s, s)
  {
  }

  lemma RefinesTransitive(a: Spec, b: Spec, c: Spec)
    requires Refines(a, b) && Refines(b, c)
    ensures Refines(a, c)
  {
  }

  lemma RefinesAntisymmetric(a: Spec, b: Spec)
    requires Refines(a, b) && Refines(b, a)
    ensures a == b
  {
  }

  /** Compatible specifications have a least upper bound, and `Merge` computes it. */
  lemma {:induction false} MergeIsLeastUpperBound(a: Spec, b: Spec, upper: Spec)
    requires Compatible(a, b)
    ensures Refines(a, Merge(a, b)) && Refines(b, Merge(a, b))
    ensures Refines(a, upper) && Refines(b, upper) <==> Refines(Merge(a, b), upper)
  {
    RefinesReflexive(a);
    RefinesReflexive(b);
    if a.ListOf? && b.ListOf? {
      MergeIsLeastUpperBound(a.element, b.element, if upper.ListOf? then upper.element else Unknown);
    }
  }

  predicate IsUpperBound(upper: Spec, a: Spec, b: Spec) {
    Refines(a, upper) && Refines(b, upper)
  }

  /** Two specifications are compatible exactly when some specification refines both. */
  lemma {:induction false} CompatibleIffBounded(a: Spec, b: Spec)
    ensures Compatible(a, b) <==> exists upper :: IsUpperBound(upper, a, b)
  {
    if Compatible(a, b) {
      MergeIsLeastUpperBound(a, b, Unknown);
      assert IsUpperBound(Merge(a, b), a, b);
    }
    if upper :| IsUpperBound(upper, a, b) {
      BoundedIsCompatible(a, b, upper);
    }
  }

  lemma {:induction false} BoundedIsCompatible(a: Spec, b: Spec, upper: Spec)
    requires Refines(a, upper) && Refines(b, upper)
    ensures Compatible(a, b)
  {
    if a.ListOf? && b.ListOf? {
      BoundedIsCompatible(a.element, b.element, upper.element);
    }
  }
}
