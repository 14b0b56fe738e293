/** What the operators and built-in functions of the evaluator compute, told by properties that pin their
    results down. Arithmetic and comparison are compared with C++ in `Simulation`. */
module OperatorLaws {
  import opened Ast
  import opened TypeSpecs
  import opened Trees
  import opened StoreSpec
  import opened StoreExact
  import opened Semantics
  import Runs = RunsExact

  // ---- Equality ----

  /** What equality looks at: of a scalar its payload, with true and false as 1 and 0. */
  function Key(v: Value): Value
    decreases v, 1
  {
    match v
    case ScalarTree(_, Truth(b)) => IntV(if b then 1 else 0)
    case ScalarTree(_, p) => ScalarTree("number", p)
    case ListTree(items) => ListTree(Keys(items))
    case _ => v
  }

  function Keys(items: seq<Value>): (r: seq<Value>)
    ensures |r| == |items|
    decreases items, 0
  {
    if items == [] then [] else [Key(items[0])] + Keys(items[1..])
  }

  /** Two values are equal if and only if their keys are: an equivalence, and list by list. */
  lemma {:induction false} SameValueIff(l: Value, r: Value)
    ensures SameValue(l, r) <==> Key(l) == Key(r)
    decreases l, 1
  {
    if l.ListTree? && r.ListTree? { SameValuesIff(l.items, r.items); }
  }

  lemma {:induction false} SameValuesIff(ls: seq<Value>, rs: seq<Value>)
    ensures SameValues(ls, rs) <==> Keys(ls) == Keys(rs)
    decreases ls, 0
  {
    if |ls| == |rs| && ls != [] {
      SameValueIff(ls[0], rs[0]);
      SameValuesIff(ls[1..], rs[1..]);
      assert Keys(ls)[0] == Key(ls[0]) && Keys(ls)[1..] == Keys(ls[1..]);
      assert Keys(rs)[0] == Key(rs[0]) && Keys(rs)[1..] == Keys(rs[1..]);
    } else if |ls| != |rs| {
      assert |Keys(ls)| != |Keys(rs)|;
    }
  }

  // ---- Containment ----

  lemma {:induction false} HasValueIff(items: seq<Value>, needle: Value)
    ensures HasValue(items, needle) <==> exists i :: 0 <= i < |items| && Key(items[i]) == Key(needle)
    decreases |items|
  {
    if items != [] {
      SameValueIff(items[0], needle);
      HasValueIff(items[1..], needle);
      if i :| 0 <= i < |items| && Key(items[i]) == Key(needle) {
        assert i > 0 ==> items[i] == items[1..][i - 1];
      }
    }
  }

  predicate OccursAt(text: string, part: string, i: int) {
    0 <= i <= |text| - |part| && text[i..i + |part|] == part
  }

  lemma SliceOfRest(text: string, i: nat, n: nat)
    requires i + n + 1 <= |text|
    ensures text[1..][i..i + n] == text[i + 1..i + 1 + n]
  {
    var a, b := text[1..][i..i + n], text[i + 1..i + 1 + n];
    assert |a| == |b| && forall k | 0 <= k < n :: a[k] == text[1..][i + k] == text[i + 1 + k] == b[k];
  }

  lemma OccursLater(text: string, part: string, i: int)
    requires text != ""
    ensures OccursAt(text[1..], part, i) ==> OccursAt(text, part, i + 1)
    ensures i > 0 && OccursAt(text, part, i) ==> OccursAt(text[1..], part, i - 1)
    ensures OccursAt(text, part, 0) <==> part <= text
  {
    if 0 <= i <= |text| - 1 - |part| { SliceOfRest(text, i, |part|); }
    if 0 < i <= |text| - |part| { SliceOfRest(text, i - 1, |part|); }
  }

  lemma {:induction false} HasTextIff(text: string, part: string)
    ensures HasText(text, part) <==> exists i :: OccursAt(text, part, i)
    decreases |text|
  {
    if text == "" {
      assert part == "" ==> OccursAt(text, part, 0);
    } else {
      HasTextIff(text[1..], part);
      OccursLater(text, part, 0);
      if i :| OccursAt(text[1..], part, i) { OccursLater(text, part, i); }
      if i :| OccursAt(text, part, i) { OccursLater(text, part, i); }
    }
  }

  /** A text in a text can be looked for, and a scalar in a list whose elements have its type, or none yet. */
  ghost predicate CanContain(needle: Value, container: Value) {
    || (IsText(container) && IsText(needle))
    || (container.ListTree? && exists s :: IsElementType(container, s) && TakesElement(s, needle))
  }

  ghost predicate IsElementType(list: Value, s: Spec) { IsLeastType(list, Unknown, ListOf(s)) }

  predicate TakesElement(s: Spec, v: Value) { s.Unknown? || (v.ScalarTree? && s == Scalar(v.typeName)) }

  ghost predicate Contains(needle: Value, container: Value) {
    if container.ListTree? then
      exists i :: 0 <= i < |container.items| && Key(container.items[i]) == Key(needle)
    else
      IsText(container) && IsText(needle) && exists i :: OccursAt(container.value.s, needle.value.s, i)
  }

  lemma ElementTypeIff(items: seq<Value>, s: Spec)
    ensures IsElementType(ListTree(items), s) <==> ElementSpec(items) == Ok(s)
  {
    LeastTypeIff(ListTree(items), Unknown, ListOf(s));
  }

  lemma ContainsIff(needle: Value, container: Value)
    ensures ContainsResult(needle, container).Ok? <==> CanContain(needle, container)
    ensures ContainsResult(needle, container).Ok? ==>
              (ContainsResult(needle, container).value <==> Contains(needle, container))
  {
    if container.ListTree? {
      HasValueIff(container.items, needle);
      hide ElementSpec, HasValue, Key, IsElementType;
      forall s
        ensures IsElementType(container, s) <==> ElementSpec(container.items) == Ok(s)
      {
        ElementTypeIff(container.items, s);
      }
      ElementFits(needle, container);
    } else if IsText(container) && IsText(needle) {
      hide HasText, OccursAt;
      HasTextIff(container.value.s, needle.value.s);
    }
  }

  lemma ElementFits(needle: Value, container: Value)
    requires container.ListTree?
    ensures ContainsResult(needle, container)
         == var element := ElementSpec(container.items);
            if element.Err? then Err(element.code)
            else if TakesElement(element.value, needle) then Ok(HasValue(container.items, needle)) else Err("E201")
  {
    hide ElementSpec, HasValue;
  }

  // ---- Lists ----

  /** Lists can be joined if and only if one type covers the elements of both, and a display is a list if
      and only if one type covers its elements. */
  lemma ConcatenationIff(l: seq<Value>, r: seq<Value>)
    ensures Concatenation(l, r).Value? <==> exists s :: FitAll(l, s) && FitAll(r, s)
    ensures Concatenation(l, r).Value? ==> Concatenation(l, r).value == ListTree(l + r)
    ensures ListResult(l).Value? <==> exists s :: FitAll(l, s)
    ensures ListResult(l).Value? ==> ListResult(l).value == ListTree(l)
  {
    Runs.FitsIffTyped(l);
    Runs.FitsIffTyped(r);
    if ElementSpec(l).Ok? && ElementSpec(r).Ok? {
      var (a, b) := (ElementSpec(l).value, ElementSpec(r).value);
      if Compatible(a, b) {
        MergeIsLeastUpperBound(a, b, Merge(a, b));
        RefinesReflexive(Merge(a, b));
        ElementSpecIsLeast(l, Merge(a, b));
        ElementSpecIsLeast(r, Merge(a, b));
        assert FitAll(l, Merge(a, b)) && FitAll(r, Merge(a, b));
      }
      if s :| FitAll(l, s) && FitAll(r, s) {
        ElementSpecIsLeast(l, s);
        ElementSpecIsLeast(r, s);
        BoundedIsCompatible(a, b, s);
      }
    }
  }

  // ---- Numbers ----

  lemma Products(a: int, b: int, c: int)
    ensures (a < b && c > 0 ==> a * c < b * c) && (a < b && c < 0 ==> a * c > b * c)
  {
    if a < b && c > 0 {
      assert (b - a) * c > 0;
    } else if a < b && c < 0 {
      assert (b - a) * (-c) > 0;
    }
  }

  /** `//` and `%` divide with remainder; the remainder has the sign of the divisor. */
  lemma DivisionHasRemainder(a: int, b: int)
    requires b != 0
    ensures var (q, r) := (BinaryResult("//", IntV(a), IntV(b)), BinaryResult("%", IntV(a), IntV(b)));
            && q.Value? && IsInt(q.value) && r.Value? && IsInt(r.value)
            && a == b * q.value.value.i + r.value.value.i
            && (if b > 0 then 0 <= r.value.value.i < b else b < r.value.value.i <= 0)
  {
    if b > 0 {
      assert a == b * (a / b) + a % b;
    } else {
      assert -a == (-b) * ((-a) / (-b)) + (-a) % (-b);
    }
  }

  /** The numbers of a range: evenly spaced from the start, all of them before the stop, and as many as there
      are before it. */
  lemma {:induction false} RangeIff(start: int, stop: int, step: int)
    requires step != 0
    ensures var r := Range(start, stop, step);
            && (forall k | 0 <= k < |r| :: r[k] == IntV(start + k * step))
            && (forall k: int | 0 <= k ::
                  k < |r| <==> if step > 0 then start + k * step < stop else start + k * step > stop)
    decreases if step > 0 then stop - start else start - stop
  {
    var r := Range(start, stop, step);
    if if step > 0 then start < stop else start > stop {
      RangeIff(start + step, stop, step);
      var more := Range(start + step, stop, step);
      forall k: int | 0 <= k
        ensures k < |r| ==> r[k] == IntV(start + k * step)
        ensures k < |r| <==> if step > 0 then start + k * step < stop else start + k * step > stop
      {
        if k > 0 {
          assert (start + step) + (k - 1) * step == start + k * step;
          assert k - 1 < |more| ==> more[k - 1] == IntV(start + step + (k - 1) * step);
        }
      }
    } else {
      forall k: int | 0 <= k
        ensures !(if step > 0 then start + k * step < stop else start + k * step > stop)
      {
        if k > 0 { Products(0, k, step); }
      }
    }
  }

  /** A range takes one to three numbers, the last of three not 0; the start is 0 and the step 1 if they are
      missing. */
  lemma RangeResultIff(arguments: seq<Value>)
    ensures RangeResult(arguments).Value?
       <==> && 1 <= |arguments| <= 3 && (forall i | 0 <= i < |arguments| :: IsInt(arguments[i]))
            && (|arguments| == 3 ==> arguments[2] != IntV(0))
    ensures RangeResult(arguments).Value? && |arguments| == 1 ==>
              RangeResult(arguments).value == ListTree(Range(0, arguments[0].value.i, 1))
    ensures RangeResult(arguments).Value? && |arguments| == 2 ==>
              RangeResult(arguments).value == ListTree(Range(arguments[0].value.i, arguments[1].value.i, 1))
    ensures RangeResult(arguments).Value? && |arguments| == 3 ==>
              RangeResult(arguments).value
              == ListTree(Range(arguments[0].value.i, arguments[1].value.i, arguments[2].value.i))
  {
  }

  // ---- Constants ----

  /** A constant holds exactly its value, and has the least type that covers it. */
  ghost predicate IsConstant(value: Value, v: Variable) {
    && v.constant && v.value == value && !value.EmptyTree?
    && IsLeastType(value, Unknown, TypeOf(v)) && (v.declaredType != "list" ==> v.element.Unknown?)
  }

  lemma DefineConstIff(env: Env, name: string, value: Value, after: Env)
    ensures DefineConst(env, name, value) == Ok(after)
       <==> name !in env && Runs.OnlyVariable(env, after, name) && IsConstant(value, after[name])
  {
    if Runs.OnlyVariable(env, after, name) {
      assert after == env[name := after[name]];
      LeastTypeIff(value, Unknown, TypeOf(after[name]));
    }
    if DefineConst(env, name, value) == Ok(after) {
      LeastTypeIff(value, Unknown, TypeOf(after[name]));
      assert Runs.OnlyVariable(env, after, name);
    }
  }

  // ---- Which operands an operator takes ----

  /** `in` tells membership and `not in` its opposite, where membership can be asked for. */
  lemma MembershipIff(needle: Value, container: Value, b: bool)
    requires IsKnown(needle) && IsKnown(container)
    ensures BinaryResult("in", needle, container) == EvalResult.Value(BoolV(b))
       <==> CanContain(needle, container) && (b <==> Contains(needle, container))
    ensures BinaryResult("not in", needle, container) == EvalResult.Value(BoolV(b))
       <==> CanContain(needle, container) && (b <==> !Contains(needle, container))
  {
    hide ContainsResult, CanContain, Contains, IsKnown;
    ContainsIff(needle, container);
  }

  ghost predicate HasType(v: Value) { exists s :: Fits(v, s) }

  ghost predicate CanJoin(l: Value, r: Value) {
    || (IsText(l) && IsText(r))
    || (l.ListTree? && r.ListTree? && exists s :: Fits(l, s) && Fits(r, s))
  }

  ghost predicate Takes(operator: string, l: Value, r: Value) {
    if operator in {"in", "not in"} then CanContain(l, r)
    else if operator in {"==", "!="} then TypeName(l) == TypeName(r)
    else
      || (operator == "+" && CanJoin(l, r))
      || (IsInt(l) && IsInt(r) && !DividesByZero(operator, l, r))
  }

  predicate DividesByZero(operator: string, l: Value, r: Value) {
    operator in {"//", "%"} && IsInt(l) && r == IntV(0)
  }

  const MODELLED_OPERATORS :=
    {"in", "not in", "==", "!=", "+", "-", "*", "//", "%", "<", "<=", ">", ">="}

  /** An operation on values of known types has a result if and only if its operator takes them; it fails with E301
      for a division by zero, and with E201 otherwise. */
  lemma OperatorIff(operator: string, l: Value, r: Value)
    requires operator in MODELLED_OPERATORS && IsKnown(l) && IsKnown(r) && HasType(l) && HasType(r)
    ensures BinaryResult(operator, l, r).Value? <==> Takes(operator, l, r)
    ensures BinaryResult(operator, l, r).Value?
         || BinaryResult(operator, l, r) == Fault(if DividesByZero(operator, l, r) then "E301" else "E201")
  {
    hide IsKnown, SameValue, CanContain, Contains;
    if operator in {"in", "not in"} {
      ContainsIff(l, r);
      if r.ListTree? {
        HasElementType(r);
        ElementFits(l, r);
      }
    } else if operator == "+" && l.ListTree? && r.ListTree? {
      HasElementType(l);
      HasElementType(r);
      JoinIff(l, r);
    }
  }

  lemma HasElementType(v: Value)
    requires v.ListTree? && HasType(v)
    ensures ElementSpec(v.items).Ok?
  {
    var s :| Fits(v, s);
    ElementSpecIsLeast(v.items, s.element);
  }

  lemma JoinIff(l: Value, r: Value)
    requires l.ListTree? && r.ListTree?
    ensures Concatenation(l.items, r.items).Value? <==> CanJoin(l, r)
  {
    ConcatenationIff(l.items, r.items);
    if s :| FitAll(l.items, s) && FitAll(r.items, s) {
      assert Fits(l, ListOf(s)) && Fits(r, ListOf(s));
    }
    if s :| Fits(l, s) && Fits(r, s) {
      assert FitAll(l.items, s.element) && FitAll(r.items, s.element);
    }
  }

  /** Two texts are joined in their order: the first one comes first, and the second one last. */
  lemma TextsAreJoined(a: string, b: string, c: string)
    ensures BinaryResult("+", StringV(a), StringV(b)) == EvalResult.Value(StringV(c))
       <==> a <= c && |c| == |a| + |b| && c[|a|..] == b
  {
    assert (a + b)[|a|..] == b;
    if a <= c { assert c == a + c[|a|..]; }
  }
}
