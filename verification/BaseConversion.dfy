/** Integers written in a base from 2 to 36, and back. */
module BaseConversion {
  import opened Ast

  predicate IsBase(base: int) { 2 <= base <= 36 }

  /** The digits are 0 to 9 and a to z. */
  function Digit(v: int): char
    requires 0 <= v < 36
  {
    if v < 10 then '0' + v as char else 'a' + (v - 10) as char
  }

  // ---- Numbers to text ----

  /** The digits of a positive number; none for zero. */
  function DigitsOf(n: nat, base: int): (s: string)
    requires IsBase(base)
    ensures s == [] <==> n == 0
  {
    if n == 0 then [] else Smaller(n, base); DigitsOf(n / base, base) + [Digit(n % base)]
  }

  function Magnitude(value: int): nat { if value < 0 then -value else value }

  function NumberText(value: int, base: int): string
    requires IsBase(base)
  {
    if value == 0 then "0" else (if value < 0 then "-" else "") + DigitsOf(Magnitude(value), base)
  }

  lemma {:induction false} Multiplied(a: int, b: int, c: nat)
    requires a <= b
    ensures a * c <= b * c
  {
  }

  lemma {:induction false} Smaller(n: nat, base: int)
    requires IsBase(base) && n > 0
    ensures 0 <= n / base < n && 0 <= n % base < base && n == (n / base) * base + n % base
  {
    Multiplied(2, base, n / base);
  }

  function Reversed(s: string): string {
    if s == [] then [] else Reversed(s[1..]) + [s[0]]
  }

  lemma {:induction false} ReversedAppend(s: string, c: char)
    ensures Reversed(s + [c]) == [c] + Reversed(s)
  {
    if s != [] {
      assert (s + [c])[1..] == s[1..] + [c];
      ReversedAppend(s[1..], c);
    }
  }

  method Reverse(s: string) returns (r: string)
    ensures r == Reversed(s)
  {
    r := [];
    var i := |s|;
    while i > 0
      invariant 0 <= i <= |s| && r == Reversed(s[i..])
    {
      i := i - 1;
      assert s[i..][1..] == s[i + 1..];
      r := r + [s[i]];
    }
  }

  method ConvertNumberToBase(value: int, base: int) returns (r: Result<string>)
    ensures r == if IsBase(base) then Ok(NumberText(value, base)) else Err("E308")
    ensures r.Ok? <==> 2 <= base <= 36
  {
    hide Digit;
    if !IsBase(base) {
      return Err("E308");
    }
    if value == 0 {
      return Ok("0");
    }
    var negative := value < 0;
    var remaining: nat, digits := Magnitude(value), [];
    while remaining > 0
      invariant DigitsOf(Magnitude(value), base) == DigitsOf(remaining, base) + Reversed(digits)
    {
      Smaller(remaining, base);
      var digit := Digit(remaining % base);
      ReversedAppend(digits, digit);
      remaining, digits := remaining / base, digits + [digit];
    }
    var text := Reverse(digits);
    assert [] + text == text;
    r := Ok((if negative then "-" else "") + text);
  }

  // ---- Text to numbers ----

  /** Lower case, as far as the result can be a digit: the Kelvin sign counts as a `k`. */
  function LowerDigit(c: char): char {
    if 'A' <= c <= 'Z' then c - 'A' + 'a' else if c == '\U{212A}' then 'k' else c
  }

  function DigitValue(c: char): (v: int)
    ensures 0 <= v < 36 ==> Digit(v) == c
  {
    if '0' <= c <= '9' then c as int - '0' as int
    else if 'a' <= c <= 'z' then c as int - 'a' as int + 10
    else -1
  }

  predicate IsDigitOf(c: char, base: int) { 0 <= DigitValue(c) < base }

  /** Without underscores, in lower case. */
  function Normalized(s: string): string {
    if s == [] then []
    else (if s[0] == '_' then [] else [LowerDigit(s[0])]) + Normalized(s[1..])
  }

  /** Underscores only between digits. */
  predicate IsSpaced(s: string) {
    s != [] && s[0] != '_' && s[|s| - 1] != '_' && forall i | 0 <= i < |s| - 1 :: !(s[i] == '_' && s[i + 1] == '_')
  }

  predicate AreDigits(s: string, base: int) { forall c | c in s :: IsDigitOf(c, base) }

  /** One more digit behind others of value `q`. */
  function Appended(q: nat, c: char, base: int): (n: nat)
    requires IsBase(base) && IsDigitOf(c, base)
    ensures n == q * base + DigitValue(c)
  {
    Multiplied(0, base, q);
    q * base + DigitValue(c)
  }

  function ValueOf(s: string, base: int): nat
    requires IsBase(base) && AreDigits(s, base)
  {
    if s == [] then 0
    else
      assert s[|s| - 1] in s;
      Appended(ValueOf(s[..|s| - 1], base), s[|s| - 1], base)
  }

  function Unsigned(text: string): string {
    if text != [] && text[0] == '-' then text[1..] else text
  }

  function TextValue(text: string, base: int): Result<int> {
    var digits := Unsigned(text);
    if !IsBase(base) then Err("E308")
    else if !IsSpaced(digits) || !AreDigits(Normalized(digits), base) then Err("E304")
    else
      var value: int := ValueOf(Normalized(digits), base);
      Ok(if digits != text then -value else value)
  }

  // ---- There and back ----

  lemma {:induction false} DigitOfValue(v: nat, base: int)
    requires IsBase(base) && v < base
    ensures DigitValue(Digit(v)) == v && LowerDigit(Digit(v)) == Digit(v)
    ensures Digit(v) != '_' && Digit(v) != '-'
  {
  }

  lemma {:induction false} AppendedDigit(s: string, c: char, base: int)
    requires IsBase(base) && AreDigits(s, base) && IsDigitOf(c, base)
    ensures AreDigits(s + [c], base) && ValueOf(s + [c], base) == Appended(ValueOf(s, base), c, base)
  {
    assert (s + [c])[..|s|] == s;
  }

  lemma {:induction false} DigitsHaveTheValue(n: nat, base: int)
    requires IsBase(base)
    ensures AreDigits(DigitsOf(n, base), base) && ValueOf(DigitsOf(n, base), base) == n
  {
    hide DigitValue, Digit;
    if n > 0 {
      Smaller(n, base);
      DigitsHaveTheValue(n / base, base);
      DigitOfValue(n % base, base);
      AppendedDigit(DigitsOf(n / base, base), Digit(n % base), base);
    }
  }

  predicate IsPlainDigit(c: char) { c != '_' && c != '-' && LowerDigit(c) == c }

  lemma {:induction false} DigitsArePlain(n: nat, base: int)
    requires IsBase(base)
    ensures forall c | c in DigitsOf(n, base) :: IsPlainDigit(c)
  {
    hide LowerDigit, Digit;
    if n > 0 {
      Smaller(n, base);
      DigitsArePlain(n / base, base);
      DigitOfValue(n % base, base);
    }
  }

  lemma {:induction false} NormalizedIsIdentity(s: string)
    requires forall c | c in s :: IsPlainDigit(c)
    ensures Normalized(s) == s
  {
    if s != [] {
      assert forall c | c in s[1..] :: c in s;
      NormalizedIsIdentity(s[1..]);
      assert s[0] in s && IsPlainDigit(s[0]);
    }
  }

  lemma {:induction false} DigitsAreTheirValue(s: string, base: int)
    requires IsBase(base) && s != [] && AreDigits(s, base)
    requires forall c | c in s :: IsPlainDigit(c)
    ensures TextValue(s, base).Ok? && TextValue(s, base).value == ValueOf(s, base)
    ensures TextValue("-" + s, base).Ok? && TextValue("-" + s, base).value + ValueOf(s, base) == 0
  {
    hide DigitValue, LowerDigit, IsDigitOf;
    NormalizedIsIdentity(s);
    assert s[0] in s && s[|s| - 1] in s;
    forall i | 0 <= i < |s| ensures s[i] != '_' { assert s[i] in s; }
    assert Unsigned("-" + s) == s && "-" + s != s;
  }

  /** Any integer written in any base is read back as itself. */
  lemma {:induction false} NumbersSurvive(value: int, base: int)
    requires IsBase(base)
    ensures TextValue(NumberText(value, base), base) == Ok(value)
  {
    hide AreDigits, ValueOf, DigitsOf, TextValue, IsPlainDigit;
    if value == 0 {
      ZeroIsRead(base);
    } else {
      DigitsHaveTheValue(Magnitude(value), base);
      DigitsArePlain(Magnitude(value), base);
      DigitsAreTheirValue(DigitsOf(Magnitude(value), base), base);
      assert "" + DigitsOf(Magnitude(value), base) == DigitsOf(Magnitude(value), base);
    }
  }

  lemma {:induction false} ZeroIsRead(base: int)
    requires IsBase(base)
    ensures TextValue("0", base) == Ok(0)
  {
    DigitOfValue(0, base);
    AppendedDigit([], '0', base);
    assert [] + ['0'] == "0";
    hide AreDigits, ValueOf, TextValue;
    assert forall c | c in "0" :: IsPlainDigit(c);
    DigitsAreTheirValue("0", base);
  }

  /** Texts are read in the bases from 2 to 36, and refused in any other. */
  lemma {:induction false} BasesAreBounded(text: string, value: int, base: int)
    ensures TextValue(text, base) == Err("E308") <==> base < 2 || base > 36
    ensures 2 <= base <= 36 ==> TextValue(NumberText(value, base), base) == Ok(value)
  {
    if IsBase(base) { NumbersSurvive(value, base); }
  }

  // ---- Which digits a number has ----

  const ALPHABET := "0123456789abcdefghijklmnopqrstuvwxyz"

  function Place(base: int, i: nat): (p: int)
    requires base > 0
    ensures p > 0
  {
    if i == 0 then 1 else Multiplied(1, base, Place(base, i - 1)); base * Place(base, i - 1)
  }

  lemma {:induction false} QuotientIs(n: int, m: int, q: int)
    requires m > 0 && q * m <= n < q * m + m
    ensures n / m == q
  {
    var r := n - n / m * m;
    assert 0 <= r < m;
    if n / m < q {
      Multiplied(n / m + 1, q, m);
    } else if n / m > q {
      Multiplied(q + 1, n / m, m);
    }
  }

  /** Dividing by the base first makes no difference. */
  lemma {:induction false} DividedTwice(n: nat, base: int, p: int)
    requires base > 0 && p > 0 && base * p > 0
    ensures n / (base * p) == n / base / p
  {
    var q := n / base;
    var a := q / p;
    assert a * p <= q <= a * p + p - 1 && q * base <= n < q * base + base;
    Multiplied(a * p, q, base);
    Multiplied(q, a * p + p - 1, base);
    Regrouped(a, base, p);
    QuotientIs(n, base * p, a);
  }

  lemma {:induction false} Regrouped(a: int, base: int, p: int)
    ensures a * (base * p) == a * p * base
    ensures (a * p + p - 1) * base + base == a * (base * p) + base * p
  {
    assert (a * p + p - 1) * base == a * p * base + p * base - base;
  }

  /** The digit at place `i`, counted from the right, stands for the multiples of that power of the base; and
      there are as many digits as the number needs. */
  lemma {:induction false} DigitsStandAtTheirPlaces(n: nat, base: int, i: nat)
    requires IsBase(base)
    ensures var s := DigitsOf(n, base);
            && (i < |s| <==> Place(base, i) <= n)
            && (i < |s| ==> s[|s| - 1 - i] == ALPHABET[n / Place(base, i) % base])
    decreases n
  {
    if n > 0 {
      Smaller(n, base);
      var q := n / base;
      if i == 0 {
        DigitIsInTheAlphabet(n % base);
      } else {
        hide Digit, Place;
        assert DigitsOf(n, base) == DigitsOf(q, base) + [Digit(n % base)];
        hide DigitsOf;
        DigitsStandAtTheirPlaces(q, base, i - 1);
        NextPlace(n, base, i);
      }
    }
  }

  lemma {:induction false} NextPlace(n: nat, base: int, i: nat)
    requires IsBase(base) && i > 0
    ensures n / Place(base, i) == n / base / Place(base, i - 1)
    ensures Place(base, i - 1) <= n / base <==> Place(base, i) <= n
  {
    DividedTwice(n, base, Place(base, i - 1));
    PlaceIsReached(n, base, Place(base, i - 1));
  }

  lemma {:induction false} PlaceIsReached(n: nat, base: int, p: int)
    requires base > 0 && p > 0
    ensures p <= n / base <==> base * p <= n
  {
    var q := n / base;
    assert q * base <= n < q * base + base;
    if p <= q { Multiplied(p, q, base); } else { Multiplied(q + 1, p, base); }
  }

  lemma DigitIsInTheAlphabet(v: int)
    requires 0 <= v < 36
    ensures Digit(v) == ALPHABET[v]
  {
  }

  // ---- Canonical texts ----

  function WithoutLeadingZeros(s: string): string {
    if s != [] && s[0] == '0' then WithoutLeadingZeros(s[1..]) else s
  }

  /** The canonical form of a text: lower case, without underscores, leading zeros and `-0`. */
  function Canonical(text: string): string {
    var digits := WithoutLeadingZeros(Normalized(Unsigned(text)));
    if digits == [] then "0" else (if Unsigned(text) != text then "-" else "") + digits
  }

  lemma {:induction false} SplitLast(q: nat, d: int, base: int)
    requires IsBase(base) && 0 <= d < base
    ensures (q * base + d) / base == q && (q * base + d) % base == d
  {
    var n := q * base + d;
    assert n >= 0 by { assert q * base >= 0; }
    var p := n / base;
    assert n == p * base + n % base && 0 <= n % base < base;
    if p > q { Multiplied(q + 1, p, base); } else if p < q { Multiplied(p + 1, q, base); }
  }

  lemma {:induction false} ValueHasTheDigits(s: string, base: int)
    requires IsBase(base) && AreDigits(s, base)
    ensures DigitsOf(ValueOf(s, base), base) == WithoutLeadingZeros(s)
    decreases |s|
  {
    if s != [] {
      var before, c := s[..|s| - 1], s[|s| - 1];
      assert c in s && s == before + [c];
      ValueHasTheDigits(before, base);
      AppendAfterZeros(before, c);
      AppendedDigitsOf(ValueOf(before, base), c, base);
    }
  }

  lemma {:induction false} AppendedDigitsOf(q: nat, c: char, base: int)
    requires IsBase(base) && IsDigitOf(c, base)
    ensures DigitsOf(Appended(q, c, base), base) ==
            if q == 0 && c == '0' then [] else DigitsOf(q, base) + [c]
  {
    hide DigitValue;
    Multiplied(0, q, base);
    SplitLast(q, DigitValue(c), base);
    assert Digit(DigitValue(c)) == c;
    assert DigitValue(c) == 0 <==> c == '0' by { ZeroDigit(c); }
    if q > 0 { Multiplied(1, q, base); }
  }

  lemma {:induction false} ZeroDigit(c: char)
    ensures DigitValue(c) == 0 <==> c == '0'
  {
  }

  lemma {:induction false} AppendAfterZeros(s: string, c: char)
    ensures WithoutLeadingZeros(s + [c]) ==
            if WithoutLeadingZeros(s) == [] then if c == '0' then [] else [c] else WithoutLeadingZeros(s) + [c]
  {
    if s != [] {
      assert (s + [c])[1..] == s[1..] + [c];
      AppendAfterZeros(s[1..], c);
    } else {
      assert s + [c] == [c] && [c][1..] == [];
    }
  }

  /** A text that is accepted, read and written again, is its canonical form. */
  lemma {:induction false} TextsBecomeCanonical(text: string, base: int)
    requires IsBase(base) && TextValue(text, base).Ok?
    ensures NumberText(TextValue(text, base).value, base) == Canonical(text)
  {
    var s := Normalized(Unsigned(text));
    ValueHasTheDigits(s, base);
    var value := TextValue(text, base).value;
    assert Magnitude(value) == ValueOf(s, base);
    assert "" + WithoutLeadingZeros(s) == WithoutLeadingZeros(s);
  }

  /** Canonical texts are exactly those that come back unchanged. */
  lemma {:induction false} CanonicalTextsSurvive(text: string, base: int)
    requires IsBase(base)
    ensures (exists value: int :: NumberText(value, base) == text)
            <==> TextValue(text, base).Ok? && Canonical(text) == text
  {
    if TextValue(text, base).Ok? {
      TextsBecomeCanonical(text, base);
    }
    if value: int :| NumberText(value, base) == text {
      NumbersSurvive(value, base);
    }
  }
}
