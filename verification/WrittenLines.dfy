/** From tokens to text and back: a line in which tokens are written down with blanks between them is
    scanned as exactly these tokens. */
module WrittenLines {
  import opened Ast
  import opened Tokens
  import opened LexicalRules
  import opened Spellings
  import opened Scanners
  import opened StringLiterals
  import B = BaseConversion

  predicate IsWordCharacter(c: char) { 'a' <= c <= 'z' || 'A' <= c <= 'Z' || IsDecimal(c) || c == '_' }

  /** A name in ASCII. */
  predicate IsWord(s: string) { s != "" && !IsDecimal(s[0]) && forall c | c in s :: IsWordCharacter(c) }

  /** What Unicode says about ASCII. */
  ghost predicate KnowsAscii(u: Unicode) {
    && Sensible(u)
    && (forall c | IsWordCharacter(c) :: u.continues(c) && u.isAlnum(c) == (c != '_'))
    && (forall c | IsWordCharacter(c) && !IsDecimal(c) :: u.starts(c))
    && (forall s | IsWord(s) :: u.isName(s))
    && !u.continues(' ') && !u.isAlnum(' ') && !u.continues(':') && !u.continues('"')
  }

  // ---- Words ----

  lemma {:induction false} NameEndsAtBlank(text: string, i: nat, end: nat, u: Unicode)
    requires i <= end < |text| && (forall k | i <= k < end :: u.continues(text[k])) && !u.continues(text[end])
    ensures NameEnd(text, i, u) == end
    decreases end - i
  {
    if i < end { NameEndsAtBlank(text, i + 1, end, u); }
  }

  /** No operator begins with such a character. */
  lemma NoOperator(text: string, i: nat)
    requires i < |text| && (IsWordCharacter(text[i]) || text[i] in {'"', '@', ' '} || text[i] >= '\U{80}')
    ensures OperatorAt(text, i).None?
  {
    hide TripleKind, PairKind, SingleKind;
    if OperatorAt(text, i).Some? {
      var (kind, end) := OperatorAt(text, i).value;
      OperatorAtIff(text, i, kind, end);
      OperatorsBegin(kind);
      SliceBegins(text, i, end);
    }
  }

  lemma SliceBegins(text: string, i: nat, end: nat)
    requires i < end <= |text|
    ensures text[i..end][0] == text[i]
  {
  }

  lemma OperatorsBegin(kind: Kind)
    requires Spelling(kind).Some?
    ensures Spelling(kind).value != ""
    ensures var c := Spelling(kind).value[0];
            !IsWordCharacter(c) && c !in {'"', '@', ' ', '#', '\t', '\r'} && c < '\U{80}'
  {
  }

  /** A word stands in the text from `i` to `end`, and a blank behind it. */
  predicate StandsAt(text: string, i: nat, s: string, end: nat) {
    i + |s| == end < |text| && text[i..end] == s && text[end] == ' '
  }

  lemma WordStandsAt(text: string, i: nat, s: string, end: nat, u: Unicode)
    requires KnowsAscii(u) && IsWord(s) && StandsAt(text, i, s, end)
    ensures NameEnd(text, i, u) == end && IsAscii(s) && u.starts(text[i]) && IsWordCharacter(text[i])
    ensures !IsDecimal(text[i]) && !StartsString(text, i)
  {
    forall k | i <= k < end
      ensures u.continues(text[k]) && IsWordCharacter(text[k])
    {
      assert text[i..end][k - i] in s;
    }
    assert text[i..end][0] == text[i];
    NameEndsAtBlank(text, i, end, u);
    if |s| > 1 { assert text[i..end][1] in s; }
  }

  lemma KeywordsAreWords(word: string, kind: Kind)
    requires IsKeyword(kind) && SpellsKeyword(word, kind)
    ensures IsWord(word) && word != "null" && word != "NULL"
  {
    KeywordIsWord(kind);
    SmallStaysSmall(word);
    var spelling := KEYWORDS[kind as int];
    assert |word| == |spelling|;
    if !IsCapital(kind) {
      forall i | 0 <= i < |word|
        ensures IsWordCharacter(word[i]) && (IsDecimal(word[i]) <==> IsDecimal(spelling[i]))
      {
        assert Lower(word)[i] == LowerChar(word[i]) == spelling[i];
        assert spelling[i] in spelling;
      }
    }
    NullIsNoKeyword(word, kind);
  }

  lemma KeywordIsWord(kind: Kind)
    requires IsKeyword(kind)
    ensures IsWord(KEYWORDS[kind as int]) && KEYWORDS[kind as int] != "null"
  {
  }

  lemma NullIsNoKeyword(word: string, kind: Kind)
    requires IsKeyword(kind) && SpellsKeyword(word, kind)
    ensures word != "null" && word != "NULL"
  {
    KeywordIsWord(kind);
    assert Lower("null") == "null" && Lower("NULL") == "null";
    if IsCapital(kind) { CapitalsAreNotNull(kind); }
  }

  lemma CapitalsAreNotNull(kind: Kind)
    requires IsCapital(kind)
    ensures KEYWORDS[kind as int] != "null" && KEYWORDS[kind as int] != "NULL"
  {
  }

  /** A keyword in any of its spellings, and a name that spells none, are scanned as what they are. */
  lemma WordsAreRead(text: string, i: nat, s: string, end: nat, afterColon: bool, u: Unicode, line: nat)
    requires KnowsAscii(u) && IsWord(s) && s != "null" && s != "NULL" && StandsAt(text, i, s, end)
    ensures var r := ScanOne(text, i, afterColon, u, line);
            && r.Ok? && r.value.Lexeme? && r.value.token.lexeme == s && r.value.token.kind == KeywordKind(s)
            && r.value.token.line == line
            && r.value.token.literal == if KeywordKind(s) == TRUE then BoolLit(true)
                                        else if KeywordKind(s) == FALSE then BoolLit(false) else EmptyLit
  {
    hide KeywordKind, OperatorAt, IsAscii;
    WordStandsAt(text, i, s, end, u);
    NoOperator(text, i);
  }

  // ---- Operators ----

  /** An operator with a blank behind it is scanned as its kind. */
  lemma OperatorsAreRead(text: string, i: nat, kind: Kind, end: nat, afterColon: bool, u: Unicode, line: nat)
    requires IsOperator(kind) && Spelling(kind).Some? && StandsAt(text, i, Spelling(kind).value, end)
    ensures ScanOne(text, i, afterColon, u, line)
         == Ok(Lexeme(Token(kind, Spelling(kind).value, EmptyLit, line)))
  {
    hide OperatorAt, Spelling;
    OperatorsBegin(kind);
    assert text[i..end][0] == text[i];
    forall k, e: nat | IsSpelledAt(text, i, k, e)
      ensures e <= end
    {
      if e > end {
        assert text[i..e][end - i] == ' ';
        NoBlanks(k);
      }
    }
    OperatorAtIff(text, i, kind, end);
  }

  lemma NoBlanks(kind: Kind)
    requires Spelling(kind).Some?
    ensures ' ' !in Spelling(kind).value
  {
  }

  // ---- Numbers ----

  /** Decimal, or with a letter for the base behind a zero. */
  datatype Notation = Decimal | Based(marker: char)

  predicate IsNotation(n: Notation) { n.Decimal? || n.marker in {'b', 'B', 'o', 'O', 'x', 'X'} }

  function BaseOf(n: Notation): int
    requires IsNotation(n)
  {
    match n
    case Decimal => 10
    case Based(marker) => if marker in {'b', 'B'} then 2 else if marker in {'o', 'O'} then 8 else 16
  }

  function Numeral(value: nat, n: Notation): string
    requires IsNotation(n)
  {
    (if n.Based? then ['0', n.marker] else "") + B.NumberText(value, BaseOf(n))
  }

  lemma DigitsOfNumeral(value: nat, base: int)
    requires base in {2, 8, 10, 16}
    ensures var s := B.NumberText(value, base);
            && s != "" && AreDigits(s, base) && NumberValue(s, base) == value
            && (forall c | c in s :: IsWordCharacter(c) && c != '_' && (base == 10 ==> IsDecimal(c)))
  {
    var s := B.NumberText(value, base);
    B.NumbersSurvive(value, base);
    B.DigitsArePlain(value, base);
    B.DigitsHaveTheValue(value, base);
    assert B.NumberText(0, base) == "0";
    assert forall c | c in s :: B.IsPlainDigit(c) && B.IsDigitOf(c, base);
    assert s != "" && s[0] in s;
  }

  lemma {:induction false} DigitsEndAtBlank(text: string, i: nat, end: nat)
    requires i <= end < |text| && (forall k | i <= k < end :: IsDecimal(text[k]))
    requires !IsDecimal(text[end]) && text[end] != '_'
    ensures DigitsEnd(text, i) == end
    decreases end - i
  {
    if i < end { DigitsEndAtBlank(text, i + 1, end); }
  }

  lemma {:induction false} BasedEndsAtBlank(text: string, i: nat, end: nat, u: Unicode)
    requires i <= end < |text| && (forall k | i <= k < end :: u.isAlnum(text[k])) && text[end] == ' '
    requires !u.isAlnum(' ')
    ensures BasedEnd(text, i, u) == end
    decreases end - i
  {
    if i < end { BasedEndsAtBlank(text, i + 1, end, u); }
  }

  lemma DigitBeginsNumber(text: string, i: nat, afterColon: bool, u: Unicode, line: nat)
    requires i < |text| && IsDecimal(text[i])
    ensures ScanOne(text, i, afterColon, u, line) == ScanNumber(text, i, u, line)
  {
    hide OperatorAt, ScanNumber;
    NoOperator(text, i);
  }

  lemma DecimalsAreRead(text: string, i: nat, s: string, end: nat, u: Unicode, line: nat)
    requires s != "" && AreDigits(s, 10) && StandsAt(text, i, s, end) && (forall c | c in s :: IsDecimal(c))
    ensures IsDecimal(text[i])
    ensures ScanNumber(text, i, u, line) == Ok(Lexeme(Token(NUMBER, s, IntLit(NumberValue(s, 10)), line)))
  {
    hide AreDigits, NumberValue;
    forall k | i <= k < end
      ensures IsDecimal(text[k])
    {
      assert s[k - i] == text[k];
    }
    DigitsEndAtBlank(text, i, end);
  }

  lemma BasedAreRead(text: string, i: nat, s: string, marker: char, end: nat, u: Unicode, line: nat)
    requires KnowsAscii(u) && PrefixBase(marker).Some? && StandsAt(text, i, ['0', marker] + s, end)
    requires AreDigits(s, PrefixBase(marker).value) && (forall c | c in s :: IsWordCharacter(c) && c != '_')
    ensures IsDecimal(text[i])
    ensures ScanNumber(text, i, u, line)
         == Ok(Lexeme(Token(NUMBER, ['0', marker] + s, IntLit(NumberValue(s, PrefixBase(marker).value)), line)))
  {
    hide AreDigits, NumberValue;
    var whole := text[i..end];
    assert whole[0] == text[i] && whole[1] == text[i + 1] && whole[2..] == text[i + 2..end] == s;
    forall k | i + 2 <= k < end
      ensures u.isAlnum(text[k])
    {
      assert s[k - i - 2] == text[k];
    }
    BasedEndsAtBlank(text, i + 2, end, u);
  }

  /** Every number is read back from each of its notations. */
  lemma NumbersAreRead(text: string, i: nat, value: nat, n: Notation, end: nat, afterColon: bool, u: Unicode, line: nat)
    requires KnowsAscii(u) && IsNotation(n) && StandsAt(text, i, Numeral(value, n), end)
    ensures ScanOne(text, i, afterColon, u, line)
         == Ok(Lexeme(Token(NUMBER, Numeral(value, n), IntLit(value), line)))
  {
    var digits := B.NumberText(value, BaseOf(n));
    DigitsOfNumeral(value, BaseOf(n));
    hide AreDigits, NumberValue, ScanNumber, ScanOne, B.NumberText, KnowsAscii, StandsAt;
    if n.Based? {
      BasedAreRead(text, i, digits, n.marker, end, u, line);
    } else {
      assert Numeral(value, n) == digits;
      DecimalsAreRead(text, i, digits, end, u, line);
    }
    DigitBeginsNumber(text, i, afterColon, u, line);
  }

  /** Digits on both sides of a point. */
  predicate IsDecimalFraction(s: string, point: nat) {
    && 0 < point < |s| - 1 && s[point] == '.'
    && forall k | 0 <= k < |s| && k != point :: IsDecimal(s[k])
  }

  lemma FractionsArePlain(s: string, point: nat)
    requires IsDecimalFraction(s, point)
    ensures '_' !in s
  {
  }

  lemma {:induction false} NothingToDrop(s: string)
    requires '_' !in s
    ensures WithoutUnderscores(s) == s
  {
    if s != "" { NothingToDrop(s[1..]); }
  }

  lemma DecimalsAreDigits(s: string)
    requires s != "" && forall c | c in s :: IsDecimal(c)
    ensures AreDigits(s, 10)
  {
    assert s[0] in s && s[|s| - 1] in s;
    forall i | 0 <= i < |s| ensures s[i] != '_' { assert s[i] in s; }
  }

  lemma FractionParts(text: string, i: nat, s: string, point: nat, end: nat)
    requires IsDecimalFraction(s, point) && StandsAt(text, i, s, end)
    ensures IsDecimal(text[i]) && PrefixBase(text[i + 1]).None? && text[i + point] == '.'
    ensures DigitsEnd(text, i) == i + point && DigitsEnd(text, i + point + 1) == end
    ensures AreDigits(text[i..i + point], 10) && AreDigits(text[i + point + 1..end], 10)
  {
    hide AreDigits;
    forall k | i <= k < end
      ensures text[k] == s[k - i]
    {
      SliceAt(text, i, end, k);
    }
    DigitsEndAtBlank(text, i, i + point);
    DigitsEndAtBlank(text, i + point + 1, end);
    DecimalsAreDigits(text[i..i + point]);
    DecimalsAreDigits(text[i + point + 1..end]);
    NoPrefix(text[i + 1]);
  }

  lemma ScannedFraction(text: string, i: nat, point: nat, end: nat, u: Unicode, line: nat)
    requires i < point < end <= |text| && IsDecimal(text[i]) && PrefixBase(text[i + 1]).None? && text[point] == '.'
    requires DigitsEnd(text, i) == point && DigitsEnd(text, point + 1) == end
    requires AreDigits(text[i..point], 10) && AreDigits(text[point + 1..end], 10)
    ensures ScanNumber(text, i, u, line)
         == Ok(Lexeme(Token(NUMBER, text[i..end], FloatLit(WithoutUnderscores(text[i..end])), line)))
  {
    hide AreDigits, IsDecimal, PrefixBase, DigitsEnd, WithoutUnderscores;
  }

  lemma FractionsAreRead(text: string, i: nat, s: string, point: nat, end: nat, afterColon: bool, u: Unicode, line: nat)
    requires IsDecimalFraction(s, point) && StandsAt(text, i, s, end)
    ensures ScanOne(text, i, afterColon, u, line) == Ok(Lexeme(Token(NUMBER, s, FloatLit(s), line)))
  {
    hide AreDigits, IsDecimal, PrefixBase, DigitsEnd, WithoutUnderscores, ScanOne, ScanNumber;
    FractionParts(text, i, s, point, end);
    ScannedFraction(text, i, i + point, end, u, line);
    FractionsArePlain(s, point);
    NothingToDrop(s);
    DigitBeginsNumber(text, i, afterColon, u, line);
  }

  lemma SliceAt(text: string, i: nat, end: nat, k: nat)
    requires i <= k < end <= |text|
    ensures text[i..end][k - i] == text[k]
  {
  }

  lemma NoPrefix(c: char)
    ensures IsDecimal(c) || c == '.' ==> PrefixBase(c).None?
  {
  }

  // ---- Tags and labels ----

  /** Words with colons between them. */
  predicate IsTagName(s: string)
    decreases |s|
  {
    var colon := ColonAt(s, 0);
    IsWord(s[..colon]) && (colon < |s| ==> IsTagName(s[colon + 1..]))
  }

  lemma {:induction false} ColonFacts(s: string, i: nat)
    requires i <= |s|
    ensures var k := ColonAt(s, i); (k < |s| ==> s[k] == ':') && forall j | i <= j < k :: s[j] != ':'
    decreases |s| - i
  {
    if i < |s| && s[i] != ':' { ColonFacts(s, i + 1); }
  }

  lemma {:induction false} TagNames(s: string, u: Unicode)
    requires KnowsAscii(u) && IsTagName(s)
    ensures AreNames(s, u)
    decreases |s|
  {
    var colon := ColonAt(s, 0);
    if colon < |s| { TagNames(s[colon + 1..], u); } else { assert s[..colon] == s; }
  }

  lemma SegmentAt(text: string, i: nat, word: string, u: Unicode)
    requires KnowsAscii(u) && IsWord(word) && i + |word| < |text| && text[i..i + |word|] == word
    requires text[i + |word|] in {' ', ':'}
    ensures u.starts(text[i]) && NameEnd(text, i, u) == i + |word|
  {
    forall k | i <= k < i + |word|
      ensures u.continues(text[k])
    {
      SliceAt(text, i, i + |word|, k);
      assert word[k - i] in word;
    }
    SliceAt(text, i, i + |word|, i);
    NameEndsAtBlank(text, i, i + |word|, u);
  }

  lemma {:induction false} TagEndsAtBlank(text: string, i: nat, s: string, end: nat, u: Unicode)
    requires KnowsAscii(u) && IsTagName(s) && StandsAt(text, i, s, end)
    ensures i < |text| && u.starts(text[i]) && TagEnd(text, i, u) == Ok(end)
    decreases |s|
  {
    hide KnowsAscii, IsWord, NameEnd, ColonAt, StandsAt;
    var colon := ColonAt(s, 0);
    ColonFacts(s, 0);
    StandsInParts(text, i, s, end, colon);
    SegmentAt(text, i, s[..colon], u);
    if colon < |s| {
      TagEndsAtBlank(text, i + colon + 1, s[colon + 1..], end, u);
    }
  }

  lemma StandsInParts(text: string, i: nat, s: string, end: nat, k: nat)
    requires StandsAt(text, i, s, end) && k <= |s|
    ensures i + k <= end == i + |s| < |text| && text[i..i + k] == s[..k] && text[end] == ' '
    ensures k < |s| ==> text[i + k] == s[k] && StandsAt(text, i + k + 1, s[k + 1..], end)
  {
    assert text[i..i + k] == text[i..end][..k];
    if k < |s| {
      SliceAt(text, i, end, i + k);
      assert text[i + k + 1..end] == text[i..end][k + 1..];
    }
  }

  lemma TagsAreRead(text: string, i: nat, s: string, end: nat, afterColon: bool, u: Unicode, line: nat)
    requires KnowsAscii(u) && IsTagName(s) && StandsAt(text, i, "@" + s, end)
    ensures ScanOne(text, i, afterColon, u, line) == Ok(Lexeme(Token(TAG, s, EmptyLit, line)))
  {
    assert text[i..end][0] == text[i];
    assert text[i + 1..end] == s;
    TagEndsAtBlank(text, i + 1, s, end, u);
    TagNames(s, u);
  }

  /** A label with other letters than those of ASCII. */
  ghost predicate IsUnicodeLabel(s: string, u: Unicode) {
    && s != "" && !IsAscii(s) && u.isName(s) && (forall c | c in s :: u.continues(c))
    && u.starts(s[0]) && ((IsWordCharacter(s[0]) && !IsDecimal(s[0])) || s[0] >= '\U{80}')
  }

  lemma LabelsAreRead(text: string, i: nat, s: string, end: nat, u: Unicode, line: nat)
    requires KnowsAscii(u) && IsUnicodeLabel(s, u) && StandsAt(text, i, s, end)
    ensures ScanOne(text, i, true, u, line) == Ok(Lexeme(Token(LABEL, s, EmptyLit, line)))
  {
    hide OperatorAt;
    forall k | i <= k < end
      ensures u.continues(text[k])
    {
      assert text[i..end][k - i] in s;
    }
    assert text[i..end][0] == text[i];
    if |s| > 1 { assert text[i..end][1] == text[i + 1]; }
    NameEndsAtBlank(text, i, end, u);
    NoOperator(text, i);
    assert s !in {"null", "NULL"};
  }

  // ---- Whole lines ----

  /** A text for a token. Names and keywords are spelled as they are, numbers in any notation, and strings
      with any way of writing their characters. */
  ghost predicate IsWriting(t: Token, w: string, u: Unicode) {
    && (t.kind !in {NUMBER, STRING, TRUE, FALSE} ==> t.literal == EmptyLit)
    && if IsOperator(t.kind) then Spelling(t.kind) == Some(w)
       else if IsKeyword(t.kind) then
         && SpellsKeyword(w, t.kind) && t.lexeme == w
         && (t.kind == TRUE ==> t.literal == BoolLit(true)) && (t.kind == FALSE ==> t.literal == BoolLit(false))
       else if t.kind == IDENTIFIER then
         t.lexeme == w && IsWord(w) && SpellsNoKeyword(w) && w != "null" && w != "NULL"
       else if t.kind == LABEL then t.lexeme == w && IsUnicodeLabel(w, u)
       else if t.kind == TAG then w == "@" + t.lexeme && IsTagName(t.lexeme)
       else if t.kind == NUMBER then IsNumeral(t.literal, w)
       else if t.kind == STRING then IsQuoted(t.literal, w)
       else false
  }

  ghost predicate IsNumeral(literal: Literal, w: string) {
    || (exists value: nat, n :: IsNotation(n) && literal == IntLit(value) && w == Numeral(value, n))
    || (exists point :: IsDecimalFraction(w, point) && literal == FloatLit(w))
  }

  ghost predicate IsQuoted(literal: Literal, w: string) {
    && literal.StringLit?
    && (|| (exists styles :: AllSuit(literal.s, styles) && w == "\"" + WrittenAll(literal.s, styles) + "\"")
        || ('"' !in literal.s && w == "r\"" + literal.s + "\""))
  }

  /** The token as it comes back: its lexeme is its text. */
  function Reread(t: Token, w: string, line: nat): Token {
    Token(t.kind, if t.kind == TAG then t.lexeme else w, t.literal, line)
  }

  lemma WritingIsRead(text: string, i: nat, t: Token, w: string, end: nat, afterColon: bool, u: Unicode, line: nat)
    requires KnowsAscii(u) && IsWriting(t, w, u) && StandsAt(text, i, w, end) && (t.kind == LABEL ==> afterColon)
    ensures i < |text| && ScanOne(text, i, afterColon, u, line) == Ok(Lexeme(Reread(t, w, line)))
    ensures w != "" && SpanLength(Reread(t, w, line)) == |w|
  {
    hide ScanOne, KnowsAscii, StandsAt, KeywordKind, Spelling, IsTagName, IsUnicodeLabel, IsWord, SpellsKeyword;
    hide SpellsNoKeyword;
    if IsOperator(t.kind) {
      OperatorsBegin(t.kind);
      Stands(text, i, w, end);
      OperatorsAreRead(text, i, t.kind, end, afterColon, u, line);
    } else if IsKeyword(t.kind) {
      KeywordsAreWords(w, t.kind);
      KeywordKindIff(w, t.kind);
      WordIsSome(w);
      Stands(text, i, w, end);
      WordsAreRead(text, i, w, end, afterColon, u, line);
    } else if t.kind == IDENTIFIER {
      KeywordKindIff(w, t.kind);
      WordIsSome(w);
      Stands(text, i, w, end);
      WordsAreRead(text, i, w, end, afterColon, u, line);
    } else if t.kind == LABEL {
      LabelIsSome(w, u);
      Stands(text, i, w, end);
      LabelsAreRead(text, i, w, end, u, line);
    } else if t.kind == TAG {
      Stands(text, i, w, end);
      TagsAreRead(text, i, t.lexeme, end, afterColon, u, line);
    } else if t.kind == NUMBER {
      NumeralIsRead(text, i, t.literal, w, end, afterColon, u, line);
    } else {
      QuotedIsRead(text, i, t.literal, w, end, afterColon, u, line);
    }
  }

  lemma Stands(text: string, i: nat, w: string, end: nat)
    requires StandsAt(text, i, w, end) && w != ""
    ensures i < end < |text|
  {
  }

  lemma WordIsSome(w: string)
    requires IsWord(w)
    ensures w != ""
  {
  }

  lemma LabelIsSome(w: string, u: Unicode)
    requires IsUnicodeLabel(w, u)
    ensures w != ""
  {
  }

  lemma NumeralIsRead(text: string, i: nat, literal: Literal, w: string, end: nat, afterColon: bool, u: Unicode,
                      line: nat)
    requires KnowsAscii(u) && IsNumeral(literal, w) && StandsAt(text, i, w, end)
    ensures i < |text| && ScanOne(text, i, afterColon, u, line) == Ok(Lexeme(Token(NUMBER, w, literal, line)))
    ensures w != ""
  {
    hide ScanOne, KnowsAscii, StandsAt, Numeral;
    if value: nat, n :| IsNotation(n) && literal == IntLit(value) && w == Numeral(value, n) {
      NumeralIsSome(value, n);
      Stands(text, i, w, end);
      NumbersAreRead(text, i, value, n, end, afterColon, u, line);
    } else if point: nat :| IsDecimalFraction(w, point) && literal == FloatLit(w) {
      Stands(text, i, w, end);
      FractionsAreRead(text, i, w, point, end, afterColon, u, line);
    }
  }

  lemma NumeralIsSome(value: nat, n: Notation)
    requires IsNotation(n)
    ensures Numeral(value, n) != ""
  {
    DigitsOfNumeral(value, BaseOf(n));
  }

  lemma QuotedIsRead(text: string, i: nat, literal: Literal, w: string, end: nat, afterColon: bool, u: Unicode,
                     line: nat)
    requires IsQuoted(literal, w) && StandsAt(text, i, w, end)
    ensures i < |text| && ScanOne(text, i, afterColon, u, line) == Ok(Lexeme(Token(STRING, w, literal, line)))
    ensures w != ""
  {
    hide ScanOne, WrittenAll, AllSuit;
    assert text == text[..i] + w + text[end..];
    if styles :| AllSuit(literal.s, styles) && w == "\"" + WrittenAll(literal.s, styles) + "\"" {
      LiteralsAreRead(text[..i], literal.s, styles, text[end..], afterColon, u, line);
    } else {
      RawLiteralsAreRead(text[..i], literal.s, text[end..], afterColon, u, line);
    }
  }

  /** The texts with a blank behind each. */
  function LineOf(ws: seq<string>): string {
    if ws == [] then "" else ws[0] + " " + LineOf(ws[1..])
  }

  ghost predicate AreWritings(toks: seq<Token>, ws: seq<string>, u: Unicode) {
    |ws| == |toks| && forall i | 0 <= i < |toks| :: IsWriting(toks[i], ws[i], u)
  }

  /** Labels that are no names in ASCII stand behind colons. */
  predicate LabelsFollowColons(toks: seq<Token>, afterColon: bool) {
    && (toks != [] && toks[0].kind == LABEL ==> afterColon)
    && forall i | 0 < i < |toks| && toks[i].kind == LABEL :: toks[i - 1].kind == COLON
  }

  function RereadAll(toks: seq<Token>, ws: seq<string>, line: nat): (r: seq<Token>)
    requires |ws| == |toks|
    ensures |r| == |toks|
  {
    seq(|toks|, i requires 0 <= i < |toks| => Reread(toks[i], ws[i], line))
  }

  /** What may stand at the end of a line: nothing, or a comment. */
  predicate IsComment(tail: string) { tail != "" ==> tail[0] == '#' }

  lemma {:induction false} LineIsRead(pre: string, before: seq<Spanned>, toks: seq<Token>, ws: seq<string>,
                                      tail: string, u: Unicode, line: nat)
    requires KnowsAscii(u) && AreWritings(toks, ws, u) && LabelsFollowColons(toks, EndsInColon(before))
    requires IsComment(tail)
    ensures var r := ScanFrom(pre + LineOf(ws) + tail, |pre|, before, u, line);
            r.Ok? && Bare(r.value) == Bare(before) + RereadAll(toks, ws, line)
    decreases |toks|
  {
    hide ScanOne, IsWriting, KnowsAscii;
    assert Sensible(u) by { AsciiIsSensible(u); }
    if toks == [] {
      assert pre + LineOf(ws) + tail == pre + tail;
      CommentIsRead(pre, tail, before, u, line);
    } else {
      var w, more := ws[0], before + [Spanned(Reread(toks[0], ws[0], line), |pre|)];
      assert IsWriting(toks[0], w, u) && LineOf(ws) == w + " " + LineOf(ws[1..]);
      TokenAndBlank(pre, before, toks[0], w, LineOf(ws[1..]), tail, u, line);
      RestIsWritten(toks, ws, u, line);
      LineIsRead(pre + w + " ", more, toks[1..], ws[1..], tail, u, line);
      assert Bare(more) == Bare(before) + [Reread(toks[0], w, line)];
      var rest := RereadAll(toks[1..], ws[1..], line);
      assert Bare(before) + [Reread(toks[0], w, line)] + rest == Bare(before) + ([Reread(toks[0], w, line)] + rest);
    }
  }

  lemma TokenAndBlank(pre: string, before: seq<Spanned>, t: Token, w: string, more: string, tail: string, u: Unicode,
                      line: nat)
    requires KnowsAscii(u) && IsWriting(t, w, u) && (t.kind == LABEL ==> EndsInColon(before))
    ensures Sensible(u)
    ensures ScanFrom(pre + (w + " " + more) + tail, |pre|, before, u, line)
         == ScanFrom((pre + w + " ") + more + tail, |pre + w + " "|, before + [Spanned(Reread(t, w, line), |pre|)], u,
                     line)
  {
    hide ScanOne, IsWriting, KnowsAscii, ScanFrom, EndsInColon;
    var text, i := pre + (w + " " + more) + tail, |pre|;
    AsciiIsSensible(u);
    WrittenFirst(pre, w, more, tail);
    WritingIsRead(text, i, t, w, i + |w|, EndsInColon(before), u, line);
    var spanned := Spanned(Reread(t, w, line), i);
    BlankIsRead(text, i + |w|, EndsInColon(before + [spanned]), u, line);
    ScanStep(text, i, before, Reread(t, w, line), u, line);
  }

  lemma RestIsWritten(toks: seq<Token>, ws: seq<string>, u: Unicode, line: nat)
    requires toks != [] && AreWritings(toks, ws, u) && LabelsFollowColons(toks, true)
    ensures AreWritings(toks[1..], ws[1..], u) && LabelsFollowColons(toks[1..], toks[0].kind == COLON)
    ensures RereadAll(toks, ws, line) == [Reread(toks[0], ws[0], line)] + RereadAll(toks[1..], ws[1..], line)
  {
    hide IsWriting;
    forall k | 0 <= k < |toks| - 1
      ensures IsWriting(toks[1..][k], ws[1..][k], u)
    {
      assert toks[1..][k] == toks[k + 1] && ws[1..][k] == ws[k + 1];
    }
    forall k | 0 < k < |toks| - 1 && toks[1..][k].kind == LABEL
      ensures toks[1..][k - 1].kind == COLON
    {
      assert toks[k + 1].kind == LABEL;
    }
  }

  lemma WrittenFirst(pre: string, w: string, more: string, tail: string)
    ensures var text := pre + (w + " " + more) + tail;
            && StandsAt(text, |pre|, w, |pre| + |w|) && text == (pre + w + " ") + more + tail
            && text[|pre| + |w|] == ' '
  {
    var text := pre + (w + " " + more) + tail;
    assert text == (pre + w + " ") + more + tail;
    assert text[|pre|..|pre| + |w|] == w;
  }

  lemma CommentIsRead(pre: string, tail: string, before: seq<Spanned>, u: Unicode, line: nat)
    requires Sensible(u) && IsComment(tail)
    ensures ScanFrom(pre + tail, |pre|, before, u, line) == Ok(before)
  {
    hide ScanOne;
    if tail != "" {
      HashIsRead(pre + tail, |pre|, EndsInColon(before), u, line);
    }
  }

  lemma HashIsRead(text: string, i: nat, afterColon: bool, u: Unicode, line: nat)
    requires i < |text| && text[i] == '#'
    ensures ScanOne(text, i, afterColon, u, line) == Ok(Comment)
  {
  }

  lemma AsciiIsSensible(u: Unicode)
    requires KnowsAscii(u)
    ensures Sensible(u)
  {
  }

  lemma BlankIsRead(text: string, i: nat, afterColon: bool, u: Unicode, line: nat)
    requires i < |text| && text[i] == ' '
    ensures ScanOne(text, i, afterColon, u, line) == Ok(Blank)
  {
  }

  /** One token and the blank behind it. */
  lemma ScanStep(text: string, i: nat, before: seq<Spanned>, t: Token, u: Unicode, line: nat)
    requires Sensible(u) && i < |text| && ScanOne(text, i, EndsInColon(before), u, line) == Ok(Lexeme(t))
    requires i + SpanLength(t) < |text|
    requires ScanOne(text, i + SpanLength(t), EndsInColon(before + [Spanned(t, i)]), u, line) == Ok(Blank)
    ensures ScanFrom(text, i, before, u, line)
         == ScanFrom(text, i + SpanLength(t) + 1, before + [Spanned(t, i)], u, line)
  {
    hide ScanOne;
    ScanOneCovers(text, i, EndsInColon(before), u, line);
  }

  /** A line in which tokens are written down, whichever way, is scanned as these tokens. */
  lemma WrittenLinesAreRead(toks: seq<Token>, ws: seq<string>, tail: string, u: Unicode, line: nat)
    requires KnowsAscii(u) && AreWritings(toks, ws, u) && LabelsFollowColons(toks, false) && IsComment(tail)
    ensures ScanLine(LineOf(ws) + tail, u, line).Ok?
    ensures Bare(ScanLine(LineOf(ws) + tail, u, line).value) == RereadAll(toks, ws, line)
  {
    hide IsWriting, ScanFrom;
    AsciiIsSensible(u);
    LineIsRead("", [], toks, ws, tail, u, line);
    assert "" + LineOf(ws) + tail == LineOf(ws) + tail;
    assert Bare([]) + RereadAll(toks, ws, line) == RereadAll(toks, ws, line);
  }

  // ---- Whole sources ----

  /** A part of a source: a line of code with a comment at its end, or lines between two delimiters of the same
      label. */
  datatype Part = Code(toks: seq<Token>, ws: seq<string>, tail: string) | Remark(name: string, texts: seq<string>)

  function LinesOf(p: Part): seq<string> {
    match p
    case Code(_, ws, tail) => [LineOf(ws) + tail]
    case Remark(name, texts) => ["##" + name] + texts + ["##" + name]
  }

  ghost predicate IsPart(p: Part, u: Unicode) {
    && F.SingleLines(LinesOf(p))
    && match p
       case Code(toks, ws, tail) =>
         && AreWritings(toks, ws, u) && LabelsFollowColons(toks, false) && IsComment(tail)
         && Delimiter(LineOf(ws) + tail, u).None?
       case Remark(name, texts) =>
         && Delimiter("##" + name, u) == Some(name)
         && forall i | 0 <= i < |texts| :: Delimiter(texts[i], u).None?
  }

  function EmptyLines(n: nat, count: nat): seq<Token> {
    seq(count, i requires 0 <= i < count => NewlineAt(n + i + 1))
  }

  /** The tokens of a part whose first line has number `n`, counted from 0. */
  function TokensOf(p: Part, n: nat): seq<Token>
    requires p.Code? ==> |p.ws| == |p.toks|
  {
    match p
    case Code(toks, ws, _) => RereadAll(toks, ws, n + 1) + [NewlineAt(n + 1)]
    case Remark(_, texts) => EmptyLines(n, |texts| + 2)
  }

  function AllLines(parts: seq<Part>): seq<string> {
    if parts == [] then [] else LinesOf(parts[0]) + AllLines(parts[1..])
  }

  ghost predicate AreParts(parts: seq<Part>, u: Unicode) {
    forall i | 0 <= i < |parts| :: IsPart(parts[i], u)
  }

  ghost function AllTokens(parts: seq<Part>, n: nat, u: Unicode): seq<Token>
    requires AreParts(parts, u)
  {
    if parts == [] then [Plain(EOF, "", n + 1)]
    else TokensOf(parts[0], n) + AllTokens(parts[1..], n + |LinesOf(parts[0])|, u)
  }

  lemma CodeIsRead(p: Part, n: nat, lines: seq<string>, tokens: seq<Token>, u: Unicode)
    requires KnowsAscii(u) && IsPart(p, u) && p.Code? && n < |lines| && lines[n] == LineOf(p.ws) + p.tail
    ensures Sensible(u) && |p.ws| == |p.toks|
    ensures LinesFrom(lines, n, None, tokens, u) == LinesFrom(lines, n + 1, None, tokens + TokensOf(p, n), u)
  {
    hide ScanLine, Delimiter, F.SingleLines;
    AsciiIsSensible(u);
    WrittenLinesAreRead(p.toks, p.ws, p.tail, u, n + 1);
    var read, end := RereadAll(p.toks, p.ws, n + 1), [NewlineAt(n + 1)];
    assert tokens + (read + end) == tokens + read + end;
  }

  lemma FirstLine(more: seq<string>, n: nat, lines: seq<string>)
    requires n <= |lines| && more != [] && more <= lines[n..]
    ensures n < |lines| && lines[n] == more[0] && more[1..] <= lines[n + 1..]
  {
    assert lines[n + 1..] == lines[n..][1..];
  }

  /** Inside of a comment. */
  lemma {:induction false} RemarkIsRead(name: string, texts: seq<string>, n: nat, lines: seq<string>,
                                        tokens: seq<Token>, u: Unicode)
    requires Sensible(u) && Delimiter("##" + name, u) == Some(name)
    requires forall i | 0 <= i < |texts| :: Delimiter(texts[i], u).None?
    requires n <= |lines| && texts + ["##" + name] <= lines[n..]
    ensures n + |texts| + 1 <= |lines|
    ensures LinesFrom(lines, n, Some(name), tokens, u)
         == LinesFrom(lines, n + |texts| + 1, None, tokens + EmptyLines(n, |texts| + 1), u)
    decreases |texts|
  {
    hide ScanLine, Delimiter;
    var more := texts + ["##" + name];
    FirstLine(more, n, lines);
    EmptyLinesFirst(n, |texts| + 1);
    if texts == [] {
      assert more == ["##" + name];
      assert EmptyLines(n, 1) == [NewlineAt(n + 1)];
    } else {
      assert more[1..] == texts[1..] + ["##" + name];
      RemarkIsRead(name, texts[1..], n + 1, lines, tokens + [NewlineAt(n + 1)], u);
      var rest := EmptyLines(n + 1, |texts|);
      assert tokens + [NewlineAt(n + 1)] + rest == tokens + ([NewlineAt(n + 1)] + rest);
    }
  }

  lemma EmptyLinesFirst(n: nat, count: nat)
    requires count > 0
    ensures EmptyLines(n, count) == [NewlineAt(n + 1)] + EmptyLines(n + 1, count - 1)
  {
  }

  lemma PartIsRead(p: Part, n: nat, lines: seq<string>, tokens: seq<Token>, u: Unicode)
    requires KnowsAscii(u) && IsPart(p, u) && n <= |lines| && LinesOf(p) <= lines[n..]
    ensures Sensible(u) && n + |LinesOf(p)| <= |lines| && (p.Code? ==> |p.ws| == |p.toks|)
    ensures LinesFrom(lines, n, None, tokens, u)
         == LinesFrom(lines, n + |LinesOf(p)|, None, tokens + TokensOf(p, n), u)
  {
    hide ScanLine, Delimiter, AreWritings, F.SingleLines, LineOf, KnowsAscii;
    AsciiIsSensible(u);
    FirstLine(LinesOf(p), n, lines);
    if p.Code? {
      CodeIsRead(p, n, lines, tokens, u);
    } else {
      assert LinesOf(p)[1..] == p.texts + ["##" + p.name];
      RemarkIsRead(p.name, p.texts, n + 1, lines, tokens + [NewlineAt(n + 1)], u);
      EmptyLinesFirst(n, |p.texts| + 2);
      var rest := EmptyLines(n + 1, |p.texts| + 1);
      assert tokens + [NewlineAt(n + 1)] + rest == tokens + ([NewlineAt(n + 1)] + rest);
    }
  }

  lemma {:induction false} PartsAreRead(parts: seq<Part>, n: nat, lines: seq<string>, tokens: seq<Token>, u: Unicode)
    requires KnowsAscii(u) && AreParts(parts, u) && n <= |lines| && lines[n..] == AllLines(parts)
    ensures Sensible(u) && LinesFrom(lines, n, None, tokens, u) == Ok(tokens + AllTokens(parts, n, u))
    decreases |parts|
  {
    hide IsPart, KnowsAscii, LinesOf, TokensOf;
    AsciiIsSensible(u);
    if parts != [] {
      var p, more := parts[0], parts[1..];
      assert IsPart(p, u);
      var next := n + |LinesOf(p)|;
      PartIsRead(p, n, lines, tokens, u);
      assert lines[next..] == lines[n..][|LinesOf(p)|..] == AllLines(more);
      var read := TokensOf(p, n);
      PartsAreRead(more, next, lines, tokens + read, u);
      assert AllTokens(parts, n, u) == read + AllTokens(more, next, u);
      hide LinesFrom, AllTokens, AllLines;
      assert tokens + read + AllTokens(more, next, u) == tokens + (read + AllTokens(more, next, u));
    }
  }

  lemma {:induction false} AllLinesAreSingle(parts: seq<Part>, u: Unicode)
    requires AreParts(parts, u)
    ensures F.SingleLines(AllLines(parts)) && (parts != [] ==> AllLines(parts) != [])
  {
    hide F.OneLine;
    if parts != [] {
      assert IsPart(parts[0], u);
      AllLinesAreSingle(parts[1..], u);
    }
  }

  /** A source written line by line, with comments of both kinds, is scanned as the tokens that were written. */
  lemma WrittenSourcesAreRead(parts: seq<Part>, u: Unicode)
    requires KnowsAscii(u) && AreParts(parts, u) && parts != []
    ensures Sensible(u) && TokensOfSource(F.Join(AllLines(parts)) + "\n", u) == Ok(AllTokens(parts, 0, u))
  {
    hide F.Join, LinesFrom, AllTokens;
    AllLinesAreSingle(parts, u);
    F.SplitJoinedLines(AllLines(parts));
    var lines := AllLines(parts);
    assert lines[0..] == lines;
    PartsAreRead(parts, 0, lines, [], u);
    assert [] + AllTokens(parts, 0, u) == AllTokens(parts, 0, u);
  }
}
