/** Every text can be written as a string literal, in many ways, and all of them scan back to it. */
module StringLiterals {
  import opened Ast
  import opened Tokens
  import opened LexicalRules

  /** How a character may be written between quotes. */
  datatype Style = Itself | Short | FourDigits | EightDigits

  function HexText(n: nat, width: nat): (s: string)
    ensures |s| == width
  {
    if width == 0 then "" else HexText(n / 16, width - 1) + [HexChar(n % 16)]
  }

  function HexChar(v: nat): (c: char)
    requires v < 16
    ensures IsHex(c) && HexDigit(c) == v
  {
    if v < 10 then '0' + v as char else 'a' + (v - 10) as char
  }

  /** The marker of a short escape. */
  function Marker(c: char): Option<char> {
    if c == '\n' then Some('n')
    else if c == '\r' then Some('r')
    else if c == '\t' then Some('t')
    else if c == '\0' then Some('0')
    else if c == '"' then Some('"')
    else if c == '\\' then Some('\\')
    else None
  }

  predicate Suits(c: char, style: Style) {
    match style
    case Itself => c != '"' && c != '\\'
    case Short => Marker(c).Some?
    case FourDigits => c < '\U{10000}'
    case EightDigits => true
  }

  function Written(c: char, style: Style): string
    requires Suits(c, style)
  {
    match style
    case Itself => [c]
    case Short => ['\\', Marker(c).value]
    case FourDigits => ['\\', 'u'] + HexText(c as int, 4)
    case EightDigits => ['\\', 'U'] + HexText(c as int, 8)
  }

  predicate AllSuit(s: string, styles: seq<Style>) {
    |s| == |styles| && forall i | 0 <= i < |s| :: Suits(s[i], styles[i])
  }

  function WrittenAll(s: string, styles: seq<Style>): string
    requires AllSuit(s, styles)
  {
    if s == "" then "" else Written(s[0], styles[0]) + WrittenAll(s[1..], styles[1..])
  }

  function Power16(n: nat): nat { if n == 0 then 1 else 16 * Power16(n - 1) }

  lemma {:induction false} HexIsRead(n: nat, width: nat)
    requires n < Power16(width)
    ensures (forall c | c in HexText(n, width) :: IsHex(c)) && HexValue(HexText(n, width)) == n
  {
    if width > 0 {
      HexIsRead(n / 16, width - 1);
      var s := HexText(n / 16, width - 1);
      assert (s + [HexChar(n % 16)])[..|s|] == s;
    }
  }

  lemma {:induction false} CodesAreSmall(c: char)
    ensures (c as int) < Power16(8) && (c < '\U{10000}' ==> (c as int) < Power16(4)) && IsScalar(c as int)
  {
    assert Power16(2) == 256 && Power16(4) == 65536;
    assert Power16(6) == 16777216;
  }

  lemma {:induction false} EscapeIsRead(pre: string, c: char, style: Style, more: string)
    requires Suits(c, style) && style != Itself
    ensures var text := pre + Written(c, style) + more;
            Escape(text, |pre|) == Ok((c, |pre| + |Written(c, style)|)) && text[|pre|] == '\\'
  {
    var w := Written(c, style);
    var text := pre + w + more;
    assert text[|pre|] == w[0] && text[|pre| + 1] == w[1];
    if style != Short {
      var width := if style == FourDigits then 4 else 8;
      CodesAreSmall(c);
      HexIsRead(c as int, width);
      assert text[|pre| + 2..|pre| + 2 + width] == HexText(c as int, width);
    }
  }

  /** Scanning the written form of a text, up to a quote, yields the text. */
  lemma {:induction false} WrittenIsRead(pre: string, s: string, styles: seq<Style>, more: string)
    requires AllSuit(s, styles)
    ensures var text := pre + WrittenAll(s, styles) + "\"" + more;
            StringFrom(text, |pre|, false) == Ok((s, |pre| + |WrittenAll(s, styles)|))
    decreases |s|
  {
    hide Written, Escape;
    var text := pre + WrittenAll(s, styles) + "\"" + more;
    if s == "" {
      assert text[|pre|] == '"';
    } else {
      var w, rest := Written(s[0], styles[0]), WrittenAll(s[1..], styles[1..]);
      assert AllSuit(s[1..], styles[1..]);
      WrittenIsRead(pre + w, s[1..], styles[1..], more);
      assert text == (pre + w) + rest + "\"" + more;
      assert [s[0]] + s[1..] == s;
      if styles[0] == Itself {
        ItselfIsWritten(s[0]);
        assert text[|pre|] == w[0];
      } else {
        EscapeIsRead(pre, s[0], styles[0], rest + "\"" + more);
        assert text == pre + w + (rest + "\"" + more);
      }
    }
  }

  lemma {:induction false} ItselfIsWritten(c: char)
    requires Suits(c, Itself)
    ensures Written(c, Itself) == [c]
  {
  }

  /** A string literal, whichever way its characters are written, is scanned as one STRING token
      with the text as its value, and nothing beyond the closing quote is read. */
  lemma {:induction false} LiteralsAreRead(pre: string, s: string, styles: seq<Style>, more: string,
                                           afterColon: bool, u: Unicode, line: nat)
    requires AllSuit(s, styles)
    ensures var literal := "\"" + WrittenAll(s, styles) + "\"";
            ScanOne(pre + literal + more, |pre|, afterColon, u, line)
                == Ok(Lexeme(Token(STRING, literal, StringLit(s), line)))
  {
    hide WrittenAll, StringFrom, AllSuit;
    var body := WrittenAll(s, styles);
    var literal := "\"" + body + "\"";
    var text := pre + literal + more;
    assert text == (pre + "\"") + body + "\"" + more;
    WrittenIsRead(pre + "\"", s, styles, more);
    assert text[|pre|..|pre| + |literal|] == literal;
    QuoteStartsString(text, |pre|, s, |pre| + |literal|, afterColon, u, line);
  }

  /** A quote starts a string, and the token ends behind its closing quote. */
  lemma {:induction false} QuoteStartsString(text: string, i: nat, s: string, end: nat, afterColon: bool, u: Unicode,
                                             line: nat)
    requires i < end <= |text| && text[i] == '"' && StringFrom(text, i + 1, false) == Ok((s, end - 1))
    ensures ScanOne(text, i, afterColon, u, line) == Ok(Lexeme(Token(STRING, text[i..end], StringLit(s), line)))
  {
    hide StringFrom;
    QuoteIsNoOperator(text, i);
  }

  lemma {:induction false} QuoteIsNoOperator(text: string, i: nat)
    requires i < |text| && text[i] in {'"', 'r'}
    ensures OperatorAt(text, i).None?
  {
    if i + 3 <= |text| { assert text[i..i + 3][0] == text[i]; }
    if i + 2 <= |text| { assert text[i..i + 2][0] == text[i]; }
  }

  lemma {:induction false} RawIsRead(pre: string, s: string, more: string)
    requires '"' !in s
    ensures StringFrom(pre + s + "\"" + more, |pre|, true) == Ok((s, |pre| + |s|))
    decreases |s|
  {
    var text := pre + s + "\"" + more;
    if s == "" {
      assert text[|pre|] == '"';
    } else {
      assert text[|pre|] == s[0] && s[0] in s;
      RawIsRead(pre + [s[0]], s[1..], more);
      assert text == (pre + [s[0]]) + s[1..] + "\"" + more;
      assert [s[0]] + s[1..] == s;
    }
  }

  /** A raw string without quotes stands for its own characters, backslashes included. */
  lemma {:induction false} RawLiteralsAreRead(pre: string, s: string, more: string, afterColon: bool, u: Unicode,
                                              line: nat)
    requires '"' !in s
    ensures var literal := "r\"" + s + "\"";
            ScanOne(pre + literal + more, |pre|, afterColon, u, line)
                == Ok(Lexeme(Token(STRING, literal, StringLit(s), line)))
  {
    var literal := "r\"" + s + "\"";
    var text := pre + literal + more;
    assert text == (pre + "r\"") + s + "\"" + more;
    RawIsRead(pre + "r\"", s, more);
    assert text[|pre|] == 'r' && text[|pre| + 1] == '"';
    QuoteIsNoOperator(text, |pre|);
    assert text[|pre|..|pre| + |literal|] == literal;
  }

  // ---- Literals that are refused ----

  /** What follows the written form of a text decides whether the literal is accepted. */
  lemma {:induction false} RestDecides(pre: string, s: string, styles: seq<Style>, tail: string)
    requires AllSuit(s, styles)
    ensures var text := pre + WrittenAll(s, styles) + tail;
            var behind := StringFrom(text, |pre| + |WrittenAll(s, styles)|, false);
            behind.Err? ==> StringFrom(text, |pre|, false) == Err(behind.code)
    decreases |s|
  {
    hide Written, Escape;
    var text := pre + WrittenAll(s, styles) + tail;
    if s != "" {
      var w, rest := Written(s[0], styles[0]), WrittenAll(s[1..], styles[1..]);
      assert AllSuit(s[1..], styles[1..]);
      RestDecides(pre + w, s[1..], styles[1..], tail);
      assert text == (pre + w) + rest + tail;
      if styles[0] == Itself {
        ItselfIsWritten(s[0]);
        assert text[|pre|] == w[0];
      } else {
        EscapeIsRead(pre, s[0], styles[0], rest + tail);
        assert text == pre + w + (rest + tail);
      }
    }
  }

  const MARKERS := {'n', 'r', 't', '0', '"', '\\', 'u', 'U'}

  /** What breaks a literal off: the end of the line, or a backslash before anything but a marker. */
  predicate IsBroken(tail: string) {
    tail == "" || (tail[0] == '\\' && (|tail| == 1 || tail[1] !in MARKERS))
  }

  /** A literal that is broken off behind any text, written in any way, is refused: with E103 at the end of the
      line, and with E219 at an unknown escape. */
  lemma {:induction false} BrokenLiteralsAreRefused(pre: string, s: string, styles: seq<Style>, tail: string,
                                                    afterColon: bool, u: Unicode, line: nat)
    requires AllSuit(s, styles) && IsBroken(tail)
    ensures ScanOne(pre + "\"" + WrittenAll(s, styles) + tail, |pre|, afterColon, u, line)
         == Err(if tail == "" then "E103" else "E219")
  {
    hide *;
    var before, body, code := pre + "\"", WrittenAll(s, styles), if tail == "" then "E103" else "E219";
    LastOf(pre, '"', body, tail);
    BrokenOff(before + body, tail);
    RestDecides(before, s, styles, tail);
    QuoteRefuses(before + body + tail, |pre|, code, afterColon, u, line);
  }

  lemma LastOf(pre: string, c: char, body: string, tail: string)
    ensures |pre + [c]| == |pre| + 1 && |pre + [c] + body| == |pre| + 1 + |body|
    ensures |pre| < |pre + [c] + body + tail| && (pre + [c] + body + tail)[|pre|] == c
  {
  }

  lemma {:induction false} BrokenOff(before: string, tail: string)
    requires IsBroken(tail)
    ensures StringFrom(before + tail, |before|, false) == Err(if tail == "" then "E103" else "E219")
  {
    if tail != "" { assert (before + tail)[|before|..] == tail; }
  }

  lemma {:induction false} QuoteRefuses(text: string, i: nat, code: string, afterColon: bool, u: Unicode, line: nat)
    requires i < |text| && text[i] == '"' && StringFrom(text, i + 1, false) == Err(code)
    ensures ScanOne(text, i, afterColon, u, line) == Err(code)
  {
    hide StringFrom;
    QuoteIsNoOperator(text, i);
  }
}
