/** The lexer: it scans a line without losing anything, and its tokens are what the parser
    relies on. */
module Scanners {
  import opened Ast
  import opened Tokens
  import opened LexicalRules
  import opened Spellings
  import F = Formatter

  // ---- Every piece covers its part of the line ----

  lemma {:induction false} SliceCovers(text: string, i: nat, end: nat, t: Token)
    requires i < end <= |text| && t.kind != TAG && t.lexeme == text[i..end]
    ensures Covers(text, i, t)
  {
    assert "" + t.lexeme == t.lexeme;
  }

  lemma {:induction false} NotTags(word: string)
    ensures WordKind(word) != TAG && KeywordKind(word) != TAG
  {
    hide WordKind;
  }

  lemma {:induction false} OperatorIsNoTag(text: string, i: nat)
    requires i < |text| && OperatorAt(text, i).Some?
    ensures OperatorAt(text, i).value.0 != TAG
  {
  }

  lemma {:induction false} TagCovers(text: string, i: nat, u: Unicode, line: nat)
    requires i < |text| && text[i] == '@' && ScanTag(text, i, u, line).Ok? && Sensible(u)
    ensures ScanTag(text, i, u, line).value.Lexeme? && Covers(text, i, ScanTag(text, i, u, line).value.token)
  {
    hide AreNames;
    var end := TagEnd(text, i + 1, u).value;
    assert text[i..end] == "@" + text[i + 1..end];
    assert text[i..i + (end - i)] == text[i..end];
  }

  lemma {:induction false} NumberCovers(text: string, i: nat, u: Unicode, line: nat)
    requires i < |text| && IsDecimal(text[i]) && ScanNumber(text, i, u, line).Ok?
    ensures ScanNumber(text, i, u, line).value.Lexeme? && Covers(text, i, ScanNumber(text, i, u, line).value.token)
  {
    hide AreDigits, NumberValue, WithoutUnderscores, PrefixBase, Covers;
    var t := ScanNumber(text, i, u, line).value.token;
    if text[i] == '0' && i + 1 < |text| && PrefixBase(text[i + 1]).Some? {
      SliceCovers(text, i, BasedEnd(text, i + 2, u), t);
    } else {
      var e := DigitsEnd(text, i);
      assert e > i;
      SliceCovers(text, i, if e < |text| && text[e] == '.' then DigitsEnd(text, e + 1) else e, t);
    }
  }

  /** A token that has been scanned covers exactly its own slice of the line, which is not empty. */
  lemma {:induction false} ScanOneCovers(text: string, i: nat, afterColon: bool, u: Unicode, line: nat)
    requires i < |text| && Sensible(u) && ScanOne(text, i, afterColon, u, line).Ok?
    ensures var piece := ScanOne(text, i, afterColon, u, line).value;
            && (piece.Lexeme? ==> Covers(text, i, piece.token))
            && (piece.Blank? <==> IsBlank(text[i])) && (piece.Comment? ==> text[i] == '#')
  {
    hide Covers, ScanTag, ScanNumber, OperatorAt, WordKind, KeywordKind, StringFrom, IsAscii;
    var r := ScanOne(text, i, afterColon, u, line);
    if IsBlank(text[i]) || text[i] == '#' {
    } else if text[i] == '@' {
      TagCovers(text, i, u, line);
    } else if OperatorAt(text, i).Some? {
      OperatorIsNoTag(text, i);
      SliceCovers(text, i, OperatorAt(text, i).value.1, r.value.token);
    } else if StartsString(text, i) {
      SliceCovers(text, i, StringFrom(text, if text[i] == 'r' then i + 2 else i + 1, text[i] == 'r').value.1 + 1,
                  r.value.token);
    } else if IsDecimal(text[i]) {
      NumberCovers(text, i, u, line);
    } else {
      NotTags(text[i..NameEnd(text, i, u)]);
      SliceCovers(text, i, NameEnd(text, i, u), r.value.token);
    }
  }

  // ---- Lines ----

  predicate EndsInColon(tokens: seq<Spanned>) { tokens != [] && tokens[|tokens| - 1].token.kind == COLON }

  /** The tokens of a line from `i` on, behind those that have been scanned already. */
  function ScanFrom(text: string, i: nat, tokens: seq<Spanned>, u: Unicode, line: nat): Result<seq<Spanned>>
    requires i <= |text| && Sensible(u)
    decreases |text| - i
  {
    if i == |text| then Ok(tokens)
    else
      var piece := ScanOne(text, i, EndsInColon(tokens), u, line);
      if piece.Err? then Err(piece.code)
      else
        ScanOneCovers(text, i, EndsInColon(tokens), u, line);
        match piece.value
        case Blank => ScanFrom(text, i + 1, tokens, u, line)
        case Comment => Ok(tokens)
        case Lexeme(t) => ScanFrom(text, i + SpanLength(t), tokens + [Spanned(t, i)], u, line)
  }

  function ScanLine(text: string, u: Unicode, line: nat): Result<seq<Spanned>>
    requires Sensible(u)
  {
    ScanFrom(text, 0, [], u, line)
  }

  function EndOf(s: Spanned): nat { s.start + SpanLength(s.token) }

  predicate IsCovered(tokens: seq<Spanned>, p: nat) {
    exists k | 0 <= k < |tokens| :: tokens[k].start <= p < EndOf(tokens[k])
  }

  /** Up to `end` nothing of the line is lost: the tokens cover exactly their slices, one behind
      the other, and what they leave out is blank. */
  predicate Lossless(text: string, tokens: seq<Spanned>, end: nat) {
    && end <= |text|
    && (forall k | 0 <= k < |tokens| :: Covers(text, tokens[k].start, tokens[k].token) && EndOf(tokens[k]) <= end)
    && (forall k | 0 <= k < |tokens| - 1 :: EndOf(tokens[k]) <= tokens[k + 1].start)
    && (forall p | 0 <= p < end :: IsCovered(tokens, p) || IsBlank(text[p]))
  }

  lemma {:induction false} LosslessToken(text: string, tokens: seq<Spanned>, i: nat, t: Token)
    requires Lossless(text, tokens, i) && Covers(text, i, t)
    ensures Lossless(text, tokens + [Spanned(t, i)], i + SpanLength(t))
  {
    hide Covers, IsBlank;
    CoversWithin(text, i, t);
    var more := tokens + [Spanned(t, i)];
    forall k | 0 <= k < |more| - 1 ensures EndOf(more[k]) <= more[k + 1].start { assert more[k] == tokens[k]; }
    forall p | 0 <= p < i + SpanLength(t) ensures IsCovered(more, p) || IsBlank(text[p]) {
      if p >= i {
        assert more[|tokens|].start <= p < EndOf(more[|tokens|]);
      } else if IsCovered(tokens, p) {
        var k :| 0 <= k < |tokens| && tokens[k].start <= p < EndOf(tokens[k]);
        assert more[k] == tokens[k];
      }
    }
  }

  lemma {:induction false} CoversWithin(text: string, i: nat, t: Token)
    requires Covers(text, i, t)
    ensures i + SpanLength(t) <= |text|
  {
  }

  lemma {:induction false} ScanFromIsLossless(text: string, i: nat, tokens: seq<Spanned>, u: Unicode, line: nat)
      returns (end: nat)
    requires i <= |text| && Sensible(u) && Lossless(text, tokens, i) && ScanFrom(text, i, tokens, u, line).Ok?
    ensures Lossless(text, ScanFrom(text, i, tokens, u, line).value, end)
    ensures end == |text| || text[end] == '#'
    decreases |text| - i
  {
    hide ScanOne, Covers;
    if i == |text| {
      end := i;
    } else {
      ScanOneCovers(text, i, EndsInColon(tokens), u, line);
      var piece := ScanOne(text, i, EndsInColon(tokens), u, line).value;
      if piece.Blank? {
        end := ScanFromIsLossless(text, i + 1, tokens, u, line);
      } else if piece.Comment? {
        end := i;
      } else {
        LosslessToken(text, tokens, i, piece.token);
        CoversWithin(text, i, piece.token);
        assert SpanLength(piece.token) > 0 by { CoversSomething(text, i, piece.token); }
        end := ScanFromIsLossless(text, i + SpanLength(piece.token), tokens + [Spanned(piece.token, i)], u, line);
      }
    }
  }

  lemma {:induction false} CoversSomething(text: string, i: nat, t: Token)
    requires Covers(text, i, t)
    ensures SpanLength(t) > 0
  {
  }

  /** On a line without lexical error nothing is lost but blanks and the comment at its end. */
  lemma {:induction false} LinesAreLossless(text: string, u: Unicode, line: nat) returns (end: nat)
    requires Sensible(u) && ScanLine(text, u, line).Ok?
    ensures Lossless(text, ScanLine(text, u, line).value, end)
    ensures end == |text| || text[end] == '#'
  {
    end := ScanFromIsLossless(text, 0, [], u, line);
  }

  // ---- Tokens are well formed ----

  lemma {:induction false} WordsAreWellFormed(word: string)
    ensures var k := KeywordKind(word);
            && Spelling(k).None? && k !in {TAG, LABEL, NUMBER, STRING, EOF}
            && (IsKeyword(k) ==> SpellsKeyword(word, k)) && (k == IDENTIFIER ==> SpellsNoKeyword(word))
            && (k == IN ==> Lower(word) == "in") && (k == NOT ==> Lower(word) == "not")
            && (k == FRONT ==> Lower(word) == "front") && (k == BACK ==> Lower(word) == "back")
            && (k == IDENTIFIER ==> word != "list" && word != "object")
  {
    KeywordKindIff(word, KeywordKind(word));
    KeywordKindIff(word, LIST);
    KeywordKindIff(word, OBJECT);
    SmallStaysSmall("list");
    SmallStaysSmall("object");
    hide WordKind, Lower;
  }

  lemma {:induction false} OperatorsAreWellFormed(text: string, i: nat)
    requires i < |text| && OperatorAt(text, i).Some?
    ensures var (kind, end) := OperatorAt(text, i).value;
            && (Spelling(kind).Some? ==> text[i..end] == Spelling(kind).value)
            && IsOperator(kind) && kind !in {NUMBER, STRING, EOF, NEWLINE, IDENTIFIER}
  {
    hide Spelling, TripleKind, PairKind, SingleKind;
    assert text[i..i + 1] == [text[i]];
  }

  lemma {:induction false} ScanOneIsWellFormed(text: string, i: nat, afterColon: bool, u: Unicode, line: nat)
    requires i < |text| && ScanOne(text, i, afterColon, u, line).Ok?
    ensures var piece := ScanOne(text, i, afterColon, u, line).value;
            piece.Lexeme? ==> WellFormed(piece.token) && piece.token.kind != EOF
  {
    hide OperatorAt, Spelling, WordKind, KeywordKind, StringFrom, TagEnd, AreNames, NumberValue, AreDigits, IsAscii;
    hide Lower;
    if OperatorAt(text, i).Some? { OperatorsAreWellFormed(text, i); }
    WordsAreWellFormed(text[i..NameEnd(text, i, u)]);
    NoSpelling();
  }

  lemma {:induction false} NoSpelling()
    ensures forall k | k in {TAG, LABEL, NUMBER, STRING, NEWLINE, EOF} :: Spelling(k).None? && k != IDENTIFIER
  {
  }

  // ---- The scanner ----

  method FindNameEnd(text: string, from: nat, u: Unicode) returns (i: nat)
    requires from <= |text|
    ensures i == NameEnd(text, from, u)
  {
    i := from;
    while i < |text| && u.continues(text[i])
      invariant from <= i <= |text| && NameEnd(text, from, u) == NameEnd(text, i, u)
    {
      i := i + 1;
    }
  }

  method FindTagEnd(text: string, from: nat, u: Unicode) returns (end: Result<nat>)
    requires from < |text|
    ensures end == TagEnd(text, from, u)
  {
    var i := from;
    while true
      invariant from <= i < |text| && TagEnd(text, from, u) == TagEnd(text, i, u)
      decreases |text| - i
    {
      i := FindNameEnd(text, i, u);
      if i >= |text| || text[i] != ':' {
        return Ok(i);
      }
      i := i + 1;
      if i >= |text| || !u.starts(text[i]) {
        return Err("E216");
      }
    }
  }

  method FindDigitsEnd(text: string, from: nat) returns (i: nat)
    requires from <= |text|
    ensures i == DigitsEnd(text, from)
  {
    i := from;
    while i < |text| && (IsDecimal(text[i]) || text[i] == '_')
      invariant from <= i <= |text| && DigitsEnd(text, from) == DigitsEnd(text, i)
    {
      i := i + 1;
    }
  }

  method FindBasedEnd(text: string, from: nat, u: Unicode) returns (i: nat)
    requires from <= |text|
    ensures i == BasedEnd(text, from, u)
  {
    i := from;
    while i < |text| && (u.isAlnum(text[i]) || text[i] in {'_', '.'})
      invariant from <= i <= |text| && BasedEnd(text, from, u) == BasedEnd(text, i, u)
    {
      i := i + 1;
    }
  }

  /** Characters that have been read already, before those still to be read. */
  ghost function Before(chars: string, r: Result<(string, nat)>): Result<(string, nat)> {
    if r.Err? then r else Ok((chars + r.value.0, r.value.1))
  }

  method ReadString(text: string, from: nat, raw: bool) returns (r: Result<(string, nat)>)
    requires from <= |text|
    ensures r == StringFrom(text, from, raw)
  {
    hide Escape;
    var chars, i := "", from;
    assert Before("", StringFrom(text, from, raw)) == StringFrom(text, from, raw) by {
      var all := StringFrom(text, from, raw);
      if all.Ok? { assert "" + all.value.0 == all.value.0; }
    }
    while i < |text| && text[i] != '"'
      invariant from <= i <= |text|
      invariant StringFrom(text, from, raw) == Before(chars, StringFrom(text, i, raw))
      decreases |text| - i
    {
      var c, next := text[i], i + 1;
      if text[i] == '\\' && !raw {
        var escape := Escape(text, i);
        if escape.Err? {
          return Err(escape.code);
        }
        c, next := escape.value.0, escape.value.1;
      }
      BeforeMore(chars, c, StringFrom(text, next, raw));
      chars, i := chars + [c], next;
    }
    if i == |text| {
      return Err("E103");
    }
    assert chars + "" == chars;
    r := Ok((chars, i));
  }

  lemma {:induction false} BeforeMore(chars: string, c: char, r: Result<(string, nat)>)
    ensures Before(chars, if r.Err? then r else Ok(([c] + r.value.0, r.value.1))) == Before(chars + [c], r)
  {
    if r.Ok? { assert chars + ([c] + r.value.0) == (chars + [c]) + r.value.0; }
  }

  method ScanPiece(text: string, i: nat, afterColon: bool, u: Unicode, line: nat) returns (r: Result<Piece>)
    requires i < |text|
    ensures r == ScanOne(text, i, afterColon, u, line)
  {
    hide OperatorAt, KeywordKind, AreNames, AreDigits, NumberValue, WithoutUnderscores, PrefixBase, IsAscii;
    if IsBlank(text[i]) {
      return Ok(Blank);
    }
    if text[i] == '#' {
      return Ok(Comment);
    }
    if text[i] == '@' {
      r := ReadTag(text, i, u, line);
      return;
    }
    var operator := OperatorAt(text, i);
    if operator.Some? {
      return Ok(Lexeme(Plain(operator.value.0, text[i..operator.value.1], line)));
    }
    if StartsString(text, i) {
      var raw := text[i] == 'r';
      var chars := ReadString(text, if raw then i + 2 else i + 1, raw);
      r := if chars.Err? then Err(chars.code)
           else Ok(Lexeme(Token(STRING, text[i..chars.value.1 + 1], StringLit(chars.value.0), line)));
    } else if IsDecimal(text[i]) {
      r := ReadNumber(text, i, u, line);
    } else if u.starts(text[i]) {
      r := ReadName(text, i, afterColon, u, line);
    } else {
      r := Err("E100");
    }
  }

  method ReadTag(text: string, i: nat, u: Unicode, line: nat) returns (r: Result<Piece>)
    requires i < |text|
    ensures r == ScanTag(text, i, u, line)
  {
    if i + 1 >= |text| || !u.starts(text[i + 1]) {
      return Err("E216");
    }
    var end := FindTagEnd(text, i + 1, u);
    if end.Err? {
      return Err(end.code);
    }
    var name := text[i + 1..end.value];
    r := if AreNames(name, u) then Ok(Lexeme(Plain(TAG, name, line))) else Err("E216");
  }

  method ReadNumber(text: string, i: nat, u: Unicode, line: nat) returns (r: Result<Piece>)
    requires i < |text| && IsDecimal(text[i])
    ensures r == ScanNumber(text, i, u, line)
  {
    if text[i] == '0' && i + 1 < |text| && PrefixBase(text[i + 1]).Some? {
      var base := PrefixBase(text[i + 1]).value;
      var end := FindBasedEnd(text, i + 2, u);
      var digits := text[i + 2..end];
      return if !AreDigits(digits, base) then Err("E101")
             else Ok(Lexeme(Token(NUMBER, text[i..end], IntLit(NumberValue(digits, base)), line)));
    }
    var e := FindDigitsEnd(text, i);
    var integer := text[i..e];
    if e < |text| && text[e] == '.' {
      var end := FindDigitsEnd(text, e + 1);
      return if !AreDigits(integer, 10) || !AreDigits(text[e + 1..end], 10) then Err("E101")
             else Ok(Lexeme(Token(NUMBER, text[i..end], FloatLit(WithoutUnderscores(text[i..end])), line)));
    }
    r := if !AreDigits(integer, 10) then Err("E101")
         else Ok(Lexeme(Token(NUMBER, integer, IntLit(NumberValue(integer, 10)), line)));
  }

  method ReadName(text: string, i: nat, afterColon: bool, u: Unicode, line: nat) returns (r: Result<Piece>)
    requires i < |text|
    ensures r == ScanName(text, i, afterColon, u, line)
  {
    hide KeywordKind;
    var end := FindNameEnd(text, i, u);
    var name := text[i..end];
    if name in {"null", "NULL"} {
      return Err("E135");
    }
    if !IsAscii(name) {
      return if !afterColon then Err("E101") else if !u.isName(name) then Err("E102")
          else Ok(Lexeme(Plain(LABEL, name, line)));
    }
    var kind := KeywordKind(name);
    var literal := if kind == TRUE then BoolLit(true) else if kind == FALSE then BoolLit(false) else EmptyLit;
    r := Ok(Lexeme(Token(kind, name, literal, line)));
  }

  /** Scans a line: every iteration moves the cursor. */
  method ReadLine(text: string, u: Unicode, line: nat) returns (r: Result<seq<Spanned>>)
    requires Sensible(u)
    ensures r == ScanLine(text, u, line)
  {
    hide ScanOne, Covers;
    var tokens: seq<Spanned>, i := [], 0;
    while i < |text|
      invariant i <= |text| && ScanLine(text, u, line) == ScanFrom(text, i, tokens, u, line)
      decreases |text| - i
    {
      var piece := ScanPiece(text, i, EndsInColon(tokens), u, line);
      if piece.Err? {
        return Err(piece.code);
      }
      ScanOneCovers(text, i, EndsInColon(tokens), u, line);
      match piece.value
      case Blank => i := i + 1;
      case Comment => return Ok(tokens);
      case Lexeme(t) =>
        CoversWithin(text, i, t);
        CoversSomething(text, i, t);
        tokens, i := tokens + [Spanned(t, i)], i + SpanLength(t);
    }
    r := Ok(tokens);
  }

  // ---- Whole sources ----

  function Bare(tokens: seq<Spanned>): seq<Token> {
    seq(|tokens|, i requires 0 <= i < |tokens| => tokens[i].token)
  }

  function NewlineAt(line: nat): Token { Plain(NEWLINE, "\n", line) }

  /** The label of a line that is nothing but a comment delimiter. */
  function Delimiter(text: string, u: Unicode): Option<string> {
    var candidate := F.Strip(text);
    if candidate == "##" then Some("")
    else if |candidate| >= 2 && candidate[..2] == "##" && u.isName(candidate[2..]) then Some(candidate[2..])
    else None
  }

  /** The lines from number `line` on, inside the comment with label `comment` if there is one. */
  function LinesFrom(lines: seq<string>, n: nat, comment: Option<string>, tokens: seq<Token>, u: Unicode)
      : Result<seq<Token>>
    requires n <= |lines| && Sensible(u)
    decreases |lines| - n
  {
    if n == |lines| then if comment.Some? then Err("E106") else Ok(tokens + [Plain(EOF, "", n + 1)])
    else
      var delimiter := Delimiter(lines[n], u);
      if delimiter.Some? then
        if comment.Some? && comment != delimiter then Err("E104")
        else LinesFrom(lines, n + 1, if comment.None? then delimiter else None, tokens + [NewlineAt(n + 1)], u)
      else if comment.Some? then LinesFrom(lines, n + 1, comment, tokens + [NewlineAt(n + 1)], u)
      else
        var line := ScanLine(lines[n], u, n + 1);
        if line.Err? then Err(line.code)
        else LinesFrom(lines, n + 1, comment, tokens + Bare(line.value) + [NewlineAt(n + 1)], u)
  }

  function TokensOfSource(source: string, u: Unicode): Result<seq<Token>>
    requires Sensible(u)
  {
    LinesFrom(F.SplitLines(source), 0, None, [], u)
  }

  method ScanTokens(source: string, u: Unicode) returns (r: Result<seq<Token>>)
    requires Sensible(u)
    ensures r == TokensOfSource(source, u)
  {
    hide ScanLine, Delimiter, F.SplitLines;
    var lines := F.SplitLines(source);
    var tokens: seq<Token>, comment: Option<string>, n := [], None, 0;
    while n < |lines|
      invariant n <= |lines| && TokensOfSource(source, u) == LinesFrom(lines, n, comment, tokens, u)
      decreases |lines| - n
    {
      var delimiter := Delimiter(lines[n], u);
      if delimiter.Some? {
        if comment.None? {
          comment := delimiter;
        } else if comment == delimiter {
          comment := None;
        } else {
          return Err("E104");
        }
      } else if comment.None? {
        var line := ReadLine(lines[n], u, n + 1);
        if line.Err? {
          return Err(line.code);
        }
        tokens := tokens + Bare(line.value);
      }
      tokens, n := tokens + [NewlineAt(n + 1)], n + 1;
    }
    r := if comment.Some? then Err("E106") else Ok(tokens + [Plain(EOF, "", n + 1)]);
  }

  predicate AllWellFormed(tokens: seq<Token>) {
    forall i | 0 <= i < |tokens| :: WellFormed(tokens[i]) && tokens[i].kind != EOF
  }

  lemma {:induction false} ScanFromIsWellFormed(text: string, i: nat, tokens: seq<Spanned>, u: Unicode, line: nat)
    requires i <= |text| && Sensible(u) && AllWellFormed(Bare(tokens)) && ScanFrom(text, i, tokens, u, line).Ok?
    ensures AllWellFormed(Bare(ScanFrom(text, i, tokens, u, line).value))
    decreases |text| - i
  {
    hide ScanOne, Covers, WellFormed;
    if i < |text| {
      ScanOneCovers(text, i, EndsInColon(tokens), u, line);
      ScanOneIsWellFormed(text, i, EndsInColon(tokens), u, line);
      var piece := ScanOne(text, i, EndsInColon(tokens), u, line).value;
      if piece.Blank? {
        ScanFromIsWellFormed(text, i + 1, tokens, u, line);
      } else if piece.Lexeme? {
        CoversWithin(text, i, piece.token);
        CoversSomething(text, i, piece.token);
        assert Bare(tokens + [Spanned(piece.token, i)]) == Bare(tokens) + [piece.token];
        ScanFromIsWellFormed(text, i + SpanLength(piece.token), tokens + [Spanned(piece.token, i)], u, line);
      }
    }
  }

  lemma {:induction false} LinesAreWellFormed(lines: seq<string>, n: nat, comment: Option<string>, tokens: seq<Token>,
                                              u: Unicode)
    requires n <= |lines| && Sensible(u) && AllWellFormed(tokens) && LinesFrom(lines, n, comment, tokens, u).Ok?
    ensures var r := LinesFrom(lines, n, comment, tokens, u).value;
            r != [] && AllWellFormed(r[..|r| - 1]) && r[|r| - 1].kind == EOF && WellFormed(r[|r| - 1])
    decreases |lines| - n
  {
    hide ScanLine, Delimiter;
    NoSpelling();
    assert WellFormed(NewlineAt(n + 1)) && WellFormed(Plain(EOF, "", n + 1));
    hide WellFormed;
    if n == |lines| {
      assert (tokens + [Plain(EOF, "", n + 1)])[..|tokens|] == tokens;
    } else {
      var delimiter := Delimiter(lines[n], u);
      if delimiter.Some? {
        LinesAreWellFormed(lines, n + 1, if comment.None? then delimiter else None, tokens + [NewlineAt(n + 1)], u);
      } else if comment.Some? {
        LinesAreWellFormed(lines, n + 1, comment, tokens + [NewlineAt(n + 1)], u);
      } else {
        LineIsWellFormed(lines[n], u, n + 1);
        var line := ScanLine(lines[n], u, n + 1).value;
        LinesAreWellFormed(lines, n + 1, comment, tokens + Bare(line) + [NewlineAt(n + 1)], u);
      }
    }
  }

  lemma {:induction false} LineIsWellFormed(text: string, u: Unicode, line: nat)
    requires Sensible(u) && ScanLine(text, u, line).Ok?
    ensures AllWellFormed(Bare(ScanLine(text, u, line).value))
  {
    ScanFromIsWellFormed(text, 0, [], u, line);
  }

  /** Every source that the lexer accepts gives the parser what it relies on: well-formed tokens
      that end with their only EOF. */
  lemma {:induction false} ScannedSourcesAreWellFormed(source: string, u: Unicode)
    requires Sensible(u) && TokensOfSource(source, u).Ok?
    ensures var tokens := TokensOfSource(source, u).value;
            && Ended(tokens)
            && (forall i | 0 <= i < |tokens| :: WellFormed(tokens[i]))
            && (forall i | 0 <= i < |tokens| - 1 :: tokens[i].kind != EOF)
  {
    hide WellFormed, LinesFrom;
    var tokens := TokensOfSource(source, u).value;
    LinesAreWellFormed(F.SplitLines(source), 0, None, [], u);
    forall i | 0 <= i < |tokens| - 1 ensures WellFormed(tokens[i]) && tokens[i].kind != EOF {
      assert tokens[i] == tokens[..|tokens| - 1][i];
    }
  }
}
