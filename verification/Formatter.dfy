/** The line formatter: it indents by block depth, which depends on the stripped lines only. */
module Formatter {
  import opened Ast

  // ---- Lines and blanks ----

  predicate IsLineBreak(c: char) {
    c in {'\n', '\r', '\U{0B}', '\U{0C}', '\U{1C}', '\U{1D}', '\U{1E}', '\U{85}', '\U{2028}', '\U{2029}'}
  }

  predicate IsSpace(c: char) {
    IsLineBreak(c) || c in {' ', '\t', '\U{1F}', '\U{A0}', '\U{1680}', '\U{202F}', '\U{205F}', '\U{3000}'}
    || '\U{2000}' <= c <= '\U{200A}'
  }

  function StripLeft(s: string): string {
    if s != "" && IsSpace(s[0]) then StripLeft(s[1..]) else s
  }

  function StripRight(s: string): string {
    if s != "" && IsSpace(s[|s| - 1]) then StripRight(s[..|s| - 1]) else s
  }

  function Strip(s: string): string { StripRight(StripLeft(s)) }

  /** The number of characters before the first line break. */
  function BreakAt(s: string): (n: nat)
    ensures n <= |s| && (n < |s| ==> IsLineBreak(s[n])) && forall i | 0 <= i < n :: !IsLineBreak(s[i])
  {
    if s == "" || IsLineBreak(s[0]) then 0 else 1 + BreakAt(s[1..])
  }

  function BehindBreak(s: string, n: nat): string
    requires n < |s|
  {
    if s[n] == '\r' && n + 1 < |s| && s[n + 1] == '\n' then s[n + 2..] else s[n + 1..]
  }

  function SplitLines(s: string): seq<string>
    decreases |s|
  {
    if s == "" then []
    else
      var n := BreakAt(s);
      if n == |s| then [s] else [s[..n]] + SplitLines(BehindBreak(s, n))
  }

  function Join(lines: seq<string>): string {
    if lines == [] then "" else if |lines| == 1 then lines[0] else lines[0] + "\n" + Join(lines[1..])
  }

  predicate EndsLine(s: string) { s != "" && s[|s| - 1] in {'\n', '\r'} }

  // ---- One line ----

  /** What decides about depth: whether a line of code opens, closes or divides a block, and what
      counts as the name of a comment. */
  datatype Classifier = Classifier(opens: string -> bool, closes: string -> bool, divides: string -> bool,
                                   isName: string -> bool)

  /** A line without its comment. A `#` inside quotes does not begin a comment. */
  function CodeLength(s: string, quoted: bool, escaped: bool): (n: nat)
    ensures n <= |s|
  {
    if s == "" then 0
    else if quoted then
      1 + (if escaped then CodeLength(s[1..], true, false)
           else if s[0] == '\\' then CodeLength(s[1..], true, true)
           else CodeLength(s[1..], s[0] != '"', false))
    else if s[0] == '#' then 0
    else 1 + CodeLength(s[1..], s[0] == '"', false)
  }

  function CodeText(s: string): string {
    var n := CodeLength(s, false, false);
    if n < |s| then StripRight(s[..n]) else s
  }

  method ReadCodeText(text: string) returns (code: string)
    ensures code == CodeText(text)
  {
    var quoted, escaped, i := false, false, 0;
    while i < |text|
      invariant i <= |text| && (!quoted ==> !escaped)
      invariant CodeLength(text, false, false) == i + CodeLength(text[i..], quoted, escaped)
    {
      var c := text[i];
      assert text[i..][1..] == text[i + 1..];
      if quoted {
        if escaped {
          escaped := false;
        } else if c == '\\' {
          escaped := true;
        } else if c == '"' {
          quoted := false;
        }
      } else if c == '"' {
        quoted := true;
      } else if c == '#' {
        return StripRight(text[..i]);
      }
      i := i + 1;
    }
    code := text;
  }

  /** The label of a line that begins or ends a comment of several lines. */
  function Delimiter(stripped: string, k: Classifier): Option<string> {
    if stripped == "##" then Some("")
    else if |stripped| >= 2 && stripped[..2] == "##" && k.isName(stripped[2..]) then Some(stripped[2..])
    else None
  }

  datatype State = State(depth: nat, comment: Option<string>)

  predicate IsCode(state: State, stripped: string, k: Classifier) {
    stripped != "" && Delimiter(stripped, k).None? && state.comment.None?
  }

  predicate StepsBack(code: string, k: Classifier) { k.closes(code) || k.divides(code) }

  /** The depth at which a line stands. */
  function DepthOf(state: State, stripped: string, k: Classifier): nat {
    if IsCode(state, stripped, k) && StepsBack(CodeText(stripped), k) && state.depth > 0 then state.depth - 1
    else state.depth
  }

  function Next(state: State, stripped: string, k: Classifier): State {
    var delimiter := Delimiter(stripped, k);
    if stripped == "" then state
    else if delimiter.Some? then
      State(state.depth,
            if state.comment == delimiter then None else if state.comment.None? then delimiter else state.comment)
    else if state.comment.Some? then state
    else
      var code, depth := CodeText(stripped), DepthOf(state, stripped, k);
      State(if k.opens(code) || k.divides(code) then depth + 1 else depth, None)
  }

  function Repeat(s: string, n: nat): string {
    if n == 0 then "" else s + Repeat(s, n - 1)
  }

  function Indented(state: State, stripped: string, indent: string, k: Classifier): string {
    if stripped == "" then "" else Repeat(indent, DepthOf(state, stripped, k)) + stripped
  }

  // ---- The formatter ----

  function FormatFrom(state: State, lines: seq<string>, indent: string, k: Classifier): (r: seq<string>)
    ensures |r| == |lines|
    decreases |lines|
  {
    if lines == [] then []
    else
      var stripped := Strip(lines[0]);
      [Indented(state, stripped, indent, k)] + FormatFrom(Next(state, stripped, k), lines[1..], indent, k)
  }

  function FormatLines(lines: seq<string>, indent: string, k: Classifier): seq<string> {
    FormatFrom(State(0, None), lines, indent, k)
  }

  function Formatted(source: string, indent: string, k: Classifier): string {
    Join(FormatLines(SplitLines(source), indent, k)) + if EndsLine(source) then "\n" else ""
  }

  /** One line: how it is written, and the state behind it. */
  method FormatLine(depth: nat, comment: Option<string>, raw: string, indent: string, k: Classifier)
    returns (line: string, depth': nat, comment': Option<string>)
    ensures line == Indented(State(depth, comment), Strip(raw), indent, k)
    ensures State(depth', comment') == Next(State(depth, comment), Strip(raw), k)
  {
    hide Strip, CodeText, Repeat;
    var stripped := Strip(raw);
    depth', comment' := depth, comment;
    var delimiter := Delimiter(stripped, k);
    if stripped == "" {
      line := "";
    } else if delimiter.Some? {
      line := Repeat(indent, depth) + stripped;
      comment' := if comment == delimiter then None else if comment.None? then delimiter else comment;
    } else if comment.Some? {
      line := Repeat(indent, depth) + stripped;
    } else {
      var code := ReadCodeText(stripped);
      if StepsBack(code, k) && depth > 0 {
        depth' := depth - 1;
      }
      line := Repeat(indent, depth') + stripped;
      if k.opens(code) || k.divides(code) {
        depth' := depth' + 1;
      }
    }
  }

  method FormatSource(source: string, indent: string, k: Classifier) returns (text: string)
    ensures text == Formatted(source, indent, k)
  {
    hide SplitLines, Join, Indented, Next, Strip;
    var lines := SplitLines(source);
    var result: seq<string>, depth: nat, comment: Option<string> := [], 0, None;
    var i := 0;
    while i < |lines|
      invariant i <= |lines|
      invariant FormatLines(lines, indent, k) == result + FormatFrom(State(depth, comment), lines[i..], indent, k)
    {
      var line, depth', comment' := FormatLine(depth, comment, lines[i], indent, k);
      assert lines[i..][1..] == lines[i + 1..];
      assert result + ([line] + FormatFrom(State(depth', comment'), lines[i + 1..], indent, k))
          == (result + [line]) + FormatFrom(State(depth', comment'), lines[i + 1..], indent, k);
      result, depth, comment := result + [line], depth', comment';
      i := i + 1;
    }
    assert lines[i..] == [] && result + [] == result;
    text := Join(result) + if EndsLine(source) then "\n" else "";
  }

  // ---- Formatting twice ----

  predicate Blank(s: string) { forall c | c in s :: IsSpace(c) && !IsLineBreak(c) }

  predicate OneLine(s: string) { forall c | c in s :: !IsLineBreak(c) }

  lemma {:induction false} StripLeftOf(a: string, s: string)
    requires forall c | c in a :: IsSpace(c)
    ensures StripLeft(a + s) == StripLeft(s)
  {
    if a == "" {
      assert a + s == s;
    } else {
      assert (a + s)[1..] == a[1..] + s;
      StripLeftOf(a[1..], s);
    }
  }

  lemma {:induction false} StripLeftTwice(s: string)
    ensures StripLeft(s) != "" ==> !IsSpace(StripLeft(s)[0])
    ensures forall c | c in StripLeft(s) :: c in s
  {
    if s != "" && IsSpace(s[0]) { StripLeftTwice(s[1..]); }
  }

  /** Dropping blanks at the right leaves the beginning alone. */
  lemma {:induction false} StripRightFacts(s: string)
    ensures StripRight(StripRight(s)) == StripRight(s)
    ensures StripRight(s) != "" ==> StripRight(s)[0] == s[0]
    ensures forall c | c in StripRight(s) :: c in s
    decreases |s|
  {
    if s != "" && IsSpace(s[|s| - 1]) { StripRightFacts(s[..|s| - 1]); }
  }

  lemma {:induction false} StripFacts(s: string)
    ensures StripLeft(Strip(s)) == Strip(s) && StripRight(Strip(s)) == Strip(s)
    ensures OneLine(s) ==> OneLine(Strip(s))
  {
    StripLeftTwice(s);
    StripRightFacts(StripLeft(s));
  }

  lemma {:induction false} RepeatIsBlank(indent: string, n: nat)
    requires Blank(indent)
    ensures Blank(Repeat(indent, n))
  {
    if n > 0 { RepeatIsBlank(indent, n - 1); }
  }

  /** An indented line is the stripped line again when it is stripped. */
  lemma {:induction false} IndentedIsStripped(state: State, raw: string, indent: string, k: Classifier)
    requires Blank(indent)
    ensures Strip(Indented(state, Strip(raw), indent, k)) == Strip(raw)
    ensures OneLine(raw) ==> OneLine(Indented(state, Strip(raw), indent, k))
  {
    hide Strip, DepthOf;
    StripFacts(raw);
    var n := DepthOf(state, Strip(raw), k);
    RepeatIsBlank(indent, n);
    StripLeftOf(Repeat(indent, n), Strip(raw));
    assert Strip(Indented(state, Strip(raw), indent, k)) == Strip(raw) by {
      StripIs(Indented(state, Strip(raw), indent, k));
      StripIs(Strip(raw));
    }
  }

  lemma {:induction false} StripIs(s: string)
    ensures Strip(s) == StripRight(StripLeft(s))
  {
  }

  /** Every line keeps its stripped text. */
  lemma {:induction false} LinesKeepTheirText(state: State, lines: seq<string>, indent: string, k: Classifier)
    requires Blank(indent)
    ensures forall i | 0 <= i < |lines| :: Strip(FormatFrom(state, lines, indent, k)[i]) == Strip(lines[i])
    ensures (forall i | 0 <= i < |lines| :: OneLine(lines[i])) ==>
              forall i | 0 <= i < |lines| :: OneLine(FormatFrom(state, lines, indent, k)[i])
    decreases |lines|
  {
    hide Strip, Indented, Next, OneLine;
    if lines != [] {
      IndentedIsStripped(state, lines[0], indent, k);
      LinesKeepTheirText(Next(state, Strip(lines[0]), k), lines[1..], indent, k);
    }
  }

  /** The result depends on the stripped lines only. */
  lemma {:induction false} OnlyStrippedLinesMatter(state: State, a: seq<string>, b: seq<string>, indent: string,
                                                   k: Classifier)
    requires |a| == |b| && forall i | 0 <= i < |a| :: Strip(a[i]) == Strip(b[i])
    ensures FormatFrom(state, a, indent, k) == FormatFrom(state, b, indent, k)
    decreases |a|
  {
    hide Strip, Indented, Next;
    if a != [] {
      forall i | 0 <= i < |a| - 1 ensures Strip(a[1..][i]) == Strip(b[1..][i]) { assert a[1..][i] == a[i + 1]; }
      OnlyStrippedLinesMatter(Next(state, Strip(a[0]), k), a[1..], b[1..], indent, k);
    }
  }

  lemma {:induction false} FormattedLinesStay(state: State, lines: seq<string>, indent: string, k: Classifier)
    requires Blank(indent)
    ensures FormatFrom(state, FormatFrom(state, lines, indent, k), indent, k) == FormatFrom(state, lines, indent, k)
  {
    LinesKeepTheirText(state, lines, indent, k);
    OnlyStrippedLinesMatter(state, FormatFrom(state, lines, indent, k), lines, indent, k);
  }

  lemma {:induction false} FormatPrefix(state: State, lines: seq<string>, n: nat, indent: string, k: Classifier)
    requires n <= |lines|
    ensures FormatFrom(state, lines[..n], indent, k) == FormatFrom(state, lines, indent, k)[..n]
    decreases n
  {
    hide Strip, Indented, Next;
    if n > 0 {
      assert lines[..n][1..] == lines[1..][..n - 1];
      FormatPrefix(Next(state, Strip(lines[0]), k), lines[1..], n - 1, indent, k);
    }
  }

  // ---- Joining and splitting ----

  lemma {:induction false} SplitOne(line: string, more: string)
    requires OneLine(line)
    ensures SplitLines(line + "\n" + more) == [line] + SplitLines(more)
  {
    var s := line + "\n" + more;
    BreakIs(s, |line|);
    assert s[..|line|] == line && s[|line| + 1..] == more;
  }

  lemma {:induction false} BreakIs(s: string, n: nat)
    requires n < |s| && IsLineBreak(s[n]) && forall i | 0 <= i < n :: !IsLineBreak(s[i])
    ensures BreakAt(s) == n
  {
    hide IsLineBreak;
    if n > 0 {
      forall i | 0 <= i < n - 1 ensures !IsLineBreak(s[1..][i]) { assert s[1..][i] == s[i + 1]; }
      BreakIs(s[1..], n - 1);
    }
  }

  lemma {:induction false} LinesAreSingle(s: string)
    ensures forall i | 0 <= i < |SplitLines(s)| :: OneLine(SplitLines(s)[i])
    decreases |s|
  {
    hide IsLineBreak;
    if s != "" {
      var n := BreakAt(s);
      if n < |s| { LinesAreSingle(BehindBreak(s, n)); }
    }
  }

  lemma {:induction false} NoBreak(s: string)
    requires OneLine(s)
    ensures BreakAt(s) == |s| && !EndsLine(s)
  {
    if s != "" {
      assert s[0] in s && s[|s| - 1] in s;
      hide IsLineBreak;
      assert OneLine(s[1..]) by { assert forall c | c in s[1..] :: c in s; }
      NoBreak(s[1..]);
    }
  }

  lemma {:induction false} LastLine(line: string)
    requires OneLine(line) && line != ""
    ensures SplitLines(line) == [line] && !EndsLine(line)
  {
    NoBreak(line);
  }

  predicate SingleLines(lines: seq<string>) { forall i | 0 <= i < |lines| :: OneLine(lines[i]) }

  /** Joined lines come apart again when a line end follows. */
  lemma {:induction false} SplitJoinedLines(lines: seq<string>)
    requires SingleLines(lines) && lines != []
    ensures SplitLines(Join(lines) + "\n") == lines
    decreases |lines|
  {
    hide OneLine, SplitLines;
    if |lines| == 1 {
      SplitOne(lines[0], "");
      NoLines();
      assert lines[0] + "\n" + "" == lines[0] + "\n" && [lines[0]] + [] == lines;
    } else {
      SplitJoinedLines(lines[1..]);
      SplitOne(lines[0], Join(lines[1..]) + "\n");
      assert lines[0] + "\n" + (Join(lines[1..]) + "\n") == Join(lines) + "\n";
      assert lines == [lines[0]] + lines[1..];
    }
  }

  lemma {:induction false} NoLines()
    ensures SplitLines("") == []
  {
  }

  /** Without a line end, an empty last line is lost. */
  lemma {:induction false} SplitJoined(lines: seq<string>)
    requires SingleLines(lines) && lines != []
    ensures var last := |lines| - 1;
            if lines[last] == "" then SplitLines(Join(lines)) == lines[..last]
               && (last > 0 ==> Join(lines) == Join(lines[..last]) + "\n")
            else SplitLines(Join(lines)) == lines && Join(lines) != "" && !EndsLine(Join(lines))
    decreases |lines|
  {
    hide OneLine, SplitLines, EndsLine;
    if |lines| == 1 {
      if lines[0] != "" {
        LastLine(lines[0]);
      } else {
        NoLines();
        assert lines[..0] == [];
      }
    } else {
      SplitJoined(lines[1..]);
      SplitOne(lines[0], Join(lines[1..]));
      assert lines == [lines[0]] + lines[1..];
      JoinedEnd(lines);
    }
  }

  lemma {:induction false} JoinedEnd(lines: seq<string>)
    requires |lines| > 1
    ensures var more, last := lines[1..], |lines| - 1;
            && more[..last - 1] == lines[..last][1..] && lines[..last] == [lines[0]] + more[..last - 1]
            && (last > 1 && Join(more) == Join(more[..last - 1]) + "\n" ==> Join(lines) == Join(lines[..last]) + "\n")
            && (last == 1 && more[0] == "" ==> Join(lines) == Join(lines[..last]) + "\n")
            && (EndsLine(Join(lines)) ==> EndsLine(Join(more)) || Join(more) == "")
  {
    var more, last := lines[1..], |lines| - 1;
    assert more[..last - 1] == lines[..last][1..];
    if last > 1 && Join(more) == Join(more[..last - 1]) + "\n" {
      assert lines[0] + "\n" + (Join(more[..last - 1]) + "\n") == (lines[0] + "\n" + Join(more[..last - 1])) + "\n";
    }
    if Join(more) != "" {
      assert Join(lines)[|Join(lines)| - 1] == Join(more)[|Join(more)| - 1];
    }
  }

  lemma {:induction false} SomeLines(source: string)
    requires source != ""
    ensures SplitLines(source) != []
  {
  }

  lemma {:induction false} FormattedAgain(source: string, r: seq<string>, indent: string, k: Classifier)
    requires r == FormatLines(SplitLines(source), indent, k) && SingleLines(r) && FormatLines(r, indent, k) == r
    ensures Formatted(Formatted(source, indent, k), indent, k) == Formatted(source, indent, k)
  {
    hide OneLine, FormatFrom;
    if EndsLine(source) {
      SomeLines(source);
      hide SplitLines, Join;
      SplitJoinedLines(r);
    } else if r != [] {
      hide SplitLines;
      assert Join(r) + "" == Join(r);
      SplitJoined(r);
      var last := |r| - 1;
      if r[last] == "" {
        FormatPrefix(State(0, None), r, last, indent, k);
        assert FormatLines(r[..last], indent, k) == r[..last];
        if last > 0 {
          assert EndsLine(Join(r));
        } else {
          assert Join(r) == "" && r[..0] == [];
        }
      }
    } else {
      assert Join(r) + "" == "";
    }
  }

  /** Formatting a formatted source changes nothing. */
  lemma {:induction false} FormattingIsIdempotent(source: string, indent: string, k: Classifier)
    requires Blank(indent)
    ensures Formatted(Formatted(source, indent, k), indent, k) == Formatted(source, indent, k)
  {
    hide SplitLines, Join, FormatFrom, Blank;
    var lines := SplitLines(source);
    LinesAreSingle(source);
    var r := FormatLines(lines, indent, k);
    LinesKeepTheirText(State(0, None), lines, indent, k);
    FormattedLinesStay(State(0, None), lines, indent, k);
    assert SingleLines(r);
    FormattedAgain(source, r, indent, k);
  }

  // ---- Depth ----

  /** The state behind the first `n` lines. */
  function After(state: State, lines: seq<string>, n: nat, k: Classifier): State
    requires n <= |lines|
  {
    if n == 0 then state else Next(After(state, lines, n - 1, k), Strip(lines[n - 1]), k)
  }

  /** Whether a line of code closes or divides a block, and whether it opens or divides one. */
  function Down(state: State, line: string, k: Classifier): int {
    if IsCode(state, line, k) && (k.closes(CodeText(line)) || k.divides(CodeText(line))) then 1 else 0
  }

  function Up(state: State, line: string, k: Classifier): int {
    if IsCode(state, line, k) && (k.opens(CodeText(line)) || k.divides(CodeText(line))) then 1 else 0
  }

  function DownAt(state: State, lines: seq<string>, i: nat, k: Classifier): int
    requires i < |lines|
  {
    Down(After(state, lines, i, k), Strip(lines[i]), k)
  }

  function UpAt(state: State, lines: seq<string>, i: nat, k: Classifier): int
    requires i < |lines|
  {
    Up(After(state, lines, i, k), Strip(lines[i]), k)
  }

  /** The depth at which line `i` is written. */
  function DepthAt(state: State, lines: seq<string>, i: nat, k: Classifier): nat
    requires i < |lines|
  {
    DepthOf(After(state, lines, i, k), Strip(lines[i]), k)
  }

  /** How many more blocks the lines from `a` to `b` open than they close. */
  function Balance(state: State, lines: seq<string>, a: nat, b: nat, k: Classifier): int
    requires a <= b <= |lines|
    decreases b - a
  {
    if a == b then 0
    else Balance(state, lines, a, b - 1, k) + UpAt(state, lines, b - 1, k) - DownAt(state, lines, b - 1, k)
  }

  lemma DepthSteps(state: State, line: string, k: Classifier)
    ensures DepthOf(state, line, k)
         == if state.depth >= Down(state, line, k) then state.depth - Down(state, line, k) else 0
    ensures Next(state, line, k).depth == DepthOf(state, line, k) + Up(state, line, k)
  {
    hide CodeText;
  }

  /** Line by line, what is written is the line at its depth. */
  lemma {:induction false} FormattedLineAt(state: State, lines: seq<string>, i: nat, indent: string, k: Classifier)
    requires i < |lines|
    ensures FormatFrom(state, lines, indent, k)[i]
         == (if Strip(lines[i]) == "" then "" else Repeat(indent, DepthAt(state, lines, i, k)) + Strip(lines[i]))
    decreases |lines|
  {
    hide Strip, Next, DepthOf;
    if i > 0 {
      FormattedLineAt(Next(state, Strip(lines[0]), k), lines[1..], i - 1, indent, k);
      AfterFirst(state, lines, i, k);
      assert lines[1..][i - 1] == lines[i];
    }
  }

  lemma {:induction false} AfterFirst(state: State, lines: seq<string>, n: nat, k: Classifier)
    requires 0 < n <= |lines|
    ensures After(state, lines, n, k) == After(Next(state, Strip(lines[0]), k), lines[1..], n - 1, k)
  {
    hide Strip, Next;
    if n > 1 {
      AfterFirst(state, lines, n - 1, k);
      assert lines[1..][n - 2] == lines[n - 1];
    }
  }

  /** From line `a` to line `b` no line steps back below the depth `floor`. */
  predicate StaysAbove(state: State, lines: seq<string>, a: nat, b: nat, floor: int, k: Classifier)
    requires a <= b <= |lines|
  {
    forall i | a <= i < b ::
      After(state, lines, a, k).depth + Balance(state, lines, a, i, k) - DownAt(state, lines, i, k) >= floor
  }

  /** As long as no line closes a block that was not opened, the depth is the number of blocks that are open. */
  lemma {:induction false} DepthIsBalance(state: State, lines: seq<string>, a: nat, b: nat, floor: int, k: Classifier)
    requires a <= b <= |lines| && floor >= 0 && StaysAbove(state, lines, a, b, floor, k)
    ensures After(state, lines, b, k).depth == After(state, lines, a, k).depth + Balance(state, lines, a, b, k)
    decreases b - a
  {
    hide After, DownAt, UpAt, DepthAt, StaysAbove;
    if a < b {
      var last := b - 1;
      FloorStays(state, lines, a, b, last, floor, k);
      DepthIsBalance(state, lines, a, last, floor, k);
      StepAt(state, lines, last, k);
      BalanceSteps(state, lines, a, b, k);
      hide Balance;
    }
  }

  lemma DepthsStayAbove(state: State, lines: seq<string>, a: nat, b: nat, floor: int, k: Classifier)
    requires a <= b <= |lines| && floor >= 0 && StaysAbove(state, lines, a, b, floor, k)
    ensures forall i | a <= i < b :: DepthAt(state, lines, i, k) >= floor
  {
    hide After, DownAt, UpAt, DepthAt, Balance, StaysAbove;
    forall i | a <= i < b
      ensures DepthAt(state, lines, i, k) >= floor
    {
      FloorStays(state, lines, a, b, i, floor, k);
      DepthIsBalance(state, lines, a, i, floor, k);
      StepAt(state, lines, i, k);
    }
  }

  lemma BalanceSteps(state: State, lines: seq<string>, a: nat, b: nat, k: Classifier)
    requires a <= b <= |lines|
    ensures Balance(state, lines, a, a, k) == 0
    ensures a < b ==>
              Balance(state, lines, a, b, k)
              == Balance(state, lines, a, b - 1, k) + UpAt(state, lines, b - 1, k) - DownAt(state, lines, b - 1, k)
  {
    hide After, DownAt, UpAt;
  }

  lemma FloorStays(state: State, lines: seq<string>, a: nat, b: nat, i: nat, floor: int, k: Classifier)
    requires a <= i < b <= |lines| && StaysAbove(state, lines, a, b, floor, k)
    ensures StaysAbove(state, lines, a, i, floor, k)
    ensures After(state, lines, a, k).depth + Balance(state, lines, a, i, k) - DownAt(state, lines, i, k) >= floor
  {
    hide After, DownAt, Balance;
  }

  lemma StepAt(state: State, lines: seq<string>, i: nat, k: Classifier)
    requires i < |lines|
    ensures After(state, lines, i, k).depth >= DownAt(state, lines, i, k) ==>
              DepthAt(state, lines, i, k) == After(state, lines, i, k).depth - DownAt(state, lines, i, k)
    ensures After(state, lines, i, k).depth < DownAt(state, lines, i, k) ==> DepthAt(state, lines, i, k) == 0
    ensures After(state, lines, i + 1, k).depth == DepthAt(state, lines, i, k) + UpAt(state, lines, i, k)
  {
    hide Strip, Next, DepthOf, Down, Up;
    DepthSteps(After(state, lines, i, k), Strip(lines[i]), k);
  }

  /** The line that closes a block stands exactly as deep as the line that opens it, and all lines between them
      stand deeper. */
  lemma ClosersAlign(state: State, lines: seq<string>, open: nat, close: nat, k: Classifier)
    requires open < close < |lines| && UpAt(state, lines, open, k) == 1 && DownAt(state, lines, close, k) == 1
    requires Balance(state, lines, open + 1, close, k) == 0
    requires StaysAbove(state, lines, open + 1, close, After(state, lines, open + 1, k).depth, k)
    ensures DepthAt(state, lines, close, k) == DepthAt(state, lines, open, k)
    ensures forall i | open < i < close :: DepthAt(state, lines, i, k) > DepthAt(state, lines, open, k)
  {
    hide After, DownAt, UpAt, DepthAt, Balance, StaysAbove;
    StepAt(state, lines, open, k);
    DepthIsBalance(state, lines, open + 1, close, After(state, lines, open + 1, k).depth, k);
    DepthsStayAbove(state, lines, open + 1, close, After(state, lines, open + 1, k).depth, k);
    StepAt(state, lines, close, k);
  }

  // ---- Comments ----

  /** A piece of code: without quotes and `#`, or between quotes. */
  datatype Piece = Bare(text: string) | Quoted(items: seq<string>)

  /** What stands between quotes: a character, or a backslash and any character. */
  predicate IsItem(item: string) {
    || (|item| == 1 && item[0] !in {'"', '\\'})
    || (|item| == 2 && item[0] == '\\')
  }

  predicate IsPiece(p: Piece) {
    match p
    case Bare(text) => '"' !in text && '#' !in text
    case Quoted(items) => forall i | 0 <= i < |items| :: IsItem(items[i])
  }

  function Joined(items: seq<string>): string {
    if items == [] then "" else items[0] + Joined(items[1..])
  }

  function PieceText(p: Piece): string {
    match p
    case Bare(text) => text
    case Quoted(items) => ['"'] + Joined(items) + ['"']
  }

  function CodeOf(pieces: seq<Piece>): string {
    if pieces == [] then "" else PieceText(pieces[0]) + CodeOf(pieces[1..])
  }

  lemma {:induction false} BareIsCode(text: string, tail: string)
    requires '"' !in text && '#' !in text
    ensures CodeLength(text + tail, false, false) == |text| + CodeLength(tail, false, false)
  {
    if text == "" {
      assert text + tail == tail;
    } else {
      assert (text + tail)[1..] == text[1..] + tail;
      BareIsCode(text[1..], tail);
    }
  }

  lemma {:induction false} ItemsAreCode(items: seq<string>, tail: string)
    requires forall i | 0 <= i < |items| :: IsItem(items[i])
    ensures CodeLength(Joined(items) + ['"'] + tail, true, false)
         == |Joined(items)| + 1 + CodeLength(tail, false, false)
  {
    var text := Joined(items) + ['"'] + tail;
    if items == [] {
      assert text == ['"'] + tail && text[1..] == tail;
    } else {
      var rest := Joined(items[1..]) + ['"'] + tail;
      assert text == items[0] + rest;
      ItemsAreCode(items[1..], tail);
      ItemIsCode(items[0], rest);
    }
  }

  lemma ItemIsCode(item: string, rest: string)
    requires IsItem(item)
    ensures CodeLength(item + rest, true, false) == |item| + CodeLength(rest, true, false)
  {
    var text := item + rest;
    if |item| == 1 {
      assert text[0] == item[0] && text[1..] == rest;
    } else {
      assert text[0] == '\\' && text[1..][1..] == rest;
    }
  }

  lemma {:induction false} PiecesAreCode(pieces: seq<Piece>, tail: string)
    requires forall i | 0 <= i < |pieces| :: IsPiece(pieces[i])
    ensures CodeLength(CodeOf(pieces) + tail, false, false) == |CodeOf(pieces)| + CodeLength(tail, false, false)
  {
    hide CodeLength;
    if pieces == [] {
      assert CodeOf(pieces) + tail == tail;
    } else {
      var more := CodeOf(pieces[1..]) + tail;
      assert CodeOf(pieces) + tail == PieceText(pieces[0]) + more;
      PiecesAreCode(pieces[1..], tail);
      PieceIsCode(pieces[0], more);
    }
  }

  lemma PieceIsCode(p: Piece, more: string)
    requires IsPiece(p)
    ensures CodeLength(PieceText(p) + more, false, false) == |PieceText(p)| + CodeLength(more, false, false)
  {
    match p
    case Bare(text) => BareIsCode(text, more);
    case Quoted(items) =>
      var text, inner := PieceText(p) + more, Joined(items) + ['"'] + more;
      assert text[0] == '"' && text[1..] == inner;
      ItemsAreCode(items, more);
  }

  /** Whatever code is made of, a `#` behind it begins a comment, and one between quotes does not. */
  lemma {:induction false} CommentsAreCut(pieces: seq<Piece>, comment: string)
    requires forall i | 0 <= i < |pieces| :: IsPiece(pieces[i])
    ensures CodeText(CodeOf(pieces) + "#" + comment) == StripRight(CodeOf(pieces))
    ensures CodeText(CodeOf(pieces)) == CodeOf(pieces)
  {
    PiecesAreCode(pieces, "#" + comment);
    PiecesAreCode(pieces, "");
    var code := CodeOf(pieces);
    assert code + "" == code && code + ("#" + comment) == code + "#" + comment;
    assert (code + "#" + comment)[..|code|] == code;
    assert CodeLength("#" + comment, false, false) == 0;
  }
}
