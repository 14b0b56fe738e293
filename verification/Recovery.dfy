/** Where parsing goes on after an error, told by positions in the token list, and what becomes of
    the rest of the file. */
module Recovery {
  import opened Ast
  import opened Tokens
  import opened Statements
  import opened Programs

  // ---- Positions ----

  predicate IsLineEnd(t: Token) { t.kind == NEWLINE || t.kind == EOF }

  /** Position `l` is the first line end from `j` on. */
  predicate EndsLine(toks: seq<Token>, j: nat, l: nat) {
    && j <= l < |toks| && IsLineEnd(toks[l])
    && forall k | j <= k < l :: !IsLineEnd(toks[k])
  }

  /** Position `n` is the first one from `l` on that is no empty line. */
  predicate StartsLine(toks: seq<Token>, l: nat, n: nat) {
    && l <= n < |toks| && toks[n].kind != NEWLINE
    && forall k | l <= k < n :: toks[k].kind == NEWLINE
  }

  predicate Closes(t: Token, kind: string) { CloserKind(t.kind) == Some(kind) }

  /** A SEP on a later line than the one at which the broken statement began. */
  predicate IsLaterSep(start: seq<Token>, toks: seq<Token>, j: nat)
    requires start != [] && j < |toks|
  {
    toks[j].kind == SEP && toks[j].line > start[0].line && |toks| - j < |start|
  }

  /** Position `j` is the first closer of this kind of block, later SEP, or end of the file. */
  predicate IsFirstStop(kind: string, start: seq<Token>, toks: seq<Token>, j: nat)
    requires start != []
  {
    && j < |toks| && (toks[j].kind == EOF || Closes(toks[j], kind) || IsLaterSep(start, toks, j))
    && forall k | 0 <= k < j :: toks[k].kind != EOF && !Closes(toks[k], kind) && !IsLaterSep(start, toks, k)
  }

  /** Behind an error in a block, parsing goes on behind the line of the block's closer, or at a SEP that
      comes before that, or at the end of the file if there is neither. */
  ghost predicate GoesOnBehindBlock(kind: string, start: seq<Token>, toks: seq<Token>, n: nat)
    requires start != []
  {
    exists j: nat :: IsFirstStop(kind, start, toks, j)
      && if toks[j].kind == EOF || !Closes(toks[j], kind) then n == j
         else exists l: nat :: EndsLine(toks, j + 1, l) && StartsLine(toks, l, n)
  }

  /** Behind an error outside of blocks, parsing goes on at the next line. */
  ghost predicate GoesOnBehindLine(line: nat, toks: seq<Token>, n: nat) {
    exists l: nat ::
      && l < |toks| && (IsLineEnd(toks[l]) || toks[l].line != line)
      && (forall k | 0 <= k < l :: !IsLineEnd(toks[k]) && toks[k].line == line)
      && StartsLine(toks, l, n)
  }

  /** Where parsing goes on, in what is left at the error, or in the whole statement if nothing of it has
      been read. The outermost open block counts; a SEP that failed before it was opened counts as open. */
  ghost predicate GoesOnAt(start: seq<Token>, toks: seq<Token>, stack: Stack, n: nat)
    requires start != []
  {
    if stack != [] then GoesOnBehindBlock(stack[0].kind, start, toks, n)
    else if start[0].kind == SEP then GoesOnBehindBlock("SEP", start, toks, n)
    else GoesOnBehindLine(start[0].line, toks, n)
  }

  // ---- Recovery finds that position ----

  lemma {:induction false} NewlinesAt(toks: seq<Token>, l: nat) returns (n: nat)
    requires l < |toks| && Ended(toks[l..])
    ensures StartsLine(toks, l, n) && Newlines(toks[l..]) == toks[n..]
    decreases |toks| - l
  {
    if toks[l].kind == NEWLINE {
      assert toks[l..][1..] == toks[l + 1..];
      n := NewlinesAt(toks, l + 1);
    } else {
      n := l;
    }
  }

  lemma {:induction false} LineEndAt(toks: seq<Token>, j: nat) returns (l: nat)
    requires j < |toks| && Ended(toks[j..])
    ensures EndsLine(toks, j, l) && ToLineEnd(toks[j..]) == toks[l..]
    decreases |toks| - j
  {
    if IsLineEnd(toks[j]) {
      l := j;
    } else {
      assert toks[j..][1..] == toks[j + 1..];
      l := LineEndAt(toks, j + 1);
    }
  }

  lemma {:induction false} PastLineAt(toks: seq<Token>, line: nat, from: nat) returns (n: nat)
    requires from < |toks| && Ended(toks)
    requires forall k | 0 <= k < from :: !IsLineEnd(toks[k]) && toks[k].line == line
    ensures n < |toks| && PastLine(toks[from..], line) == toks[n..]
    ensures GoesOnBehindLine(line, toks, n)
    decreases |toks| - from
  {
    if IsLineEnd(toks[from]) || toks[from].line != line {
      n := NewlinesAt(toks, from);
    } else {
      assert toks[from..][1..] == toks[from + 1..];
      n := PastLineAt(toks, line, from + 1);
    }
  }

  lemma BlockStep(kind: string, start: seq<Token>, toks: seq<Token>, from: nat)
    requires from < |toks| <= |start| && Ended(toks) && Ended(start)
    ensures Ended(toks[from..]) && (toks[from].kind != EOF ==> Ended(toks[from + 1..]))
    ensures PastBlock(kind, start, toks[from..])
         == if toks[from].kind == EOF then toks[from..]
            else if Closes(toks[from], kind) then Newlines(ToLineEnd(toks[from + 1..]))
            else if IsLaterSep(start, toks, from) then toks[from..]
            else PastBlock(kind, start, toks[from + 1..])
  {
    hide CloserKind;
    assert toks[from].kind != EOF ==> toks[from..][1..] == toks[from + 1..];
  }

  lemma {:induction false} PastBlockAt(kind: string, start: seq<Token>, toks: seq<Token>, from: nat) returns (n: nat)
    requires from < |toks| <= |start| && Ended(toks) && Ended(start)
    requires forall k | 0 <= k < from :: toks[k].kind != EOF && !Closes(toks[k], kind) && !IsLaterSep(start, toks, k)
    ensures n < |toks| && PastBlock(kind, start, toks[from..]) == toks[n..]
    ensures GoesOnBehindBlock(kind, start, toks, n)
    decreases |toks| - from
  {
    BlockStep(kind, start, toks, from);
    hide PastBlock, Closes, IsLaterSep, StartsLine, EndsLine;
    if toks[from].kind == EOF || IsLaterSep(start, toks, from) || Closes(toks[from], kind) {
      assert IsFirstStop(kind, start, toks, from);
      n := from;
      if toks[from].kind != EOF && Closes(toks[from], kind) {
        var l := LineEndAt(toks, from + 1);
        EndIsWithin(toks, from + 1, l);
        n := NewlinesAt(toks, l);
        StartIsWithin(toks, l, n);
      }
    } else {
      n := PastBlockAt(kind, start, toks, from + 1);
    }
  }

  lemma EndIsWithin(toks: seq<Token>, j: nat, l: nat)
    requires EndsLine(toks, j, l)
    ensures l < |toks|
  {
  }

  lemma StartIsWithin(toks: seq<Token>, l: nat, n: nat)
    requires StartsLine(toks, l, n)
    ensures n < |toks|
  {
  }

  lemma SameLineStart(toks: seq<Token>, l: nat, m: nat, n: nat)
    requires StartsLine(toks, l, m) && StartsLine(toks, l, n)
    ensures m == n
  {
  }

  /** There is one such position only. */
  lemma {:induction false} GoesOnAtOnePlace(start: seq<Token>, toks: seq<Token>, stack: Stack, m: nat, n: nat)
    requires start != [] && GoesOnAt(start, toks, stack, m) && GoesOnAt(start, toks, stack, n)
    ensures m == n
  {
    hide CloserKind, Closes, IsLaterSep, StartsLine;
    if stack == [] && start[0].kind != SEP {
      LinePlaces(start[0].line, toks, m, n);
    } else {
      BlockPlaces(if stack != [] then stack[0].kind else "SEP", start, toks, m, n);
    }
  }

  lemma LinePlaces(line: nat, toks: seq<Token>, m: nat, n: nat)
    requires GoesOnBehindLine(line, toks, m) && GoesOnBehindLine(line, toks, n)
    ensures m == n
  {
    hide StartsLine;
    var k: nat :| k < |toks| && (IsLineEnd(toks[k]) || toks[k].line != line)
                  && (forall i | 0 <= i < k :: !IsLineEnd(toks[i]) && toks[i].line == line) && StartsLine(toks, k, m);
    var l: nat :| l < |toks| && (IsLineEnd(toks[l]) || toks[l].line != line)
                  && (forall i | 0 <= i < l :: !IsLineEnd(toks[i]) && toks[i].line == line) && StartsLine(toks, l, n);
    assert k == l;
    SameLineStart(toks, l, m, n);
  }

  lemma BlockPlaces(kind: string, start: seq<Token>, toks: seq<Token>, m: nat, n: nat)
    requires start != [] && GoesOnBehindBlock(kind, start, toks, m) && GoesOnBehindBlock(kind, start, toks, n)
    ensures m == n
  {
    hide StartsLine, Closes, IsLaterSep;
    var i: nat :| IsFirstStop(kind, start, toks, i)
      && if toks[i].kind == EOF || !Closes(toks[i], kind) then m == i
         else exists l: nat :: EndsLine(toks, i + 1, l) && StartsLine(toks, l, m);
    var j: nat :| IsFirstStop(kind, start, toks, j)
      && if toks[j].kind == EOF || !Closes(toks[j], kind) then n == j
         else exists l: nat :: EndsLine(toks, j + 1, l) && StartsLine(toks, l, n);
    assert i == j;
    if toks[i].kind != EOF && Closes(toks[i], kind) {
      var k: nat :| EndsLine(toks, i + 1, k) && StartsLine(toks, k, m);
      var l: nat :| EndsLine(toks, i + 1, l) && StartsLine(toks, l, n);
      assert k == l;
      SameLineStart(toks, l, m, n);
    }
  }

  /** Recovery leads to that position. */
  lemma RecoveredAt(start: seq<Token>, toks: seq<Token>, stack: Stack) returns (n: nat)
    requires Ended(start) && start[0].kind !in {NEWLINE, EOF} && Ended(toks) && |toks| <= |start|
    ensures var here := if |toks| < |start| then toks else start;
            GoesOnAt(start, here, stack, n) && Recovered(start, toks, stack) == here[n..]
  {
    hide CloserKind;
    var here := if |toks| < |start| then toks else start;
    assert here[0..] == here;
    if stack != [] {
      n := PastBlockAt(stack[0].kind, start, here, 0);
    } else if start[0].kind == SEP {
      n := PastBlockAt("SEP", start, here, 0);
    } else {
      n := PastLineAt(here, start[0].line, 0);
    }
  }

  /** What is left after recovery is told by the position exactly. */
  lemma RecoveredIff(start: seq<Token>, toks: seq<Token>, stack: Stack, rest: seq<Token>)
    requires Ended(start) && start[0].kind !in {NEWLINE, EOF} && Ended(toks) && |toks| <= |start|
    ensures var here := if |toks| < |start| then toks else start;
            Recovered(start, toks, stack) == rest
            <==> exists n: nat :: n <= |here| && GoesOnAt(start, here, stack, n) && rest == here[n..]
  {
    hide GoesOnAt, Recovered;
    var here := if |toks| < |start| then toks else start;
    var n := RecoveredAt(start, toks, stack);
    PlaceIsWithin(start, here, stack, n);
    if m: nat :| m <= |here| && GoesOnAt(start, here, stack, m) && rest == here[m..] {
      GoesOnAtOnePlace(start, here, stack, m, n);
    }
  }

  lemma PlaceIsWithin(start: seq<Token>, toks: seq<Token>, stack: Stack, n: nat)
    requires start != [] && GoesOnAt(start, toks, stack, n)
    ensures n < |toks|
  {
    hide Closes, IsLaterSep;
  }

  // ---- What follows is reported as if it stood alone ----

  function Added(statements: seq<Stmt>, diagnostics: seq<string>, more: Report): Report {
    Report(statements + more.statements, diagnostics + more.diagnostics)
  }

  lemma {:induction false} ReportsAdd(statements: seq<Stmt>, diagnostics: seq<string>, seenOther: bool,
                                      toks: seq<Token>)
    requires Ended(toks) && !At(toks, {NEWLINE})
    ensures ReportFrom(statements, diagnostics, seenOther, toks)
         == Added(statements, diagnostics, ReportFrom([], [], seenOther, toks))
    decreases |toks|
  {
    hide TopStatement, Recovered;
    if !At(toks, {EOF}) {
      var s := TopStatement(toks, seenOther);
      if s.Good? {
        var seen, rest := seenOther || !s.value.ImportStmt?, Newlines(s.rest);
        ReportsAdd(statements + [s.value], diagnostics, seen, rest);
        ReportsAdd([] + [s.value], [], seen, rest);
        var more := ReportFrom([], [], seen, rest);
        assert statements + [s.value] + more.statements == statements + ([] + [s.value] + more.statements);
        assert diagnostics + more.diagnostics == diagnostics + ([] + more.diagnostics);
      } else {
        var rest := Recovered(toks, s.rest, s.stack);
        ReportsAdd(statements, diagnostics + [s.code], seenOther, rest);
        ReportsAdd([], [] + [s.code], seenOther, rest);
        var more := ReportFrom([], [], seenOther, rest);
        assert diagnostics + [s.code] + more.diagnostics == diagnostics + ([] + [s.code] + more.diagnostics);
        assert statements + more.statements == statements + ([] + more.statements);
      }
    }
  }

  /** An import is refused behind other statements; apart from that, these make no difference. */
  lemma {:induction false} EarlierStatementsMatterNot(toks: seq<Token>)
    requires Ended(toks) && !At(toks, {NEWLINE})
    requires forall s | s in ReportFrom([], [], false, toks).statements :: !s.ImportStmt?
    ensures ReportFrom([], [], true, toks) == ReportFrom([], [], false, toks)
    decreases |toks|
  {
    hide Statement, Recovered;
    if !At(toks, {EOF}) {
      var s := TopStatement(toks, false);
      if s.Good? {
        var rest := Newlines(s.rest);
        ReportsAdd([] + [s.value], [], false || !s.value.ImportStmt?, rest);
        assert s.value in ReportFrom([], [], false, toks).statements;
      } else {
        var rest := Recovered(toks, s.rest, s.stack);
        ReportsAdd([], [] + [s.code], false, rest);
        ReportsAdd([], [] + [s.code], true, rest);
        EarlierStatementsMatterNot(rest);
      }
    }
  }

  /** An error costs the statement in which it stands, and nothing else: what stands behind the place where
      parsing goes on is reported as if it were a file of its own. Only imports depend on what was before. */
  lemma ErrorsAreContained(statements: seq<Stmt>, diagnostics: seq<string>, seenOther: bool, toks: seq<Token>)
      returns (n: nat)
    requires Ended(toks) && toks[0].kind !in {NEWLINE, EOF} && TopStatement(toks, seenOther).Bad?
    ensures var s := TopStatement(toks, seenOther);
            var here := if |s.rest| < |toks| then s.rest else toks;
            && n < |here| && GoesOnAt(toks, here, s.stack, n)
            && Ended(here[n..]) && here[n].kind != NEWLINE
            && var rest := here[n..];
               var before := diagnostics + [s.code];
               && ReportFrom(statements, diagnostics, seenOther, toks)
                  == Added(statements, before, ReportFrom([], [], seenOther, rest))
               && (!seenOther || (forall t | t in ProgramReport(rest).statements :: !t.ImportStmt?) ==>
                     ReportFrom(statements, diagnostics, seenOther, toks)
                     == Added(statements, before, ProgramReport(rest)))
  {
    hide TopStatement, Recovered, GoesOnAt;
    var s := TopStatement(toks, seenOther);
    n := RecoveredAt(toks, s.rest, s.stack);
    var here := if |s.rest| < |toks| then s.rest else toks;
    PlaceIsWithin(toks, here, s.stack, n);
    var rest := here[n..];
    ReportsAdd(statements, diagnostics + [s.code], seenOther, rest);
    assert Newlines(rest) == rest;
    if forall t | t in ProgramReport(rest).statements :: !t.ImportStmt? {
      EarlierStatementsMatterNot(rest);
    }
  }
}
