/** Block discipline. The lines of a program that open, divide and close blocks can be read off
    the tokens without parsing anything else. Replaying them against a stack of open blocks
    always succeeds for a program that the parser accepts, and ends with no block open. */
module BlockDiscipline {
  import opened Ast
  import opened Tokens
  import opened Statements
  import opened Programs
  import opened Expressions
  import opened Grammar
  import Soundness = ExpressionSoundness
  import Completeness = ExpressionCompleteness

  datatype Event =
    | Open(kind: string, name: string)
    | Branch(kinds: set<string>, name: string)
    | Shut(kind: string, name: string)

  // ---- Reading the block lines ----

  predicate IsBreak(kind: Kind) { kind == NEWLINE || kind == EOF }

  /** The number of symbols before the end of the line. */
  function LineLength(s: seq<Symbol>): (n: nat)
    ensures n <= |s| && (n < |s| ==> IsBreak(s[n].kind))
    ensures forall i | 0 <= i < n :: !IsBreak(s[i].kind)
  {
    if s == [] || IsBreak(s[0].kind) then 0 else 1 + LineLength(s[1..])
  }

  function OpenerKind(kind: Kind): Option<string> {
    if kind == IF then Some("if")
    else if kind == WHILE then Some("while")
    else if kind == FOR then Some("for")
    else if kind == TRY then Some("try")
    else if kind == TRANSACTION then Some("transaction")
    else if kind == HTTP_ROUTE then Some("http_route")
    else if kind == ERROR then Some("error")
    else None
  }

  function DataKind(kind: Kind): Option<string> {
    if kind == OBJECT then Some("object") else if kind == LIST then Some("list") else None
  }

  /** What a line does to the open blocks. Labels stand at the end of the line, except for SEPs,
      where parameters may follow. */
  function LineEvents(line: seq<Symbol>): seq<Event> {
    if line == [] then []
    else
      var first, last := line[0].kind, line[|line| - 1].name;
      if first == SEP && |line| > 2 then [Open("SEP", line[2].name)]
      else if OpenerKind(first).Some? then [Open(OpenerKind(first).value, last)]
      else if DataKind(first).Some? && |line| > 1 && line[1].kind == COLON then [Open(DataKind(first).value, last)]
      else if first in {ELSEIF, ELSE} then [Branch({"if"}, last)]
      else if first in {CATCH, FINALLY} then [Branch({"try"}, last)]
      else if CloserKind(first).Some? then [Shut(CloserKind(first).value, last)]
      else []
  }

  function Events(s: seq<Symbol>): seq<Event>
    decreases |s|
  {
    if s == [] || s[0].kind == EOF then []
    else
      var n := LineLength(s);
      LineEvents(s[..n]) + Events(if n < |s| && s[n].kind == NEWLINE then s[n + 1..] else s[n..])
  }

  // ---- Replaying them ----

  /** One block line: the rules of the language for labels and for the nesting of SEPs, and
      nothing else. */
  function Replayed(event: Event, stack: Stack): Option<Stack> {
    match event
    case Open(kind, name) =>
      var pushed := Push(kind, name, stack);
      if pushed.Ok? && (kind == "SEP" ==> stack == []) then Some(pushed.value) else None
    case Branch(kinds, name) =>
      if stack != [] && stack[|stack| - 1].kind in kinds && stack[|stack| - 1].name == name then Some(stack) else None
    case Shut(kind, name) =>
      if stack != [] && stack[|stack| - 1].kind == kind
         && stack[|stack| - 1].name == name then Some(stack[..|stack| - 1])
      else None
  }

  function Replay(events: seq<Event>, stack: Stack): Option<Stack> {
    if events == [] then Some(stack)
    else
      var next := Replayed(events[0], stack);
      if next.None? then None else Replay(events[1..], next.value)
  }

  lemma {:induction false} ReplayOne(event: Event, more: seq<Event>, stack: Stack)
    requires Replayed(event, stack).Some?
    ensures Replay([event] + more, stack) == Replay(more, Replayed(event, stack).value)
  {
    assert ([event] + more)[1..] == more;
  }

  // ---- Staying on a line ----

  predicate Clean(toks: seq<Token>) { Ended(toks) && Soundness.Scanned(toks, false) }

  /** From `toks` to `rest` without passing the end of a line. */
  predicate InLine(toks: seq<Token>, rest: seq<Token>) {
    && Clean(rest) && |rest| <= |toks|
    && SymbolsOf(toks)[|toks| - |rest|..] == SymbolsOf(rest)
    && forall i | 0 <= i < |toks| - |rest| :: !IsBreak(toks[i].kind)
  }

  lemma {:induction false} InLineTrans(a: seq<Token>, b: seq<Token>, c: seq<Token>)
    requires InLine(a, b) && InLine(b, c)
    ensures InLine(a, c)
  {
    hide Clean;
    var n, m := |a| - |b|, |b| - |c|;
    assert SymbolsOf(a)[n + m..] == SymbolsOf(a)[n..][m..] == SymbolsOf(b)[m..] == SymbolsOf(c);
    forall i | 0 <= i < n + m ensures !IsBreak(a[i].kind) {
      if i >= n {
        assert SymbolsOf(a)[n..][i - n] == SymbolsOf(b)[i - n];
        assert SymbolOf(a[i]).kind == SymbolOf(b[i - n]).kind;
      }
    }
  }

  lemma {:induction false} InLineOne(toks: seq<Token>)
    requires Clean(toks) && !IsBreak(toks[0].kind)
    ensures InLine(toks, toks[1..])
  {
    hide Soundness.Scanned, SymbolOf;
    Soundness.SuffixScanned(toks, false);
    assert SymbolsOf(toks)[1..] == SymbolsOf(toks[1..]);
  }

  lemma {:induction false} InLineNone(toks: seq<Token>)
    requires Clean(toks)
    ensures InLine(toks, toks)
  {
    hide Clean;
  }

  /** The end of a line that began at `toks`. */
  lemma {:induction false} LineRead(toks: seq<Token>, last: seq<Token>)
    requires Clean(toks) && InLine(toks, last) && LineEnd(last).Done?
    ensures Clean(LineEnd(last).rest)
    ensures Events(SymbolsOf(toks))
         == LineEvents(SymbolsOf(toks)[..|toks| - |last|]) + Events(SymbolsOf(LineEnd(last).rest))
  {
    hide Soundness.Scanned, OpenerKind, DataKind, CloserKind;
    var s, n := SymbolsOf(toks), |toks| - |last|;
    if At(last, {NEWLINE}) { Soundness.SuffixScanned(last, false); }
    hide Clean;
    assert s[n..][0] == SymbolsOf(last)[0];
    assert LineLength(s) == n by { LineLengthIs(s, n); }
    if At(last, {NEWLINE}) {
      assert SymbolsOf(last)[1..] == SymbolsOf(last[1..]);
      assert s[n + 1..] == s[n..][1..];
    }
    if s[0].kind == EOF {
      assert n == 0;
      assert s == SymbolsOf(last);
    }
  }

  lemma {:induction false} LineLengthIs(s: seq<Symbol>, n: nat)
    requires n < |s| && IsBreak(s[n].kind) && forall i | 0 <= i < n :: !IsBreak(s[i].kind)
    ensures LineLength(s) == n
  {
    if n > 0 {
      forall i | 0 <= i < n - 1 ensures !IsBreak(s[1..][i].kind) { assert s[1..][i] == s[i + 1]; }
      LineLengthIs(s[1..], n - 1);
    }
  }

  // ---- Steps that stay on their line ----

  /** Tokens that neither end a line nor assign with an operator. */
  predicate Smooth(toks: seq<Token>) {
    forall t | t in toks :: !IsBreak(t.kind) && !(PLUS_EQUAL <= t.kind <= POWER_EQUAL)
  }

  lemma {:induction false} SmoothConcat(a: seq<Token>, b: seq<Token>)
    requires Smooth(a) && Smooth(b)
    ensures Smooth(a + b) && Smooth(Joined(a, b))
  {
  }

  lemma {:induction false} SmoothWords(e: Expr)
    requires Ladder(e, false)
    ensures e.BinaryExpr? ==> Smooth(OperatorTokens(e.operator))
    ensures IsStateTest(e) ==> Smooth(StateTokens(e.negated, EMPTY)) && Smooth(StateTokens(e.negated, EMPTYS))
    ensures e.UnaryExpr? ==> Smooth([UnaryToken(e.operator)])
    ensures e.LiteralExpr? || e.VariableExpr? || e.PositionSelectorExpr? ==> Smooth(TokensOf(e))
  {
    hide Lower, ElementsLadder, NamedLadder, OperandsFit, Joined, ElementTokens, NamedTokens, Rank, OperatorRank;
  }

  lemma {:induction false} NoBreaks(e: Expr)
    requires Ladder(e, false)
    ensures Smooth(TokensOf(e))
    decreases e, 0
  {
    hide Lower, ElementsLadder, NamedLadder, OperandsFit, Joined, ElementTokens, NamedTokens, Rank, OperatorRank;
    hide OperatorKind;
    hide OperatorTokens, StateTokens, UnaryToken, LiteralToken;
    SmoothWords(e);
    if e.BinaryExpr? {
      NoBreaks(e.left); NoBreaks(e.right);
    } else if e.UnaryExpr? || IsStateTest(e) {
      NoBreaks(e.operand);
    } else if e.GroupExpr? {
      NoBreaks(e.expression);
    } else if e.IndexExpr? {
      NoBreaks(e.target); NoBreaks(e.index);
    } else if e.MemberExpr? {
      NoBreaks(e.target);
    } else if e.ListExpr? {
      NoElementBreaks(e.elements);
    } else if e.CallExpr? {
      NoElementBreaks(e.arguments); NoNamedBreaks(e.named);
      SmoothConcat(ElementTokens(e.arguments), NamedTokens(e.named));
    } else if e.MemberCallExpr? {
      NoBreaks(e.target); NoElementBreaks(e.arguments); NoNamedBreaks(e.named);
      SmoothConcat(ElementTokens(e.arguments), NamedTokens(e.named));
    }
  }

  lemma {:induction false} NoElementBreaks(elements: seq<Expr>)
    requires ElementsLadder(elements, false)
    ensures Smooth(ElementTokens(elements))
    decreases elements, 1
  {
    hide TokensOf, Ladder, Joined;
    if elements != [] {
      NoBreaks(elements[0]);
      NoElementBreaks(elements[1..]);
      SmoothConcat(TokensOf(elements[0]), ElementTokens(elements[1..]));
    }
  }

  lemma {:induction false} NoNamedBreaks(named: seq<NamedArgument>)
    requires NamedLadder(named, false)
    ensures Smooth(NamedTokens(named))
    decreases named, 1
  {
    hide TokensOf, Ladder, Joined;
    if named != [] {
      NoBreaks(named[0].value);
      NoNamedBreaks(named[1..]);
      var opening := [Word(IDENTIFIER, named[0].name), Word(EQUAL, "=")];
      SmoothConcat(opening, TokensOf(named[0].value));
      SmoothConcat(opening + TokensOf(named[0].value), NamedTokens(named[1..]));
    }
  }

  lemma {:induction false} ReadsInLine(toks: seq<Token>, written: seq<Token>, rest: seq<Token>)
    requires Soundness.Reads(toks, written, rest) && Clean(rest)
    requires forall t | t in written :: !IsBreak(t.kind)
    ensures InLine(toks, rest)
  {
    hide Soundness.Scanned;
    var s := SymbolsOf(written) + SymbolsOf(rest);
    assert |toks| == |s|;
    assert s[|written|..] == SymbolsOf(rest);
    forall i | 0 <= i < |written| ensures !IsBreak(toks[i].kind) {
      assert s[i] == SymbolOf(written[i]) == SymbolsOf(toks)[i] == SymbolOf(toks[i]);
      assert written[i] in written;
    }
  }

  const BEGINNINGS: set<Kind> := {NUMBER, STRING, TRUE, FALSE, EMPTY, EMPTYS, FRONT, BACK, LBRACKET, IDENTIFIER, LPAREN,
      BANG, NOT, MINUS}

  lemma {:induction false} ExpressionInLine(toks: seq<Token>)
    requires Clean(toks) && Expression(toks).Done?
    ensures InLine(toks, Expression(toks).rest) && At(toks, BEGINNINGS)
  {
    hide Expression, Ladder, TokensOf, Soundness.Scanned;
    Soundness.SoundExpression(toks, false);
    var e, rest := Expression(toks).value, Expression(toks).rest;
    assert Clean(rest);
    NoBreaks(e);
    ReadsInLine(toks, TokensOf(e), rest);
    Completeness.FirstToken(e);
    assert SymbolsOf(toks)[0] == SymbolsOf(TokensOf(e))[0];
    assert SymbolOf(toks[0]).kind == SymbolOf(TokensOf(e)[0]).kind;
  }

  /** A line that neither opens nor divides nor closes a block. */
  predicate Plain(toks: seq<Token>)
    requires toks != []
  {
    && !At(toks, {SEP, ELSEIF, ELSE, CATCH, FINALLY}) && OpenerKind(toks[0].kind).None?
       && CloserKind(toks[0].kind).None?
    && (DataKind(toks[0].kind).Some? && |toks| > 1 ==> toks[1].kind != COLON)
  }

  /** The block lines that lie ahead are the same. */
  predicate SameEvents(toks: seq<Token>, rest: seq<Token>) {
    Clean(rest) && Events(SymbolsOf(toks)) == Events(SymbolsOf(rest))
  }

  lemma {:induction false} PlainLine(toks: seq<Token>, last: seq<Token>)
    requires Clean(toks) && InLine(toks, last) && LineEnd(last).Done? && Plain(toks)
    ensures SameEvents(toks, LineEnd(last).rest)
  {
    hide OpenerKind, CloserKind, DataKind, Events, Soundness.Scanned, LineEnd, InLine;
    LineRead(toks, last);
    assert |last| <= |toks| by { InLineLength(toks, last); }
    var line := SymbolsOf(toks)[..|toks| - |last|];
    if line != [] {
      assert line[0] == SymbolOf(toks[0]);
      assert |line| > 1 ==> line[1] == SymbolOf(toks[1]);
    }
    assert LineEvents(line) == [];
  }

  lemma {:induction false} InLineLength(toks: seq<Token>, rest: seq<Token>)
    requires InLine(toks, rest)
    ensures |rest| <= |toks| && Clean(rest)
  {
  }

  lemma {:induction false} NewlinesSameEvents(toks: seq<Token>)
    requires Clean(toks)
    ensures SameEvents(toks, Newlines(toks))
  {
    hide Soundness.Scanned;
    if At(toks, {NEWLINE}) {
      Soundness.SuffixScanned(toks, false);
      NewlinesSameEvents(toks[1..]);
      var s := SymbolsOf(toks);
      assert s[1..] == SymbolsOf(toks[1..]);
      assert s[0].kind == NEWLINE;
      assert LineLength(s) == 0 && s[..0] == [];
    }
  }

  /** An expression up to the end of the line, behind part of the line. */
  lemma {:induction false} ExpressionLineRead(toks: seq<Token>, middle: seq<Token>)
    requires Clean(toks) && InLine(toks, middle) && ExpressionLine(middle).Done? && Plain(toks)
    ensures SameEvents(toks, ExpressionLine(middle).rest)
  {
    hide Expression, InLine, Plain, Soundness.Scanned;
    InLineLength(toks, middle);
    ExpressionInLine(middle);
    InLineTrans(toks, middle, Expression(middle).rest);
    PlainLine(toks, Expression(middle).rest);
  }

  lemma {:induction false} InLineTwo(toks: seq<Token>, middle: seq<Token>)
    requires InLine(toks, middle) && !IsBreak(middle[0].kind)
    ensures InLine(toks, middle[1..]) && Clean(middle[1..])
  {
    InLineLength(toks, middle);
    hide Soundness.Scanned;
    InLineOne(middle);
    InLineTrans(toks, middle, middle[1..]);
    InLineLength(toks, middle[1..]);
  }

  lemma {:induction false} BindingInLine(toks: seq<Token>, middle: seq<Token>)
    requires InLine(toks, middle) && Ended(middle) && Binding(middle).Done?
    ensures InLine(toks, Binding(middle).rest)
  {
    hide InLine;
    InLineLength(toks, middle);
    InLineTwo(toks, middle);
  }

  lemma {:induction false} DeclaredTypeInLine(toks: seq<Token>)
    requires Clean(toks) && At(toks, {IDENTIFIER, OBJECT, LIST}) && DeclaredTypeOf(toks).Done?
    ensures InLine(toks, DeclaredTypeOf(toks).rest)
    decreases |toks|
  {
    hide Declarable, Soundness.Scanned, InLine;
    InLineNone(toks);
    InLineTwo(toks, toks);
    if TypeName(toks[0]) == "list" {
      InLineTwo(toks, toks[1..]);
      DeclaredTypeInLine(toks[2..]);
      var element := DeclaredTypeOf(toks[2..]);
      InLineTrans(toks, toks[2..], element.rest);
      InLineTwo(toks, element.rest);
    }
  }

  lemma {:induction false} IndexesInLine(toks: seq<Token>, indexes: seq<Expr>)
    requires Clean(toks) && Indexes(indexes, toks).Done?
    ensures InLine(toks, Indexes(indexes, toks).rest)
    decreases |toks|
  {
    hide Soundness.Scanned, InLine, Expression;
    InLineNone(toks);
    if At(toks, {LBRACKET}) {
      InLineTwo(toks, toks);
      var index := Expression(toks[1..]);
      ExpressionInLine(toks[1..]);
      InLineTrans(toks, toks[1..], index.rest);
      InLineTwo(toks, index.rest);
      var rest := index.rest[1..];
      IndexesInLine(rest, indexes + [index.value]);
      InLineTrans(toks, rest, Indexes(indexes + [index.value], rest).rest);
    }
  }

  // ---- Statements of one line ----

  lemma {:induction false} TypedDeclarationRead(toks: seq<Token>, middle: seq<Token>, constant: bool, missing: string)
    requires Clean(toks) && InLine(toks, middle) && Ended(middle) && StartsTypedDeclaration(middle) && Plain(toks)
    requires TypedDeclarationOf(middle, constant, missing).Done?
    ensures SameEvents(toks, TypedDeclarationOf(middle, constant, missing).rest)
  {
    hide InLine, Plain, DeclaredTypeOf, Binding, ExpressionLine, StartsTypedDeclaration, Soundness.Scanned, SameEvents;
    InLineLength(toks, middle);
    TypedStart(middle);
    var declared := DeclaredTypeOf(middle);
    DeclaredTypeInLine(middle);
    InLineTrans(toks, middle, declared.rest);
    BindingInLine(toks, declared.rest);
    var name := Binding(declared.rest);
    InLineTwo(toks, name.rest);
    ExpressionLineRead(toks, name.rest[1..]);
  }

  lemma {:induction false} ConstantRead(toks: seq<Token>)
    requires Clean(toks) && At(toks, {CONST}) && ConstantOf(toks[1..]).Done?
    ensures SameEvents(toks, ConstantOf(toks[1..]).rest)
  {
    hide InLine, TypedDeclarationOf, Binding, ExpressionLine, StartsTypedDeclaration, Soundness.Scanned, SameEvents;
    InLineNone(toks);
    InLineTwo(toks, toks);
    if StartsTypedDeclaration(toks[1..]) {
      TypedDeclarationRead(toks, toks[1..], true, "E124");
    } else {
      BindingInLine(toks, toks[1..]);
      var name := Binding(toks[1..]);
      InLineTwo(toks, name.rest);
      ExpressionLineRead(toks, name.rest[1..]);
    }
  }

  lemma {:induction false} AssignmentRead(toks: seq<Token>)
    requires Clean(toks) && At(toks, {IDENTIFIER}) && IsAssignment(Peek(toks, 1).kind) && AssignmentOf(toks).Done?
    ensures SameEvents(toks, AssignmentOf(toks).rest)
  {
    hide InLine, ExpressionLine, Soundness.Scanned, SameEvents, CompoundOperator;
    InLineNone(toks);
    InLineTwo(toks, toks);
    InLineTwo(toks, toks[1..]);
    ExpressionLineRead(toks, toks[2..]);
  }

  lemma {:induction false} IndexAssignmentRead(toks: seq<Token>)
    requires Clean(toks) && IndexAssignmentOf(toks).Done?
    ensures SameEvents(toks, IndexAssignmentOf(toks).rest)
  {
    hide InLine, ExpressionLine, Soundness.Scanned, SameEvents, Indexes;
    InLineNone(toks);
    InLineTwo(toks, toks);
    var indexes := Indexes([], toks[1..]);
    IndexesInLine(toks[1..], []);
    InLineTrans(toks, toks[1..], indexes.rest);
    InLineTwo(toks, indexes.rest);
    ExpressionLineRead(toks, indexes.rest[1..]);
  }

  lemma {:induction false} ImportRead(toks: seq<Token>)
    requires Clean(toks) && At(toks, {IMPORT}) && ImportOf(toks[1..]).Done?
    ensures SameEvents(toks, ImportOf(toks[1..]).rest)
  {
    hide InLine, Soundness.Scanned, SameEvents, LineEnd;
    InLineNone(toks);
    InLineTwo(toks, toks);
    InLineTwo(toks, toks[1..]);
    InLineTwo(toks, toks[2..]);
    BindingInLine(toks, toks[3..]);
    PlainLine(toks, Binding(toks[3..]).rest);
  }

  lemma {:induction false} KeywordedRead(toks: seq<Token>)
    requires Clean(toks) && toks[0].kind in {THROW, PRINT, PRINT_ERROR, RETURN}
             && Keyworded(toks[0].kind, toks[1..]).Done?
    ensures SameEvents(toks, Keyworded(toks[0].kind, toks[1..]).rest)
  {
    hide InLine, Soundness.Scanned, SameEvents, LineEnd, ExpressionLine;
    InLineNone(toks);
    InLineTwo(toks, toks);
    if toks[0].kind == RETURN && At(toks[1..], {NEWLINE, EOF}) {
      PlainLine(toks, toks[1..]);
    } else {
      ExpressionLineRead(toks, toks[1..]);
    }
  }

  lemma {:induction false} ExpressionStatementRead(toks: seq<Token>)
    requires Clean(toks) && ExpressionLine(toks).Done?
    ensures SameEvents(toks, ExpressionLine(toks).rest)
  {
    hide InLine, Soundness.Scanned, SameEvents, LineEnd, Expression;
    InLineNone(toks);
    ExpressionInLine(toks);
    ExpressionLineRead(toks, toks);
  }

  // ---- Block lines ----

  /** Replaying the block lines between `toks` and `rest` turns one stack into the other. */
  predicate Reaches(toks: seq<Token>, stack: Stack, rest: seq<Token>, after: Stack) {
    && Clean(rest)
    && Replay(Events(SymbolsOf(toks)), stack) == Replay(Events(SymbolsOf(rest)), after)
  }

  lemma {:induction false} ReachesTrans(a: seq<Token>, s: Stack, b: seq<Token>, t: Stack, c: seq<Token>, u: Stack)
    requires Reaches(a, s, b, t) && Reaches(b, t, c, u)
    ensures Reaches(a, s, c, u)
  {
    hide Clean;
  }

  lemma {:induction false} SameReaches(toks: seq<Token>, rest: seq<Token>, stack: Stack)
    requires SameEvents(toks, rest)
    ensures Reaches(toks, stack, rest, stack)
  {
    hide Clean;
  }

  /** A line with one block event. */
  lemma {:induction false} EventLine(toks: seq<Token>, last: seq<Token>, event: Event, stack: Stack)
    requires Clean(toks) && InLine(toks, last) && Ended(last) && |last| <= |toks| && LineEnd(last).Done?
    requires LineEvents(SymbolsOf(toks)[..|toks| - |last|]) == [event] && Replayed(event, stack).Some?
    ensures Reaches(toks, stack, LineEnd(last).rest, Replayed(event, stack).value)
  {
    hide Clean, InLine, LineEnd, LineEvents, Events, Replay;
    LineRead(toks, last);
    ReplayOne(event, Events(SymbolsOf(LineEnd(last).rest)), stack);
  }

  /** What an opener leaves behind. */
  predicate Entered(kind: string, name: string, stack: Stack, after: Stack) {
    && after != [] && after[|after| - 1].kind == kind && after[|after| - 1].name == name
    && SameBlocks(stack, after[..|after| - 1])
  }

  lemma {:induction false} PushEnters(kind: string, name: string, stack: Stack)
    requires Push(kind, name, stack).Ok?
    ensures Entered(kind, name, stack, Push(kind, name, stack).value)
  {
    hide IsLocal, LooksLocal, IsOpen;
    var after := Push(kind, name, stack).value;
    if IsLocal(name) {
      var sep := InnermostSep(stack);
      assert after[..|after| - 1] == stack[sep := stack[sep].(used := stack[sep].used + {name})];
    } else {
      assert after[..|after| - 1] == stack;
    }
  }

  lemma {:induction false} OpenedRead(toks: seq<Token>, last: seq<Token>, kind: string, name: string, stack: Stack)
    requires Clean(toks) && InLine(toks, last) && Ended(last) && |last| <= |toks|
    requires LineEvents(SymbolsOf(toks)[..|toks| - |last|]) == [Open(kind, name)]
    requires Opened(kind, name, last, stack).Good? && (kind == "SEP" ==> stack == [])
    ensures var r := Opened(kind, name, last, stack);
            Reaches(toks, stack, r.rest, r.stack) && Entered(kind, name, stack, r.stack) && r.value == name
  {
    hide Clean, InLine, LineEvents, Reaches, Push, Entered;
    EventLine(toks, last, Open(kind, name), stack);
    PushEnters(kind, name, stack);
  }

  /** The symbols of a line that ends behind `middle[0]` and `middle[1]`. */
  lemma {:induction false} LineEndsWith(toks: seq<Token>, middle: seq<Token>)
    requires InLine(toks, middle) && |middle| >= 3 && |middle| < |toks|
    requires !IsBreak(middle[0].kind) && !IsBreak(middle[1].kind)
    ensures InLine(toks, middle[2..]) && Clean(middle[2..])
    ensures var line := SymbolsOf(toks)[..|toks| - |middle| + 2];
            line[0].kind == toks[0].kind && line[|line| - 1] == SymbolOf(middle[1])
  {
    InLineLength(toks, middle);
    InLineTwo(toks, middle);
    InLineTwo(toks, middle[1..]);
    var n := |toks| - |middle|;
    assert SymbolsOf(toks)[n..][1] == SymbolsOf(middle)[1];
  }

  lemma {:induction false} OpeningLabelRead(toks: seq<Token>, middle: seq<Token>, kind: string, stack: Stack)
    requires Clean(toks) && InLine(toks, middle) && Ended(middle) && |middle| < |toks|
    requires OpenerKind(toks[0].kind) == Some(kind) && OpeningLabel(kind, middle, stack).Good?
    ensures var r := OpeningLabel(kind, middle, stack);
            Reaches(toks, stack, r.rest, r.stack) && Entered(kind, r.value, stack, r.stack)
  {
    hide InLine, Soundness.Scanned, Reaches, Opened, Entered;
    LineEndsWith(toks, middle);
    OpenedRead(toks, middle[2..], kind, middle[1].lexeme, stack);
  }

  lemma {:induction false} OpeningNameRead(toks: seq<Token>, kind: string, stack: Stack)
    requires Clean(toks) && DataKind(toks[0].kind) == Some(kind) && OpeningName(kind, toks[1..], stack).Good?
    ensures var r := OpeningName(kind, toks[1..], stack);
            Reaches(toks, stack, r.rest, r.stack) && Entered(kind, r.value, stack, r.stack)
  {
    hide InLine, Soundness.Scanned, Reaches, Opened, Entered;
    InLineNone(toks);
    InLineTwo(toks, toks);
    LineEndsWith(toks, toks[1..]);
    OpenedRead(toks, toks[3..], kind, toks[2].lexeme, stack);
  }

  lemma {:induction false} ShutLine(line: seq<Symbol>, kind: string)
    requires line != [] && CloserKind(line[0].kind) == Some(kind)
    ensures LineEvents(line) == [Shut(kind, line[|line| - 1].name)]
  {
  }

  lemma {:induction false} CloseRead(toks: seq<Token>, closer: Kind, kind: string, stack: Stack)
    requires Clean(toks) && stack != [] && stack[|stack| - 1].kind == kind && CloserKind(closer) == Some(kind)
    requires Close(closer, kind, toks, stack).Good?
    ensures Reaches(toks, stack, Close(closer, kind, toks, stack).rest, stack[..|stack| - 1])
  {
    hide InLine, Soundness.Scanned, Reaches, HasBlock;
    InLineNone(toks);
    InLineTwo(toks, toks);
    LineEndsWith(toks, toks[1..]);
    var line := SymbolsOf(toks)[..3];
    ShutLine(line, kind);
    hide CloserKind, LineEvents;
    EventLine(toks, toks[3..], Shut(kind, stack[|stack| - 1].name), stack);
  }

  lemma {:induction false} BranchRead(toks: seq<Token>, middle: seq<Token>, name: string, stack: Stack)
    requires Clean(toks) && InLine(toks, middle) && Ended(middle) && |middle| < |toks|
             && BranchLabel(name, middle).Done?
    requires stack != [] && stack[|stack| - 1].name == name
    requires At(toks, if stack[|stack| - 1].kind == "if" then {ELSEIF, ELSE} else {CATCH, FINALLY})
    requires stack[|stack| - 1].kind in {"if", "try"}
    ensures Reaches(toks, stack, BranchLabel(name, middle).rest, stack)
  {
    hide InLine, Soundness.Scanned, Reaches;
    LineEndsWith(toks, middle);
    EventLine(toks, middle[2..], Branch({stack[|stack| - 1].kind}, name), stack);
  }

  // ---- One lemma for each method that reads statements ----

  /** A step that succeeds replays, and leaves the blocks that were open. */
  predicate Kept<T>(toks: seq<Token>, stack: Stack, r: Step<T>) {
    r.Good? ==> Reaches(toks, stack, r.rest, r.stack) && SameBlocks(stack, r.stack)
  }

  lemma {:induction false} KeptLine<T>(toks: seq<Token>, stack: Stack, p: Parsed<T>)
    requires p.Done? ==> SameEvents(toks, p.rest)
    ensures Kept(toks, stack, Lift(p, stack))
  {
    hide Reaches, SameEvents;
    if p.Done? { SameReaches(toks, p.rest, stack); }
  }

  /** An opener, a body and the closer. */
  lemma {:induction false} KeptBlock(toks: seq<Token>, stack: Stack, start: seq<Token>, entered: Stack, kind: string,
                                     name: string, inside: seq<Token>, left: Stack, closer: Kind)
    requires Reaches(toks, stack, start, entered) && Entered(kind, name, stack, entered)
    requires Reaches(start, entered, inside, left) && SameBlocks(entered, left)
    requires CloserKind(closer) == Some(kind) && Ended(inside) && left != [] && closer != EOF
    ensures Kept(toks, stack, Close(closer, kind, inside, left))
  {
    hide Soundness.Scanned, Close, Replay, Events, CloserKind;
    var end := Close(closer, kind, inside, left);
    if end.Good? {
      CloseRead(inside, closer, kind, left);
      assert SameBlocks(stack, end.stack);
      hide Reaches;
      ReachesTrans(toks, stack, start, entered, inside, left);
      ReachesTrans(toks, stack, inside, left, end.rest, end.stack);
    }
  }

  lemma {:induction false} SameBlocksTrans(a: Stack, b: Stack, c: Stack)
    requires SameBlocks(a, b) && SameBlocks(b, c)
    ensures SameBlocks(a, c)
  {
  }

  lemma {:induction false} KeptStatement(toks: seq<Token>, stack: Stack, top: bool)
    requires Clean(toks) && !At(toks, {EOF}) && (top ==> stack == [])
    ensures Kept(toks, stack, Statement(toks, stack, top))
    decreases |toks|, 5
  {
    hide Kept, Soundness.Scanned, StartsTypedDeclaration, Declarable, TypedDeclarationOf, BlockStatement, HttpRoute;
    hide SepOf, ErrorDeclaration;
    hide StartsIndexAssignment, IndexAssignmentOf, AssignmentOf, IsAssignment, ConstantOf, Keyworded, ImportOf;
    hide ExpressionLine, SameEvents;
    hide IsBlockOpener, OnlyInside;
    var r := Statement(toks, stack, top);
    if r.Bad? {
      KeptBad(toks, stack, r);
    } else if toks[0].kind in {IMPORT, ERROR, HTTP_ROUTE, SEP} {
      KeptTopLevel(toks, stack);
    } else if StartsTypedDeclaration(toks) {
      TypedIsPlain(toks);
      InLineNone(toks);
      TypedDeclarationRead(toks, toks, false, "E124");
      KeptLine(toks, stack, TypedDeclarationOf(toks, false, "E124"));
    } else if IsBlockOpener(toks[0].kind) {
      KeptBlockStatement(toks, stack);
    } else if toks[0].kind in {THROW, PRINT, PRINT_ERROR, RETURN} {
      KeywordedRead(toks);
      KeptLine(toks, stack, Keyworded(toks[0].kind, toks[1..]));
    } else if toks[0].kind == CONST {
      ConstantRead(toks);
      KeptLine(toks, stack, ConstantOf(toks[1..]));
    } else if StartsIndexAssignment(toks) {
      IndexAssignmentRead(toks);
      KeptLine(toks, stack, IndexAssignmentOf(toks));
    } else if toks[0].kind == IDENTIFIER && IsAssignment(Peek(toks, 1).kind) {
      AssignmentRead(toks);
      KeptLine(toks, stack, AssignmentOf(toks));
    } else {
      ExpressionStatementRead(toks);
      var e := ExpressionLine(toks);
      KeptLine(toks, stack, Done(ExpressionStmt(e.value), e.rest));
    }
  }

  lemma {:induction false} KeptBad<T>(toks: seq<Token>, stack: Stack, r: Step<T>)
    requires r.Bad?
    ensures Kept(toks, stack, r)
  {
  }

  lemma {:induction false} TypedIsPlain(toks: seq<Token>)
    requires Ended(toks) && StartsTypedDeclaration(toks)
    ensures Plain(toks)
  {
    TypedStart(toks);
    hide Declarable;
  }

  lemma {:induction false} KeptTopLevel(toks: seq<Token>, stack: Stack)
    requires Clean(toks) && toks[0].kind in {IMPORT, ERROR, HTTP_ROUTE, SEP}
    ensures toks[0].kind == IMPORT ==> Kept(toks, stack, Lift(ImportOf(toks[1..]), stack))
    ensures toks[0].kind == ERROR ==> Kept(toks, stack, ErrorDeclaration(toks, stack))
    ensures toks[0].kind == HTTP_ROUTE ==> Kept(toks, stack, HttpRoute(toks, stack))
    ensures toks[0].kind == SEP && stack == [] ==> Kept(toks, stack, SepOf(toks, stack))
    decreases |toks|, 4
  {
    hide Kept, Soundness.Scanned, ImportOf, ErrorDeclaration, HttpRoute, SepOf, SameEvents;
    if toks[0].kind == IMPORT {
      if ImportOf(toks[1..]).Done? { ImportRead(toks); }
      KeptLine(toks, stack, ImportOf(toks[1..]));
    } else if toks[0].kind == ERROR {
      KeptError(toks, stack);
    } else if toks[0].kind == HTTP_ROUTE {
      KeptRoute(toks, stack);
    } else if stack == [] {
      KeptSep(toks, stack);
    }
  }

  lemma {:induction false} KeptBlockStatement(toks: seq<Token>, stack: Stack)
    requires Clean(toks) && IsBlockOpener(toks[0].kind)
    ensures Kept(toks, stack, BlockStatement(toks, stack))
    decreases |toks|, 4
  {
    hide Kept, Soundness.Scanned, ObjectOf, ListBlockOf, TryOf, TransactionOf, IfOf, WhileOf, ForOf;
    var kind := toks[0].kind;
    if kind == OBJECT { KeptObject(toks, stack); }
    else if kind == LIST { KeptList(toks, stack); }
    else if kind == TRY { KeptTry(toks, stack); }
    else if kind == TRANSACTION { KeptTransaction(toks, stack); }
    else if kind == IF { KeptIf(toks, stack); }
    else if kind == WHILE { KeptWhile(toks, stack); }
    else { KeptFor(toks, stack); }
  }

  lemma {:induction false} KeptBody(endings: set<Kind>, body: seq<Stmt>, toks: seq<Token>, stack: Stack)
    requires Clean(toks) && stack != [] && EOF !in endings
    ensures Kept(toks, stack, BodyUntil(endings, body, toks, stack))
    decreases |toks|, 6
  {
    hide Soundness.Scanned, Statement, Reaches, SameEvents;
    NewlinesSameEvents(toks);
    var here := Newlines(toks);
    SameReaches(toks, here, stack);
    assert Clean(here) by { SameIsClean(toks, here); }
    if !At(here, endings) && !At(here, {EOF}) && !AtCloser(here) {
      KeptStatement(here, stack, false);
      var s := Statement(here, stack, false);
      if s.Good? {
        ReachesTrans(toks, stack, here, stack, s.rest, s.stack);
        ReachesIsClean(toks, stack, s.rest, s.stack);
        KeptBody(endings, body + [s.value], s.rest, s.stack);
        var r := BodyUntil(endings, body + [s.value], s.rest, s.stack);
        if r.Good? {
          ReachesTrans(toks, stack, s.rest, s.stack, r.rest, r.stack);
          SameBlocksTrans(stack, s.stack, r.stack);
        }
      }
    }
  }

  lemma {:induction false} SameIsClean(toks: seq<Token>, rest: seq<Token>)
    requires SameEvents(toks, rest)
    ensures Clean(rest)
  {
  }

  lemma {:induction false} ReachesIsClean(toks: seq<Token>, stack: Stack, rest: seq<Token>, after: Stack)
    requires Reaches(toks, stack, rest, after)
    ensures Clean(rest)
  {
  }

  /** A block whose body is a list of statements. */
  lemma {:induction false} KeptBodyBlock(toks: seq<Token>, stack: Stack, start: seq<Token>, entered: Stack,
                                         kind: string, name: string, closer: Kind)
    requires Ended(start) && entered != [] && |start| < |toks| && closer != EOF
    requires Reaches(toks, stack, start, entered) && Entered(kind, name, stack, entered)
    requires CloserKind(closer) == Some(kind)
    ensures var body := BodyUntil({closer}, [], start, entered);
            body.Good? ==> Kept(toks, stack, Close(closer, kind, body.rest, body.stack))
    decreases |toks|, 1
  {
    hide Soundness.Scanned, Reaches, BodyUntil, Close, Entered, CloserKind;
    ReachesIsClean(toks, stack, start, entered);
    KeptBody({closer}, [], start, entered);
    var body := BodyUntil({closer}, [], start, entered);
    if body.Good? {
      KeptBlock(toks, stack, start, entered, kind, name, body.rest, body.stack, closer);
    }
  }

  lemma {:induction false} KeptWhile(toks: seq<Token>, stack: Stack)
    requires Clean(toks) && At(toks, {WHILE})
    ensures Kept(toks, stack, WhileOf(toks, stack))
    decreases |toks|, 3
  {
    hide Soundness.Scanned, Reaches, BodyUntil, Close, Entered, Expression, InLine, OpeningLabel, SameBlocks;
    InLineNone(toks);
    InLineTwo(toks, toks);
    var condition := Expression(toks[1..]);
    if condition.Done? {
      ExpressionInLine(toks[1..]);
      InLineTrans(toks, toks[1..], condition.rest);
      var start := OpeningLabel("while", condition.rest, stack);
      if start.Good? {
        OpeningLabelRead(toks, condition.rest, "while", stack);
        KeptBodyBlock(toks, stack, start.rest, start.stack, "while", start.value, ENDWHILE);
      }
    }
  }

  lemma {:induction false} KeptTransaction(toks: seq<Token>, stack: Stack)
    requires Clean(toks) && At(toks, {TRANSACTION})
    ensures Kept(toks, stack, TransactionOf(toks, stack))
    decreases |toks|, 3
  {
    hide Soundness.Scanned, Reaches, BodyUntil, Close, Entered, Expression, InLine, OpeningLabel, SameBlocks;
    InLineNone(toks);
    InLineTwo(toks, toks);
    var connection := Expression(toks[1..]);
    if connection.Done? {
      ExpressionInLine(toks[1..]);
      InLineTrans(toks, toks[1..], connection.rest);
      var start := OpeningLabel("transaction", connection.rest, stack);
      if start.Good? {
        OpeningLabelRead(toks, connection.rest, "transaction", stack);
        KeptBodyBlock(toks, stack, start.rest, start.stack, "transaction", start.value, END_TRANSACTION);
      }
    }
  }

  lemma {:induction false} KeptFor(toks: seq<Token>, stack: Stack)
    requires Clean(toks) && At(toks, {FOR})
    ensures Kept(toks, stack, ForOf(toks, stack))
    decreases |toks|, 3
  {
    hide Soundness.Scanned, Reaches, BodyUntil, Close, Entered, Expression, InLine, OpeningLabel, SameBlocks, Binding;
    InLineNone(toks);
    InLineTwo(toks, toks);
    var variable := Binding(toks[1..]);
    if variable.Done? && At(variable.rest, {IN}) {
      BindingInLine(toks, toks[1..]);
      InLineTwo(toks, variable.rest);
      var iterable := Expression(variable.rest[1..]);
      if iterable.Done? {
        ExpressionInLine(variable.rest[1..]);
        InLineTrans(toks, variable.rest[1..], iterable.rest);
        var start := OpeningLabel("for", iterable.rest, stack);
        if start.Good? {
          OpeningLabelRead(toks, iterable.rest, "for", stack);
          KeptBodyBlock(toks, stack, start.rest, start.stack, "for", start.value, ENDFOR);
        }
      }
    }
  }

  lemma {:induction false} KeptRoute(toks: seq<Token>, stack: Stack)
    requires Clean(toks) && At(toks, {HTTP_ROUTE})
    ensures Kept(toks, stack, HttpRoute(toks, stack))
    decreases |toks|, 3
  {
    hide Soundness.Scanned, Reaches, BodyUntil, Close, Entered, InLine, OpeningLabel, SameBlocks, IsRoute;
    InLineNone(toks);
    InLineTwo(toks, toks);
    if At(toks[1..], {IDENTIFIER}) && At(toks[2..], {STRING}) {
      InLineTwo(toks, toks[1..]);
      InLineTwo(toks, toks[2..]);
      var start := OpeningLabel("http_route", toks[3..], stack);
      if start.Good? {
        OpeningLabelRead(toks, toks[3..], "http_route", stack);
        KeptBodyBlock(toks, stack, start.rest, start.stack, "http_route", start.value, END_HTTP_ROUTE);
      }
    }
  }

  lemma {:induction false} KeptError(toks: seq<Token>, stack: Stack)
    requires Clean(toks) && At(toks, {ERROR})
    ensures Kept(toks, stack, ErrorDeclaration(toks, stack))
    decreases |toks|, 3
  {
    hide Soundness.Scanned, Reaches, Close, Entered, InLine, Opened, EndsWithError, SameEvents, Replay, Events;
    InLineNone(toks);
    InLineTwo(toks, toks);
    if At(toks[1..], {COLON}) && At(toks[2..], {IDENTIFIER}) {
      LineEndsWith(toks, toks[1..]);
      var name := toks[2].lexeme;
      var start := Opened("error", name, toks[3..], stack);
      if start.Good? {
        OpenedRead(toks, toks[3..], "error", name, stack);
        ReachesIsClean(toks, stack, start.rest, start.stack);
        var inside := Newlines(start.rest);
        NewlinesSameEvents(start.rest);
        SameReaches(start.rest, inside, start.stack);
        SameIsClean(start.rest, inside);
        assert SameBlocks(start.stack, start.stack);
        KeptBlock(toks, stack, start.rest, start.stack, "error", name, inside, start.stack, END_ERROR);
      }
    }
  }

  // ---- SEPs ----

  lemma {:induction false} ParameterInLine(parameters: seq<Parameter>, toks: seq<Token>)
    requires Clean(toks) && OneParameter(parameters, toks).Done?
    ensures InLine(toks, OneParameter(parameters, toks).rest)
  {
    hide Soundness.Scanned, InLine, DeclaredTypeOf, Declarable, HasParameter;
    InLineNone(toks);
    InLineTwo(toks, toks);
    if At(toks[1..], {COLON}) {
      InLineTwo(toks, toks[1..]);
      NamedStart(toks[2..]);
      DeclaredTypeInLine(toks[2..]);
      InLineTrans(toks, toks[2..], DeclaredTypeOf(toks[2..]).rest);
    }
  }

  lemma {:induction false} ParametersInLine(parameters: seq<Parameter>, toks: seq<Token>)
    requires Clean(toks) && Parameters(parameters, toks).Done?
    ensures InLine(toks, Parameters(parameters, toks).rest)
    decreases |toks|
  {
    hide Soundness.Scanned, InLine, OneParameter;
    ParameterInLine(parameters, toks);
    var one := OneParameter(parameters, toks);
    InLineTwo(toks, one.rest);
    if At(one.rest, {COMMA}) {
      ParametersInLine(one.value, one.rest[1..]);
      InLineTrans(toks, one.rest[1..], Parameters(one.value, one.rest[1..]).rest);
    }
  }

  lemma {:induction false} ParameterListInLine(toks: seq<Token>)
    requires Clean(toks) && ParameterList(toks).Done?
    ensures InLine(toks, ParameterList(toks).rest)
  {
    hide Soundness.Scanned, InLine, Parameters;
    InLineNone(toks);
    if At(toks, {LPAREN}) {
      InLineTwo(toks, toks);
      if At(toks[1..], {RPAREN}) {
        InLineTwo(toks, toks[1..]);
      } else {
        ParametersInLine([], toks[1..]);
        InLineTrans(toks, toks[1..], Parameters([], toks[1..]).rest);
      }
    }
  }

  lemma {:induction false} TagsSameEvents(tags: seq<string>, toks: seq<Token>)
    requires Clean(toks) && Tags(tags, toks).Done?
    ensures SameEvents(toks, Tags(tags, toks).rest)
    decreases |toks|
  {
    hide Soundness.Scanned, InLine, Events, LineEnd;
    if At(toks, {TAG}) {
      InLineNone(toks);
      InLineTwo(toks, toks);
      PlainLine(toks, toks[1..]);
      var end := LineEnd(toks[1..]);
      NewlinesSameEvents(end.rest);
      TagsSameEvents(tags + [toks[0].lexeme], Newlines(end.rest));
    }
  }

  /** The third symbol of the line of a SEP is its name. */
  lemma {:induction false} SepLine(toks: seq<Token>, last: seq<Token>)
    requires |toks| >= 3 && At(toks, {SEP}) && toks[2].kind == IDENTIFIER && |last| <= |toks| - 3
    ensures LineEvents(SymbolsOf(toks)[..|toks| - |last|]) == [Open("SEP", toks[2].lexeme)]
  {
    var line := SymbolsOf(toks)[..|toks| - |last|];
    assert line[0] == SymbolOf(toks[0]) && line[2] == SymbolOf(toks[2]);
  }

  lemma {:induction false} KeptSep(toks: seq<Token>, stack: Stack)
    requires Clean(toks) && At(toks, {SEP}) && stack == []
    ensures Kept(toks, stack, SepOf(toks, stack))
    decreases |toks|, 3
  {
    hide Soundness.Scanned, Reaches, BodyUntil, Close, Entered, InLine, Opened, SameBlocks, ParameterList, Tags;
    hide SameEvents, SymbolOf;
    InLineNone(toks);
    InLineTwo(toks, toks);
    if At(toks[1..], {COLON}) && Binding(toks[2..]).Done? {
      InLineTwo(toks, toks[1..]);
      BindingInLine(toks, toks[2..]);
      var name := toks[2].lexeme;
      var parameters := ParameterList(toks[3..]);
      if parameters.Done? {
        InLineLength(toks, toks[3..]);
        ParameterListInLine(toks[3..]);
        InLineTrans(toks, toks[3..], parameters.rest);
        var start := Opened("SEP", name, parameters.rest, stack);
        if start.Good? {
          SepLine(toks, parameters.rest);
          OpenedRead(toks, parameters.rest, "SEP", name, stack);
          KeptSepBody(toks, stack, start.rest, start.stack, name);
        }
      }
    }
  }

  lemma {:induction false} KeptSepBody(toks: seq<Token>, stack: Stack, start: seq<Token>, entered: Stack, name: string)
    requires Ended(start) && entered != [] && |start| < |toks|
    requires Reaches(toks, stack, start, entered) && Entered("SEP", name, stack, entered)
    ensures var tags := Tags([], Newlines(start));
            tags.Done? ==>
              var body := BodyUntil({END_SEP}, [], tags.rest, entered);
              body.Good? ==> Kept(toks, stack, Close(END_SEP, "SEP", body.rest, body.stack))
    decreases |toks|, 2
  {
    hide Soundness.Scanned, BodyUntil, Close, Entered, SameBlocks, Tags, Events, Replay;
    NewlinesSameEvents(start);
    var tags := Tags([], Newlines(start));
    if tags.Done? {
      TagsSameEvents([], Newlines(start));
      SameReaches(Newlines(start), tags.rest, entered);
      hide Reaches;
      KeptBodyBlock(toks, stack, tags.rest, entered, "SEP", name, END_SEP);
    }
  }

  // ---- Data blocks ----

  lemma {:induction false} KeptObject(toks: seq<Token>, stack: Stack)
    requires Clean(toks) && At(toks, {OBJECT})
    ensures Kept(toks, stack, ObjectOf(toks, stack))
    decreases |toks|, 3
  {
    hide Soundness.Scanned, Reaches, Entries, Close, Entered, OpeningName, SameBlocks, SameEvents;
    var start := OpeningName("object", toks[1..], stack);
    if start.Good? {
      OpeningNameRead(toks, "object", stack);
      ReachesIsClean(toks, stack, start.rest, start.stack);
      var inside := Newlines(start.rest);
      NewlinesSameEvents(start.rest);
      SameReaches(start.rest, inside, start.stack);
      SameIsClean(start.rest, inside);
      KeptEntries([], inside, start.stack);
      var entries := Entries([], inside, start.stack);
      if entries.Good? {
        ReachesTrans(start.rest, start.stack, inside, start.stack, entries.rest, entries.stack);
        KeptBlock(toks, stack, start.rest, start.stack, "object", start.value, entries.rest, entries.stack, END_OBJECT);
      }
    }
  }

  lemma {:induction false} KeptEntry(toks: seq<Token>, stack: Stack)
    requires Clean(toks)
    ensures Kept(toks, stack, EntryOf(toks, stack))
    decreases |toks|, 4
  {
    hide Soundness.Scanned, Reaches, StartsTypedDeclaration, TypedDeclarationOf, ObjectOf, ListBlockOf, SameBlocks;
    hide SameEvents, ExpressionLine, InLine;
    InLineNone(toks);
    if StartsTypedDeclaration(toks) {
      TypedIsPlain(toks);
      if TypedDeclarationOf(toks, false, "E100").Done? { TypedDeclarationRead(toks, toks, false, "E100"); }
      KeptLine(toks, stack, TypedField(toks));
    } else if At(toks, {OBJECT}) {
      KeptObject(toks, stack);
    } else if At(toks, {LIST}) {
      KeptList(toks, stack);
    } else if At(toks, {IDENTIFIER}) && Peek(toks, 1).kind == EQUAL {
      InLineTwo(toks, toks);
      InLineTwo(toks, toks[1..]);
      if ExpressionLine(toks[2..]).Done? { ExpressionLineRead(toks, toks[2..]); }
      KeptLine(toks, stack, FieldOf(toks));
    }
  }

  lemma {:induction false} KeptEntries(entries: seq<Entry>, toks: seq<Token>, stack: Stack)
    requires Clean(toks) && stack != []
    ensures Kept(toks, stack, Entries(entries, toks, stack))
    decreases |toks|, 5
  {
    hide Soundness.Scanned, Reaches, EntryOf, SameEvents, HasEntry, Events, Replay;
    InLineNone(toks);
    KeptNothing(toks, stack);
    if !At(toks, {END_OBJECT, EOF}) && !AtCloser(toks) {
      KeptEntry(toks, stack);
      var entry := EntryOf(toks, stack);
      if entry.Good? && !HasEntry(entries, EntryName(entry.value)) {
        KeptNext(toks, stack, entry.rest, entry.stack);
        var here := Newlines(entry.rest);
        KeptEntries(entries + [entry.value], here, entry.stack);
        var r := Entries(entries + [entry.value], here, entry.stack);
        if r.Good? {
          ReachesTrans(toks, stack, here, entry.stack, r.rest, r.stack);
          SameBlocksTrans(stack, entry.stack, r.stack);
        }
      }
    }
  }

  lemma {:induction false} KeptNothing(toks: seq<Token>, stack: Stack)
    requires Clean(toks)
    ensures Reaches(toks, stack, toks, stack) && SameBlocks(stack, stack)
  {
  }

  /** Empty lines behind a step. */
  lemma {:induction false} KeptNext(toks: seq<Token>, stack: Stack, rest: seq<Token>, after: Stack)
    requires Reaches(toks, stack, rest, after)
    ensures Clean(rest) && Clean(Newlines(rest)) && Reaches(toks, stack, Newlines(rest), after)
  {
    hide Soundness.Scanned, Events, Replay;
    NewlinesSameEvents(rest);
  }

  lemma {:induction false} KeptList(toks: seq<Token>, stack: Stack)
    requires Clean(toks) && At(toks, {LIST})
    ensures Kept(toks, stack, ListBlockOf(toks, stack))
    decreases |toks|, 3
  {
    hide Soundness.Scanned, Reaches, ListLines, Close, Entered, OpeningName, SameBlocks, SameEvents;
    var start := OpeningName("list", toks[1..], stack);
    if start.Good? {
      OpeningNameRead(toks, "list", stack);
      ReachesIsClean(toks, stack, start.rest, start.stack);
      var inside := Newlines(start.rest);
      NewlinesSameEvents(start.rest);
      SameIsClean(start.rest, inside);
      SameReaches(start.rest, inside, start.stack);
      KeptLines([], inside, start.stack);
      var elements := ListLines([], inside, start.stack);
      if elements.Good? {
        ReachesTrans(start.rest, start.stack, inside, start.stack, elements.rest, elements.stack);
        KeptBlock(toks, stack, start.rest, start.stack, "list", start.value, elements.rest, elements.stack, END_LIST);
      }
    }
  }

  lemma {:induction false} KeptLines(elements: seq<Expr>, toks: seq<Token>, stack: Stack)
    requires Clean(toks) && stack != []
    ensures Kept(toks, stack, ListLines(elements, toks, stack))
    decreases |toks|
  {
    hide Soundness.Scanned, ExpressionLine, SameEvents, Events, Replay;
    KeptNothing(toks, stack);
    if !At(toks, {END_LIST, EOF}) && !AtCloser(toks) {
      var element := ExpressionLine(toks);
      if element.Done? {
        ExpressionStatementRead(toks);
        SameReaches(toks, element.rest, stack);
        KeptNext(toks, stack, element.rest, stack);
        hide Reaches;
        var here := Newlines(element.rest);
        KeptLines(elements + [element.value], here, stack);
        var r := ListLines(elements + [element.value], here, stack);
        if r.Good? { ReachesTrans(toks, stack, here, stack, r.rest, r.stack); }
      }
    }
  }

  // ---- Blocks with branches ----

  /** The innermost open block. */
  predicate Top(stack: Stack, kind: string, name: string) {
    stack != [] && stack[|stack| - 1].kind == kind && stack[|stack| - 1].name == name
  }

  lemma {:induction false} KeptIf(toks: seq<Token>, stack: Stack)
    requires Clean(toks) && At(toks, {IF})
    ensures Kept(toks, stack, IfOf(toks, stack))
    decreases |toks|, 3
  {
    hide Soundness.Scanned, Reaches, Branches, Close, Expression, InLine, OpeningLabel, SameBlocks;
    InLineNone(toks);
    InLineTwo(toks, toks);
    var condition := Expression(toks[1..]);
    if condition.Done? {
      ExpressionInLine(toks[1..]);
      InLineTrans(toks, toks[1..], condition.rest);
      var start := OpeningLabel("if", condition.rest, stack);
      if start.Good? {
        OpeningLabelRead(toks, condition.rest, "if", stack);
        ReachesIsClean(toks, stack, start.rest, start.stack);
        KeptBranches(start.value, [], condition.value, start.rest, start.stack);
        var branches := Branches(start.value, [], condition.value, start.rest, start.stack);
        if branches.Good? {
          KeptBlock(toks, stack, start.rest, start.stack, "if", start.value, branches.rest, branches.stack, ENDIF);
        }
      }
    }
  }

  lemma {:induction false} TopIsKept(a: Stack, b: Stack, kind: string, name: string)
    requires Top(a, kind, name) && SameBlocks(a, b)
    ensures Top(b, kind, name)
  {
  }

  lemma {:induction false} KeptBranches(name: string, branches: seq<IfBranch>, condition: Expr, toks: seq<Token>,
                                        stack: Stack)
    requires Clean(toks) && Top(stack, "if", name)
    ensures Kept(toks, stack, Branches(name, branches, condition, toks, stack))
    decreases |toks|, 7
  {
    hide Soundness.Scanned, Reaches, BodyUntil, Expression, InLine, SameBlocks, BranchLabel;
    KeptBody({ELSEIF, ELSE, ENDIF}, [], toks, stack);
    var body := BodyUntil({ELSEIF, ELSE, ENDIF}, [], toks, stack);
    if body.Good? {
      ReachesIsClean(toks, stack, body.rest, body.stack);
      TopIsKept(stack, body.stack, "if", name);
      var done := branches + [IfBranch(condition, body.value)];
      if At(body.rest, {ELSEIF}) {
        KeptElseIf(name, done, body.rest, body.stack);
        var next := Expression(body.rest[1..]);
        if next.Done? && BranchLabel(name, next.rest).Done? {
          var r := Branches(name, done, next.value, BranchLabel(name, next.rest).rest, body.stack);
          if r.Good? { KeptTrans(toks, stack, body.rest, body.stack, r.rest, r.stack); }
        }
      } else if At(body.rest, {ELSE}) {
        KeptElse(name, body.rest, body.stack);
        if BranchLabel(name, body.rest[1..]).Done? {
          var last := BodyUntil({ELSEIF, ELSE, ENDIF}, [], BranchLabel(name, body.rest[1..]).rest, body.stack);
          if last.Good? { KeptTrans(toks, stack, body.rest, body.stack, last.rest, last.stack); }
        }
      }
    }
  }

  lemma {:induction false} KeptTrans(a: seq<Token>, s: Stack, b: seq<Token>, t: Stack, c: seq<Token>, u: Stack)
    requires Reaches(a, s, b, t) && SameBlocks(s, t) && Reaches(b, t, c, u) && SameBlocks(t, u)
    ensures Reaches(a, s, c, u) && SameBlocks(s, u)
  {
    hide Reaches, SameBlocks;
    ReachesTrans(a, s, b, t, c, u);
    SameBlocksTrans(s, t, u);
  }

  lemma {:induction false} KeptElseIf(name: string, done: seq<IfBranch>, toks: seq<Token>, stack: Stack)
    requires Clean(toks) && Top(stack, "if", name) && At(toks, {ELSEIF})
    ensures var next := Expression(toks[1..]);
            next.Done? ==>
              var line := BranchLabel(name, next.rest);
              line.Done? ==> Kept(toks, stack, Branches(name, done, next.value, line.rest, stack))
    decreases |toks|, 3
  {
    hide Soundness.Scanned, Reaches, Branches, Expression, InLine, SameBlocks, BranchLabel;
    InLineNone(toks);
    InLineTwo(toks, toks);
    var next := Expression(toks[1..]);
    if next.Done? {
      ExpressionInLine(toks[1..]);
      InLineTrans(toks, toks[1..], next.rest);
      var line := BranchLabel(name, next.rest);
      if line.Done? {
        BranchRead(toks, next.rest, name, stack);
        ReachesIsClean(toks, stack, line.rest, stack);
        KeptBranches(name, done, next.value, line.rest, stack);
        var r := Branches(name, done, next.value, line.rest, stack);
        if r.Good? { ReachesTrans(toks, stack, line.rest, stack, r.rest, r.stack); }
      }
    }
  }

  lemma {:induction false} KeptElse(name: string, toks: seq<Token>, stack: Stack)
    requires Clean(toks) && Top(stack, "if", name) && At(toks, {ELSE})
    ensures var line := BranchLabel(name, toks[1..]);
            line.Done? ==> Kept(toks, stack, BodyUntil({ELSEIF, ELSE, ENDIF}, [], line.rest, stack))
    decreases |toks|, 3
  {
    KeptBranchBody(name, {ELSEIF, ELSE, ENDIF}, toks, toks[1..], stack);
  }

  /** A branch line and the body behind it. */
  lemma {:induction false} KeptBranchBody(name: string, endings: set<Kind>, toks: seq<Token>, middle: seq<Token>,
                                          stack: Stack)
    requires Clean(toks) && stack != [] && stack[|stack| - 1].name == name && stack[|stack| - 1].kind in {"if", "try"}
    requires At(toks, if stack[|stack| - 1].kind == "if" then {ELSEIF, ELSE} else {CATCH, FINALLY}) && EOF !in endings
    requires middle == toks[1..] || (|toks| > 2 && !IsBreak(toks[1].kind) && middle == toks[2..])
    ensures Ended(middle)
    ensures var line := BranchLabel(name, middle);
            line.Done? ==> Kept(toks, stack, BodyUntil(endings, [], line.rest, stack))
    decreases |toks|, 2
  {
    hide Soundness.Scanned, Reaches, BodyUntil, InLine, SameBlocks, BranchLabel;
    InLineNone(toks);
    InLineTwo(toks, toks);
    if middle != toks[1..] { InLineTwo(toks, toks[1..]); }
    var line := BranchLabel(name, middle);
    if line.Done? {
      BranchRead(toks, middle, name, stack);
      ReachesIsClean(toks, stack, line.rest, stack);
      KeptBody(endings, [], line.rest, stack);
      var r := BodyUntil(endings, [], line.rest, stack);
      if r.Good? { ReachesTrans(toks, stack, line.rest, stack, r.rest, r.stack); }
    }
  }

  lemma {:induction false} KeptTry(toks: seq<Token>, stack: Stack)
    requires Clean(toks) && At(toks, {TRY})
    ensures Kept(toks, stack, TryOf(toks, stack))
    decreases |toks|, 3
  {
    hide Soundness.Scanned, Reaches, BodyUntil, Catches, FinallyOf, Close, InLine, OpeningLabel, SameBlocks;
    InLineNone(toks);
    InLineTwo(toks, toks);
    var start := OpeningLabel("try", toks[1..], stack);
    if start.Good? {
      OpeningLabelRead(toks, toks[1..], "try", stack);
      ReachesIsClean(toks, stack, start.rest, start.stack);
      KeptHandlers(start.value, start.rest, start.stack);
      var body := BodyUntil({CATCH, FINALLY, ENDTRY}, [], start.rest, start.stack);
      if body.Good? {
        var catches := Catches(start.value, [], body.rest, body.stack);
        if catches.Good? {
          var lastBody := FinallyOf(start.value, catches.rest, catches.stack);
          if lastBody.Good? {
            KeptBlock(toks, stack, start.rest, start.stack, "try", start.value, lastBody.rest, lastBody.stack, ENDTRY);
          }
        }
      }
    }
  }

  /** The body and all branches of a try. */
  lemma {:induction false} KeptHandlers(name: string, toks: seq<Token>, stack: Stack)
    requires Clean(toks) && Top(stack, "try", name)
    ensures var body := BodyUntil({CATCH, FINALLY, ENDTRY}, [], toks, stack);
            body.Good? ==>
              var catches := Catches(name, [], body.rest, body.stack);
              catches.Good? ==> Kept(toks, stack, FinallyOf(name, catches.rest, catches.stack))
    decreases |toks|, 9
  {
    hide Soundness.Scanned, Reaches, BodyUntil, Catches, FinallyOf, SameBlocks;
    KeptBody({CATCH, FINALLY, ENDTRY}, [], toks, stack);
    var body := BodyUntil({CATCH, FINALLY, ENDTRY}, [], toks, stack);
    if body.Good? {
      ReachesIsClean(toks, stack, body.rest, body.stack);
      TopIsKept(stack, body.stack, "try", name);
      KeptCatches(name, [], body.rest, body.stack);
      var catches := Catches(name, [], body.rest, body.stack);
      if catches.Good? {
        ReachesIsClean(body.rest, body.stack, catches.rest, catches.stack);
        TopIsKept(body.stack, catches.stack, "try", name);
        KeptTrans(toks, stack, body.rest, body.stack, catches.rest, catches.stack);
        KeptFinally(name, catches.rest, catches.stack);
        var r := FinallyOf(name, catches.rest, catches.stack);
        if r.Good? { KeptTrans(toks, stack, catches.rest, catches.stack, r.rest, r.stack); }
      }
    }
  }

  lemma {:induction false} KeptCatches(name: string, catches: seq<CatchBranch>, toks: seq<Token>, stack: Stack)
    requires Clean(toks) && Top(stack, "try", name)
    ensures Kept(toks, stack, Catches(name, catches, toks, stack))
    decreases |toks|, 8
  {
    hide Soundness.Scanned, Reaches, BodyUntil, SameBlocks, BranchLabel, Catching;
    KeptNothing(toks, stack);
    if At(toks, {CATCH}) && At(toks[1..], {IDENTIFIER}) {
      KeptBranchBody(name, {CATCH, FINALLY, ENDTRY}, toks, toks[2..], stack);
      var category := toks[1].lexeme;
      var line := BranchLabel(name, toks[2..]);
      if line.Done? {
        var body := BodyUntil({CATCH, FINALLY, ENDTRY}, [], line.rest, stack);
        if body.Good? {
          ReachesIsClean(toks, stack, body.rest, body.stack);
          TopIsKept(stack, body.stack, "try", name);
          var more := catches + [CatchBranch(category, body.value)];
          KeptCatches(name, more, body.rest, body.stack);
          var r := Catches(name, more, body.rest, body.stack);
          if r.Good? { KeptTrans(toks, stack, body.rest, body.stack, r.rest, r.stack); }
        }
      }
    }
  }

  lemma {:induction false} KeptFinally(name: string, toks: seq<Token>, stack: Stack)
    requires Clean(toks) && Top(stack, "try", name)
    ensures Kept(toks, stack, FinallyOf(name, toks, stack))
    decreases |toks|, 8
  {
    hide Soundness.Scanned, Reaches, BodyUntil, SameBlocks, BranchLabel;
    KeptNothing(toks, stack);
    if At(toks, {FINALLY}) {
      KeptBranchBody(name, {ENDTRY}, toks, toks[1..], stack);
    }
  }

  // ---- Programs ----

  lemma {:induction false} TopKept(toks: seq<Token>, seenOther: bool)
    requires Clean(toks) && !At(toks, {EOF})
    ensures Kept(toks, [], TopStatement(toks, seenOther))
    ensures TopStatement(toks, seenOther).Good? ==> TopStatement(toks, seenOther).stack == []
  {
    hide Soundness.Scanned, Reaches, Statement;
    KeptStatement(toks, [], true);
  }

  lemma {:induction false} ProgramReplays(statements: seq<Stmt>, seenOther: bool, toks: seq<Token>)
    requires Clean(toks) && ProgramFrom(statements, seenOther, toks).Ok?
    ensures Replay(Events(SymbolsOf(toks)), []) == Some([])
    decreases |toks|
  {
    hide Soundness.Scanned, TopStatement;
    if At(toks, {EOF}) {
      assert SymbolsOf(toks)[0].kind == EOF;
    } else {
      TopKept(toks, seenOther);
      var s := TopStatement(toks, seenOther);
      KeptNext(toks, [], s.rest, []);
      ProgramReplays(statements + [s.value], seenOther || !s.value.ImportStmt?, Newlines(s.rest));
    }
  }

  /** The block lines of an accepted program replay from no open block to no open block: every
      closer and every branch has the kind and label of the innermost open block, and every
      opener obeys the rules for labels. */
  lemma {:induction false} AcceptedProgramsReplay(toks: seq<Token>)
    requires Clean(toks) && Program(toks).Ok?
    ensures Replay(Events(SymbolsOf(toks)), []) == Some([])
  {
    hide Soundness.Scanned, ProgramFrom, Events, Replay;
    NewlinesSameEvents(toks);
    ProgramReplays([], false, Newlines(toks));
  }

  // ---- What replaying guarantees ----

  lemma {:induction false} ReplaySplit(a: seq<Event>, b: seq<Event>, stack: Stack)
    ensures Replay(a + b, stack) ==
            var middle := Replay(a, stack);
            if middle.None? then None else Replay(b, middle.value)
  {
    if a == [] {
      assert a + b == b;
    } else {
      assert (a + b)[1..] == a[1..] + b;
      var next := Replayed(a[0], stack);
      if next.Some? { ReplaySplit(a[1..], b, next.value); }
    }
  }

  /** Open labels are pairwise distinct, and only the outermost block may be a SEP. */
  predicate Disciplined(stack: Stack) {
    && (forall i, j | 0 <= i < j < |stack| :: stack[i].name != stack[j].name)
    && (forall i | 0 < i < |stack| :: stack[i].kind != "SEP")
    && (forall i | 0 <= i < |stack| :: LooksLocal(stack[i].name) ==> IsLocal(stack[i].name))
  }

  lemma {:induction false} StaysDisciplined(event: Event, stack: Stack)
    requires Disciplined(stack) && Replayed(event, stack).Some?
    ensures Disciplined(Replayed(event, stack).value)
  {
    hide IsLocal, LooksLocal;
    if event.Open? {
      var after := Replayed(event, stack).value;
      PushEnters(event.kind, event.name, stack);
      forall i | 0 <= i < |stack| ensures after[i].name == stack[i].name && after[i].kind == stack[i].kind {
        assert after[..|after| - 1][i] == after[i];
      }
    }
  }

  /** At every moment of a replay the open labels are pairwise distinct. */
  lemma {:induction false} OpenLabelsAreDistinct(events: seq<Event>, stack: Stack)
    requires Disciplined(stack) && Replay(events, stack).Some?
    ensures Disciplined(Replay(events, stack).value)
  {
    hide Disciplined, Replayed;
    if events != [] {
      StaysDisciplined(events[0], stack);
      OpenLabelsAreDistinct(events[1..], Replayed(events[0], stack).value);
    }
  }

  predicate OpensAt(events: seq<Event>, i: int, name: string) {
    0 <= i < |events| && events[i].Open? && events[i].name == name
  }

  predicate ClosesSep(events: seq<Event>, i: int) {
    0 <= i < |events| && events[i].Shut? && events[i].kind == "SEP"
  }

  /** A used label stays used until the SEP is closed. */
  lemma {:induction false} UsedUntilClosed(events: seq<Event>, stack: Stack, name: string, j: nat)
    requires Disciplined(stack) && Replay(events, stack).Some?
    requires stack != [] && stack[0].kind == "SEP" && name in stack[0].used && IsLocal(name)
    requires OpensAt(events, j, name)
    ensures exists k :: k < j && ClosesSep(events, k)
  {
    hide LooksLocal, IsLocal, IsOpen;
    OnlySep(stack);
    assert j > 0 || Push(events[0].kind, name, stack).Err?;
    if ClosesSep(events, 0) {
      assert 0 < j;
    } else {
      var next := Replayed(events[0], stack).value;
      StaysDisciplined(events[0], stack);
      assert next != [] && next[0].kind == "SEP" && name in next[0].used by {
        if events[0].Shut? { assert |stack| > 1; }
      }
      UsedUntilClosed(events[1..], next, name, j - 1);
      var k :| k < j - 1 && ClosesSep(events[1..], k);
      assert ClosesSep(events, k + 1);
    }
  }

  lemma {:induction false} OnlySep(stack: Stack)
    requires Disciplined(stack) && stack != [] && stack[0].kind == "SEP"
    ensures InnermostSep(stack) == 0
  {
  }

  /** In a program that replays, a SEP-local label is opened at most once in its SEP, even after
      the first block with this label has been closed. */
  lemma {:induction false} LocalLabelsOpenOnce(events: seq<Event>, name: string, i: nat, j: nat)
    requires Replay(events, []).Some? && IsLocal(name) && i < j && OpensAt(events, i, name) && OpensAt(events, j, name)
    ensures exists k :: i < k < j && ClosesSep(events, k)
  {
    hide LooksLocal, IsLocal, IsOpen;
    var before, after := events[..i], events[i..];
    assert events == before + after;
    ReplaySplit(before, after, []);
    var stack := Replay(before, []).value;
    OpenLabelsAreDistinct(before, []);
    var next := Replayed(after[0], stack).value;
    StaysDisciplined(after[0], stack);
    assert InnermostSep(stack) == 0;
    assert next[0].kind == "SEP" && name in next[0].used;
    UsedUntilClosed(after[1..], next, name, j - i - 1);
    var k :| k < j - i - 1 && ClosesSep(after[1..], k);
    assert ClosesSep(events, i + 1 + k);
  }

  /** Where the block at `depth` is closed: everything inside has been closed before. */
  predicate ClosedAt(events: seq<Event>, stack: Stack, depth: nat, j: nat) {
    && depth < |stack| && j < |events| && events[j] == Shut(stack[depth].kind, stack[depth].name)
    && var middle := Replay(events[..j], stack);
       middle.Some? && SameBlocks(middle.value, stack[..depth + 1])
  }

  lemma {:induction false} EventuallyClosed(events: seq<Event>, stack: Stack, depth: nat) returns (j: nat)
    requires Replay(events, stack) == Some([]) && depth < |stack|
    ensures ClosedAt(events, stack, depth, j)
  {
    hide Push;
    var next := Replayed(events[0], stack).value;
    if events[0].Shut? && |stack| == depth + 1 {
      j := 0;
      assert events[..0] == [];
    } else {
      assert |next| > depth && SameBlocks(next[..depth + 1], stack[..depth + 1]) by {
        if events[0].Open? {
          PushEnters(events[0].kind, events[0].name, stack);
          assert next[..|next| - 1][..depth + 1] == next[..depth + 1];
        }
      }
      assert next[depth] == next[..depth + 1][depth] && stack[depth] == stack[..depth + 1][depth];
      var k := EventuallyClosed(events[1..], next, depth);
      j := k + 1;
      assert events[..j] == [events[0]] + events[1..][..k];
    }
  }

  /** Openers and closers match: the block that opens at `i` is closed by a line of the same kind
      and label, with the blocks in between opened and closed in order. */
  lemma {:induction false} EveryOpenerIsClosed(events: seq<Event>, i: nat) returns (j: nat)
    requires Replay(events, []) == Some([]) && i < |events| && events[i].Open?
    ensures i < j < |events| && events[j] == Shut(events[i].kind, events[i].name)
    ensures Replay(events[..i], []).Some? && Replay(events[..j + 1], []).Some?
    ensures SameBlocks(Replay(events[..i], []).value, Replay(events[..j + 1], []).value)
  {
    hide Push, SameBlocks;
    var before, after := events[..i], events[i..];
    assert events == before + after;
    ReplaySplit(before, after, []);
    var stack := Replay(before, []).value;
    var next := Replayed(after[0], stack).value;
    PushEnters(events[i].kind, events[i].name, stack);
    var k := EventuallyClosed(after[1..], next, |next| - 1);
    j := i + 1 + k;
    assert next[..|next|] == next;
    assert events[..j + 1] == before + ([after[0]] + (after[1..][..k] + [events[j]]));
    ReplayedUpTo(before, after[0], after[1..][..k], events[j], stack, next);
  }

  lemma {:induction false} ReplayedUpTo(before: seq<Event>, first: Event, inside: seq<Event>, last: Event, stack: Stack,
                                        next: Stack)
    requires Replay(before, []) == Some(stack) && Replayed(first, stack) == Some(next) && next != []
    requires SameBlocks(stack, next[..|next| - 1])
    requires Replay(inside, next).Some? && SameBlocks(Replay(inside, next).value, next)
    requires last == Shut(next[|next| - 1].kind, next[|next| - 1].name)
    ensures var r := Replay(before + ([first] + (inside + [last])), []);
            r.Some? && SameBlocks(stack, r.value)
  {
    hide Replayed;
    ReplaySplit(before, [first] + (inside + [last]), []);
    ReplayOne(first, inside + [last], stack);
    ReplaySplit(inside, [last], next);
    ClosesTop(last, Replay(inside, next).value, next);
    assert [last][1..] == [];
  }

  lemma {:induction false} ClosesTop(last: Event, stack: Stack, next: Stack)
    requires next != [] && SameBlocks(stack, next) && last == Shut(next[|next| - 1].kind, next[|next| - 1].name)
    ensures Replayed(last, stack).Some? && SameBlocks(next[..|next| - 1], Replayed(last, stack).value)
  {
  }
}
