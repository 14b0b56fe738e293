/** Whatever the parser accepts is a well-formed program, and parsing its written form gives the same
    program again. */
module StatementSoundness {
  import opened Ast
  import opened TypeSpecs
  import opened Tokens
  import opened Grammar
  import opened Statements
  import opened StatementGrammar
  import opened Programs
  import E = Expressions
  import Soundness = ExpressionSoundness
  import Completeness = StatementCompleteness
  import D = BlockDiscipline

  // ---- What is left is what the lexer delivered ----

  lemma {:induction false} NextIsClean(toks: seq<Token>)
    requires D.Clean(toks) && toks[0].kind != EOF
    ensures D.Clean(toks[1..])
  {
    hide WellFormed;
    Soundness.SuffixScanned(toks, false);
  }

  lemma {:induction false} LineIsClean(toks: seq<Token>)
    requires D.Clean(toks) && LineEnd(toks).Done?
    ensures D.Clean(LineEnd(toks).rest)
  {
    hide Soundness.Scanned;
    if At(toks, {NEWLINE}) {
      NextIsClean(toks);
    }
  }

  lemma {:induction false} NewlinesAreClean(toks: seq<Token>)
    requires D.Clean(toks)
    ensures D.Clean(Newlines(toks))
  {
    hide Soundness.Scanned;
    D.NewlinesSameEvents(toks);
  }

  /** Two tokens that do not end the input. */
  lemma {:induction false} SecondIsClean(toks: seq<Token>)
    requires D.Clean(toks) && |toks| > 1 && toks[0].kind != EOF && toks[1].kind != EOF
    ensures D.Clean(toks[1..]) && D.Clean(toks[2..]) && toks[1..][1..] == toks[2..]
  {
    hide Soundness.Scanned;
    NextIsClean(toks);
    NextIsClean(toks[1..]);
  }

  /** Behind the end of a line that consists of a colon and a name. */
  lemma {:induction false} LabelIsClean(toks: seq<Token>)
    requires D.Clean(toks) && At(toks, {COLON}) && At(toks[1..], {IDENTIFIER, LABEL}) && LineEnd(toks[2..]).Done?
    ensures D.Clean(LineEnd(toks[2..]).rest) && toks[1..][1..] == toks[2..]
  {
    hide Soundness.Scanned, LineEnd;
    SecondIsClean(toks);
    LineIsClean(toks[2..]);
  }

  lemma {:induction false} OpeningIsClean(kind: string, toks: seq<Token>, stack: Stack)
    requires D.Clean(toks)
    ensures var r := OpeningLabel(kind, toks, stack);
            r.Good? ==> D.Clean(r.rest) && Enter(kind, r.value, stack) == Some(r.stack)
    ensures var r := OpeningName(kind, toks, stack);
            r.Good? ==> D.Clean(r.rest) && Enter(kind, r.value, stack) == Some(r.stack) && IsFree(r.value)
  {
    hide Soundness.Scanned, Push, LineEnd;
    if At(toks, {COLON}) && At(toks[1..], {IDENTIFIER, LABEL}) {
      assert toks[1..][1..] == toks[2..];
      if LineEnd(toks[2..]).Done? {
        LabelIsClean(toks);
      }
    }
  }

  lemma {:induction false} BranchIsClean(name: string, toks: seq<Token>)
    requires D.Clean(toks) && BranchLabel(name, toks).Done?
    ensures D.Clean(BranchLabel(name, toks).rest)
  {
    hide Soundness.Scanned, LineEnd;
    assert toks[1..][1..] == toks[2..];
    LabelIsClean(toks);
  }

  /** What a closer leaves open. */
  lemma {:induction false} ClosedIsShut(closer: Kind, kind: string, toks: seq<Token>, stack: Stack)
    requires Ended(toks) && stack != [] && closer != EOF && Close(closer, kind, toks, stack).Good?
    ensures Shut(Some(stack)) == Some(Close(closer, kind, toks, stack).stack)
  {
    hide LineEnd, HasBlock;
  }

  // ---- Parts of lines ----

  lemma {:induction false} SoundExpression(toks: seq<Token>)
    requires D.Clean(toks) && E.Expression(toks).Done?
    ensures Ladder(E.Expression(toks).value, false) && D.Clean(E.Expression(toks).rest)
  {
    hide Soundness.Scanned, Ladder, TokensOf, E.Expression, D.InLine, Soundness.Reads;
    Soundness.SoundExpression(toks, false);
    D.ExpressionInLine(toks);
    D.InLineLength(toks, E.Expression(toks).rest);
  }

  lemma {:induction false} SoundLine(toks: seq<Token>)
    requires D.Clean(toks) && ExpressionLine(toks).Done?
    ensures Ladder(ExpressionLine(toks).value, false) && D.Clean(ExpressionLine(toks).rest)
  {
    hide Soundness.Scanned, Ladder, E.Expression, LineEnd;
    SoundExpression(toks);
    LineIsClean(E.Expression(toks).rest);
  }

  lemma {:induction false} SoundType(toks: seq<Token>)
    requires Ended(toks) && At(toks, {IDENTIFIER, OBJECT, LIST}) && DeclaredTypeOf(toks).Done?
    ensures IsWritten(DeclaredTypeOf(toks).value)
    decreases |toks|
  {
    hide Declarable;
    if TypeName(toks[0]) == "list" {
      SoundType(toks[2..]);
    }
  }

  lemma {:induction false} TypeIsClean(toks: seq<Token>)
    requires D.Clean(toks) && At(toks, {IDENTIFIER, OBJECT, LIST}) && DeclaredTypeOf(toks).Done?
    ensures D.Clean(DeclaredTypeOf(toks).rest)
  {
    hide Soundness.Scanned, DeclaredTypeOf, D.InLine;
    D.DeclaredTypeInLine(toks);
    D.InLineLength(toks, DeclaredTypeOf(toks).rest);
  }

  lemma {:induction false} SoundTyped(toks: seq<Token>, constant: bool, missing: string)
    requires D.Clean(toks) && StartsTypedDeclaration(toks) && TypedDeclarationOf(toks, constant, missing).Done?
    ensures var s := TypedDeclarationOf(toks, constant, missing).value;
            s.TypedDeclaration? && IsFree(s.name) && IsWritten(s.declared) && Ladder(s.value, false)
  {
    hide Soundness.Scanned, StartsTypedDeclaration, DeclaredTypeOf, ExpressionLine, Ladder, IsWritten;
    TypedStart(toks);
    SoundType(toks);
    TypeIsClean(toks);
    var behind := DeclaredTypeOf(toks).rest;
    NextIsClean(behind);
    NextIsClean(behind[1..]);
    SoundLine(behind[1..][1..]);
  }

  lemma {:induction false} SoundIndexes(before: seq<Expr>, toks: seq<Token>)
    requires D.Clean(toks) && Indexes(before, toks).Done?
    ensures var r := Indexes(before, toks);
            && before <= r.value && ElementsLadder(r.value[|before|..], false) && D.Clean(r.rest)
            && (At(toks, {LBRACKET}) ==> |r.value| > |before|)
    decreases |toks|
  {
    hide Soundness.Scanned, E.Expression, Ladder;
    if At(toks, {LBRACKET}) {
      NextIsClean(toks);
      var index := E.Expression(toks[1..]);
      SoundExpression(toks[1..]);
      NextIsClean(index.rest);
      SoundIndexes(before + [index.value], index.rest[1..]);
      var all := Indexes(before, toks).value;
      assert all[|before|] == index.value;
      assert all[|before|..] == [index.value] + all[|before| + 1..];
    }
  }

  // ---- Statements of one line ----

  /** A step that succeeds has built a well-formed statement. */
  predicate Formed(r: Step<Stmt>, stack: Stack, top: bool) {
    r.Good? ==> Checked(r.value, stack, top) == Some(r.stack)
  }

  predicate FormedLine(p: Parsed<Stmt>, stack: Stack, top: bool) {
    p.Done? ==> Checked(p.value, stack, top) == Some(stack)
  }

  lemma {:induction false} SoundConstant(toks: seq<Token>, stack: Stack, top: bool)
    requires D.Clean(toks)
    ensures FormedLine(ConstantOf(toks), stack, top)
  {
    hide Soundness.Scanned, StartsTypedDeclaration, TypedDeclarationOf, ExpressionLine, Ladder, IsWritten;
    if ConstantOf(toks).Done? {
      if StartsTypedDeclaration(toks) {
        SoundTyped(toks, true, "E124");
      } else {
        NextIsClean(toks);
        NextIsClean(toks[1..]);
        SoundLine(toks[1..][1..]);
      }
    }
  }

  lemma {:induction false} SoundIndexAssignment(toks: seq<Token>, stack: Stack, top: bool)
    requires D.Clean(toks) && StartsIndexAssignment(toks) && toks[0].lexeme != "function"
    ensures FormedLine(IndexAssignmentOf(toks), stack, top)
  {
    hide Soundness.Scanned, Indexes, ExpressionLine, Ladder, ElementsLadder, EqualBehindIndexes;
    if IndexAssignmentOf(toks).Done? {
      NextIsClean(toks);
      SoundIndexes([], toks[1..]);
      var indexes := Indexes([], toks[1..]);
      assert indexes.value[0..] == indexes.value;
      NextIsClean(indexes.rest);
      SoundLine(indexes.rest[1..]);
    }
  }

  lemma {:induction false} CompoundsAreWritten(kind: Kind)
    requires CompoundOperator(kind).Some?
    ensures CompoundKind(CompoundOperator(kind).value).Some?
  {
  }

  lemma {:induction false} SoundAssignment(toks: seq<Token>, stack: Stack, top: bool)
    requires D.Clean(toks) && At(toks, {IDENTIFIER}) && IsAssignment(Peek(toks, 1).kind) && toks[0].lexeme != "function"
    ensures FormedLine(AssignmentOf(toks), stack, top)
  {
    hide Soundness.Scanned, ExpressionLine, Ladder, CompoundKind, CompoundOperator;
    if AssignmentOf(toks).Done? {
      SecondIsClean(toks);
      SoundLine(toks[2..]);
      if CompoundOperator(toks[1].kind).Some? {
        CompoundsAreWritten(toks[1].kind);
      }
    }
  }

  lemma {:induction false} SoundImport(toks: seq<Token>, stack: Stack)
    requires Ended(toks)
    ensures FormedLine(ImportOf(toks), stack, true)
  {
    hide LineEnd;
  }

  lemma {:induction false} SoundKeyworded(keyword: Kind, toks: seq<Token>, stack: Stack, top: bool)
    requires D.Clean(toks) && keyword in {THROW, PRINT, PRINT_ERROR, RETURN} && (top ==> !OnlyInside(keyword))
    ensures FormedLine(Keyworded(keyword, toks), stack, top)
  {
    hide Soundness.Scanned, ExpressionLine, LineEnd, Ladder;
    if Keyworded(keyword, toks).Done? && !(keyword == RETURN && At(toks, {NEWLINE, EOF})) {
      SoundLine(toks);
    }
  }

  /** The name at the beginning of an expression is its first token. */
  lemma {:induction false} LeftNameIsFirst(e: Expr)
    requires Ladder(e, false)
    ensures LeftName(e).Some? <==> TokensOf(e)[0].kind == IDENTIFIER
    ensures LeftName(e).Some? ==> TokensOf(e)[0].lexeme == LeftName(e).value
  {
    hide Ladder, TokensOf, LeftName, StartsIndexAssignment;
    var end := [Word(EOF, "")];
    Completeness.LineBegins(e, end);
    assert WriteLine(e, end)[0] == TokensOf(e)[0];
  }

  lemma {:induction false} ExpressionStarts(toks: seq<Token>)
    requires D.Clean(toks) && E.Expression(toks).Done?
    ensures var e := E.Expression(toks).value;
            && (LeftName(e).Some? <==> At(toks, {IDENTIFIER}))
            && (LeftName(e).Some? ==> toks[0].lexeme == LeftName(e).value)
  {
    hide Soundness.Scanned, Ladder, TokensOf, E.Expression, LeftName;
    Soundness.SoundExpression(toks, false);
    var e := E.Expression(toks).value;
    LeftNameIsFirst(e);
    assert SymbolsOf(toks)[0] == SymbolsOf(TokensOf(e))[0];
    assert SymbolOf(toks[0]) == SymbolOf(TokensOf(e)[0]);
  }

  lemma {:induction false} SoundExpressionStatement(toks: seq<Token>, top: bool)
    requires D.Clean(toks) && ExpressionLine(toks).Done?
    requires toks[0].kind == IDENTIFIER ==> toks[0].lexeme != "function"
    requires top ==> toks[0].kind == IDENTIFIER && toks[0].lexeme in {"http_host", "http_static"}
    ensures IsExpressionStatement(ExpressionLine(toks).value, top)
  {
    assert WellFormed(toks[0]);
    hide Soundness.Scanned, Ladder, E.Expression, LeftName, LineEnd;
    SoundLine(toks);
    ExpressionStarts(toks);
  }

  lemma {:induction false} SoundSimple(toks: seq<Token>, stack: Stack, top: bool)
    requires D.Clean(toks) && !At(toks, {EOF}) && (top ==> !OnlyInside(toks[0].kind))
    requires toks[0].kind == IDENTIFIER ==> toks[0].lexeme != "function"
    ensures Formed(SimpleStatement(toks, stack, top), stack, top)
  {
    hide Soundness.Scanned, Checked, StartsIndexAssignment, IndexAssignmentOf, AssignmentOf, IsAssignment, ConstantOf;
    hide Keyworded, ExpressionLine, OnlyInside;
    if toks[0].kind in {THROW, PRINT, PRINT_ERROR, RETURN} {
      NextIsClean(toks);
      SoundKeyworded(toks[0].kind, toks[1..], stack, top);
    } else if toks[0].kind == CONST {
      NextIsClean(toks);
      SoundConstant(toks[1..], stack, top);
    } else if StartsIndexAssignment(toks) {
      IndexedBeginsWithName(toks);
      SoundIndexAssignment(toks, stack, top);
    } else if toks[0].kind == IDENTIFIER && IsAssignment(Peek(toks, 1).kind) {
      SoundAssignment(toks, stack, top);
    } else if SimpleStatement(toks, stack, top).Good? {
      SoundExpressionStatement(toks, top);
      ExpressionIsChecked(ExpressionLine(toks).value, stack, top);
    }
  }

  lemma {:induction false} IndexedBeginsWithName(toks: seq<Token>)
    requires Ended(toks) && StartsIndexAssignment(toks)
    ensures At(toks, {IDENTIFIER})
  {
    hide EqualBehindIndexes;
  }

  lemma {:induction false} ExpressionIsChecked(e: Expr, stack: Stack, top: bool)
    requires IsExpressionStatement(e, top)
    ensures Checked(ExpressionStmt(e), stack, top) == Some(stack)
  {
    hide Ladder, LeftName;
  }

  // ---- Statements ----

  lemma {:induction false} SoundStatement(toks: seq<Token>, stack: Stack, top: bool)
    requires D.Clean(toks) && !At(toks, {EOF}) && (top ==> stack == [])
    ensures Formed(Statement(toks, stack, top), stack, top)
    decreases |toks|, 5
  {
    hide Soundness.Scanned, Formed, StartsTypedDeclaration, Declarable, TypedDeclarationOf, BlockStatement, HttpRoute;
    hide SepOf, ErrorDeclaration, ImportOf;
    hide IsBlockOpener, OnlyInside, SimpleStatement, Checked;
    var r := Statement(toks, stack, top);
    if r.Bad? {
      BadIsFormed(r, stack, top);
    } else if toks[0].kind in {IMPORT, ERROR, HTTP_ROUTE, SEP} {
      SoundTopLevel(toks, stack);
    } else if StartsTypedDeclaration(toks) {
      SoundTypedStatement(toks, stack, top);
    } else if IsBlockOpener(toks[0].kind) {
      SoundBlockStatement(toks, stack, top);
    } else {
      SoundSimple(toks, stack, top);
    }
  }

  lemma {:induction false} BadIsFormed(r: Step<Stmt>, stack: Stack, top: bool)
    requires r.Bad?
    ensures Formed(r, stack, top)
  {
  }

  lemma {:induction false} LineIsFormed(p: Parsed<Stmt>, stack: Stack, top: bool)
    requires FormedLine(p, stack, top)
    ensures Formed(Lift(p, stack), stack, top)
  {
    hide Checked;
  }

  lemma {:induction false} SoundTypedStatement(toks: seq<Token>, stack: Stack, top: bool)
    requires D.Clean(toks) && StartsTypedDeclaration(toks)
    ensures Formed(Lift(TypedDeclarationOf(toks, false, "E124"), stack), stack, top)
  {
    hide Soundness.Scanned, StartsTypedDeclaration, TypedDeclarationOf, Ladder, IsWritten;
    if TypedDeclarationOf(toks, false, "E124").Done? {
      SoundTyped(toks, false, "E124");
    }
  }

  lemma {:induction false} SoundTopLevel(toks: seq<Token>, stack: Stack)
    requires D.Clean(toks) && stack == [] && toks[0].kind in {IMPORT, ERROR, HTTP_ROUTE, SEP}
    ensures toks[0].kind == IMPORT ==> Formed(Lift(ImportOf(toks[1..]), stack), stack, true)
    ensures toks[0].kind == ERROR ==> Formed(ErrorDeclaration(toks, stack), stack, true)
    ensures toks[0].kind == HTTP_ROUTE ==> Formed(HttpRoute(toks, stack), stack, true)
    ensures toks[0].kind == SEP ==> Formed(SepOf(toks, stack), stack, true)
    decreases |toks|, 4
  {
    hide Soundness.Scanned, Formed, FormedLine, ImportOf, HttpRoute, SepOf, ErrorDeclaration;
    if toks[0].kind == IMPORT {
      SoundImport(toks[1..], stack);
      LineIsFormed(ImportOf(toks[1..]), stack, true);
    } else if toks[0].kind == ERROR {
      SoundError(toks, stack);
    } else if toks[0].kind == HTTP_ROUTE {
      SoundRoute(toks, stack);
    } else {
      SoundSep(toks, stack);
    }
  }

  lemma {:induction false} SoundBlockStatement(toks: seq<Token>, stack: Stack, top: bool)
    requires D.Clean(toks) && IsBlockOpener(toks[0].kind) && (top ==> !OnlyInside(toks[0].kind))
    ensures Formed(BlockStatement(toks, stack), stack, top)
    decreases |toks|, 4
  {
    hide Soundness.Scanned, Formed, ObjectOf, ListBlockOf, TryOf, TransactionOf, IfOf, WhileOf, ForOf;
    var kind := toks[0].kind;
    if kind == OBJECT { SoundObject(toks, stack, top); }
    else if kind == LIST { SoundList(toks, stack, top); }
    else if kind == TRY { SoundTry(toks, stack); }
    else if kind == TRANSACTION { SoundTransaction(toks, stack); }
    else if kind == IF { SoundIf(toks, stack); }
    else if kind == WHILE { SoundWhile(toks, stack); }
    else { SoundFor(toks, stack); }
  }

  /** The statements that a body adds are well formed. */
  lemma {:induction false} SoundBody(endings: set<Kind>, before: seq<Stmt>, toks: seq<Token>, stack: Stack)
    requires D.Clean(toks) && stack != [] && EOF !in endings
    ensures var r := BodyUntil(endings, before, toks, stack);
            r.Good? ==> before <= r.value && CheckedAll(r.value[|before|..], stack) == Some(r.stack) && D.Clean(r.rest)
    decreases |toks|, 6
  {
    hide Soundness.Scanned, Statement, Checked, CloserKind;
    NewlinesAreClean(toks);
    var here := Newlines(toks);
    var r := BodyUntil(endings, before, toks, stack);
    if r.Good? && !At(here, endings) {
      var s := Statement(here, stack, false);
      SoundStatement(here, stack, false);
      StatementIsClean(here, stack, false);
      SoundBody(endings, before + [s.value], s.rest, s.stack);
      assert r.value[|before|] == s.value;
      assert r.value[|before|..] == [s.value] + r.value[|before| + 1..];
    }
  }

  lemma {:induction false} StatementIsClean(toks: seq<Token>, stack: Stack, top: bool)
    requires D.Clean(toks) && !At(toks, {EOF}) && (top ==> stack == []) && Statement(toks, stack, top).Good?
    ensures D.Clean(Statement(toks, stack, top).rest)
  {
    hide Soundness.Scanned, Statement;
    D.KeptStatement(toks, stack, top);
  }

  /** A body from the line behind its opener up to its closer. */
  lemma {:induction false} SoundBlock(closer: Kind, kind: string, toks: seq<Token>, stack: Stack)
    requires D.Clean(toks) && stack != [] && closer != EOF
    ensures var body := BodyUntil({closer}, [], toks, stack);
            body.Good? && Close(closer, kind, body.rest, body.stack).Good? ==>
              Shut(CheckedAll(body.value, stack)) == Some(Close(closer, kind, body.rest, body.stack).stack)
    decreases |toks|, 7
  {
    hide Soundness.Scanned, BodyUntil, Close, CheckedAll;
    SoundBody({closer}, [], toks, stack);
    var body := BodyUntil({closer}, [], toks, stack);
    if body.Good? && Close(closer, kind, body.rest, body.stack).Good? {
      assert body.value[0..] == body.value;
      ClosedIsShut(closer, kind, body.rest, body.stack);
    }
  }

  lemma {:induction false} SoundWhile(toks: seq<Token>, stack: Stack)
    requires D.Clean(toks) && At(toks, {WHILE})
    ensures Formed(WhileOf(toks, stack), stack, false)
    decreases |toks|, 3
  {
    hide Soundness.Scanned, BodyUntil, Close, E.Expression, OpeningLabel, CheckedAll, Ladder, Enter, Shut;
    NextIsClean(toks);
    var condition := E.Expression(toks[1..]);
    if condition.Done? {
      SoundExpression(toks[1..]);
      OpeningIsClean("while", condition.rest, stack);
      var start := OpeningLabel("while", condition.rest, stack);
      if start.Good? {
        SoundBlock(ENDWHILE, "while", start.rest, start.stack);
      }
    }
  }

  lemma {:induction false} SoundTransaction(toks: seq<Token>, stack: Stack)
    requires D.Clean(toks) && At(toks, {TRANSACTION})
    ensures Formed(TransactionOf(toks, stack), stack, false)
    decreases |toks|, 3
  {
    hide Soundness.Scanned, BodyUntil, Close, E.Expression, OpeningLabel, CheckedAll, Ladder, Enter, Shut;
    NextIsClean(toks);
    var connection := E.Expression(toks[1..]);
    if connection.Done? {
      SoundExpression(toks[1..]);
      OpeningIsClean("transaction", connection.rest, stack);
      var start := OpeningLabel("transaction", connection.rest, stack);
      if start.Good? {
        SoundBlock(END_TRANSACTION, "transaction", start.rest, start.stack);
      }
    }
  }

  lemma {:induction false} NameIsClean(toks: seq<Token>)
    requires D.Clean(toks) && Binding(toks).Done?
    ensures D.Clean(Binding(toks).rest) && IsFree(Binding(toks).value)
  {
    hide Soundness.Scanned;
    NextIsClean(toks);
  }

  lemma {:induction false} SoundFor(toks: seq<Token>, stack: Stack)
    requires D.Clean(toks) && At(toks, {FOR})
    ensures Formed(ForOf(toks, stack), stack, false)
    decreases |toks|, 3
  {
    hide Soundness.Scanned, BodyUntil, Close, E.Expression, OpeningLabel, CheckedAll, Ladder, Enter, Shut, Binding;
    hide IsFree;
    if ForOf(toks, stack).Good? {
      NextIsClean(toks);
      NameIsClean(toks[1..]);
      var behind := Binding(toks[1..]).rest;
      NextIsClean(behind);
      SoundExpression(behind[1..]);
      var iterable := E.Expression(behind[1..]);
      OpeningIsClean("for", iterable.rest, stack);
      var start := OpeningLabel("for", iterable.rest, stack);
      SoundBlock(ENDFOR, "for", start.rest, start.stack);
    }
  }

  lemma {:induction false} SoundRoute(toks: seq<Token>, stack: Stack)
    requires D.Clean(toks) && At(toks, {HTTP_ROUTE})
    ensures Formed(HttpRoute(toks, stack), stack, true)
    decreases |toks|, 3
  {
    hide Soundness.Scanned, BodyUntil, Close, OpeningLabel, CheckedAll, Enter, Shut, IsRoute;
    NextIsClean(toks);
    if At(toks[1..], {IDENTIFIER}) && At(toks[1..][1..], {STRING}) {
      var behind := toks[1..][1..];
      NextIsClean(toks[1..]);
      NextIsClean(behind);
      OpeningIsClean("http_route", behind[1..], stack);
      var start := OpeningLabel("http_route", behind[1..], stack);
      if start.Good? {
        SoundBlock(END_HTTP_ROUTE, "http_route", start.rest, start.stack);
      }
    }
  }

  lemma {:induction false} SoundError(toks: seq<Token>, stack: Stack)
    requires D.Clean(toks) && At(toks, {ERROR})
    ensures Formed(ErrorDeclaration(toks, stack), stack, true)
  {
    hide Soundness.Scanned, Close, LineEnd, EndsWithError, Newlines, Push;
    var r := ErrorDeclaration(toks, stack);
    if r.Good? {
      var name := toks[1..][1..][0].lexeme;
      var start := Opened("error", name, toks[1..][1..][1..], stack);
      ClosedIsShut(END_ERROR, "error", Newlines(start.rest), start.stack);
    }
  }

  // ---- SEPs ----

  lemma {:induction false} SoundParameter(before: seq<Parameter>, toks: seq<Token>)
    requires D.Clean(toks) && AreParameters(before) && OneParameter(before, toks).Done?
    ensures AreParameters(OneParameter(before, toks).value) && D.Clean(OneParameter(before, toks).rest)
  {
    hide Soundness.Scanned, DeclaredTypeOf, Declarable, IsWritten;
    NextIsClean(toks);
    if At(toks[1..], {COLON}) {
      NextIsClean(toks[1..]);
      NamedStart(toks[1..][1..]);
      SoundType(toks[1..][1..]);
      TypeIsClean(toks[1..][1..]);
    }
  }

  lemma {:induction false} SoundParameters(before: seq<Parameter>, toks: seq<Token>)
    requires D.Clean(toks) && AreParameters(before) && Parameters(before, toks).Done?
    ensures AreParameters(Parameters(before, toks).value) && D.Clean(Parameters(before, toks).rest)
    decreases |toks|
  {
    hide Soundness.Scanned, OneParameter, AreParameters;
    SoundParameter(before, toks);
    var one := OneParameter(before, toks);
    NextIsClean(one.rest);
    if At(one.rest, {COMMA}) {
      SoundParameters(one.value, one.rest[1..]);
    }
  }

  lemma {:induction false} SoundParameterList(toks: seq<Token>)
    requires D.Clean(toks) && ParameterList(toks).Done?
    ensures AreParameters(ParameterList(toks).value) && D.Clean(ParameterList(toks).rest)
  {
    assert AreParameters([]);
    hide Soundness.Scanned, Parameters, AreParameters;
    if At(toks, {LPAREN}) {
      NextIsClean(toks);
      if At(toks[1..], {RPAREN}) {
        SecondIsClean(toks);
      } else {
        SoundParameters([], toks[1..]);
      }
    }
  }

  lemma {:induction false} SoundTags(before: seq<string>, toks: seq<Token>)
    requires D.Clean(toks) && AreDistinct(before) && Tags(before, toks).Done?
    ensures AreDistinct(Tags(before, toks).value) && D.Clean(Tags(before, toks).rest)
    decreases |toks|
  {
    hide Soundness.Scanned, LineEnd;
    if At(toks, {TAG}) {
      NextIsClean(toks);
      LineIsClean(toks[1..]);
      NewlinesAreClean(LineEnd(toks[1..]).rest);
      SoundTags(before + [toks[0].lexeme], Newlines(LineEnd(toks[1..]).rest));
    }
  }

  lemma {:induction false} OpenedIsClean(kind: string, name: string, toks: seq<Token>, stack: Stack)
    requires D.Clean(toks) && Opened(kind, name, toks, stack).Good?
    ensures var r := Opened(kind, name, toks, stack);
            r.value == name && D.Clean(r.rest) && Enter(kind, name, stack) == Some(r.stack)
  {
    hide Soundness.Scanned, Push, LineEnd;
    LineIsClean(toks);
  }

  lemma {:induction false} SoundSep(toks: seq<Token>, stack: Stack)
    requires D.Clean(toks) && At(toks, {SEP})
    ensures Formed(SepOf(toks, stack), stack, true)
    decreases |toks|, 3
  {
    hide Soundness.Scanned, BodyUntil, Close, Opened, CheckedAll, Enter, Shut, ParameterList, Tags, Newlines;
    hide AreParameters, AreDistinct;
    if SepOf(toks, stack).Good? {
      var behind := toks[1..][1..];
      NextIsClean(toks);
      NextIsClean(toks[1..]);
      NextIsClean(behind);
      SoundParameterList(behind[1..]);
      var line := ParameterList(behind[1..]).rest;
      OpenedIsClean("SEP", behind[0].lexeme, line, stack);
      var start := Opened("SEP", behind[0].lexeme, line, stack);
      NewlinesAreClean(start.rest);
      NoTagsYet();
      SoundTags([], Newlines(start.rest));
      SoundBlock(END_SEP, "SEP", Tags([], Newlines(start.rest)).rest, start.stack);
    }
  }

  lemma {:induction false} NoTagsYet()
    ensures AreDistinct([])
  {
  }

  // ---- Data blocks ----

  lemma {:induction false} SoundObject(toks: seq<Token>, stack: Stack, top: bool)
    requires D.Clean(toks) && At(toks, {OBJECT})
    ensures Formed(ObjectOf(toks, stack), stack, top)
            && (ObjectOf(toks, stack).Good? ==> ObjectOf(toks, stack).value.ObjectBlock?)
    decreases |toks|, 3
  {
    hide Soundness.Scanned, Entries, Close, OpeningName, CheckedEntries, Enter, Shut, Newlines;
    NextIsClean(toks);
    OpeningIsClean("object", toks[1..], stack);
    var start := OpeningName("object", toks[1..], stack);
    if ObjectOf(toks, stack).Good? {
      NewlinesAreClean(start.rest);
      var here := Newlines(start.rest);
      SoundEntries([], here, start.stack);
      var entries := Entries([], here, start.stack);
      assert entries.value[0..] == entries.value;
      ClosedIsShut(END_OBJECT, "object", entries.rest, entries.stack);
    }
  }

  lemma {:induction false} SoundEntry(toks: seq<Token>, stack: Stack)
    requires D.Clean(toks)
    ensures var r := EntryOf(toks, stack);
            r.Good? ==> CheckedEntry(r.value, stack) == Some(r.stack) && D.Clean(r.rest)
    decreases |toks|, 4
  {
    hide Soundness.Scanned, StartsTypedDeclaration, TypedDeclarationOf, ObjectOf, ListBlockOf, ExpressionLine, Ladder;
    hide IsWritten, Checked;
    EntryIsClean(toks, stack);
    if EntryOf(toks, stack).Good? {
      if StartsTypedDeclaration(toks) {
        SoundTyped(toks, false, "E100");
      } else if At(toks, {OBJECT}) {
        SoundObject(toks, stack, false);
      } else if At(toks, {LIST}) {
        SoundList(toks, stack, false);
      } else {
        SecondIsClean(toks);
        SoundLine(toks[2..]);
      }
    }
  }

  lemma {:induction false} EntryIsClean(toks: seq<Token>, stack: Stack)
    requires D.Clean(toks)
    ensures EntryOf(toks, stack).Good? ==> D.Clean(EntryOf(toks, stack).rest)
  {
    hide Soundness.Scanned, EntryOf;
    D.KeptEntry(toks, stack);
  }

  lemma {:induction false} SoundEntries(before: seq<Entry>, toks: seq<Token>, stack: Stack)
    requires D.Clean(toks) && stack != []
    ensures var r := Entries(before, toks, stack);
            r.Good? ==> before <= r.value && CheckedEntries(before, r.value[|before|..], stack) == Some(r.stack)
    decreases |toks|, 5
  {
    hide Soundness.Scanned, EntryOf, HasEntry, CheckedEntry, CloserKind, Newlines;
    var r := Entries(before, toks, stack);
    if r.Good? && !At(toks, {END_OBJECT}) {
      var entry := EntryOf(toks, stack);
      SoundEntry(toks, stack);
      NewlinesAreClean(entry.rest);
      SoundEntries(before + [entry.value], Newlines(entry.rest), entry.stack);
      assert r.value[|before|] == entry.value;
      assert r.value[|before|..] == [entry.value] + r.value[|before| + 1..];
    }
  }

  lemma {:induction false} SoundList(toks: seq<Token>, stack: Stack, top: bool)
    requires D.Clean(toks) && At(toks, {LIST})
    ensures Formed(ListBlockOf(toks, stack), stack, top)
            && (ListBlockOf(toks, stack).Good? ==> ListBlockOf(toks, stack).value.ListBlock?)
  {
    hide Soundness.Scanned, ListLines, Close, OpeningName, ElementsLadder, Enter, Shut, Newlines;
    NextIsClean(toks);
    OpeningIsClean("list", toks[1..], stack);
    var start := OpeningName("list", toks[1..], stack);
    if ListBlockOf(toks, stack).Good? {
      NewlinesAreClean(start.rest);
      var here := Newlines(start.rest);
      SoundElements([], here, start.stack);
      var elements := ListLines([], here, start.stack);
      assert elements.value[0..] == elements.value;
      ClosedIsShut(END_LIST, "list", elements.rest, elements.stack);
    }
  }

  lemma {:induction false} SoundElements(before: seq<Expr>, toks: seq<Token>, stack: Stack)
    requires D.Clean(toks) && stack != []
    ensures var r := ListLines(before, toks, stack);
            r.Good? ==> before <= r.value && ElementsLadder(r.value[|before|..], false) && r.stack == stack
    decreases |toks|
  {
    hide Soundness.Scanned, ExpressionLine, Ladder, CloserKind, Newlines;
    var r := ListLines(before, toks, stack);
    if r.Good? && !At(toks, {END_LIST}) {
      var element := ExpressionLine(toks);
      SoundLine(toks);
      NewlinesAreClean(element.rest);
      SoundElements(before + [element.value], Newlines(element.rest), stack);
      assert r.value[|before|] == element.value;
      assert r.value[|before|..] == [element.value] + r.value[|before| + 1..];
    }
  }

  // ---- Blocks with branches ----

  lemma {:induction false} SoundIf(toks: seq<Token>, stack: Stack)
    requires D.Clean(toks) && At(toks, {IF})
    ensures Formed(IfOf(toks, stack), stack, false)
    decreases |toks|, 3
  {
    hide Soundness.Scanned, Branches, Close, E.Expression, OpeningLabel, CheckedBranches, CheckedLast, Ladder, Enter;
    hide Shut;
    NextIsClean(toks);
    var condition := E.Expression(toks[1..]);
    if IfOf(toks, stack).Good? {
      SoundExpression(toks[1..]);
      OpeningIsClean("if", condition.rest, stack);
      var start := OpeningLabel("if", condition.rest, stack);
      SoundBranches(start.value, [], condition.value, start.rest, start.stack);
      var r := Branches(start.value, [], condition.value, start.rest, start.stack);
      assert r.value.0[0..] == r.value.0;
      ClosedIsShut(ENDIF, "if", r.rest, r.stack);
    }
  }

  lemma {:induction false} SoundBranches(name: string, before: seq<IfBranch>, condition: Expr, toks: seq<Token>,
                                         stack: Stack)
    requires D.Clean(toks) && stack != [] && Ladder(condition, false)
    ensures var r := Branches(name, before, condition, toks, stack);
            r.Good? ==>
              && before < r.value.0
              && var after := CheckedBranches(r.value.0[|before|..], stack);
                 after.Some? && CheckedLast(r.value.1, after.value) == Some(r.stack)
    decreases |toks|, 7
  {
    hide Soundness.Scanned, BodyUntil, E.Expression, BranchLabel, Ladder, CheckedAll, CheckedLast, LastBranch;
    var r := Branches(name, before, condition, toks, stack);
    if r.Good? {
      SoundBody({ELSEIF, ELSE, ENDIF}, [], toks, stack);
      var body := BodyUntil({ELSEIF, ELSE, ENDIF}, [], toks, stack);
      assert body.value[0..] == body.value;
      var done := before + [IfBranch(condition, body.value)];
      if At(body.rest, {ELSEIF}) {
        NextIsClean(body.rest);
        var next := E.Expression(body.rest[1..]);
        SoundExpression(body.rest[1..]);
        BranchIsClean(name, next.rest);
        SoundBranches(name, done, next.value, BranchLabel(name, next.rest).rest, body.stack);
      } else {
        SoundLast(name, done, body.rest, body.stack);
        assert r.value.0[|done|..] == [];
      }
      assert r.value.0[|before|] == done[|before|];
      assert r.value.0[|before|..] == [done[|before|]] + r.value.0[|done|..];
    }
  }

  lemma {:induction false} SoundLast(name: string, branches: seq<IfBranch>, toks: seq<Token>, stack: Stack)
    requires D.Clean(toks) && stack != []
    ensures var r := LastBranch(name, branches, toks, stack);
            r.Good? ==> r.value.0 == branches && CheckedLast(r.value.1, stack) == Some(r.stack)
    decreases |toks|, 6
  {
    hide Soundness.Scanned, BodyUntil, BranchLabel, CheckedAll;
    if At(toks, {ELSE}) {
      NextIsClean(toks);
      var line := BranchLabel(name, toks[1..]);
      if line.Done? {
        BranchIsClean(name, toks[1..]);
        SoundBody({ELSEIF, ELSE, ENDIF}, [], line.rest, stack);
        var r := BodyUntil({ELSEIF, ELSE, ENDIF}, [], line.rest, stack);
        assert r.Good? ==> r.value[0..] == r.value;
      }
    }
  }

  lemma {:induction false} SoundTry(toks: seq<Token>, stack: Stack)
    requires D.Clean(toks) && At(toks, {TRY})
    ensures Formed(TryOf(toks, stack), stack, false)
    decreases |toks|, 3
  {
    hide Soundness.Scanned, BodyUntil, Catches, FinallyOf, Close, OpeningLabel, CheckedAll, CheckedCatches, CheckedLast;
    hide Enter, Shut;
    if TryOf(toks, stack).Good? {
      NextIsClean(toks);
      OpeningIsClean("try", toks[1..], stack);
      var start := OpeningLabel("try", toks[1..], stack);
      SoundBody({CATCH, FINALLY, ENDTRY}, [], start.rest, start.stack);
      var body := BodyUntil({CATCH, FINALLY, ENDTRY}, [], start.rest, start.stack);
      SoundCatches(start.value, [], body.rest, body.stack);
      var catches := Catches(start.value, [], body.rest, body.stack);
      SoundFinally(start.value, catches.rest, catches.stack);
      var r := FinallyOf(start.value, catches.rest, catches.stack);
      assert body.value[0..] == body.value && catches.value[0..] == catches.value;
      ClosedIsShut(ENDTRY, "try", r.rest, r.stack);
    }
  }

  lemma {:induction false} SoundCatches(name: string, before: seq<CatchBranch>, toks: seq<Token>, stack: Stack)
    requires D.Clean(toks) && stack != []
    ensures var r := Catches(name, before, toks, stack);
            r.Good? ==>
              && before <= r.value && D.Clean(r.rest)
              && CheckedCatches(before, r.value[|before|..], stack) == Some(r.stack)
    decreases |toks|, 7
  {
    hide Soundness.Scanned, BodyUntil, BranchLabel, CheckedAll, Catching;
    var r := Catches(name, before, toks, stack);
    if r.Good? && At(toks, {CATCH}) {
      var behind := toks[1..][1..];
      NextIsClean(toks);
      NextIsClean(toks[1..]);
      BranchIsClean(name, behind);
      var line := BranchLabel(name, behind);
      SoundBody({CATCH, FINALLY, ENDTRY}, [], line.rest, stack);
      var body := BodyUntil({CATCH, FINALLY, ENDTRY}, [], line.rest, stack);
      assert body.value[0..] == body.value;
      var one := CatchBranch(toks[1].lexeme, body.value);
      SoundCatches(name, before + [one], body.rest, body.stack);
      assert r.value[|before|] == one;
      assert r.value[|before|..] == [one] + r.value[|before| + 1..];
    }
  }

  lemma {:induction false} SoundFinally(name: string, toks: seq<Token>, stack: Stack)
    requires D.Clean(toks) && stack != []
    ensures var r := FinallyOf(name, toks, stack);
            r.Good? ==> CheckedLast(r.value, stack) == Some(r.stack)
    decreases |toks|, 7
  {
    hide Soundness.Scanned, BodyUntil, BranchLabel, CheckedAll;
    if At(toks, {FINALLY}) {
      NextIsClean(toks);
      var line := BranchLabel(name, toks[1..]);
      if line.Done? {
        BranchIsClean(name, toks[1..]);
        SoundBody({ENDTRY}, [], line.rest, stack);
        var r := BodyUntil({ENDTRY}, [], line.rest, stack);
        assert r.Good? ==> r.value[0..] == r.value;
      }
    }
  }

  // ---- Programs ----

  lemma {:induction false} SoundProgramFrom(before: seq<Stmt>, seenOther: bool, toks: seq<Token>)
    requires D.Clean(toks) && ProgramFrom(before, seenOther, toks).Ok?
    ensures var program := ProgramFrom(before, seenOther, toks).value;
            before <= program && IsProgram(program[|before|..], seenOther)
    decreases |toks|
  {
    hide Soundness.Scanned, Statement, Checked, CloserKind, Newlines;
    var program := ProgramFrom(before, seenOther, toks).value;
    if !At(toks, {EOF}) {
      var s := TopStatement(toks, seenOther);
      SoundStatement(toks, [], true);
      StatementIsClean(toks, [], true);
      NewlinesAreClean(s.rest);
      SoundProgramFrom(before + [s.value], seenOther || !s.value.ImportStmt?, Newlines(s.rest));
      assert program[|before|] == s.value;
      assert program[|before|..] == [s.value] + program[|before| + 1..];
    }
  }

  /** Whatever the parser accepts is a well-formed program. */
  lemma {:induction false} SoundProgram(toks: seq<Token>)
    requires D.Clean(toks) && Program(toks).Ok?
    ensures IsProgram(Program(toks).value, false)
  {
    hide Soundness.Scanned, ProgramFrom, IsProgram;
    NewlinesAreClean(toks);
    SoundProgramFrom([], false, Newlines(toks));
    var program := Program(toks).value;
    assert program[0..] == program;
  }

  /** An accepted program, written down again, is accepted as the same program. */
  lemma {:induction false} WritingAgainKeepsTheProgram(toks: seq<Token>)
    requires D.Clean(toks) && Program(toks).Ok?
    ensures var program := Program(toks).value;
            Ended(ProgramTokens(program)) && Program(ProgramTokens(program)) == Ok(program)
  {
    hide Program, IsProgram, ProgramTokens;
    SoundProgram(toks);
    Completeness.CompleteProgram(Program(toks).value);
  }
}
