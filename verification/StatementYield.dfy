/** What an accepted program was read from: line for line the symbols of its written form. Source
    text may have empty lines, compound assignments and SEPs without parentheses, and labels are
    tokens of a kind of their own; `TidyLines` brings all of that into one form. */
module StatementYield {
  import opened Ast
  import opened TypeSpecs
  import opened Tokens
  import opened Grammar
  import opened Statements
  import opened StatementGrammar
  import opened Programs
  import E = Expressions
  import Soundness = ExpressionSoundness
  import D = BlockDiscipline
  import S = StatementSoundness

  // ---- Tidy lines ----

  function Mark(kind: Kind): Symbol { Symbol(kind, "", EmptyLit) }

  /** A label is written as a name. */
  function Unlabelled(s: Symbol): Symbol {
    if s.kind == LABEL then s.(kind := IDENTIFIER) else s
  }

  predicate StartsCompound(s: seq<Symbol>) {
    |s| > 1 && s[0].kind == IDENTIFIER && CompoundOperator(s[1].kind).Some?
  }

  /** A SEP without parentheses. */
  predicate StartsBareSep(s: seq<Symbol>) {
    |s| > 3 && s[0].kind == SEP && s[3].kind != LPAREN
  }

  /** The symbols from within a line, where every line has one end. */
  function Tidy(s: seq<Symbol>): seq<Symbol>
    decreases |s|, 0
  {
    if s == [] then []
    else if s[0].kind == EOF then [Mark(NEWLINE)]
    else if s[0].kind == NEWLINE then [Mark(NEWLINE)] + TidyLines(s[1..])
    else [Unlabelled(s[0])] + Tidy(s[1..])
  }

  /** The symbols from the beginning of a line: without empty lines, compound assignments written
      out, and with a parameter list for every SEP. */
  function TidyLines(s: seq<Symbol>): seq<Symbol>
    decreases |s|, 1
  {
    if s == [] || s[0].kind == EOF then []
    else if s[0].kind == NEWLINE then TidyLines(s[1..])
    else if StartsCompound(s) then
      var operator := OperatorKind(CompoundOperator(s[1].kind).value);
      [s[0], Mark(EQUAL), s[0]] + (if operator.Some? then [Mark(operator.value)] else []) + Tidy(s[2..])
    else if StartsBareSep(s) then s[..3] + [Mark(LPAREN), Mark(RPAREN)] + Tidy(s[3..])
    else Tidy(s)
  }

  /** The rest of a line and the lines behind it read the same. */
  predicate SameRest(a: seq<Token>, b: seq<Token>) { Tidy(SymbolsOf(a)) == Tidy(SymbolsOf(b)) }

  /** All lines read the same. */
  predicate SameLines(a: seq<Token>, b: seq<Token>) { TidyLines(SymbolsOf(a)) == TidyLines(SymbolsOf(b)) }

  // ---- Steps within a line ----

  lemma {:induction false} Prefixed(a: seq<Symbol>, x: seq<Symbol>, y: seq<Symbol>)
    requires Tidy(x) == Tidy(y) && forall s | s in a :: !D.IsBreak(s.kind)
    ensures Tidy(a + x) == Tidy(a + y)
  {
    if a == [] {
      assert a + x == x && a + y == y;
    } else {
      assert (a + x)[1..] == a[1..] + x && (a + y)[1..] == a[1..] + y;
      Prefixed(a[1..], x, y);
    }
  }

  /** Symbols that are no labels and end no line stay as they are. */
  lemma {:induction false} Unfolded(a: seq<Symbol>, x: seq<Symbol>)
    requires forall s | s in a :: !D.IsBreak(s.kind) && s.kind != LABEL
    ensures Tidy(a + x) == a + Tidy(x)
  {
    if a == [] {
      assert a + x == x;
    } else {
      assert (a + x)[1..] == a[1..] + x;
      Unfolded(a[1..], x);
    }
  }

  predicate SameSymbol(t: Token, w: Token) { Unlabelled(SymbolOf(t)) == Unlabelled(SymbolOf(w)) }

  lemma {:induction false} AfterOne(toks: seq<Token>, w: Token, y: seq<Token>)
    requires toks != [] && SameSymbol(toks[0], w) && !D.IsBreak(toks[0].kind) && SameRest(toks[1..], y)
    ensures SameRest(toks, [w] + y)
  {
    hide SymbolOf;
    assert SymbolOf(toks[0]).kind == toks[0].kind && SymbolOf(w).kind == w.kind by { KindOfSymbol(); }
    assert SymbolsOf(toks)[1..] == SymbolsOf(toks[1..]);
    assert SymbolsOf([w] + y)[1..] == SymbolsOf(y);
    assert SymbolsOf(toks)[0] == SymbolOf(toks[0]) && SymbolsOf([w] + y)[0] == SymbolOf(w);
  }

  lemma {:induction false} KindOfSymbol()
    ensures forall t :: SymbolOf(t).kind == t.kind
  {
  }

  /** A token that is told by its kind, or a name. */
  lemma {:induction false} AfterWord(toks: seq<Token>, kind: Kind, lexeme: string, y: seq<Token>)
    requires toks != [] && toks[0].kind == kind && SameRest(toks[1..], y)
    requires kind !in {LABEL, TAG, NUMBER, STRING, TRUE, FALSE, NEWLINE, EOF}
    requires kind == IDENTIFIER ==> toks[0].lexeme == lexeme
    ensures SameRest(toks, [Word(kind, lexeme)] + y)
  {
    hide SameRest;
    AfterOne(toks, Word(kind, lexeme), y);
  }

  lemma {:induction false} AfterExpression(toks: seq<Token>, y: seq<Token>)
    requires D.Clean(toks) && E.Expression(toks).Done? && SameRest(E.Expression(toks).rest, y)
    ensures SameRest(toks, TokensOf(E.Expression(toks).value) + y)
  {
    hide Soundness.Scanned, E.Expression, TokensOf, Ladder, Tidy, SymbolOf;
    var e, rest := E.Expression(toks).value, E.Expression(toks).rest;
    Soundness.SoundExpression(toks, false);
    D.NoBreaks(e);
    SmoothSymbols(TokensOf(e));
    SymbolsOfConcat(TokensOf(e), y);
    Prefixed(SymbolsOf(TokensOf(e)), SymbolsOf(rest), SymbolsOf(y));
  }

  lemma {:induction false} SmoothSymbols(toks: seq<Token>)
    requires D.Smooth(toks)
    ensures forall s | s in SymbolsOf(toks) :: !D.IsBreak(s.kind)
  {
    forall i | 0 <= i < |toks| ensures !D.IsBreak(SymbolsOf(toks)[i].kind) {
      assert toks[i] in toks;
    }
  }

  lemma {:induction false} AfterLineEnd(toks: seq<Token>, y: seq<Token>)
    requires Ended(toks) && LineEnd(toks).Done? && SameLines(LineEnd(toks).rest, y)
    ensures SameRest(toks, [NewLine()] + y)
  {
    assert SymbolsOf(toks)[0] == SymbolOf(toks[0]);
    assert SymbolsOf([NewLine()] + y)[1..] == SymbolsOf(y);
    assert SymbolsOf([NewLine()] + y)[0] == SymbolOf(NewLine());
    if At(toks, {NEWLINE}) {
      assert SymbolsOf(toks)[1..] == SymbolsOf(toks[1..]);
    }
  }

  lemma {:induction false} AfterNewlines(toks: seq<Token>, y: seq<Token>)
    requires Ended(toks) && SameLines(Newlines(toks), y)
    ensures SameLines(toks, y)
  {
    if At(toks, {NEWLINE}) {
      assert SymbolsOf(toks)[0] == SymbolOf(toks[0]);
      assert SymbolsOf(toks)[1..] == SymbolsOf(toks[1..]);
      AfterNewlines(toks[1..], y);
    }
  }

  lemma {:induction false} AfterLine(toks: seq<Token>, y: seq<Token>)
    requires D.Clean(toks) && ExpressionLine(toks).Done? && SameLines(ExpressionLine(toks).rest, y)
    ensures SameRest(toks, WriteLine(ExpressionLine(toks).value, y))
  {
    hide E.Expression, Soundness.Scanned, SameRest, SameLines, LineEnd;
    AfterLineEnd(E.Expression(toks).rest, y);
    AfterExpression(toks, [NewLine()] + y);
  }

  /** A colon and a label to the end of the line. */
  lemma {:induction false} AfterLabel(toks: seq<Token>, y: seq<Token>)
    requires Ended(toks) && At(toks, {COLON}) && At(toks[1..], {IDENTIFIER, LABEL}) && LineEnd(toks[1..][1..]).Done?
    requires SameLines(LineEnd(toks[1..][1..]).rest, y)
    ensures SameRest(toks, WriteLabel(toks[1].lexeme, y))
  {
    hide SameRest, SameLines, LineEnd;
    var name := Word(IDENTIFIER, toks[1].lexeme);
    AfterLineEnd(toks[1..][1..], y);
    AfterOne(toks[1..], name, [NewLine()] + y);
    AfterWord(toks, COLON, ":", [name] + ([NewLine()] + y));
    assert [Word(COLON, ":")] + ([name] + ([NewLine()] + y)) == WriteLabel(toks[1].lexeme, y);
  }

  /** An ordinary line stays as it is. */
  predicate IsOrdinary(toks: seq<Token>) {
    && toks != [] && toks[0].kind !in {SEP, LABEL, NEWLINE, EOF}
    && (toks[0].kind == IDENTIFIER ==> |toks| > 1 && CompoundOperator(toks[1].kind).None?)
  }

  lemma {:induction false} LineBegins(toks: seq<Token>, y: seq<Token>)
    requires IsOrdinary(toks) && SameRest(toks, y)
    ensures SameLines(toks, y)
  {
    hide OperatorKind;
    var s, w := SymbolsOf(toks), SymbolsOf(y);
    assert s[0] == SymbolOf(toks[0]);
    assert Tidy(s)[0] == s[0];
    assert w != [] && Unlabelled(w[0]) == s[0];
    if s[0].kind == IDENTIFIER {
      assert s[1] == SymbolOf(toks[1]);
      assert |w| > 1 ==> Tidy(w)[1] == if D.IsBreak(w[1].kind) then Mark(NEWLINE) else Unlabelled(w[1]);
    }
  }

  // ---- Parts of lines ----

  lemma {:induction false} AfterTypeName(toks: seq<Token>, y: seq<Token>)
    requires toks != [] && WellFormed(toks[0]) && At(toks, {IDENTIFIER, OBJECT, LIST}) && SameRest(toks[1..], y)
    ensures SameRest(toks, [TypeToken(TypeName(toks[0]))] + y)
  {
    hide SameRest;
    AfterOne(toks, TypeToken(TypeName(toks[0])), y);
  }

  /** Between angle brackets, a type is written as anywhere else. */
  lemma {:induction false} WrittenElement(toks: seq<Token>, y: seq<Token>)
    requires Ended(toks) && At(toks, {OBJECT, IDENTIFIER, LIST}) && TypeName(toks[0]) == "list"
    requires DeclaredTypeOf(toks).Done?
    ensures At(toks[1..], {LESS}) && At(toks[2..], {OBJECT, IDENTIFIER, LIST}) && DeclaredTypeOf(toks[2..]).Done?
    ensures var element, declared := DeclaredTypeOf(toks[2..]), DeclaredTypeOf(toks);
            && At(element.rest, {GREATER}) && declared.rest == element.rest[1..]
            && WriteType(declared.value, y)
               == [TypeToken("list")] + ([Word(LESS, "<")] + WriteType(element.value, [Word(GREATER, ">")] + y))
  {
    hide Declarable;
  }

  lemma {:induction false} WrittenName(toks: seq<Token>, y: seq<Token>)
    requires Ended(toks) && At(toks, {OBJECT, IDENTIFIER, LIST}) && TypeName(toks[0]) != "list"
    requires DeclaredTypeOf(toks).Done?
    ensures DeclaredTypeOf(toks).rest == toks[1..]
    ensures WriteType(DeclaredTypeOf(toks).value, y) == [TypeToken(TypeName(toks[0]))] + y
  {
    hide Declarable;
  }

  lemma {:induction false} AfterType(toks: seq<Token>, y: seq<Token>)
    requires D.Clean(toks) && At(toks, {IDENTIFIER, OBJECT, LIST}) && DeclaredTypeOf(toks).Done?
    requires SameRest(DeclaredTypeOf(toks).rest, y)
    ensures SameRest(toks, WriteType(DeclaredTypeOf(toks).value, y))
    decreases |toks|, 1
  {
    assert WellFormed(toks[0]);
    hide SameRest, Declarable, Soundness.Scanned, WellFormed, SymbolOf, TypeName, TypeToken, DeclaredTypeOf;
    if TypeName(toks[0]) != "list" {
      WrittenName(toks, y);
      AfterTypeName(toks, y);
    } else {
      AfterListType(toks, y);
    }
  }

  lemma {:induction false} AfterListType(toks: seq<Token>, y: seq<Token>)
    requires D.Clean(toks) && At(toks, {IDENTIFIER, OBJECT, LIST}) && DeclaredTypeOf(toks).Done?
    requires SameRest(DeclaredTypeOf(toks).rest, y) && TypeName(toks[0]) == "list"
    ensures SameRest(toks, WriteType(DeclaredTypeOf(toks).value, y))
    decreases |toks|, 0
  {
    hide WellFormed;
    assert WellFormed(toks[0]);
    hide SameRest, Soundness.Scanned, SymbolOf, TypeName, TypeToken, DeclaredTypeOf, WriteType;
    var element, end := DeclaredTypeOf(toks[2..]), [Word(GREATER, ">")] + y;
    WrittenElement(toks, y);
    S.SecondIsClean(toks);
    AfterWord(element.rest, GREATER, ">", y);
    AfterType(toks[2..], end);
    AfterWord(toks[1..], LESS, "<", WriteType(element.value, end));
    AfterTypeName(toks, [Word(LESS, "<")] + WriteType(element.value, end));
  }

  lemma {:induction false} AfterName(toks: seq<Token>, y: seq<Token>)
    requires Ended(toks) && Binding(toks).Done? && SameRest(Binding(toks).rest, y)
    ensures SameRest(toks, [Word(IDENTIFIER, Binding(toks).value)] + y)
  {
    hide SameRest;
    AfterWord(toks, IDENTIFIER, toks[0].lexeme, y);
  }

  /** A name, an equals sign and a value. */
  lemma {:induction false} AfterValue(toks: seq<Token>, y: seq<Token>)
    requires D.Clean(toks) && At(toks, {IDENTIFIER}) && At(toks[1..], {EQUAL})
    requires ExpressionLine(toks[2..]).Done? && SameLines(ExpressionLine(toks[2..]).rest, y)
    ensures SameRest(toks, WriteValue(toks[0].lexeme, ExpressionLine(toks[2..]).value, y))
  {
    hide SameRest, SameLines, Soundness.Scanned, ExpressionLine;
    S.SecondIsClean(toks);
    var line := WriteLine(ExpressionLine(toks[2..]).value, y);
    AfterLine(toks[2..], y);
    AfterWord(toks[1..], EQUAL, "=", line);
    AfterWord(toks, IDENTIFIER, toks[0].lexeme, [Word(EQUAL, "=")] + line);
    assert [Word(IDENTIFIER, toks[0].lexeme)] + ([Word(EQUAL, "=")] + line)
        == WriteValue(toks[0].lexeme, ExpressionLine(toks[2..]).value, y);
  }

  lemma {:induction false} AfterTyped(toks: seq<Token>, constant: bool, missing: string, y: seq<Token>)
    requires D.Clean(toks) && StartsTypedDeclaration(toks) && TypedDeclarationOf(toks, constant, missing).Done?
    requires SameLines(TypedDeclarationOf(toks, constant, missing).rest, y)
    ensures var s := TypedDeclarationOf(toks, constant, missing).value;
            SameRest(toks, WriteType(s.declared, WriteValue(s.name, s.value, y))) && s.constant == constant
    ensures IsOrdinary(toks)
  {
    hide SameRest, SameLines, Soundness.Scanned, DeclaredTypeOf, ExpressionLine, WriteType, WriteValue;
    TypedStart(toks);
    S.TypeIsClean(toks);
    var s := TypedDeclarationOf(toks, constant, missing).value;
    var behind := DeclaredTypeOf(toks).rest;
    assert behind[1..][1..] == behind[2..];
    AfterValue(behind, y);
    AfterType(toks, WriteValue(s.name, s.value, y));
  }

  lemma {:induction false} AfterIndexes(before: seq<Expr>, toks: seq<Token>, y: seq<Token>)
    requires D.Clean(toks) && Indexes(before, toks).Done? && SameRest(Indexes(before, toks).rest, y)
    ensures var all := Indexes(before, toks).value;
            before <= all && SameRest(toks, WriteIndexes(all[|before|..], y))
    decreases |toks|
  {
    hide SameRest, Soundness.Scanned, E.Expression;
    var all := Indexes(before, toks).value;
    if At(toks, {LBRACKET}) {
      var index := E.Expression(toks[1..]);
      S.NextIsClean(toks);
      S.SoundExpression(toks[1..]);
      S.NextIsClean(index.rest);
      AfterIndexes(before + [index.value], index.rest[1..], y);
      assert all[|before|] == index.value && all[|before|..][1..] == all[|before| + 1..];
      var more := WriteIndexes(all[|before| + 1..], y);
      AfterWord(index.rest, RBRACKET, "]", more);
      AfterExpression(toks[1..], [Word(RBRACKET, "]")] + more);
      AfterWord(toks, LBRACKET, "[", TokensOf(index.value) + ([Word(RBRACKET, "]")] + more));
    }
  }

  // ---- Statements of one line ----

  lemma {:induction false} ConstantYield(toks: seq<Token>, y: seq<Token>)
    requires D.Clean(toks) && At(toks, {CONST}) && ConstantOf(toks[1..]).Done?
    requires SameLines(ConstantOf(toks[1..]).rest, y)
    ensures SameLines(toks, Write(ConstantOf(toks[1..]).value, y))
  {
    hide SameRest, SameLines, Soundness.Scanned, StartsTypedDeclaration, TypedDeclarationOf, ExpressionLine;
    hide WriteType, WriteValue;
    var s := ConstantOf(toks[1..]).value;
    S.NextIsClean(toks);
    if StartsTypedDeclaration(toks[1..]) {
      AfterTyped(toks[1..], true, "E124", y);
      AfterWord(toks, CONST, "", WriteType(s.declared, WriteValue(s.name, s.value, y)));
    } else {
      assert toks[1..][1..][1..] == toks[1..][2..];
      AfterValue(toks[1..], y);
      AfterWord(toks, CONST, "", WriteValue(s.name, s.value, y));
    }
    LineBegins(toks, Write(s, y));
  }

  lemma {:induction false} IndexAssignmentYield(toks: seq<Token>, y: seq<Token>)
    requires D.Clean(toks) && StartsIndexAssignment(toks) && IndexAssignmentOf(toks).Done?
    requires SameLines(IndexAssignmentOf(toks).rest, y)
    ensures SameLines(toks, Write(IndexAssignmentOf(toks).value, y))
  {
    hide SameRest, SameLines, Soundness.Scanned, Indexes, ExpressionLine, EqualBehindIndexes, WriteIndexes, WriteLine;
    var s := IndexAssignmentOf(toks).value;
    S.NextIsClean(toks);
    S.SoundIndexes([], toks[1..]);
    var indexes := Indexes([], toks[1..]);
    S.NextIsClean(indexes.rest);
    var line := WriteLine(s.value, y);
    AfterLine(indexes.rest[1..], y);
    AfterWord(indexes.rest, EQUAL, "=", line);
    AfterIndexes([], toks[1..], [Word(EQUAL, "=")] + line);
    assert indexes.value[0..] == indexes.value;
    AfterWord(toks, IDENTIFIER, toks[0].lexeme, WriteIndexes(s.indexes, [Word(EQUAL, "=")] + line));
    LineBegins(toks, Write(s, y));
  }

  lemma {:induction false} ImportYield(toks: seq<Token>, y: seq<Token>)
    requires D.Clean(toks) && At(toks, {IMPORT}) && ImportOf(toks[1..]).Done?
    requires SameLines(ImportOf(toks[1..]).rest, y)
    ensures SameLines(toks, Write(ImportOf(toks[1..]).value, y))
  {
    hide SameRest, SameLines, LineEnd, WellFormed;
    assert WellFormed(toks[1]);
    hide Soundness.Scanned;
    var s := ImportOf(toks[1..]).value;
    var asWord := toks[1..][1..];
    var end, id, path := [NewLine()] + y, Word(IDENTIFIER, s.alias), Text(s.path);
    assert SameSymbol(toks[1], path) by { LiteralOfString(toks[1]); }
    hide SameSymbol, Text;
    AfterLineEnd(asWord[1..][1..], y);
    AfterWord(asWord[1..], IDENTIFIER, s.alias, end);
    AfterWord(asWord, AS, "", [id] + end);
    AfterOne(toks[1..], path, [Word(AS, "")] + ([id] + end));
    AfterWord(toks, IMPORT, "", [path] + ([Word(AS, "")] + ([id] + end)));
    ImportTokens(s, y);
    LineBegins(toks, Write(s, y));
  }

  lemma {:induction false} ImportTokens(s: Stmt, y: seq<Token>)
    requires s.ImportStmt?
    ensures Write(s, y)
         == [Word(IMPORT, "")] + ([Text(s.path)] + ([Word(AS, "")] + ([Word(IDENTIFIER, s.alias)] + ([NewLine()] + y))))
  {
    hide Text, NewLine;
  }

  lemma {:induction false} LiteralOfString(t: Token)
    requires WellFormed(t) && t.kind == STRING
    ensures t.literal.StringLit? && SameSymbol(t, Text(t.literal.s))
  {
  }

  lemma {:induction false} KeywordedYield(toks: seq<Token>, y: seq<Token>)
    requires D.Clean(toks) && toks[0].kind in {THROW, PRINT, PRINT_ERROR, RETURN}
    requires Keyworded(toks[0].kind, toks[1..]).Done? && SameLines(Keyworded(toks[0].kind, toks[1..]).rest, y)
    ensures SameLines(toks, Write(Keyworded(toks[0].kind, toks[1..]).value, y))
  {
    hide SameRest, SameLines, Soundness.Scanned, ExpressionLine, LineEnd, WriteLine;
    var s := Keyworded(toks[0].kind, toks[1..]).value;
    S.NextIsClean(toks);
    if s == ReturnStmt(None) {
      AfterLineEnd(toks[1..], y);
      AfterWord(toks, RETURN, "", [NewLine()] + y);
      assert [Word(RETURN, "")] + ([NewLine()] + y) == Write(s, y);
    } else {
      AfterLine(toks[1..], y);
      AfterWord(toks, toks[0].kind, "", WriteLine(ExpressionLine(toks[1..]).value, y));
    }
    LineBegins(toks, Write(s, y));
  }

  /** The second token of an expression that has its line for itself assigns nothing. */
  lemma {:induction false} ExpressionIsOrdinary(toks: seq<Token>)
    requires D.Clean(toks) && ExpressionLine(toks).Done?
    ensures IsOrdinary(toks)
  {
    hide Soundness.Scanned, E.Expression, TokensOf, Ladder;
    var e, rest := E.Expression(toks).value, E.Expression(toks).rest;
    Soundness.SoundExpression(toks, false);
    D.NoBreaks(e);
    D.ExpressionInLine(toks);
    var s := SymbolsOf(TokensOf(e)) + SymbolsOf(rest);
    assert toks[0].kind == IDENTIFIER ==> |toks| > 1;
    if |toks| > 1 {
      assert s[1] == SymbolOf(toks[1]);
      if |TokensOf(e)| > 1 {
        assert TokensOf(e)[1] in TokensOf(e);
      } else {
        assert s[1] == SymbolOf(rest[0]);
      }
    }
  }

  lemma {:induction false} ExpressionLineYield(toks: seq<Token>, y: seq<Token>)
    requires D.Clean(toks) && ExpressionLine(toks).Done? && SameLines(ExpressionLine(toks).rest, y)
    ensures SameLines(toks, WriteLine(ExpressionLine(toks).value, y))
  {
    hide SameRest, SameLines, Soundness.Scanned, ExpressionLine, WriteLine;
    AfterLine(toks, y);
    ExpressionIsOrdinary(toks);
    LineBegins(toks, WriteLine(ExpressionLine(toks).value, y));
  }

  /** A compound assignment written out. */
  lemma {:induction false} CompoundTokens(name: string, operator: string, e: Expr, y: seq<Token>)
    requires operator != "not in"
    ensures var kind := if OperatorKind(operator).Some? then OperatorKind(operator).value else EOF;
            WriteValue(name, BinaryExpr(VariableExpr(name), operator, e), y)
            == [Word(IDENTIFIER, name), Word(EQUAL, "="), Word(IDENTIFIER, name), Word(kind, operator)]
               + WriteLine(e, y)
  {
    hide OperatorKind;
    var word := OperatorTokens(operator)[0];
    var whole, end, id := BinaryExpr(VariableExpr(name), operator, e), [NewLine()] + y, Word(IDENTIFIER, name);
    assert OperatorTokens(operator) == [word];
    hide OperatorTokens, NewLine;
    assert TokensOf(VariableExpr(name)) == [id];
    var inner := TokensOf(e);
    assert TokensOf(whole) == [id] + ([word] + inner);
    hide TokensOf;
    assert [id] + ([word] + inner) + end == [id, word] + (inner + end);
  }

  /** A compound assignment, whether it is written down as such or not. */
  lemma {:induction false} CompoundYield(toks: seq<Token>, name: string, operator: string, e: Expr, y: seq<Token>)
    requires Ended(toks) && |toks| > 2 && SymbolOf(toks[0]) == SymbolOf(Word(IDENTIFIER, name))
    requires CompoundOperator(toks[1].kind) == Some(operator) && SameRest(toks[2..], WriteLine(e, y))
    requires Ladder(e, false)
    ensures SameLines(toks, WriteAssignment(name, BinaryExpr(VariableExpr(name), operator, e), y))
  {
    hide Ladder, TokensOf, WriteLine, Tidy;
    var whole, line := BinaryExpr(VariableExpr(name), operator, e), WriteLine(e, y);
    OperatorOfCompound(toks[1].kind);
    var kind := OperatorKind(operator).value;
    CompoundLine(toks, name, kind);
    if Ladder(whole, false) {
      CompoundTokens(name, operator, e, y);
      WrittenOut([Word(IDENTIFIER, name), Word(EQUAL, "="), Word(IDENTIFIER, name), Word(kind, operator)], line, kind);
    } else {
      var w := WriteAssignment(name, whole, y);
      assert w == [Word(IDENTIFIER, name), Word(CompoundKind(operator).value, "")] + line;
      assert w[2..] == line;
      CompoundLine(w, name, kind);
    }
  }

  lemma OperatorOfCompound(kind: Kind)
    requires CompoundOperator(kind).Some?
    ensures var operator := CompoundOperator(kind).value;
            && OperatorKind(operator).Some? && !D.IsBreak(OperatorKind(operator).value)
            && OperatorKind(operator).value != LABEL
            && CompoundKind(operator) == Some(kind) && operator != "not in"
  {
    var operator := CompoundOperator(kind).value;
    assert |operator| > 1 ==> Lower(operator)[0] == LowerChar(operator[0]);
    hide Lower;
  }

  /** The four tokens of a compound assignment that is written out. */
  function WrittenCompound(name: string, kind: Kind): seq<Symbol> {
    var id := SymbolOf(Word(IDENTIFIER, name));
    [id, Mark(EQUAL), id, Mark(kind)]
  }

  lemma {:induction false} CompoundLine(toks: seq<Token>, name: string, kind: Kind)
    requires |toks| > 1 && SymbolOf(toks[0]) == SymbolOf(Word(IDENTIFIER, name))
    requires CompoundOperator(toks[1].kind).Some?
    requires OperatorKind(CompoundOperator(toks[1].kind).value) == Some(kind)
    ensures TidyLines(SymbolsOf(toks)) == WrittenCompound(name, kind) + Tidy(SymbolsOf(toks[2..]))
  {
    hide Tidy, CompoundOperator, OperatorKind;
    var s := SymbolsOf(toks);
    assert s[0] == SymbolOf(toks[0]) && s[1].kind == toks[1].kind && s[2..] == SymbolsOf(toks[2..]);
    assert StartsCompound(s);
  }

  lemma {:induction false} WrittenOut(front: seq<Token>, line: seq<Token>, kind: Kind)
    requires |front| == 4 && front[0].kind == IDENTIFIER && front[2] == front[0]
    requires SymbolOf(front[1]) == Mark(EQUAL) && SymbolOf(front[3]) == Mark(kind) && !D.IsBreak(kind) && kind != LABEL
    ensures TidyLines(SymbolsOf(front + line)) == WrittenCompound(front[0].lexeme, kind) + Tidy(SymbolsOf(line))
  {
    hide Tidy;
    var w, f := SymbolsOf(front + line), SymbolsOf(front);
    assert f == WrittenCompound(front[0].lexeme, kind);
    SymbolsOfConcat(front, line);
    assert w[0] == f[0] && w[1] == Mark(EQUAL);
    assert TidyLines(w) == Tidy(w);
    Unfolded(f, SymbolsOf(line));
  }

  lemma {:induction false} AssignmentYield(toks: seq<Token>, y: seq<Token>)
    requires D.Clean(toks) && At(toks, {IDENTIFIER}) && IsAssignment(Peek(toks, 1).kind) && AssignmentOf(toks).Done?
    requires SameLines(AssignmentOf(toks).rest, y)
    ensures SameLines(toks, Write(AssignmentOf(toks).value, y))
  {
    hide SameRest, SameLines, Soundness.Scanned, ExpressionLine, WriteLine, Ladder, IsCompound;
    var s := AssignmentOf(toks).value;
    S.SecondIsClean(toks);
    S.SoundLine(toks[2..]);
    var e := ExpressionLine(toks[2..]).value;
    if CompoundOperator(toks[1].kind).Some? {
      AfterLine(toks[2..], y);
      CompoundYield(toks, s.name, CompoundOperator(toks[1].kind).value, e, y);
    } else {
      AfterValue(toks, y);
      LineBegins(toks, WriteValue(s.name, e, y));
      assert WriteAssignment(s.name, e, y) == WriteValue(s.name, e, y);
    }
  }

  // ---- Openers, closers and what stands between ----

  /** A keyword, an expression and a label. */
  lemma {:induction false} AfterHead(toks: seq<Token>, keyword: Kind, name: string, y: seq<Token>)
    requires keyword !in {IDENTIFIER, LABEL, TAG, NUMBER, STRING, TRUE, FALSE, NEWLINE, EOF}
    requires D.Clean(toks) && At(toks, {keyword}) && E.Expression(toks[1..]).Done?
    requires SameRest(E.Expression(toks[1..]).rest, WriteLabel(name, y))
    ensures SameRest(toks, WriteHead(keyword, E.Expression(toks[1..]).value, name, y))
  {
    hide SameRest, Soundness.Scanned, E.Expression, WriteLabel;
    S.NextIsClean(toks);
    AfterExpression(toks[1..], WriteLabel(name, y));
    AfterWord(toks, keyword, "", TokensOf(E.Expression(toks[1..]).value) + WriteLabel(name, y));
  }

  lemma {:induction false} AfterOpened(kind: string, toks: seq<Token>, stack: Stack, y: seq<Token>)
    requires Ended(toks)
    ensures var r := OpeningLabel(kind, toks, stack);
            r.Good? && SameLines(r.rest, y) ==> SameRest(toks, WriteLabel(r.value, y))
    ensures var r := OpeningName(kind, toks, stack);
            r.Good? && SameLines(r.rest, y) ==> SameRest(toks, WriteLabel(r.value, y))
  {
    hide SameRest, SameLines, LineEnd, WriteLabel, Push;
    if At(toks, {COLON}) && At(toks[1..], {IDENTIFIER, LABEL}) && LineEnd(toks[1..][1..]).Done? {
      if SameLines(LineEnd(toks[1..][1..]).rest, y) {
        AfterLabel(toks, y);
      }
    }
  }

  lemma {:induction false} OpenedIsTop(kind: string, toks: seq<Token>, stack: Stack)
    requires Ended(toks)
    ensures var r := OpeningLabel(kind, toks, stack); r.Good? ==> D.Top(r.stack, kind, r.value)
    ensures var r := OpeningName(kind, toks, stack); r.Good? ==> D.Top(r.stack, kind, r.value)
    ensures forall name :: var r := Opened(kind, name, toks, stack); r.Good? ==> D.Top(r.stack, kind, name)
  {
    hide LineEnd, IsOpen, LooksLocal, IsLocal;
  }

  lemma {:induction false} AfterBranch(name: string, toks: seq<Token>, y: seq<Token>)
    requires Ended(toks) && BranchLabel(name, toks).Done? && SameLines(BranchLabel(name, toks).rest, y)
    ensures SameRest(toks, WriteLabel(name, y))
  {
    hide SameRest, SameLines, LineEnd, WriteLabel;
    AfterLabel(toks, y);
  }

  /** A line that begins with a keyword. */
  lemma {:induction false} KeywordBegins(toks: seq<Token>, keyword: Kind, rest: seq<Token>)
    requires toks != [] && toks[0].kind == keyword && SameRest(toks[1..], rest)
    requires keyword !in {IDENTIFIER, LABEL, TAG, NUMBER, STRING, TRUE, FALSE, NEWLINE, EOF, SEP}
    ensures SameLines(toks, [Word(keyword, "")] + rest)
  {
    hide SameRest, SameLines;
    AfterWord(toks, keyword, "", rest);
    LineBegins(toks, [Word(keyword, "")] + rest);
  }

  lemma {:induction false} CloserYield(closer: Kind, kind: string, name: string, toks: seq<Token>, stack: Stack,
                                       y: seq<Token>)
    requires Ended(toks) && D.Top(stack, kind, name) && CloserKind(closer).Some?
    requires Close(closer, kind, toks, stack).Good? && SameLines(Close(closer, kind, toks, stack).rest, y)
    ensures SameLines(toks, WriteCloser(closer, name, y))
  {
    hide SameRest, SameLines, LineEnd, WriteLabel, HasBlock;
    AfterLabel(toks[1..], y);
    KeywordBegins(toks, closer, WriteLabel(name, y));
  }

  // ---- Statements ----

  /** A statement that has been read is, behind its last line, what its tree is written as. */
  predicate Yields(toks: seq<Token>, r: Step<Stmt>, y: seq<Token>) {
    r.Good? && SameLines(r.rest, y) ==> SameLines(toks, Write(r.value, y))
  }

  lemma {:induction false} StatementYields(toks: seq<Token>, stack: Stack, top: bool, y: seq<Token>)
    requires D.Clean(toks) && !At(toks, {EOF}) && (top ==> stack == [])
    ensures Yields(toks, Statement(toks, stack, top), y)
    decreases |toks|, 5
  {
    hide Soundness.Scanned, Yields, StartsTypedDeclaration, Declarable, TypedDeclarationOf, BlockStatement, HttpRoute;
    hide SepOf, ErrorDeclaration, ImportOf, IsBlockOpener, OnlyInside, SimpleStatement;
    var r := Statement(toks, stack, top);
    if r.Bad? {
      BadYields(toks, r, y);
    } else if toks[0].kind in {IMPORT, ERROR, HTTP_ROUTE, SEP} {
      TopLevelYields(toks, stack, y);
    } else if StartsTypedDeclaration(toks) {
      TypedYields(toks, stack, y);
    } else if IsBlockOpener(toks[0].kind) {
      BlockYields(toks, stack, y);
    } else {
      SimpleYields(toks, stack, top, y);
    }
  }

  lemma {:induction false} BadYields(toks: seq<Token>, r: Step<Stmt>, y: seq<Token>)
    requires r.Bad?
    ensures Yields(toks, r, y)
  {
  }

  lemma {:induction false} TypedYields(toks: seq<Token>, stack: Stack, y: seq<Token>)
    requires D.Clean(toks) && StartsTypedDeclaration(toks)
    ensures Yields(toks, Lift(TypedDeclarationOf(toks, false, "E124"), stack), y)
  {
    hide Soundness.Scanned, StartsTypedDeclaration, TypedDeclarationOf, SameRest, SameLines, WriteType, WriteValue;
    var r := TypedDeclarationOf(toks, false, "E124");
    if r.Done? && SameLines(r.rest, y) {
      AfterTyped(toks, false, "E124", y);
      var s := r.value;
      var line := WriteType(s.declared, WriteValue(s.name, s.value, y));
      assert [] + line == line;
      LineBegins(toks, line);
    }
  }

  lemma {:induction false} TopLevelYields(toks: seq<Token>, stack: Stack, y: seq<Token>)
    requires D.Clean(toks) && stack == [] && toks[0].kind in {IMPORT, ERROR, HTTP_ROUTE, SEP}
    ensures toks[0].kind == IMPORT ==> Yields(toks, Lift(ImportOf(toks[1..]), stack), y)
    ensures toks[0].kind == ERROR ==> Yields(toks, ErrorDeclaration(toks, stack), y)
    ensures toks[0].kind == HTTP_ROUTE ==> Yields(toks, HttpRoute(toks, stack), y)
    ensures toks[0].kind == SEP ==> Yields(toks, SepOf(toks, stack), y)
    decreases |toks|, 4
  {
    hide Soundness.Scanned, ImportOf, HttpRoute, SepOf, ErrorDeclaration, Write, SameLines;
    if toks[0].kind == IMPORT {
      var r := ImportOf(toks[1..]);
      if r.Done? && SameLines(r.rest, y) { ImportYield(toks, y); }
    } else if toks[0].kind == ERROR {
      ErrorYields(toks, stack, y);
    } else if toks[0].kind == HTTP_ROUTE {
      RouteYields(toks, stack, y);
    } else {
      SepYields(toks, stack, y);
    }
  }

  lemma {:induction false} BlockYields(toks: seq<Token>, stack: Stack, y: seq<Token>)
    requires D.Clean(toks) && IsBlockOpener(toks[0].kind)
    ensures Yields(toks, BlockStatement(toks, stack), y)
    decreases |toks|, 4
  {
    hide Soundness.Scanned, Yields, ObjectOf, ListBlockOf, TryOf, TransactionOf, IfOf, WhileOf, ForOf;
    var kind := toks[0].kind;
    if kind == OBJECT { ObjectYields(toks, stack, y); }
    else if kind == LIST { ListYields(toks, stack, y); }
    else if kind == TRY { TryYields(toks, stack, y); }
    else if kind == TRANSACTION { TransactionYields(toks, stack, y); }
    else if kind == IF { IfYields(toks, stack, y); }
    else if kind == WHILE { WhileYields(toks, stack, y); }
    else { ForYields(toks, stack, y); }
  }

  lemma {:induction false} SimpleYields(toks: seq<Token>, stack: Stack, top: bool, y: seq<Token>)
    requires D.Clean(toks) && !At(toks, {EOF})
    ensures Yields(toks, SimpleStatement(toks, stack, top), y)
  {
    hide Soundness.Scanned, StartsIndexAssignment, IndexAssignmentOf, AssignmentOf, IsAssignment, ConstantOf;
    hide Keyworded, ExpressionLine, SameLines, Write;
    var r := SimpleStatement(toks, stack, top);
    if r.Good? && SameLines(r.rest, y) {
      if toks[0].kind in {THROW, PRINT, PRINT_ERROR, RETURN} {
        KeywordedYield(toks, y);
      } else if toks[0].kind == CONST {
        ConstantYield(toks, y);
      } else if StartsIndexAssignment(toks) {
        IndexAssignmentYield(toks, y);
      } else if toks[0].kind == IDENTIFIER && IsAssignment(Peek(toks, 1).kind) {
        AssignmentYield(toks, y);
      } else {
        ExpressionLineYield(toks, y);
        ExpressionIsWritten(ExpressionLine(toks).value, y);
      }
    }
  }

  lemma {:induction false} ExpressionIsWritten(e: Expr, y: seq<Token>)
    ensures Write(ExpressionStmt(e), y) == WriteLine(e, y)
  {
    hide WriteLine;
  }

  /** A body: the statements that it adds, up to the token that ends it. */
  lemma {:induction false} BodyYields(endings: set<Kind>, before: seq<Stmt>, toks: seq<Token>, stack: Stack,
                                      y: seq<Token>)
    requires D.Clean(toks) && stack != [] && EOF !in endings
    ensures var r := BodyUntil(endings, before, toks, stack);
            r.Good? && SameLines(r.rest, y) ==>
              before <= r.value && SameLines(toks, WriteAll(r.value[|before|..], y))
    decreases |toks|, 6
  {
    hide Soundness.Scanned, Statement, CloserKind, SameLines, Write;
    S.NewlinesAreClean(toks);
    var here := Newlines(toks);
    var r := BodyUntil(endings, before, toks, stack);
    if r.Good? && SameLines(r.rest, y) {
      if !At(here, endings) {
        var s := Statement(here, stack, false);
        S.StatementIsClean(here, stack, false);
        BodyYields(endings, before + [s.value], s.rest, s.stack, y);
        var more := WriteAll(r.value[|before| + 1..], y);
        StatementYields(here, stack, false, more);
        assert r.value[|before|] == s.value;
        assert r.value[|before|..][1..] == r.value[|before| + 1..];
      }
      AfterNewlines(toks, WriteAll(r.value[|before|..], y));
    }
  }

  /** A body and the line that closes its block. */
  lemma {:induction false} ClosedBody(closer: Kind, kind: string, name: string, toks: seq<Token>, stack: Stack,
                                      y: seq<Token>)
    requires D.Clean(toks) && D.Top(stack, kind, name) && closer != EOF && CloserKind(closer).Some?
    ensures var body := BodyUntil({closer}, [], toks, stack);
            body.Good? ==>
              var r := Close(closer, kind, body.rest, body.stack);
              r.Good? && SameLines(r.rest, y) ==> SameLines(toks, WriteAll(body.value, WriteCloser(closer, name, y)))
    decreases |toks|, 7
  {
    hide Soundness.Scanned, BodyUntil, Close, WriteAll, WriteCloser, SameLines, D.Reaches, SameBlocks, CloserKind;
    var body := BodyUntil({closer}, [], toks, stack);
    if body.Good? {
      D.KeptBody({closer}, [], toks, stack);
      D.TopIsKept(stack, body.stack, kind, name);
      var r := Close(closer, kind, body.rest, body.stack);
      if r.Good? && SameLines(r.rest, y) {
        CloserYield(closer, kind, name, body.rest, body.stack, y);
        BodyYields({closer}, [], toks, stack, WriteCloser(closer, name, y));
        assert body.value[0..] == body.value;
      }
    }
  }

  /** A block from the expression behind its keyword to its closer. */
  lemma {:induction false} HeadYields(keyword: Kind, closer: Kind, kind: string, toks: seq<Token>, stack: Stack,
                                      y: seq<Token>)
    requires keyword !in {IDENTIFIER, LABEL, TAG, NUMBER, STRING, TRUE, FALSE, NEWLINE, EOF}
    requires D.Clean(toks) && At(toks, {keyword}) && closer != EOF && CloserKind(closer).Some?
    ensures var e := E.Expression(toks[1..]);
            e.Done? ==>
              var start := OpeningLabel(kind, e.rest, stack);
              start.Good? ==>
                var body := BodyUntil({closer}, [], start.rest, start.stack);
                body.Good? ==>
                  var r := Close(closer, kind, body.rest, body.stack);
                  r.Good? && SameLines(r.rest, y) ==>
                    SameRest(toks, WriteHead(keyword, e.value, start.value,
                                             WriteAll(body.value, WriteCloser(closer, start.value, y))))
    decreases |toks|, 2
  {
    hide Soundness.Scanned, BodyUntil, Close, E.Expression, OpeningLabel, SameLines, SameRest, WriteAll, WriteCloser;
    hide WriteHead, WriteLabel, CloserKind;
    var e := E.Expression(toks[1..]);
    if e.Done? {
      S.NextIsClean(toks);
      S.SoundExpression(toks[1..]);
      var start := OpeningLabel(kind, e.rest, stack);
      if start.Good? {
        S.OpeningIsClean(kind, e.rest, stack);
        OpenedIsTop(kind, e.rest, stack);
        ClosedBody(closer, kind, start.value, start.rest, start.stack, y);
        var body := BodyUntil({closer}, [], start.rest, start.stack);
        if body.Good? && Close(closer, kind, body.rest, body.stack).Good?
           && SameLines(Close(closer, kind, body.rest, body.stack).rest, y) {
          var inside := WriteAll(body.value, WriteCloser(closer, start.value, y));
          AfterOpened(kind, e.rest, stack, inside);
          AfterHead(toks, keyword, start.value, inside);
        }
      }
    }
  }

  /** A line with a keyword in front, as what follows the keyword is written. */
  lemma {:induction false} HeadBegins(toks: seq<Token>, keyword: Kind, e: Expr, name: string, inside: seq<Token>)
    requires toks != [] && toks[0].kind == keyword && SameRest(toks, WriteHead(keyword, e, name, inside))
    requires keyword !in {IDENTIFIER, LABEL, NEWLINE, EOF, SEP}
    ensures SameLines(toks, WriteHead(keyword, e, name, inside))
  {
    hide SameRest, SameLines, WriteHead;
    LineBegins(toks, WriteHead(keyword, e, name, inside));
  }

  lemma {:induction false} WhileYields(toks: seq<Token>, stack: Stack, y: seq<Token>)
    requires D.Clean(toks) && At(toks, {WHILE})
    ensures Yields(toks, WhileOf(toks, stack), y)
    decreases |toks|, 3
  {
    hide Soundness.Scanned, BodyUntil, Close, E.Expression, OpeningLabel, SameLines, SameRest, WriteAll, WriteCloser;
    hide WriteHead;
    var r := WhileOf(toks, stack);
    if r.Good? && SameLines(r.rest, y) {
      HeadYields(WHILE, ENDWHILE, "while", toks, stack, y);
      var s := r.value;
      var inside := WriteAll(s.body, WriteCloser(ENDWHILE, s.blockLabel, y));
      HeadBegins(toks, WHILE, s.condition, s.blockLabel, inside);
      assert Write(s, y) == WriteHead(WHILE, s.condition, s.blockLabel, inside);
    }
  }

  lemma {:induction false} TransactionYields(toks: seq<Token>, stack: Stack, y: seq<Token>)
    requires D.Clean(toks) && At(toks, {TRANSACTION})
    ensures Yields(toks, TransactionOf(toks, stack), y)
    decreases |toks|, 3
  {
    hide Soundness.Scanned, BodyUntil, Close, E.Expression, OpeningLabel, SameLines, SameRest, WriteAll, WriteCloser;
    hide WriteHead;
    var r := TransactionOf(toks, stack);
    if r.Good? && SameLines(r.rest, y) {
      HeadYields(TRANSACTION, END_TRANSACTION, "transaction", toks, stack, y);
      var s := r.value;
      var inside := WriteAll(s.body, WriteCloser(END_TRANSACTION, s.blockLabel, y));
      HeadBegins(toks, TRANSACTION, s.connection, s.blockLabel, inside);
      assert Write(s, y) == WriteHead(TRANSACTION, s.connection, s.blockLabel, inside);
    }
  }

  lemma {:induction false} ForYields(toks: seq<Token>, stack: Stack, y: seq<Token>)
    requires D.Clean(toks) && At(toks, {FOR})
    ensures Yields(toks, ForOf(toks, stack), y)
    decreases |toks|, 3
  {
    hide Soundness.Scanned, BodyUntil, Close, E.Expression, OpeningLabel, SameLines, SameRest, WriteAll, WriteCloser;
    hide WriteHead;
    var r := ForOf(toks, stack);
    if r.Good? && SameLines(r.rest, y) {
      S.NextIsClean(toks);
      S.NextIsClean(toks[1..]);
      HeadYields(IN, ENDFOR, "for", toks[1..][1..], stack, y);
      var s := r.value;
      var head := WriteHead(IN, s.iterable, s.blockLabel, WriteAll(s.body, WriteCloser(ENDFOR, s.blockLabel, y)));
      AfterName(toks[1..], head);
      KeywordBegins(toks, FOR, [Word(IDENTIFIER, s.variable)] + head);
      assert [Word(FOR, "")] + ([Word(IDENTIFIER, s.variable)] + head) == Write(s, y);
    }
  }

  lemma {:induction false} RouteYields(toks: seq<Token>, stack: Stack, y: seq<Token>)
    requires D.Clean(toks) && At(toks, {HTTP_ROUTE})
    ensures Yields(toks, HttpRoute(toks, stack), y)
    decreases |toks|, 3
  {
    hide Soundness.Scanned, BodyUntil, Close, OpeningLabel, SameLines, SameRest, WriteAll, WriteCloser, IsRoute;
    hide WriteLabel;
    var r := HttpRoute(toks, stack);
    if r.Good? && SameLines(r.rest, y) {
      var path := toks[1..][1..];
      S.NextIsClean(toks);
      S.NextIsClean(toks[1..]);
      S.NextIsClean(path);
      S.OpeningIsClean("http_route", path[1..], stack);
      OpenedIsTop("http_route", path[1..], stack);
      var start := OpeningLabel("http_route", path[1..], stack);
      ClosedBody(END_HTTP_ROUTE, "http_route", start.value, start.rest, start.stack, y);
      var s := r.value;
      var inside := WriteAll(s.body, WriteCloser(END_HTTP_ROUTE, s.blockLabel, y));
      AfterOpened("http_route", path[1..], stack, inside);
      RouteLine(toks, s.verb, WriteLabel(s.blockLabel, inside));
      RouteTokens(s, y);
    }
  }

  /** The method and the path of a route. */
  lemma {:induction false} RouteLine(toks: seq<Token>, verb: string, y: seq<Token>)
    requires D.Clean(toks) && |toks| > 2 && toks[0].kind == HTTP_ROUTE && toks[2].kind == STRING
    requires toks[1].kind == IDENTIFIER && toks[1].lexeme == verb
    requires SameRest(toks[1..][1..][1..], y)
    ensures toks[2].literal.StringLit?
    ensures SameLines(toks, [Word(HTTP_ROUTE, "")] + ([Word(IDENTIFIER, verb)] + ([Text(toks[2].literal.s)] + y)))
  {
    assert WellFormed(toks[2]);
    LiteralOfString(toks[2]);
    hide Soundness.Scanned, SameLines, SameRest, SymbolOf, SameSymbol, Text, WellFormed;
    var path := toks[1..][1..];
    assert path[0] == toks[2];
    var line := [Text(toks[2].literal.s)] + y;
    AfterOne(path, Text(toks[2].literal.s), y);
    AfterWord(toks[1..], IDENTIFIER, verb, line);
    KeywordBegins(toks, HTTP_ROUTE, [Word(IDENTIFIER, verb)] + line);
  }

  lemma {:induction false} RouteTokens(s: Stmt, y: seq<Token>)
    requires s.HttpRouteDecl?
    ensures var inside := WriteLabel(s.blockLabel, WriteAll(s.body, WriteCloser(END_HTTP_ROUTE, s.blockLabel, y)));
            Write(s, y) == [Word(HTTP_ROUTE, "")] + ([Word(IDENTIFIER, s.verb)] + ([Text(s.path)] + inside))
  {
    hide WriteLabel, WriteAll, WriteCloser, Text;
  }

  lemma {:induction false} ErrorYields(toks: seq<Token>, stack: Stack, y: seq<Token>)
    requires D.Clean(toks) && At(toks, {ERROR})
    ensures Yields(toks, ErrorDeclaration(toks, stack), y)
  {
    hide Soundness.Scanned, Close, EndsWithError, Newlines, Opened, SameLines, SameRest, WriteCloser, WriteLabel;
    var r := ErrorDeclaration(toks, stack);
    if r.Good? && SameLines(r.rest, y) {
      var line := toks[1..][1..][1..];
      ErrorLine(toks, stack, y);
      assert Write(r.value, y) == [Word(ERROR, "")] + WriteLabel(r.value.name, WriteCloser(END_ERROR, r.value.name, y));
    }
  }

  /** The name of a block and the end of the line that opens it. */
  lemma {:induction false} AfterNamed(kind: string, toks: seq<Token>, stack: Stack, y: seq<Token>)
    requires Ended(toks) && At(toks, {COLON}) && At(toks[1..], {IDENTIFIER})
    ensures var start := Opened(kind, toks[1].lexeme, toks[1..][1..], stack);
            start.Good? ==>
              && start.value == toks[1].lexeme && D.Top(start.stack, kind, start.value)
              && (SameLines(start.rest, y) ==> SameRest(toks, WriteLabel(start.value, y)))
  {
    hide SameRest, SameLines, LineEnd, WriteLabel, Push;
    var start := Opened(kind, toks[1].lexeme, toks[1..][1..], stack);
    if start.Good? {
      OpenedIsTop(kind, toks[1..][1..], stack);
      if SameLines(start.rest, y) {
        AfterLabel(toks, y);
      }
    }
  }

  lemma {:induction false} ErrorLine(toks: seq<Token>, stack: Stack, y: seq<Token>)
    requires D.Clean(toks) && At(toks, {ERROR}) && At(toks[1..], {COLON}) && At(toks[1..][1..], {IDENTIFIER})
    ensures var name := toks[1..][1..][0].lexeme;
            var start := Opened("error", name, toks[1..][1..][1..], stack);
            start.Good? ==>
              var r := Close(END_ERROR, "error", Newlines(start.rest), start.stack);
              start.value == name
              && (r.Good? && SameLines(r.rest, y) ==>
                    SameLines(toks, [Word(ERROR, "")] + WriteLabel(name, WriteCloser(END_ERROR, name, y))))
  {
    hide Soundness.Scanned, Close, Opened, Newlines, SameLines, SameRest, WriteCloser, WriteLabel;
    var name, line := toks[1..][1..][0].lexeme, toks[1..][1..][1..];
    assert name == toks[1..][1].lexeme;
    var start, closer := Opened("error", name, line, stack), WriteCloser(END_ERROR, name, y);
    AfterNamed("error", toks[1..], stack, closer);
    if start.Good? {
      var r := Close(END_ERROR, "error", Newlines(start.rest), start.stack);
      if r.Good? && SameLines(r.rest, y) {
        CloserYield(END_ERROR, "error", name, Newlines(start.rest), start.stack, y);
        AfterNewlines(start.rest, closer);
        KeywordBegins(toks, ERROR, WriteLabel(name, closer));
      }
    }
  }

  // ---- SEPs ----

  lemma {:induction false} AfterParameter(before: seq<Parameter>, toks: seq<Token>, y: seq<Token>)
    requires D.Clean(toks) && OneParameter(before, toks).Done? && SameRest(OneParameter(before, toks).rest, y)
    ensures var all := OneParameter(before, toks).value;
            |all| == |before| + 1 && before <= all && SameRest(toks, WriteParameter(all[|before|], y))
  {
    hide SameRest, Soundness.Scanned, DeclaredTypeOf, Declarable, WriteType;
    var p := OneParameter(before, toks).value[|before|];
    S.NextIsClean(toks);
    if At(toks[1..], {COLON}) {
      S.NextIsClean(toks[1..]);
      NamedStart(toks[1..][1..]);
      AfterType(toks[1..][1..], y);
      AfterWord(toks[1..], COLON, ":", WriteType(p.declared.value, y));
      AfterName(toks, [Word(COLON, ":")] + WriteType(p.declared.value, y));
      assert [Word(IDENTIFIER, p.name)] + ([Word(COLON, ":")] + WriteType(p.declared.value, y)) == WriteParameter(p, y);
    } else {
      AfterName(toks, y);
    }
  }

  lemma {:induction false} AfterParameters(before: seq<Parameter>, toks: seq<Token>, y: seq<Token>)
    requires D.Clean(toks) && AreParameters(before) && Parameters(before, toks).Done?
    requires SameRest(Parameters(before, toks).rest, y)
    ensures var all := Parameters(before, toks).value;
            |all| > |before| && before <= all && SameRest(toks, WriteParameters(all[|before|..], y))
    decreases |toks|
  {
    hide SameRest, Soundness.Scanned, OneParameter, WriteParameter, AreParameters;
    var all, one := Parameters(before, toks).value, OneParameter(before, toks);
    S.SoundParameter(before, toks);
    ParameterIsAdded(before, toks);
    if At(one.rest, {COMMA}) {
      S.NextIsClean(one.rest);
      AfterParameters(one.value, one.rest[1..], y);
      AfterWord(one.rest, COMMA, ",", WriteParameters(all[|before| + 1..], y));
    } else {
      AfterWord(one.rest, RPAREN, ")", y);
    }
    AfterParameter(before, toks, WriteMoreParameters(all[|before| + 1..], y));
    assert all[|before|..][1..] == all[|before| + 1..];
  }

  lemma {:induction false} ParameterIsAdded(before: seq<Parameter>, toks: seq<Token>)
    requires Ended(toks) && OneParameter(before, toks).Done?
    ensures var all := OneParameter(before, toks).value; |all| == |before| + 1 && before <= all
  {
    hide DeclaredTypeOf, Declarable;
  }

  /** The line of a SEP up to the end of its parameters. */
  function WriteSep(name: string, parameters: seq<Parameter>, y: seq<Token>): seq<Token> {
    [Word(SEP, "")] + ([Word(COLON, ":")] + ([Word(IDENTIFIER, name)]
                                             + ([Word(LPAREN, "(")] + WriteParameters(parameters, y))))
  }

  lemma {:induction false} BareSep(toks: seq<Token>, y: seq<Token>)
    requires D.Clean(toks) && |toks| > 3 && toks[0].kind == SEP && toks[1].kind == COLON && toks[2].kind == IDENTIFIER
    requires toks[3].kind != LPAREN && SameRest(toks[3..], y)
    ensures SameLines(toks, WriteSep(toks[2].lexeme, [], y))
  {
    hide Soundness.Scanned, Tidy, TidyLines;
    var front := [Word(SEP, ""), Word(COLON, ":"), Word(IDENTIFIER, toks[2].lexeme)];
    var ends := [Word(LPAREN, "("), Word(RPAREN, ")")];
    assert toks == toks[..3] + toks[3..] && SymbolsOf(toks[..3]) == SymbolsOf(front);
    SymbolsOfConcat(toks[..3], toks[3..]);
    assert SymbolsOf(toks[3..])[0].kind != LPAREN;
    assert front + ends + y == WriteSep(toks[2].lexeme, [], y);
    SymbolsOfConcat(front + ends, y);
    assert SymbolsOf(front + ends) == SymbolsOf(front) + [Mark(LPAREN), Mark(RPAREN)];
    SepForms(SymbolsOf(front), SymbolsOf(toks[3..]), SymbolsOf(y));
  }

  lemma {:induction false} SepForms(front: seq<Symbol>, x: seq<Symbol>, y: seq<Symbol>)
    requires |front| == 3 && front[0].kind == SEP && front[1].kind == COLON && front[2].kind == IDENTIFIER
    requires x != [] && x[0].kind != LPAREN && Tidy(x) == Tidy(y)
    ensures TidyLines(front + x) == TidyLines(front + [Mark(LPAREN), Mark(RPAREN)] + y)
  {
    var s, w := front + x, front + [Mark(LPAREN), Mark(RPAREN)] + y;
    assert s[..3] == front && s[3..] == x;
    assert TidyLines(s) == front + [Mark(LPAREN), Mark(RPAREN)] + Tidy(x);
    assert w[3] == Mark(LPAREN) && w[1].kind == COLON && TidyLines(w) == Tidy(w);
    Unfolded(front + [Mark(LPAREN), Mark(RPAREN)], y);
  }

  lemma {:induction false} SepWithParameters(toks: seq<Token>, parameters: seq<Parameter>, y: seq<Token>)
    requires D.Clean(toks) && |toks| > 3 && toks[0].kind == SEP && toks[1].kind == COLON && toks[2].kind == IDENTIFIER
    requires toks[3].kind == LPAREN && SameRest(toks[1..][1..][1..][1..], WriteParameters(parameters, y))
    ensures SameLines(toks, WriteSep(toks[2].lexeme, parameters, y))
  {
    hide Soundness.Scanned, SameRest, WriteParameters;
    var list := WriteParameters(parameters, y);
    var more, line := [Word(LPAREN, "(")] + list, WriteSep(toks[2].lexeme, parameters, y);
    AfterWord(toks[1..][1..][1..], LPAREN, "(", list);
    AfterWord(toks[1..][1..], IDENTIFIER, toks[2].lexeme, more);
    AfterWord(toks[1..], COLON, ":", [Word(IDENTIFIER, toks[2].lexeme)] + more);
    AfterWord(toks, SEP, "", [Word(COLON, ":")] + ([Word(IDENTIFIER, toks[2].lexeme)] + more));
    SepBegins(toks, line);
  }

  lemma {:induction false} SepBegins(toks: seq<Token>, y: seq<Token>)
    requires |toks| > 3 && toks[0].kind == SEP && toks[3].kind == LPAREN
    requires |y| > 3 && y[0].kind == SEP && y[3].kind == LPAREN && SameRest(toks, y)
    ensures SameLines(toks, y)
  {
    assert SymbolsOf(toks)[0].kind == SEP && SymbolsOf(toks)[3].kind == LPAREN;
    assert SymbolsOf(y)[0].kind == SEP && SymbolsOf(y)[3].kind == LPAREN;
  }

  lemma {:induction false} SepLine(toks: seq<Token>, y: seq<Token>)
    requires D.Clean(toks) && At(toks, {SEP}) && At(toks[1..], {COLON}) && At(toks[1..][1..], {IDENTIFIER})
    requires ParameterList(toks[1..][1..][1..]).Done? && SameRest(ParameterList(toks[1..][1..][1..]).rest, y)
    ensures SameLines(toks, WriteSep(toks[2].lexeme, ParameterList(toks[1..][1..][1..]).value, y))
  {
    hide Soundness.Scanned, SameRest, SameLines, Parameters, WriteSep;
    var behind := toks[1..][1..][1..];
    assert behind == toks[3..];
    S.NextIsClean(toks);
    S.NextIsClean(toks[1..]);
    S.NextIsClean(toks[1..][1..]);
    if !At(behind, {LPAREN}) {
      BareSep(toks, y);
    } else if At(behind[1..], {RPAREN}) {
      S.SecondIsClean(behind);
      AfterWord(behind[1..], RPAREN, ")", y);
      SepWithParameters(toks, [], y);
    } else {
      S.NextIsClean(behind);
      S.NoTagsYet();
      AfterParameters([], behind[1..], y);
      var all := Parameters([], behind[1..]).value;
      assert all[0..] == all;
      SepWithParameters(toks, all, y);
    }
  }

  lemma {:induction false} TagsYield(before: seq<string>, toks: seq<Token>, y: seq<Token>)
    requires D.Clean(toks) && Tags(before, toks).Done? && SameLines(Tags(before, toks).rest, y)
    ensures var all := Tags(before, toks).value;
            before <= all && SameLines(toks, WriteTags(all[|before|..], y))
    decreases |toks|
  {
    hide Soundness.Scanned, LineEnd, SameLines, SameRest, Newlines;
    if At(toks, {TAG}) {
      var all, end := Tags(before, toks).value, LineEnd(toks[1..]);
      S.NextIsClean(toks);
      S.LineIsClean(toks[1..]);
      S.NewlinesAreClean(end.rest);
      TagsYield(before + [toks[0].lexeme], Newlines(end.rest), y);
      var more := WriteTags(all[|before| + 1..], y);
      assert all[|before|] == toks[0].lexeme && all[|before|..][1..] == all[|before| + 1..];
      AfterNewlines(end.rest, more);
      AfterLineEnd(toks[1..], more);
      TagLine(toks, more);
    }
  }

  lemma {:induction false} TagLine(toks: seq<Token>, y: seq<Token>)
    requires toks != [] && toks[0].kind == TAG && SameRest(toks[1..], [NewLine()] + y)
    ensures SameLines(toks, [Word(TAG, toks[0].lexeme), NewLine()] + y)
  {
    hide SameRest, SameLines;
    var line := [Word(TAG, toks[0].lexeme)] + ([NewLine()] + y);
    AfterOne(toks, Word(TAG, toks[0].lexeme), [NewLine()] + y);
    LineBegins(toks, line);
    assert line == [Word(TAG, toks[0].lexeme), NewLine()] + y;
  }

  lemma {:induction false} SepYields(toks: seq<Token>, stack: Stack, y: seq<Token>)
    requires D.Clean(toks) && At(toks, {SEP})
    ensures Yields(toks, SepOf(toks, stack), y)
    decreases |toks|, 3
  {
    hide Soundness.Scanned, BodyUntil, Close, ParameterList, Tags, Newlines, SameLines, SameRest, WriteSep;
    hide WriteAll, WriteCloser, WriteTags;
    var r := SepOf(toks, stack);
    if r.Good? && SameLines(r.rest, y) {
      var name, list := toks[1..][1..][0].lexeme, ParameterList(toks[1..][1..][1..]);
      var start := Opened("SEP", name, list.rest, stack);
      var logic := r.value.logic;
      var body := WriteAll(logic.body, WriteCloser(END_SEP, name, y));
      SepHeadIsClean(toks, stack);
      OpenedIsTop("SEP", list.rest, stack);
      SepBody(name, start.rest, start.stack, y);
      AfterLineEnd(list.rest, WriteTags(logic.tags, body));
      SepLine(toks, [NewLine()] + WriteTags(logic.tags, body));
      SepTokens(logic, y);
      assert name == toks[2].lexeme;
    }
  }

  lemma {:induction false} SepHeadIsClean(toks: seq<Token>, stack: Stack)
    requires D.Clean(toks) && At(toks, {SEP}) && At(toks[1..], {COLON}) && At(toks[1..][1..], {IDENTIFIER})
    requires ParameterList(toks[1..][1..][1..]).Done?
    requires LineEnd(ParameterList(toks[1..][1..][1..]).rest).Done?
    ensures D.Clean(LineEnd(ParameterList(toks[1..][1..][1..]).rest).rest)
  {
    hide Soundness.Scanned, ParameterList, LineEnd;
    S.NextIsClean(toks);
    S.NextIsClean(toks[1..]);
    S.NextIsClean(toks[1..][1..]);
    S.SoundParameterList(toks[1..][1..][1..]);
    S.LineIsClean(ParameterList(toks[1..][1..][1..]).rest);
  }

  /** The tags and the body of a SEP, and its closer. */
  lemma {:induction false} SepBody(name: string, start: seq<Token>, stack: Stack, y: seq<Token>)
    requires D.Clean(start) && D.Top(stack, "SEP", name)
    ensures var tags := Tags([], Newlines(start));
            tags.Done? ==>
              var body := BodyUntil({END_SEP}, [], tags.rest, stack);
              body.Good? ==>
                var r := Close(END_SEP, "SEP", body.rest, body.stack);
                r.Good? && SameLines(r.rest, y) ==>
                  SameLines(start, WriteTags(tags.value, WriteAll(body.value, WriteCloser(END_SEP, name, y))))
    decreases |start|, 8
  {
    hide Soundness.Scanned, BodyUntil, Close, Tags, Newlines, SameLines, WriteAll, WriteCloser, WriteTags;
    S.NewlinesAreClean(start);
    var tags := Tags([], Newlines(start));
    if tags.Done? {
      S.NoTagsYet();
      S.SoundTags([], Newlines(start));
      ClosedBody(END_SEP, "SEP", name, tags.rest, stack, y);
      var body := BodyUntil({END_SEP}, [], tags.rest, stack);
      if body.Good? && Close(END_SEP, "SEP", body.rest, body.stack).Good?
         && SameLines(Close(END_SEP, "SEP", body.rest, body.stack).rest, y) {
        var inside := WriteAll(body.value, WriteCloser(END_SEP, name, y));
        TagsYield([], Newlines(start), inside);
        assert tags.value[0..] == tags.value;
        AfterNewlines(start, WriteTags(tags.value, inside));
      }
    }
  }

  lemma {:induction false} SepTokens(logic: Logic, y: seq<Token>)
    ensures var body := WriteTags(logic.tags, WriteAll(logic.body, WriteCloser(END_SEP, logic.name, y)));
            Write(LogicDecl(logic), y) == WriteSep(logic.name, logic.parameters, [NewLine()] + body)
  {
    hide WriteTags, WriteAll, WriteCloser, WriteParameters;
  }

  // ---- Data blocks ----

  lemma {:induction false} ObjectYields(toks: seq<Token>, stack: Stack, y: seq<Token>)
    requires D.Clean(toks) && At(toks, {OBJECT})
    ensures Yields(toks, ObjectOf(toks, stack), y)
    decreases |toks|, 3
  {
    hide Soundness.Scanned, Entries, Close, OpeningName, Newlines, SameLines, SameRest, WriteEntries, WriteCloser;
    hide WriteLabel, D.Reaches, SameBlocks;
    var r := ObjectOf(toks, stack);
    if r.Good? && SameLines(r.rest, y) {
      S.NextIsClean(toks);
      S.OpeningIsClean("object", toks[1..], stack);
      OpenedIsTop("object", toks[1..], stack);
      var start := OpeningName("object", toks[1..], stack);
      S.NewlinesAreClean(start.rest);
      var here, name := Newlines(start.rest), start.value;
      D.KeptEntries([], here, start.stack);
      var entries := Entries([], here, start.stack);
      D.TopIsKept(start.stack, entries.stack, "object", name);
      CloserYield(END_OBJECT, "object", name, entries.rest, entries.stack, y);
      EntriesYield([], here, start.stack, WriteCloser(END_OBJECT, name, y));
      assert entries.value[0..] == entries.value;
      var inside := WriteEntries(entries.value, WriteCloser(END_OBJECT, name, y));
      AfterNewlines(start.rest, inside);
      AfterOpened("object", toks[1..], stack, inside);
      KeywordBegins(toks, OBJECT, WriteLabel(name, inside));
      assert Write(r.value, y) == [Word(OBJECT, "")] + WriteLabel(name, inside);
    }
  }

  lemma {:induction false} EntriesYield(before: seq<Entry>, toks: seq<Token>, stack: Stack, y: seq<Token>)
    requires D.Clean(toks) && stack != []
    ensures var r := Entries(before, toks, stack);
            r.Good? && SameLines(r.rest, y) ==>
              before <= r.value && SameLines(toks, WriteEntries(r.value[|before|..], y))
    decreases |toks|, 5
  {
    hide Soundness.Scanned, EntryOf, HasEntry, CloserKind, Newlines, SameLines, WriteEntry;
    var r := Entries(before, toks, stack);
    if r.Good? && SameLines(r.rest, y) && !At(toks, {END_OBJECT}) {
      var entry := EntryOf(toks, stack);
      S.EntryIsClean(toks, stack);
      S.NewlinesAreClean(entry.rest);
      EntriesYield(before + [entry.value], Newlines(entry.rest), entry.stack, y);
      var more := WriteEntries(r.value[|before| + 1..], y);
      AfterNewlines(entry.rest, more);
      EntryYields(toks, stack, more);
      assert r.value[|before|] == entry.value;
      assert r.value[|before|..][1..] == r.value[|before| + 1..];
    }
  }

  lemma {:induction false} EntryYields(toks: seq<Token>, stack: Stack, y: seq<Token>)
    requires D.Clean(toks)
    ensures var r := EntryOf(toks, stack);
            r.Good? && SameLines(r.rest, y) ==> SameLines(toks, WriteEntry(r.value, y))
    decreases |toks|, 4
  {
    hide Soundness.Scanned, StartsTypedDeclaration, TypedDeclarationOf, ObjectOf, ListBlockOf, ExpressionLine;
    hide SameLines, SameRest, WriteValue, WriteType, Write;
    var r := EntryOf(toks, stack);
    if r.Good? && SameLines(r.rest, y) {
      if StartsTypedDeclaration(toks) {
        AfterTyped(toks, false, "E100", y);
        LineBegins(toks, WriteEntry(r.value, y));
      } else if At(toks, {OBJECT}) {
        ObjectYields(toks, stack, y);
      } else if At(toks, {LIST}) {
        ListYields(toks, stack, y);
      } else {
        AfterValue(toks, y);
        LineBegins(toks, WriteEntry(r.value, y));
      }
    }
  }

  lemma {:induction false} ListYields(toks: seq<Token>, stack: Stack, y: seq<Token>)
    requires D.Clean(toks) && At(toks, {LIST})
    ensures Yields(toks, ListBlockOf(toks, stack), y)
    decreases |toks|, 3
  {
    hide Soundness.Scanned, ListLines, Close, OpeningName, Newlines, SameLines, SameRest, WriteElements, WriteCloser;
    hide WriteLabel;
    var r := ListBlockOf(toks, stack);
    if r.Good? && SameLines(r.rest, y) {
      S.NextIsClean(toks);
      S.OpeningIsClean("list", toks[1..], stack);
      OpenedIsTop("list", toks[1..], stack);
      var start := OpeningName("list", toks[1..], stack);
      S.NewlinesAreClean(start.rest);
      var here, name := Newlines(start.rest), start.value;
      var elements := ListLines([], here, start.stack);
      S.SoundElements([], here, start.stack);
      CloserYield(END_LIST, "list", name, elements.rest, elements.stack, y);
      ElementsYield([], here, start.stack, WriteCloser(END_LIST, name, y));
      assert elements.value[0..] == elements.value;
      var inside := WriteElements(elements.value, WriteCloser(END_LIST, name, y));
      AfterNewlines(start.rest, inside);
      AfterOpened("list", toks[1..], stack, inside);
      KeywordBegins(toks, LIST, WriteLabel(name, inside));
      assert Write(r.value, y) == [Word(LIST, "")] + WriteLabel(name, inside);
    }
  }

  lemma {:induction false} ElementsYield(before: seq<Expr>, toks: seq<Token>, stack: Stack, y: seq<Token>)
    requires D.Clean(toks) && stack != []
    ensures var r := ListLines(before, toks, stack);
            r.Good? && SameLines(r.rest, y) ==>
              before <= r.value && SameLines(toks, WriteElements(r.value[|before|..], y))
    decreases |toks|
  {
    hide Soundness.Scanned, ExpressionLine, CloserKind, Newlines, SameLines, WriteLine;
    var r := ListLines(before, toks, stack);
    if r.Good? && SameLines(r.rest, y) && !At(toks, {END_LIST}) {
      var element := ExpressionLine(toks);
      S.SoundLine(toks);
      S.NewlinesAreClean(element.rest);
      ElementsYield(before + [element.value], Newlines(element.rest), stack, y);
      var more := WriteElements(r.value[|before| + 1..], y);
      AfterNewlines(element.rest, more);
      ExpressionLineYield(toks, more);
      assert r.value[|before|] == element.value;
      assert r.value[|before|..][1..] == r.value[|before| + 1..];
    }
  }

  // ---- Blocks with branches ----

  lemma {:induction false} IfYields(toks: seq<Token>, stack: Stack, y: seq<Token>)
    requires D.Clean(toks) && At(toks, {IF})
    ensures Yields(toks, IfOf(toks, stack), y)
    decreases |toks|, 3
  {
    hide Soundness.Scanned, Branches, Close, E.Expression, OpeningLabel, SameLines, SameRest, WriteAll, WriteBranches;
    hide WriteLast, WriteCloser, WriteHead, WriteLabel, D.Reaches, SameBlocks;
    var r := IfOf(toks, stack);
    if r.Good? && SameLines(r.rest, y) {
      var condition := E.Expression(toks[1..]);
      S.NextIsClean(toks);
      S.SoundExpression(toks[1..]);
      S.OpeningIsClean("if", condition.rest, stack);
      OpenedIsTop("if", condition.rest, stack);
      var start := OpeningLabel("if", condition.rest, stack);
      var name := start.value;
      D.KeptBranches(name, [], condition.value, start.rest, start.stack);
      var branches := Branches(name, [], condition.value, start.rest, start.stack);
      D.TopIsKept(start.stack, branches.stack, "if", name);
      var closer := WriteCloser(ENDIF, name, y);
      CloserYield(ENDIF, "if", name, branches.rest, branches.stack, y);
      BranchesYield(name, [], condition.value, start.rest, start.stack, closer);
      var (list, last) := branches.value;
      var inside := WriteAll(list[0].body, WriteBranches(name, list[1..], WriteLast(ELSE, name, last, closer)));
      AfterOpened("if", condition.rest, stack, inside);
      AfterHead(toks, IF, name, inside);
      HeadBegins(toks, IF, condition.value, name, inside);
      assert Write(r.value, y) == WriteHead(IF, list[0].condition, name, inside);
    }
  }

  /** The branches behind a condition, in front of the closer. */
  lemma {:induction false} BranchesYield(name: string, before: seq<IfBranch>, condition: Expr, toks: seq<Token>,
                                         stack: Stack, y: seq<Token>)
    requires D.Clean(toks) && stack != []
    ensures var r := Branches(name, before, condition, toks, stack);
            r.Good? && SameLines(r.rest, y) ==>
              && |r.value.0| > |before| && before <= r.value.0 && r.value.0[|before|].condition == condition
              && SameLines(toks, WriteAll(r.value.0[|before|].body,
                   WriteBranches(name, r.value.0[|before| + 1..], WriteLast(ELSE, name, r.value.1, y))))
    decreases |toks|, 7
  {
    hide Soundness.Scanned, BodyUntil, E.Expression, BranchLabel, LastBranch, SameLines, SameRest, WriteAll, WriteHead;
    hide WriteLast;
    var r := Branches(name, before, condition, toks, stack);
    if r.Good? && SameLines(r.rest, y) {
      S.SoundBody({ELSEIF, ELSE, ENDIF}, [], toks, stack);
      var body := BodyUntil({ELSEIF, ELSE, ENDIF}, [], toks, stack);
      assert body.value[0..] == body.value;
      var done := before + [IfBranch(condition, body.value)];
      if At(body.rest, {ELSEIF}) {
        ElseIfYields(name, done, body.rest, body.stack, y);
      } else {
        LastYields(name, done, body.rest, body.stack, y);
        assert r.value.0[|done|..] == [];
      }
      assert r.value.0[|before|] == done[|before|];
      BodyYields({ELSEIF, ELSE, ENDIF}, [], toks, stack,
                 WriteBranches(name, r.value.0[|before| + 1..], WriteLast(ELSE, name, r.value.1, y)));
    }
  }

  lemma {:induction false} ElseIfYields(name: string, done: seq<IfBranch>, toks: seq<Token>, stack: Stack,
                                        y: seq<Token>)
    requires D.Clean(toks) && stack != [] && At(toks, {ELSEIF})
    ensures var next := E.Expression(toks[1..]);
            next.Done? ==>
              var line := BranchLabel(name, next.rest);
              line.Done? ==>
                var r := Branches(name, done, next.value, line.rest, stack);
                r.Good? && SameLines(r.rest, y) ==>
                  && |r.value.0| > |done| && done <= r.value.0
                  && SameLines(toks, WriteBranches(name, r.value.0[|done|..], WriteLast(ELSE, name, r.value.1, y)))
    decreases |toks|, 6
  {
    hide Soundness.Scanned, Branches, E.Expression, BranchLabel, SameLines, SameRest, WriteAll, WriteHead, WriteLast;
    hide WriteLabel;
    var next := E.Expression(toks[1..]);
    if next.Done? && BranchLabel(name, next.rest).Done? {
      S.NextIsClean(toks);
      S.SoundExpression(toks[1..]);
      S.BranchIsClean(name, next.rest);
      var line := BranchLabel(name, next.rest);
      var r := Branches(name, done, next.value, line.rest, stack);
      if r.Good? && SameLines(r.rest, y) {
        BranchesYield(name, done, next.value, line.rest, stack, y);
        var list, end := r.value.0[|done|..], WriteLast(ELSE, name, r.value.1, y);
        assert list[0] == r.value.0[|done|] && list[1..] == r.value.0[|done| + 1..];
        var inside := WriteAll(list[0].body, WriteBranches(name, list[1..], end));
        AfterBranch(name, next.rest, inside);
        AfterHead(toks, ELSEIF, name, inside);
        HeadBegins(toks, ELSEIF, next.value, name, inside);
        assert WriteBranches(name, list, end) == WriteHead(ELSEIF, next.value, name, inside);
      }
    }
  }

  lemma {:induction false} LastYields(name: string, done: seq<IfBranch>, toks: seq<Token>, stack: Stack,
                                      y: seq<Token>)
    requires D.Clean(toks) && stack != []
    ensures var r := LastBranch(name, done, toks, stack);
            r.Good? && SameLines(r.rest, y) ==>
              r.value.0 == done && SameLines(toks, WriteLast(ELSE, name, r.value.1, y))
    decreases |toks|, 6
  {
    hide Soundness.Scanned, BodyUntil, BranchLabel, SameLines, SameRest, WriteAll, WriteLabel;
    var r := LastBranch(name, done, toks, stack);
    if At(toks, {ELSE}) && r.Good? && SameLines(r.rest, y) {
      LastBodyYields(ELSE, {ELSEIF, ELSE, ENDIF}, name, toks, stack, y);
    }
  }

  /** A branch without a condition. */
  lemma {:induction false} LastBodyYields(keyword: Kind, endings: set<Kind>, name: string, toks: seq<Token>,
                                          stack: Stack, y: seq<Token>)
    requires D.Clean(toks) && stack != [] && keyword in {ELSE, FINALLY} && At(toks, {keyword}) && EOF !in endings
    ensures var line := BranchLabel(name, toks[1..]);
            line.Done? ==>
              var r := BodyUntil(endings, [], line.rest, stack);
              r.Good? && SameLines(r.rest, y) ==>
                SameLines(toks, WriteLast(keyword, name, Body(r.value), y))
    decreases |toks|, 5
  {
    hide Soundness.Scanned, BodyUntil, BranchLabel, SameLines, SameRest, WriteAll, WriteLabel;
    S.NextIsClean(toks);
    var line := BranchLabel(name, toks[1..]);
    if line.Done? {
      S.BranchIsClean(name, toks[1..]);
      var r := BodyUntil(endings, [], line.rest, stack);
      if r.Good? && SameLines(r.rest, y) {
        BodyYields(endings, [], line.rest, stack, y);
        assert r.value[0..] == r.value;
        AfterBranch(name, toks[1..], WriteAll(r.value, y));
        KeywordBegins(toks, keyword, WriteLabel(name, WriteAll(r.value, y)));
      }
    }
  }

  lemma {:induction false} TryYields(toks: seq<Token>, stack: Stack, y: seq<Token>)
    requires D.Clean(toks) && At(toks, {TRY})
    ensures Yields(toks, TryOf(toks, stack), y)
    decreases |toks|, 3
  {
    hide Soundness.Scanned, BodyUntil, Catches, FinallyOf, Close, OpeningLabel, SameLines, SameRest, WriteAll;
    hide WriteCatches, WriteLast, WriteCloser, WriteLabel;
    var r := TryOf(toks, stack);
    if r.Good? && SameLines(r.rest, y) {
      S.NextIsClean(toks);
      S.OpeningIsClean("try", toks[1..], stack);
      OpenedIsTop("try", toks[1..], stack);
      var start := OpeningLabel("try", toks[1..], stack);
      TryParts(start.value, start.rest, start.stack, y);
      var s := r.value;
      var inside := WriteAll(s.body, WriteCatches(s.blockLabel, s.catches,
                    WriteLast(FINALLY, s.blockLabel, s.finallyBody, WriteCloser(ENDTRY, s.blockLabel, y))));
      AfterOpened("try", toks[1..], stack, inside);
      KeywordBegins(toks, TRY, WriteLabel(s.blockLabel, inside));
      assert Write(s, y) == [Word(TRY, "")] + WriteLabel(s.blockLabel, inside);
    }
  }

  lemma {:induction false} TryParts(name: string, start: seq<Token>, stack: Stack, y: seq<Token>)
    requires D.Clean(start) && D.Top(stack, "try", name)
    ensures var body := BodyUntil({CATCH, FINALLY, ENDTRY}, [], start, stack);
            body.Good? ==>
              var catches := Catches(name, [], body.rest, body.stack);
              catches.Good? ==>
                var last := FinallyOf(name, catches.rest, catches.stack);
                last.Good? ==>
                  var end := Close(ENDTRY, "try", last.rest, last.stack);
                  end.Good? && SameLines(end.rest, y) ==>
                    SameLines(start, WriteAll(body.value, WriteCatches(name, catches.value,
                                     WriteLast(FINALLY, name, last.value, WriteCloser(ENDTRY, name, y)))))
    decreases |start|, 8
  {
    hide Soundness.Scanned, BodyUntil, Catches, FinallyOf, Close, SameLines, WriteAll, WriteCatches, WriteLast;
    hide WriteCloser, CheckedAll, CheckedCatches, D.Reaches, SameBlocks;
    var endings := {CATCH, FINALLY, ENDTRY};
    var body := BodyUntil(endings, [], start, stack);
    if body.Good? {
      S.SoundBody(endings, [], start, stack);
      D.KeptBody(endings, [], start, stack);
      D.TopIsKept(stack, body.stack, "try", name);
      var catches := Catches(name, [], body.rest, body.stack);
      if catches.Good? {
        S.SoundCatches(name, [], body.rest, body.stack);
        D.KeptCatches(name, [], body.rest, body.stack);
        D.TopIsKept(body.stack, catches.stack, "try", name);
        var last := FinallyOf(name, catches.rest, catches.stack);
        if last.Good? && Close(ENDTRY, "try", last.rest, last.stack).Good?
           && SameLines(Close(ENDTRY, "try", last.rest, last.stack).rest, y) {
          D.KeptFinally(name, catches.rest, catches.stack);
          D.TopIsKept(catches.stack, last.stack, "try", name);
          CloserYield(ENDTRY, "try", name, last.rest, last.stack, y);
          var closer := WriteCloser(ENDTRY, name, y);
          FinallyYields(name, catches.rest, catches.stack, closer);
          var end := WriteLast(FINALLY, name, last.value, closer);
          CatchesYield(name, [], body.rest, body.stack, end);
          BodyYields(endings, [], start, stack, WriteCatches(name, catches.value, end));
          assert body.value[0..] == body.value && catches.value[0..] == catches.value;
        }
      }
    }
  }

  lemma {:induction false} FinallyYields(name: string, toks: seq<Token>, stack: Stack, y: seq<Token>)
    requires D.Clean(toks) && stack != []
    ensures var r := FinallyOf(name, toks, stack);
            r.Good? && SameLines(r.rest, y) ==> SameLines(toks, WriteLast(FINALLY, name, r.value, y))
    decreases |toks|, 6
  {
    hide Soundness.Scanned, BodyUntil, BranchLabel, SameLines, SameRest, WriteAll, WriteLabel;
    var r := FinallyOf(name, toks, stack);
    if At(toks, {FINALLY}) && r.Good? && SameLines(r.rest, y) {
      LastBodyYields(FINALLY, {ENDTRY}, name, toks, stack, y);
    }
  }

  lemma {:induction false} CatchesYield(name: string, before: seq<CatchBranch>, toks: seq<Token>, stack: Stack,
                                        y: seq<Token>)
    requires D.Clean(toks) && stack != []
    ensures var r := Catches(name, before, toks, stack);
            r.Good? && SameLines(r.rest, y) ==>
              before <= r.value && SameLines(toks, WriteCatches(name, r.value[|before|..], y))
    decreases |toks|, 7
  {
    hide Soundness.Scanned, BodyUntil, BranchLabel, Catching, SameLines, SameRest, WriteAll, WriteLabel, CheckedAll;
    var r := Catches(name, before, toks, stack);
    if r.Good? && SameLines(r.rest, y) && At(toks, {CATCH}) {
      var behind := toks[1..][1..];
      S.NextIsClean(toks);
      S.NextIsClean(toks[1..]);
      S.BranchIsClean(name, behind);
      var line := BranchLabel(name, behind);
      S.SoundBody({CATCH, FINALLY, ENDTRY}, [], line.rest, stack);
      var body := BodyUntil({CATCH, FINALLY, ENDTRY}, [], line.rest, stack);
      var one := CatchBranch(toks[1].lexeme, body.value);
      CatchesYield(name, before + [one], body.rest, body.stack, y);
      var more := WriteCatches(name, r.value[|before| + 1..], y);
      BodyYields({CATCH, FINALLY, ENDTRY}, [], line.rest, stack, more);
      assert body.value[0..] == body.value;
      CatchLine(toks, name, WriteAll(body.value, more));
      assert r.value[|before|] == one;
      assert r.value[|before|..][1..] == r.value[|before| + 1..];
    }
  }

  lemma {:induction false} CatchLine(toks: seq<Token>, name: string, y: seq<Token>)
    requires Ended(toks) && At(toks, {CATCH}) && At(toks[1..], {IDENTIFIER})
    requires BranchLabel(name, toks[1..][1..]).Done? && SameLines(BranchLabel(name, toks[1..][1..]).rest, y)
    ensures SameLines(toks, [Word(CATCH, ""), Word(IDENTIFIER, toks[1].lexeme)] + WriteLabel(name, y))
  {
    hide BranchLabel, SameLines, SameRest, WriteLabel;
    var line := WriteLabel(name, y);
    AfterBranch(name, toks[1..][1..], y);
    AfterWord(toks[1..], IDENTIFIER, toks[1].lexeme, line);
    KeywordBegins(toks, CATCH, [Word(IDENTIFIER, toks[1].lexeme)] + line);
    assert [Word(CATCH, "")] + ([Word(IDENTIFIER, toks[1].lexeme)] + line)
        == [Word(CATCH, ""), Word(IDENTIFIER, toks[1].lexeme)] + line;
  }

  // ---- Programs ----

  lemma {:induction false} ProgramFromYields(before: seq<Stmt>, seenOther: bool, toks: seq<Token>)
    requires D.Clean(toks) && ProgramFrom(before, seenOther, toks).Ok?
    ensures var program := ProgramFrom(before, seenOther, toks).value;
            before <= program && SameLines(toks, WriteAll(program[|before|..], [Word(EOF, "")]))
    decreases |toks|
  {
    hide Soundness.Scanned, Statement, CloserKind, Newlines, SameLines, Write;
    var program, end := ProgramFrom(before, seenOther, toks).value, [Word(EOF, "")];
    if At(toks, {EOF}) {
      EndsAlike(toks);
    } else {
      var s := TopStatement(toks, seenOther);
      S.StatementIsClean(toks, [], true);
      S.NewlinesAreClean(s.rest);
      ProgramFromYields(before + [s.value], seenOther || !s.value.ImportStmt?, Newlines(s.rest));
      var more := WriteAll(program[|before| + 1..], end);
      AfterNewlines(s.rest, more);
      StatementYields(toks, [], true, more);
      assert program[|before|] == s.value;
      assert program[|before|..][1..] == program[|before| + 1..];
    }
  }

  lemma {:induction false} EndsAlike(toks: seq<Token>)
    requires Ended(toks) && At(toks, {EOF})
    ensures SameLines(toks, [Word(EOF, "")])
  {
    assert SymbolsOf(toks)[0].kind == EOF && SymbolsOf([Word(EOF, "")])[0].kind == EOF;
  }

  /** An accepted program has, line for line, the symbols of its written form. */
  lemma {:induction false} AcceptedIsWritten(toks: seq<Token>)
    requires D.Clean(toks) && Program(toks).Ok?
    ensures SameLines(toks, ProgramTokens(Program(toks).value))
  {
    hide Soundness.Scanned, ProgramFrom, Newlines, SameLines, WriteAll;
    S.NewlinesAreClean(toks);
    ProgramFromYields([], false, Newlines(toks));
    var program := Program(toks).value;
    assert program[0..] == program;
    AfterNewlines(toks, ProgramTokens(program));
  }
}
