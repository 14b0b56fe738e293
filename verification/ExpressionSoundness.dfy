/** Whatever the expression parser accepts, it accepts as a tree of the ladder whose written
    form is exactly the part of the input that was consumed. */
module ExpressionSoundness {
  import opened Ast
  import opened Tokens
  import opened Expressions
  import opened Grammar

  /** Tokens as the lexer delivers them; with `plain`, the word `in` always in lower case. */
  predicate Scanned(toks: seq<Token>, plain: bool) {
    forall i | 0 <= i < |toks| :: WellFormed(toks[i]) && (plain && toks[i].kind == IN ==> toks[i].lexeme == "in")
  }

  /** Reading `written` leads from `toks` to `rest`. */
  predicate Reads(toks: seq<Token>, written: seq<Token>, rest: seq<Token>) {
    SymbolsOf(toks) == SymbolsOf(written) + SymbolsOf(rest)
  }

  lemma {:induction false} ReadsOne(toks: seq<Token>, written: Token, plain: bool)
    requires Ended(toks) && Scanned(toks, plain) && SymbolOf(toks[0]) == SymbolOf(written) && toks[0].kind != EOF
    ensures Reads(toks, [written], toks[1..]) && Ended(toks[1..]) && Scanned(toks[1..], plain)
  {
    hide WellFormed;
    hide SymbolOf;
    assert toks == [toks[0]] + toks[1..];
    SymbolsOfConcat([toks[0]], toks[1..]);
    assert SymbolsOf([written]) == [SymbolOf(written)] == SymbolsOf([toks[0]]);
  }

  lemma {:induction false} ReadsWord(toks: seq<Token>, kind: Kind, lexeme: string, plain: bool)
    requires Ended(toks) && Scanned(toks, plain) && At(toks, {kind})
             && kind !in {EOF, LABEL, TAG, NUMBER, STRING, TRUE, FALSE}
    requires kind == IDENTIFIER ==> toks[0].lexeme == lexeme
    ensures Reads(toks, [Word(kind, lexeme)], toks[1..]) && Ended(toks[1..]) && Scanned(toks[1..], plain)
  {
    hide Reads, Scanned;
    ReadsOne(toks, Word(kind, lexeme), plain);
  }

  lemma {:induction false} ReadsThen(a: seq<Token>, first: seq<Token>, b: seq<Token>, second: seq<Token>, c: seq<Token>)
    requires Reads(a, first, b) && Reads(b, second, c)
    ensures Reads(a, first + second, c)
  {
    hide Scanned;
    hide SymbolsOf;
    SymbolsOfConcat(first, second);
  }

  /** What holds of a parsed tree at some rung. */
  predicate Sound(toks: seq<Token>, r: Parsed<Expr>, rank: nat, plain: bool) {
    r.Done? ==>
      && Reads(toks, TokensOf(r.value), r.rest) && Scanned(r.rest, plain)
      && Ladder(r.value, plain) && Rank(r.value) >= rank
  }

  /** An operator between two operands that have been read. */
  lemma {:induction false} ReadsBinary(toks: seq<Token>, left: Expr, operator: string, middle: seq<Token>,
                                       b: seq<Token>, right: Expr, rest: seq<Token>)
    requires Reads(toks, TokensOf(left), middle)
    requires Reads(middle, OperatorTokens(operator), b)
    requires Reads(b, TokensOf(right), rest)
    ensures Reads(toks, TokensOf(BinaryExpr(left, operator, right)), rest)
  {
    hide Reads, Scanned, SymbolOf;
    ReadsThen(middle, OperatorTokens(operator), b, TokensOf(right), rest);
    ReadsThen(toks, TokensOf(left), middle, OperatorTokens(operator) + TokensOf(right), rest);
  }

  /** An operator token is the written form of its own lexeme. */
  lemma {:induction false} ReadsOperator(toks: seq<Token>, plain: bool)
    requires Ended(toks) && Scanned(toks, plain) && toks[0].kind in SPELLED
    ensures Reads(toks, OperatorTokens(toks[0].lexeme), toks[1..]) && Ended(toks[1..]) && Scanned(toks[1..], plain)
    ensures OperatorKind(toks[0].lexeme) == Some(toks[0].kind) && OperatorRank(toks[0].lexeme) == KindRank(toks[0].kind)
    ensures plain && IsIn(toks[0].lexeme) ==> toks[0].lexeme == "in"
  {
    hide WellFormed;
    hide Reads;
    hide SymbolsOf;
    hide OperatorKind;
    hide OperatorRank;
    hide KindRank;
    var t := toks[0];
    assert WellFormed(t);
    OperatorSpelling(t);
    ReadsOne(toks, Word(t.kind, t.lexeme), plain);
  }

  lemma {:induction false} OperatorSpelling(t: Token)
    requires WellFormed(t) && t.kind in SPELLED
    ensures OperatorKind(t.lexeme) == Some(t.kind) && t.lexeme != "not in"
    ensures t.kind != IN ==> !IsIn(t.lexeme)
    ensures IsIn(t.lexeme) ==> t.kind == IN
    ensures OperatorRank(t.lexeme) == KindRank(t.kind)
  {
    assert Lower("not in") == "not in";
    if t.kind == IN {
      assert |t.lexeme| == |Lower(t.lexeme)| == 2;
      assert Lower(t.lexeme)[0] == 'i' == LowerChar(t.lexeme[0]);
    } else {
      var s := t.lexeme;
      assert s == Spelling(t.kind).value;
      assert s[0] !in {'i', 'I'};
      assert LowerChar(s[0]) != 'i' && Lower(s)[0] == LowerChar(s[0]);
    }
  }

  // ---- One lemma for each rung ----

  lemma {:induction false} SoundBinaryExpr(toks: seq<Token>, left: Parsed<Expr>, operator: string, b: seq<Token>,
                                           right: Parsed<Expr>, plain: bool)
    requires left.Done? && Sound(toks, left, 0, plain)
    requires Reads(left.rest, OperatorTokens(operator), b)
    requires right.Done? && Sound(b, right, 0, plain)
    requires operator == "not in" || OperatorKind(operator).Some?
    requires plain && IsIn(operator) ==> operator == "in"
    requires OperandsFit(left.value, operator, right.value)
    ensures Sound(toks, Done(BinaryExpr(left.value, operator, right.value), right.rest), OperatorRank(operator), plain)
  {
    hide Reads;
    hide Scanned;
    hide OperatorTokens;
    hide OperatorKind;
    hide OperatorRank;
    hide OperandsFit;
    hide TokensOf;
    ReadsBinary(toks, left.value, operator, left.rest, b, right.value, right.rest);
  }

  lemma {:induction false} SoundExpression(toks: seq<Token>, plain: bool)
    requires Ended(toks) && Scanned(toks, plain)
    ensures Sound(toks, Expression(toks), 0, plain)
    decreases |toks|, 12
  {
    hide Reads, Scanned, TokensOf, Ladder, Rank, Coalesce, SymbolOf;
    SoundCoalesce(toks, plain);
  }

  lemma {:induction false} SoundCoalesce(toks: seq<Token>, plain: bool)
    requires Ended(toks) && Scanned(toks, plain)
    ensures Sound(toks, Coalesce(toks), 0, plain)
    decreases |toks|, 11
  {
    hide Or, Reads, Scanned, TokensOf, Ladder, Rank, OperatorTokens, OperatorKind, OperatorRank, Scanned, SymbolOf;
    SoundOr(toks, plain);
    var left := Or(toks);
    if left.Done? && At(left.rest, {EMPTY_COALESCE}) {
      ReadsOperator(left.rest, plain);
      SoundCoalesce(left.rest[1..], plain);
      var right := Coalesce(left.rest[1..]);
      if right.Done? {
        SoundBinaryExpr(toks, left, left.rest[0].lexeme, left.rest[1..], right, plain);
      }
    }
  }

  lemma {:induction false} SoundOr(toks: seq<Token>, plain: bool)
    requires Ended(toks) && Scanned(toks, plain)
    ensures Sound(toks, Or(toks), 1, plain)
    decreases |toks|, 10, 1
  {
    hide Reads, Scanned, TokensOf, Ladder, Rank, Binary, SymbolOf;
    SoundBinary(OrRung, toks, plain);
  }

  lemma {:induction false} SoundAnd(toks: seq<Token>, plain: bool)
    requires Ended(toks) && Scanned(toks, plain)
    ensures Sound(toks, And(toks), 2, plain)
    decreases |toks|, 9, 1
  {
    hide Reads, Scanned, TokensOf, Ladder, Rank, Binary, SymbolOf;
    SoundBinary(AndRung, toks, plain);
  }

  lemma {:induction false} SoundTerm(toks: seq<Token>, plain: bool)
    requires Ended(toks) && Scanned(toks, plain)
    ensures Sound(toks, Term(toks), 6, plain)
    decreases |toks|, 5, 1
  {
    hide Reads, Scanned, TokensOf, Ladder, Rank, Binary, SymbolOf;
    SoundBinary(TermRung, toks, plain);
  }

  lemma {:induction false} SoundFactor(toks: seq<Token>, plain: bool)
    requires Ended(toks) && Scanned(toks, plain)
    ensures Sound(toks, Factor(toks), 7, plain)
    decreases |toks|, 4, 1
  {
    hide Reads, Scanned, TokensOf, Ladder, Rank, Binary, SymbolOf;
    SoundBinary(FactorRung, toks, plain);
  }

  lemma {:induction false} SoundOperand(rung: Rung, toks: seq<Token>, plain: bool)
    requires Ended(toks) && Scanned(toks, plain)
    ensures Sound(toks, Operand(rung, toks), RungRank(rung) + 1, plain)
    decreases |toks|, Height(rung) - 1, 2
  {
    hide Reads, Scanned, TokensOf, Ladder, Rank, And, Equality, Factor, Unary, SymbolOf;
    match rung
    case OrRung => SoundAnd(toks, plain);
    case AndRung => SoundEquality(toks, plain);
    case TermRung => SoundFactor(toks, plain);
    case FactorRung => SoundUnary(toks, plain);
  }

  lemma {:induction false} SoundBinary(rung: Rung, toks: seq<Token>, plain: bool)
    requires Ended(toks) && Scanned(toks, plain)
    ensures Sound(toks, Binary(rung, toks), RungRank(rung), plain)
    decreases |toks|, Height(rung), 0
  {
    hide Reads, TokensOf, Ladder, Rank, Operand, More, Scanned, SymbolOf;
    SoundOperand(rung, toks, plain);
    var left := Operand(rung, toks);
    if left.Done? {
      SoundMore(rung, toks, left, plain);
    }
  }

  lemma {:induction false} SoundMore(rung: Rung, toks: seq<Token>, left: Parsed<Expr>, plain: bool)
    requires left.Done? && Ended(left.rest) && |left.rest| < |toks|
    requires Sound(toks, left, RungRank(rung), plain)
    ensures Sound(toks, More(rung, left.value, left.rest), RungRank(rung), plain)
    decreases |left.rest|, Height(rung), 0
  {
    hide Reads, TokensOf, Ladder, Rank, Operand, OperatorTokens, OperatorKind, OperatorRank, Scanned, SymbolOf;
    if At(left.rest, Operators(rung)) {
      ReadsOperator(left.rest, plain);
      SoundOperand(rung, left.rest[1..], plain);
      var right := Operand(rung, left.rest[1..]);
      if right.Done? {
        SoundBinaryExpr(toks, left, left.rest[0].lexeme, left.rest[1..], right, plain);
        SoundMore(rung, toks, Done(BinaryExpr(left.value, left.rest[0].lexeme, right.value), right.rest), plain);
      }
    }
  }

  lemma {:induction false} SoundEquality(toks: seq<Token>, plain: bool)
    requires Ended(toks) && Scanned(toks, plain)
    ensures Sound(toks, Equality(toks), 3, plain)
    decreases |toks|, 8, 0
  {
    hide EmptyTest, Reads, TokensOf, Ladder, OperatorTokens, OperatorKind, OperatorRank, IsChainedLeft, IsChainedRight;
    hide IsStateLiteral, Scanned, SymbolOf;
    SoundEmptyTest(toks, plain);
    var left := EmptyTest(toks);
    if left.Done? && At(left.rest, {EQUAL_EQUAL, BANG_EQUAL}) {
      ReadsOperator(left.rest, plain);
      SoundEmptyTest(left.rest[1..], plain);
      var right := EmptyTest(left.rest[1..]);
      if right.Done? && OperandsFit(left.value, left.rest[0].lexeme, right.value) {
        SoundBinaryExpr(toks, left, left.rest[0].lexeme, left.rest[1..], right, plain);
      }
    }
  }

  /** The words behind an operand of a state test. */
  lemma {:induction false} ReadsState(toks: seq<Token>, state: Kind, plain: bool)
    requires Ended(toks) && Scanned(toks, plain) && At(toks, {IS}) && state in {EMPTY, EMPTYS}
    requires At(if At(toks[1..], {NOT}) then toks[2..] else toks[1..], {state})
    ensures At(toks[1..], {NOT}) ==> Reads(toks, StateTokens(true, state), toks[3..]) && Scanned(toks[3..], plain)
    ensures !At(toks[1..], {NOT}) ==> Reads(toks, StateTokens(false, state), toks[2..]) && Scanned(toks[2..], plain)
  {
    hide Reads, Scanned, SymbolOf;
    ReadsWord(toks, IS, "is", plain);
    if At(toks[1..], {NOT}) {
      ReadsWord(toks[1..], NOT, "not", plain);
      ReadsThen(toks, [Word(IS, "is")], toks[1..], [Word(NOT, "not")], toks[2..]);
      ReadsWord(toks[2..], state, "", plain);
      ReadsThen(toks, [Word(IS, "is")] + [Word(NOT, "not")], toks[2..], [Word(state, "")], toks[3..]);
    } else {
      ReadsWord(toks[1..], state, "", plain);
      assert [Word(IS, "is")] + [] == [Word(IS, "is")];
      ReadsThen(toks, [Word(IS, "is")], toks[1..], [Word(state, "")], toks[2..]);
    }
  }

  lemma {:induction false} SoundStateTest(toks: seq<Token>, operand: Parsed<Expr>, state: Kind, plain: bool)
    requires operand.Done? && Sound(toks, operand, 5, plain) && Ended(operand.rest) && At(operand.rest, {IS})
    requires state in {EMPTY, EMPTYS}
    requires At(if At(operand.rest[1..], {NOT}) then operand.rest[2..] else operand.rest[1..], {state})
    ensures var negated := At(operand.rest[1..], {NOT});
            var e := if state == EMPTY then EmptyTestExpr(operand.value, negated)
                else EmptysTestExpr(operand.value, negated);
            Sound(toks, Done(e, if negated then operand.rest[3..] else operand.rest[2..]), 4, plain)
  {
    hide Reads, Scanned, StateTokens, SymbolOf;
    ReadsState(operand.rest, state, plain);
    if At(operand.rest[1..], {NOT}) {
      ReadsThen(toks, TokensOf(operand.value), operand.rest, StateTokens(true, state), operand.rest[3..]);
    } else {
      ReadsThen(toks, TokensOf(operand.value), operand.rest, StateTokens(false, state), operand.rest[2..]);
    }
  }

  lemma {:induction false} SoundEmptyTest(toks: seq<Token>, plain: bool)
    requires Ended(toks) && Scanned(toks, plain)
    ensures Sound(toks, EmptyTest(toks), 4, plain)
    decreases |toks|, 7, 0
  {
    hide Comparison, Reads, Scanned, SymbolOf, TokensOf, Ladder, Rank;
    SoundComparison(toks, plain);
    var operand := Comparison(toks);
    if operand.Done? && At(operand.rest, {IS}) {
      var state := if At(operand.rest[1..], {NOT}) then operand.rest[2..] else operand.rest[1..];
      if At(state, {EMPTY}) {
        SoundStateTest(toks, operand, EMPTY, plain);
      } else if At(state, {EMPTYS}) {
        SoundStateTest(toks, operand, EMPTYS, plain);
      }
    }
  }

  lemma {:induction false} ReadsNotIn(toks: seq<Token>, plain: bool)
    requires Ended(toks) && Scanned(toks, plain) && At(toks, {NOT}) && Peek(toks, 1).kind == IN
    ensures Reads(toks, OperatorTokens("not in"), toks[2..]) && Ended(toks[2..]) && Scanned(toks[2..], plain)
    ensures OperatorRank("not in") == 5 && !IsIn("not in")
  {
    assert |Lower("not in")| == 6;
    hide Reads, Scanned, SymbolOf;
    ReadsWord(toks, NOT, "not", plain);
    ReadsWord(toks[1..], IN, "in", plain);
    ReadsThen(toks, [Word(NOT, "not")], toks[1..], [Word(IN, "in")], toks[2..]);
    assert [Word(NOT, "not")] + [Word(IN, "in")] == [Word(NOT, "not"), Word(IN, "in")];
  }

  lemma {:induction false} SoundComparison(toks: seq<Token>, plain: bool)
    requires Ended(toks) && Scanned(toks, plain)
    ensures Sound(toks, Comparison(toks), 5, plain)
    decreases |toks|, 6
  {
    hide Term, Reads, TokensOf, Ladder, OperatorTokens, OperatorKind, OperatorRank, IsIn, Scanned, SymbolOf;
    SoundTerm(toks, plain);
    var left := Term(toks);
    if left.Done? && AtComparison(left.rest) {
      if At(left.rest, {NOT}) {
        ReadsNotIn(left.rest, plain);
        SoundTerm(left.rest[2..], plain);
        var right := Term(left.rest[2..]);
        if right.Done? {
          SoundBinaryExpr(toks, left, "not in", left.rest[2..], right, plain);
        }
      } else {
        ReadsOperator(left.rest, plain);
        SoundTerm(left.rest[1..], plain);
        var right := Term(left.rest[1..]);
        if right.Done? {
          SoundBinaryExpr(toks, left, left.rest[0].lexeme, left.rest[1..], right, plain);
        }
      }
    }
  }

  lemma {:induction false} UnarySpelling(t: Token)
    requires WellFormed(t) && t.kind in {BANG, NOT, MINUS}
    ensures SymbolOf(UnaryToken(t.lexeme)) == SymbolOf(t)
    ensures t.lexeme in {"!", "-"} || Lower(t.lexeme) == "not"
  {
    assert |Lower(t.lexeme)| == |t.lexeme|;
  }

  lemma {:induction false} SoundUnary(toks: seq<Token>, plain: bool)
    requires Ended(toks) && Scanned(toks, plain)
    ensures Sound(toks, Unary(toks), 8, plain)
    decreases |toks|, 3, 1
  {
    hide Power, Reads, SymbolOf, UnaryToken, Lower;
    if At(toks, {BANG, NOT, MINUS}) {
      var operator := toks[0].lexeme;
      UnarySpelling(toks[0]);
      ReadsOne(toks, UnaryToken(operator), plain);
      SoundUnary(toks[1..], plain);
      var operand := Unary(toks[1..]);
      if operand.Done? {
        ReadsThen(toks, [UnaryToken(operator)], toks[1..], TokensOf(operand.value), operand.rest);
      }
    } else {
      SoundPower(toks, plain);
    }
  }

  lemma {:induction false} SoundPower(toks: seq<Token>, plain: bool)
    requires Ended(toks) && Scanned(toks, plain)
    ensures Sound(toks, Power(toks), 9, plain)
    decreases |toks|, 2, 0
  {
    hide Postfix, Unary, Reads, TokensOf, Ladder, OperatorTokens, OperatorKind, OperatorRank, Scanned, SymbolOf;
    SoundPostfix(toks, plain);
    var base := Postfix(toks);
    if base.Done? && At(base.rest, {POWER}) {
      ReadsOperator(base.rest, plain);
      SoundUnary(base.rest[1..], plain);
      var exponent := Unary(base.rest[1..]);
      if exponent.Done? {
        SoundBinaryExpr(toks, base, base.rest[0].lexeme, base.rest[1..], exponent, plain);
      }
    }
  }

  lemma {:induction false} SoundPostfix(toks: seq<Token>, plain: bool)
    requires Ended(toks) && Scanned(toks, plain)
    ensures Sound(toks, Postfix(toks), 10, plain)
    decreases |toks|, 1
  {
    hide Primary, Suffixes, Reads, Scanned, TokensOf, Ladder, Rank, SymbolOf;
    SoundPrimary(toks, plain);
    var target := Primary(toks);
    if target.Done? {
      SoundSuffixes(toks, target, plain);
    }
  }

  function Bracket(kind: Kind): Token {
    Word(kind, if kind == LPAREN then "(" else if kind == RPAREN then ")" else if kind == LBRACKET then "[" else "]")
  }

  /** A token, an expression, and a closing token. */
  lemma {:induction false} ReadsBracketed(toks: seq<Token>, open: Kind, inside: seq<Token>, b: seq<Token>, close: Kind,
                                          plain: bool)
    requires (open == LPAREN && close == RPAREN) || (open == LBRACKET && close == RBRACKET)
    requires Ended(toks) && Scanned(toks, plain) && At(toks, {open})
    requires Reads(toks[1..], inside, b)
    requires Ended(b) && Scanned(b, plain) && At(b, {close})
    ensures Reads(toks, [Bracket(open)] + (inside + [Bracket(close)]), b[1..])
    ensures Ended(b[1..]) && Scanned(b[1..], plain)
  {
    hide Reads, Scanned, SymbolOf;
    ReadsWord(toks, open, Bracket(open).lexeme, plain);
    ReadsWord(b, close, Bracket(close).lexeme, plain);
    ReadsThen(toks[1..], inside, b, [Bracket(close)], b[1..]);
    ReadsThen(toks, [Bracket(open)], toks[1..], inside + [Bracket(close)], b[1..]);
  }

  lemma {:induction false} SoundSuffixes(toks: seq<Token>, target: Parsed<Expr>, plain: bool)
    requires target.Done? && Ended(target.rest) && |target.rest| < |toks|
    requires Sound(toks, target, 10, plain)
    ensures Sound(toks, Suffixes(target.value, target.rest), 10, plain)
    decreases |target.rest|, 13
  {
    hide Expression, Arguments, Reads, Scanned, SymbolOf, ElementsLadder, NamedLadder;
    var e, middle := target.value, target.rest;
    if At(middle, {LBRACKET}) {
      SoundIndex(toks, target, plain);
      var index := Expression(middle[1..]);
      if index.Done? && At(index.rest, {RBRACKET}) {
        SoundSuffixes(toks, Done(IndexExpr(e, index.value), index.rest[1..]), plain);
      }
    } else if At(middle, {DOT}) && At(middle[1..], {IDENTIFIER}) {
      if At(middle[2..], {LPAREN}) {
        SoundMemberCall(toks, target, plain);
        var arguments := Arguments(middle[3..]);
        if arguments.Done? {
          SoundSuffixes(toks, Done(MemberCallExpr(e, middle[1].lexeme, arguments.value.0, arguments.value.1),
                                   arguments.rest), plain);
        }
      } else {
        SoundMember(toks, target, plain);
        SoundSuffixes(toks, Done(MemberExpr(e, middle[1].lexeme), middle[2..]), plain);
      }
    }
  }

  lemma {:induction false} SoundIndex(toks: seq<Token>, target: Parsed<Expr>, plain: bool)
    requires target.Done? && Ended(target.rest) && |target.rest| < |toks|
    requires Sound(toks, target, 10, plain) && At(target.rest, {LBRACKET})
    ensures var index := Expression(target.rest[1..]);
            index.Done? && At(index.rest, {RBRACKET}) ==>
            Sound(toks, Done(IndexExpr(target.value, index.value), index.rest[1..]), 10, plain)
    decreases |target.rest|, 12
  {
    hide Expression, Reads, Scanned, SymbolOf;
    var e, middle := target.value, target.rest;
    SuffixScanned(middle, plain);
    SoundExpression(middle[1..], plain);
    var index := Expression(middle[1..]);
    if index.Done? && At(index.rest, {RBRACKET}) {
      ReadsBracketed(middle, LBRACKET, TokensOf(index.value), index.rest, RBRACKET, plain);
      ReadsThen(toks, TokensOf(e), middle, [Word(LBRACKET, "[")] + (TokensOf(index.value) + [Word(RBRACKET, "]")]),
                index.rest[1..]);
    }
  }

  lemma {:induction false} SuffixScanned(toks: seq<Token>, plain: bool)
    requires Ended(toks) && Scanned(toks, plain) && toks[0].kind != EOF
    ensures Ended(toks[1..]) && Scanned(toks[1..], plain)
  {
    hide WellFormed;
  }

  /** The name of a member. */
  lemma {:induction false} ReadsMember(toks: seq<Token>, plain: bool)
    requires Ended(toks) && Scanned(toks, plain) && At(toks, {DOT}) && At(toks[1..], {IDENTIFIER})
    ensures Reads(toks, [Word(DOT, "."), Word(IDENTIFIER, toks[1].lexeme)], toks[2..]) && Ended(toks[2..])
            && Scanned(toks[2..], plain)
  {
    hide Reads, Scanned, SymbolOf;
    ReadsWord(toks, DOT, ".", plain);
    ReadsWord(toks[1..], IDENTIFIER, toks[1].lexeme, plain);
    ReadsThen(toks, [Word(DOT, ".")], toks[1..], [Word(IDENTIFIER, toks[1].lexeme)], toks[2..]);
    assert [Word(DOT, ".")] + [Word(IDENTIFIER, toks[1].lexeme)] == [Word(DOT, "."), Word(IDENTIFIER, toks[1].lexeme)];
  }

  lemma {:induction false} SoundMember(toks: seq<Token>, target: Parsed<Expr>, plain: bool)
    requires target.Done? && Ended(target.rest) && |target.rest| < |toks|
    requires Sound(toks, target, 10, plain) && At(target.rest, {DOT}) && At(target.rest[1..], {IDENTIFIER})
    ensures Sound(toks, Done(MemberExpr(target.value, target.rest[1].lexeme), target.rest[2..]), 10, plain)
  {
    hide Reads, Scanned, SymbolOf;
    var e, middle := target.value, target.rest;
    ReadsMember(middle, plain);
    ReadsThen(toks, TokensOf(e), middle, [Word(DOT, "."), Word(IDENTIFIER, middle[1].lexeme)], middle[2..]);
  }

  /** What an argument list that has been accepted looks like. */
  predicate SoundArgumentList(toks: seq<Token>, r: Parsed<(seq<Expr>, seq<NamedArgument>)>, plain: bool) {
    r.Done? ==>
      && Reads(toks, Joined(ElementTokens(r.value.0), NamedTokens(r.value.1)) + [Word(RPAREN, ")")], r.rest)
      && ElementsLadder(r.value.0, plain) && NamedLadder(r.value.1, plain) && Scanned(r.rest, plain)
  }

  lemma {:induction false} SoundMemberCall(toks: seq<Token>, target: Parsed<Expr>, plain: bool)
    requires target.Done? && Ended(target.rest) && |target.rest| < |toks|
    requires Sound(toks, target, 10, plain) && At(target.rest, {DOT}) && At(target.rest[1..], {IDENTIFIER})
    requires At(target.rest[2..], {LPAREN})
    ensures var arguments := Arguments(target.rest[3..]);
            arguments.Done? ==>
            Sound(toks, Done(MemberCallExpr(target.value, target.rest[1].lexeme, arguments.value.0, arguments.value.1),
                             arguments.rest), 10, plain)
    decreases |target.rest|, 12
  {
    hide Arguments, Reads, Joined, ElementTokens, NamedTokens, ElementsLadder, NamedLadder, Scanned, SymbolOf;
    var e, middle := target.value, target.rest;
    var name := middle[1].lexeme;
    ReadsMember(middle, plain);
    ReadsWord(middle[2..], LPAREN, "(", plain);
    assert middle[2..][1..] == middle[3..];
    ReadsThen(middle, [Word(DOT, "."), Word(IDENTIFIER, name)], middle[2..], [Word(LPAREN, "(")], middle[3..]);
    var opening := [Word(DOT, "."), Word(IDENTIFIER, name), Word(LPAREN, "(")];
    assert [Word(DOT, "."), Word(IDENTIFIER, name)] + [Word(LPAREN, "(")] == opening;
    SoundArguments(middle[3..], plain);
    var arguments := Arguments(middle[3..]);
    if arguments.Done? {
      var closing := Joined(ElementTokens(arguments.value.0), NamedTokens(arguments.value.1)) + [Word(RPAREN, ")")];
      ReadsThen(middle, opening, middle[3..], closing, arguments.rest);
      ReadsThen(toks, TokensOf(e), middle, opening + closing, arguments.rest);
    }
  }

  lemma {:induction false} SoundPrimary(toks: seq<Token>, plain: bool)
    requires Ended(toks) && Scanned(toks, plain)
    ensures Sound(toks, Primary(toks), 11, plain)
    decreases |toks|, 0
  {
    hide Expression, Arguments, Elements, Reads, Joined, ElementTokens, NamedTokens, ElementsLadder, NamedLadder;
    hide Scanned, SymbolOf;
    if toks[0].kind in {NUMBER, STRING, TRUE, FALSE, EMPTY, EMPTYS, FRONT, BACK} {
      SoundWord(toks, plain);
    } else if toks[0].kind == LBRACKET {
      SoundList(toks, plain);
    } else if toks[0].kind == IDENTIFIER {
      SoundName(toks, plain);
    } else if toks[0].kind == LPAREN {
      SoundGroup(toks, plain);
    }
  }

  lemma {:induction false} SoundWord(toks: seq<Token>, plain: bool)
    requires Ended(toks) && Scanned(toks, plain)
    requires toks[0].kind in {NUMBER, STRING, TRUE, FALSE, EMPTY, EMPTYS, FRONT, BACK}
    ensures Sound(toks, Primary(toks), 11, plain)
  {
    hide Expression, Arguments, Elements, Reads, Lower;
    assert WellFormed(toks[0]);
    var e := Primary(toks).value;
    assert SymbolOf(TokensOf(e)[0]) == SymbolOf(toks[0]);
    ReadsOne(toks, TokensOf(e)[0], plain);
    assert TokensOf(e) == [TokensOf(e)[0]];
  }

  lemma {:induction false} SoundList(toks: seq<Token>, plain: bool)
    requires Ended(toks) && Scanned(toks, plain) && At(toks, {LBRACKET})
    ensures Sound(toks, Primary(toks), 11, plain)
    decreases |toks|, 0, 0
  {
    hide Elements, Reads, Scanned, SymbolOf;
    SuffixScanned(toks, plain);
    var open, close := Word(LBRACKET, "["), Word(RBRACKET, "]");
    if At(toks[1..], {RBRACKET}) {
      ReadsNothing(toks[1..]);
      ReadsBracketed(toks, LBRACKET, [], toks[1..], RBRACKET, plain);
      assert ElementsLadder([], plain);
      assert ElementTokens([]) == [];
    } else {
      SoundElements(toks[1..], plain);
      var elements := Elements(toks[1..]);
      if elements.Done? {
        ReadsWord(toks, LBRACKET, "[", plain);
        ReadsThen(toks, [open], toks[1..], ElementTokens(elements.value) + [close], elements.rest);
      }
    }
  }

  lemma {:induction false} ReadsNothing(toks: seq<Token>)
    ensures Reads(toks, [], toks)
  {
    hide Scanned, SymbolOf;
    assert SymbolsOf([]) + SymbolsOf(toks) == SymbolsOf(toks);
  }

  lemma {:induction false} SoundName(toks: seq<Token>, plain: bool)
    requires Ended(toks) && Scanned(toks, plain) && At(toks, {IDENTIFIER})
    ensures Sound(toks, Primary(toks), 11, plain)
    decreases |toks|, 0, 0
  {
    hide Arguments, Reads, Joined, ElementTokens, NamedTokens, ElementsLadder, NamedLadder, Scanned, SymbolOf;
    var name, open := Word(IDENTIFIER, toks[0].lexeme), Word(LPAREN, "(");
    ReadsWord(toks, IDENTIFIER, toks[0].lexeme, plain);
    if At(toks[1..], {LPAREN}) {
      ReadsWord(toks[1..], LPAREN, "(", plain);
      ReadsThen(toks, [name], toks[1..], [open], toks[2..]);
      assert [name] + [open] == [name, open];
      SoundArguments(toks[2..], plain);
      var arguments := Arguments(toks[2..]);
      if arguments.Done? {
        var closing := Joined(ElementTokens(arguments.value.0), NamedTokens(arguments.value.1)) + [Word(RPAREN, ")")];
        ReadsThen(toks, [name, open], toks[2..], closing, arguments.rest);
      }
    }
  }

  lemma {:induction false} SoundGroup(toks: seq<Token>, plain: bool)
    requires Ended(toks) && Scanned(toks, plain) && At(toks, {LPAREN})
    ensures Sound(toks, Primary(toks), 11, plain)
    decreases |toks|, 0, 0
  {
    hide Expression, Reads, Scanned, SymbolOf;
    SuffixScanned(toks, plain);
    SoundExpression(toks[1..], plain);
    var inner := Expression(toks[1..]);
    if inner.Done? && At(inner.rest, {RPAREN}) {
      ReadsBracketed(toks, LPAREN, TokensOf(inner.value), inner.rest, RPAREN, plain);
    }
  }

  // ---- Lists of expressions ----

  /** What follows a nonempty token list when it is joined to another. */
  function Tail(more: seq<Token>): seq<Token> {
    if more == [] then [] else [Word(COMMA, ",")] + more
  }

  lemma {:induction false} JoinedIsAssociative(a: seq<Token>, b: seq<Token>, c: seq<Token>)
    ensures Joined(Joined(a, b), c) == Joined(a, Joined(b, c))
  {
    var comma := [Word(COMMA, ",")];
    assert (a + (comma + b)) + (comma + c) == a + (comma + (b + (comma + c)));
  }

  lemma {:induction false} SoundElements(toks: seq<Token>, plain: bool)
    requires Ended(toks) && Scanned(toks, plain)
    ensures var r := Elements(toks);
            r.Done? ==> Reads(toks, ElementTokens(r.value) + [Word(RBRACKET, "]")], r.rest)
                        && ElementsLadder(r.value, plain) && r.value != [] && Scanned(r.rest, plain)
    decreases |toks|, 14
  {
    hide Expression, Reads, TokensOf, Ladder, Scanned, SymbolOf;
    SoundExpression(toks, plain);
    var first, close := Expression(toks), [Word(RBRACKET, "]")];
    if first.Done? {
      if At(first.rest, {COMMA}) {
        var comma := [Word(COMMA, ",")];
        ReadsWord(first.rest, COMMA, ",", plain);
        SoundElements(first.rest[1..], plain);
        var more := Elements(first.rest[1..]);
        if more.Done? {
          ReadsThen(first.rest, comma, first.rest[1..], ElementTokens(more.value) + close, more.rest);
          ReadsThen(toks, TokensOf(first.value), first.rest, comma + (ElementTokens(more.value) + close), more.rest);
          assert ([first.value] + more.value)[1..] == more.value;
          assert TokensOf(first.value) + (comma + (ElementTokens(more.value) + close))
              == (TokensOf(first.value) + (comma + ElementTokens(more.value))) + close;
        }
      } else if At(first.rest, {RBRACKET}) {
        ReadsWord(first.rest, RBRACKET, "]", plain);
        ReadsThen(toks, TokensOf(first.value), first.rest, close, first.rest[1..]);
        assert ElementTokens([first.value]) == TokensOf(first.value);
      }
    }
  }

  lemma {:induction false} SoundArguments(toks: seq<Token>, plain: bool)
    requires Ended(toks) && Scanned(toks, plain)
    ensures SoundArgumentList(toks, Arguments(toks), plain)
    decreases |toks|, 15
  {
    hide ArgumentsFrom, Reads, TokensOf, Ladder, Scanned, SymbolOf;
    if At(toks, {RPAREN}) {
      ReadsWord(toks, RPAREN, ")", plain);
      assert [] + [Word(RPAREN, ")")] == [Word(RPAREN, ")")];
    } else {
      SoundArgumentsFrom([], [], toks, plain);
    }
  }

  /** What an argument list adds to the arguments that are there already. */
  predicate Adds(arguments: seq<Expr>, named: seq<NamedArgument>, toks: seq<Token>, tail: bool,
                 r: Parsed<(seq<Expr>, seq<NamedArgument>)>, plain: bool) {
    r.Done? ==>
      && arguments <= r.value.0 && named <= r.value.1
      && (named != [] ==> arguments == r.value.0)
      && ElementsLadder(r.value.0, plain) && NamedLadder(r.value.1, plain) && Scanned(r.rest, plain)
      && var added := Joined(ElementTokens(r.value.0[|arguments|..]), NamedTokens(r.value.1[|named|..]));
         (tail || added != []) &&
         Reads(toks, (if tail then Tail(added) else added) + [Word(RPAREN, ")")], r.rest)
  }

  lemma {:induction false} SoundArgumentsFrom(arguments: seq<Expr>, named: seq<NamedArgument>, toks: seq<Token>,
                                              plain: bool)
    requires Ended(toks) && Scanned(toks, plain) && ElementsLadder(arguments, plain) && NamedLadder(named, plain)
    ensures Adds(arguments, named, toks, false, ArgumentsFrom(arguments, named, toks), plain)
    decreases |toks|, 14
  {
    hide Adds, Expression, ArgumentsEnd, Reads, TokensOf, Ladder, Scanned, SymbolOf;
    if At(toks, {IDENTIFIER}) && Peek(toks, 1).kind == EQUAL {
      if !HasName(named, toks[0].lexeme) {
        SoundNamedArgument(arguments, named, toks, plain);
      } else {
        assert ArgumentsFrom(arguments, named, toks).Fail?;
        AddsFails(arguments, named, toks, plain);
      }
    } else if named == [] {
      SoundPositional(arguments, toks, plain);
    } else {
      AddsFails(arguments, named, toks, plain);
    }
  }

  lemma {:induction false} AddsFails(arguments: seq<Expr>, named: seq<NamedArgument>, toks: seq<Token>, plain: bool)
    requires Ended(toks) && ArgumentsFrom(arguments, named, toks).Fail?
    ensures Adds(arguments, named, toks, false, ArgumentsFrom(arguments, named, toks), plain)
  {
    hide ArgumentsFrom, Scanned, SymbolOf;
  }

  lemma {:induction false} SoundPositional(arguments: seq<Expr>, toks: seq<Token>, plain: bool)
    requires Ended(toks) && Scanned(toks, plain) && ElementsLadder(arguments, plain)
    requires !(At(toks, {IDENTIFIER}) && Peek(toks, 1).kind == EQUAL)
    ensures Adds(arguments, [], toks, false, ArgumentsFrom(arguments, [], toks), plain)
    decreases |toks|, 13
  {
    hide Expression, ArgumentsEnd, Reads, TokensOf, Ladder, Joined, Tail, NamedTokens, ElementTokens, Scanned, SymbolOf;
    SoundExpression(toks, plain);
    var value := Expression(toks);
    if value.Done? {
      var next := arguments + [value.value];
      SoundArgumentsEnd(next, [], value.rest, plain);
      var r := ArgumentsEnd(next, [], value.rest);
      if r.Done? {
        var (a, n) := r.value;
        assert a[|arguments|] == next[|arguments|] == value.value;
        assert a[|arguments|..] == [value.value] + a[|next|..];
        AddedFirst(toks, value.value, a[|next|..], n, value.rest, r.rest);
      }
    }
  }

  lemma {:induction false} AddedFirst(toks: seq<Token>, e: Expr, more: seq<Expr>, named: seq<NamedArgument>,
                                      b: seq<Token>, rest: seq<Token>)
    requires Reads(toks, TokensOf(e), b)
    requires Reads(b, Tail(Joined(ElementTokens(more), NamedTokens(named))) + [Word(RPAREN, ")")], rest)
    ensures Reads(toks, Joined(ElementTokens([e] + more), NamedTokens(named)) + [Word(RPAREN, ")")], rest)
    ensures Joined(ElementTokens([e] + more), NamedTokens(named)) != []
  {
    hide Reads, TokensOf, NamedTokens, Scanned, SymbolOf;
    var close := [Word(RPAREN, ")")];
    var added := Joined(ElementTokens(more), NamedTokens(named));
    assert ([e] + more)[1..] == more;
    JoinedIsAssociative(TokensOf(e), ElementTokens(more), NamedTokens(named));
    assert Joined(TokensOf(e), added) == TokensOf(e) + Tail(added);
    ReadsThen(toks, TokensOf(e), b, Tail(added) + close, rest);
    assert TokensOf(e) + (Tail(added) + close) == (TokensOf(e) + Tail(added)) + close;
  }

  lemma {:induction false} SoundNamedArgument(arguments: seq<Expr>, named: seq<NamedArgument>, toks: seq<Token>,
                                              plain: bool)
    requires Ended(toks) && Scanned(toks, plain) && ElementsLadder(arguments, plain) && NamedLadder(named, plain)
    requires At(toks, {IDENTIFIER}) && Peek(toks, 1).kind == EQUAL && !HasName(named, toks[0].lexeme)
    ensures Adds(arguments, named, toks, false, ArgumentsFrom(arguments, named, toks), plain)
    decreases |toks|, 13
  {
    hide Expression, ArgumentsEnd, Reads, TokensOf, Ladder, Joined, Tail, NamedTokens, ElementTokens, Scanned, SymbolOf;
    var name := toks[0].lexeme;
    SuffixScanned(toks, plain);
    SuffixScanned(toks[1..], plain);
    SoundExpression(toks[2..], plain);
    var value := Expression(toks[2..]);
    if value.Done? {
      var item := NamedArgument(name, value.value);
      var next := named + [item];
      assert NamedLadder(next, plain);
      SoundArgumentsEnd(arguments, next, value.rest, plain);
      var r := ArgumentsEnd(arguments, next, value.rest);
      if r.Done? {
        var (a, n) := r.value;
        assert n[|named|] == next[|named|] == item;
        assert n[|named|..] == [item] + n[|next|..];
        assert a[|arguments|..] == [];
        AddedNamed(toks, item, n[|next|..], value.rest, r.rest, plain);
      }
    }
  }

  lemma {:induction false} AddedNamed(toks: seq<Token>, item: NamedArgument, more: seq<NamedArgument>, b: seq<Token>,
                                      rest: seq<Token>, plain: bool)
    requires Ended(toks) && Scanned(toks, plain) && At(toks, {IDENTIFIER}) && toks[0].lexeme == item.name
             && Peek(toks, 1).kind == EQUAL
    requires Reads(toks[2..], TokensOf(item.value), b)
    requires Reads(b, Tail(Joined(ElementTokens([]), NamedTokens(more))) + [Word(RPAREN, ")")], rest)
    ensures Reads(toks, Joined(ElementTokens([]), NamedTokens([item] + more)) + [Word(RPAREN, ")")], rest)
    ensures Joined(ElementTokens([]), NamedTokens([item] + more)) != []
  {
    hide Reads, TokensOf, Scanned, SymbolOf;
    var name, equal, close := Word(IDENTIFIER, item.name), Word(EQUAL, "="), [Word(RPAREN, ")")];
    ReadsWord(toks, IDENTIFIER, item.name, plain);
    ReadsWord(toks[1..], EQUAL, "=", plain);
    ReadsThen(toks, [name], toks[1..], [equal], toks[2..]);
    assert [name] + [equal] == [name, equal];
    ReadsThen(toks, [name, equal], toks[2..], TokensOf(item.value), b);
    var first := [name, equal] + TokensOf(item.value);
    assert ([item] + more)[1..] == more;
    assert NamedTokens([item] + more) == Joined(first, NamedTokens(more)) == first + Tail(NamedTokens(more));
    assert Joined(ElementTokens([]), NamedTokens(more)) == NamedTokens(more);
    assert Joined(ElementTokens([]), NamedTokens([item] + more)) == first + Tail(NamedTokens(more));
    ReadsThen(toks, first, b, Tail(NamedTokens(more)) + close, rest);
    assert first + (Tail(NamedTokens(more)) + close) == (first + Tail(NamedTokens(more))) + close;
  }

  lemma {:induction false} SoundArgumentsEnd(arguments: seq<Expr>, named: seq<NamedArgument>, toks: seq<Token>,
                                             plain: bool)
    requires Ended(toks) && Scanned(toks, plain) && ElementsLadder(arguments, plain) && NamedLadder(named, plain)
    ensures Adds(arguments, named, toks, true, ArgumentsEnd(arguments, named, toks), plain)
    decreases |toks|, 15
  {
    hide ArgumentsFrom, Reads, TokensOf, Ladder, ElementsLadder, NamedLadder, Scanned, SymbolOf;
    var close := [Word(RPAREN, ")")];
    if At(toks, {COMMA}) {
      ReadsWord(toks, COMMA, ",", plain);
      SoundArgumentsFrom(arguments, named, toks[1..], plain);
      var r := ArgumentsFrom(arguments, named, toks[1..]);
      if r.Done? {
        var added := Joined(ElementTokens(r.value.0[|arguments|..]), NamedTokens(r.value.1[|named|..]));
        ReadsThen(toks, [Word(COMMA, ",")], toks[1..], added + close, r.rest);
        assert [Word(COMMA, ",")] + (added + close) == Tail(added) + close;
      }
    } else if At(toks, {RPAREN}) {
      ReadsWord(toks, RPAREN, ")", plain);
      assert arguments[|arguments|..] == [] && named[|named|..] == [];
      assert ElementTokens([]) == [] && NamedTokens([]) == [];
      assert [] + close == close;
    }
  }
}
