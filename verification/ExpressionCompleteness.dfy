/** Every tree of the ladder is returned unchanged when its written form is parsed before a
    token that does not continue it. */
module ExpressionCompleteness {
  import opened Ast
  import opened Tokens
  import opened Expressions
  import opened Grammar

  /** The next token would continue a tree parsed at this rung. */
  predicate Continues(rank: nat, toks: seq<Token>)
    requires toks != []
  {
    || At(toks, {LPAREN})
    || (rank <= 10 && At(toks, {LBRACKET, DOT}))
    || (rank <= 9 && At(toks, {POWER}))
    || (rank <= 7 && At(toks, {STAR, SLASH, FLOOR_DIV, PERCENT}))
    || (rank <= 6 && At(toks, {PLUS, MINUS}))
    || (rank <= 5 && AtComparison(toks))
    || (rank <= 4 && At(toks, {IS}))
    || (rank <= 3 && At(toks, {EQUAL_EQUAL, BANG_EQUAL}))
    || (rank <= 2 && At(toks, {AND}))
    || (rank <= 1 && At(toks, {OR}))
    || (rank <= 0 && At(toks, {EMPTY_COALESCE}))
  }

  /** A tree of the ladder, and what may follow it at a rung. */
  predicate Before(e: Expr, rank: nat, rest: seq<Token>) {
    Ladder(e, false) && Rank(e) >= rank && Ended(rest) && !Continues(rank, rest)
  }


  const STARTERS: set<Kind> := {NUMBER, STRING, TRUE, FALSE, EMPTY, EMPTYS, FRONT, BACK, LBRACKET, IDENTIFIER, LPAREN}

  /** The subtree whose written form opens the one of `e`. */
  function Leading(e: Expr): Option<Expr> {
    match e
    case BinaryExpr(left, _, _) => Some(left)
    case EmptyTestExpr(operand, _) => Some(operand)
    case EmptysTestExpr(operand, _) => Some(operand)
    case IndexExpr(target, _) => Some(target)
    case MemberExpr(target, _) => Some(target)
    case MemberCallExpr(target, _, _, _) => Some(target)
    case _ => None
  }

  lemma {:induction false} LeadingShape(e: Expr) returns (behind: seq<Token>)
    requires Ladder(e, false) && Leading(e).Some?
    ensures TokensOf(e) == TokensOf(Leading(e).value) + behind
    ensures behind != [] && behind[0].kind != EQUAL
    ensures Ladder(Leading(e).value, false) && (Rank(e) >= 9 ==> Rank(Leading(e).value) >= 9)
  {
    hide Lower, ElementTokens, NamedTokens, Joined, ElementsLadder, NamedLadder;
    behind := TokensOf(e)[|TokensOf(Leading(e).value)|..];
  }

  /** How a tree begins: only the rungs from unary upwards may begin with a prefix operator. */
  lemma {:induction false} FirstToken(e: Expr)
    requires Ladder(e, false)
    ensures TokensOf(e)[0].kind in STARTERS + {BANG, NOT, MINUS}
    ensures Rank(e) >= 9 ==> TokensOf(e)[0].kind in STARTERS
    decreases e
  {
    hide Lower, OperatorTokens, ElementTokens, NamedTokens, Joined, ElementsLadder, NamedLadder, StateTokens;
    hide OperatorKind;
    if Leading(e).Some? {
      var _ := LeadingShape(e);
      FirstToken(Leading(e).value);
    }
  }

  /** A tree never looks like the beginning of a named argument. */
  lemma {:induction false} NotNamed(e: Expr, rest: seq<Token>)
    requires Ladder(e, false) && Ended(rest) && !At(rest, {EQUAL})
    ensures Ended(TokensOf(e) + rest)
    ensures !(At(TokensOf(e) + rest, {IDENTIFIER}) && Peek(TokensOf(e) + rest, 1).kind == EQUAL)
    decreases e
  {
    hide Lower, OperatorTokens, ElementTokens, NamedTokens, Joined, ElementsLadder, NamedLadder, StateTokens;
    hide OperatorKind;
    if Leading(e).Some? {
      var behind := LeadingShape(e);
      assert TokensOf(e) + rest == TokensOf(Leading(e).value) + (behind + rest);
      hide TokensOf, Ladder, Rank;
      NotNamed(Leading(e).value, behind + rest);
    }
  }

  // ---- Shapes ----

  /** What stands behind the left operand. */
  function After(operator: string, right: Expr, rest: seq<Token>): seq<Token> {
    OperatorTokens(operator) + (TokensOf(right) + rest)
  }

  lemma {:induction false} BinaryShape(left: Expr, operator: string, right: Expr, rest: seq<Token>)
    requires Ended(rest)
    ensures TokensOf(BinaryExpr(left, operator, right)) + rest == TokensOf(left) + After(operator, right, rest)
    ensures Ended(TokensOf(right) + rest) && Ended(After(operator, right, rest))
    ensures operator != "not in" ==>
              After(operator, right, rest) == [OperatorTokens(operator)[0]] + (TokensOf(right) + rest)
  {
    var l, o, r := TokensOf(left), OperatorTokens(operator), TokensOf(right);
    assert (l + (o + r)) + rest == l + (o + (r + rest));
  }

  lemma {:induction false} OperatorRungs(operator: string)
    requires OperatorKind(operator).Some?
    ensures operator != "not in"
    ensures OperatorTokens(operator)[0] == Word(OperatorKind(operator).value, operator)
    ensures OperatorKind(operator).value in SPELLED && KindRank(OperatorKind(operator).value) == OperatorRank(operator)
  {
    assert |Lower(operator)| == |operator|;
    assert OperatorKind("not in").None? by { assert |Lower("not in")| == 6; }
  }

  /** A binary tree read from the left: its left operand, then the operator, then the rest. */
  lemma {:induction false} BinaryParts(e: Expr, rest: seq<Token>)
    requires Ladder(e, false) && e.BinaryExpr? && Ended(rest)
    ensures Ladder(e.left, false) && Ladder(e.right, false) && OperandsFit(e.left, e.operator, e.right)
    ensures |TokensOf(e.left)| < |TokensOf(e)| && |TokensOf(e.right)| < |TokensOf(e)|
    ensures Rank(e) == OperatorRank(e.operator) && (e.operator == "not in" ==> Rank(e) == 5)
    ensures var after := After(e.operator, e.right, rest);
            && Ended(after) && Ended(TokensOf(e.right) + rest) && Ended(TokensOf(e) + rest)
            && TokensOf(e) + rest == TokensOf(e.left) + after
            && (e.operator != "not in" ==>
                  && after[0].lexeme == e.operator && after[1..] == TokensOf(e.right) + rest
                  && after[0].kind in SPELLED && KindRank(after[0].kind) == Rank(e))
  {
    hide OperatorKind, KindRank, OperandsFit, IsIn;
    BinaryShape(e.left, e.operator, e.right, rest);
    if e.operator != "not in" {
      hide OperatorRank, TokensOf;
      OperatorRungs(e.operator);
      assert OperatorTokens(e.operator) == [OperatorTokens(e.operator)[0]];
    }
  }

  // ---- One lemma for each rung ----

  lemma {:induction false} CompleteExpression(e: Expr, rest: seq<Token>)
    requires Before(e, 0, rest)
    ensures Ended(TokensOf(e) + rest) && Expression(TokensOf(e) + rest) == Done(e, rest)
    decreases |TokensOf(e)|, 60
  {
    hide Coalesce, TokensOf, Before;
    CompleteCoalesce(e, rest);
  }

  lemma {:induction false} CompleteCoalesce(e: Expr, rest: seq<Token>)
    requires Before(e, 0, rest)
    ensures Ended(TokensOf(e) + rest) && Coalesce(TokensOf(e) + rest) == Done(e, rest)
    decreases |TokensOf(e)|, 58
  {
    hide Or, After, OperatorKind, OperatorTokens, OperatorRank, TokensOf, Ladder;
    if Rank(e) >= 1 {
      CompleteOr(e, rest);
    } else {
      BinaryParts(e, rest);
      CompleteOr(e.left, After(e.operator, e.right, rest));
      CompleteCoalesce(e.right, rest);
    }
  }

  lemma {:induction false} CompleteOr(e: Expr, rest: seq<Token>)
    requires Before(e, 1, rest)
    ensures Ended(TokensOf(e) + rest) && Or(TokensOf(e) + rest) == Done(e, rest)
    decreases |TokensOf(e)|, 54
  {
    hide Binary, TokensOf, Before;
    CompleteBinary(OrRung, e, rest);
  }

  lemma {:induction false} CompleteAnd(e: Expr, rest: seq<Token>)
    requires Before(e, 2, rest)
    ensures Ended(TokensOf(e) + rest) && And(TokensOf(e) + rest) == Done(e, rest)
    decreases |TokensOf(e)|, 49
  {
    hide Binary, TokensOf, Before;
    CompleteBinary(AndRung, e, rest);
  }

  lemma {:induction false} CompleteTerm(e: Expr, rest: seq<Token>)
    requires Before(e, 6, rest)
    ensures Ended(TokensOf(e) + rest) && Term(TokensOf(e) + rest) == Done(e, rest)
    decreases |TokensOf(e)|, 29
  {
    hide Binary, TokensOf, Before;
    CompleteBinary(TermRung, e, rest);
  }

  lemma {:induction false} CompleteFactor(e: Expr, rest: seq<Token>)
    requires Before(e, 7, rest)
    ensures Ended(TokensOf(e) + rest) && Factor(TokensOf(e) + rest) == Done(e, rest)
    decreases |TokensOf(e)|, 24
  {
    hide Binary, TokensOf, Before;
    CompleteBinary(FactorRung, e, rest);
  }

  lemma {:induction false} CompleteOperand(rung: Rung, e: Expr, rest: seq<Token>)
    requires Before(e, RungRank(rung) + 1, rest)
    ensures Ended(TokensOf(e) + rest) && Operand(rung, TokensOf(e) + rest) == Done(e, rest)
    decreases |TokensOf(e)|, 5 * Height(rung) + 1
  {
    hide TokensOf, Before, And, Equality, Factor, Unary;
    match rung
    case OrRung => CompleteAnd(e, rest);
    case AndRung => CompleteEquality(e, rest);
    case TermRung => CompleteFactor(e, rest);
    case FactorRung => CompleteUnary(e, rest);
  }

  lemma {:induction false} CompleteBinary(rung: Rung, e: Expr, rest: seq<Token>)
    requires Before(e, RungRank(rung), rest)
    ensures Ended(TokensOf(e) + rest) && Binary(rung, TokensOf(e) + rest) == Done(e, rest)
    decreases |TokensOf(e)|, 5 * Height(rung) + 3
  {
    hide TokensOf, Ladder, Rank, Binary, Operand;
    CompleteMore(rung, e, rest);
  }

  /** The left operands are taken one after the other: parsing them leaves the loop with the
      tree built so far. */
  lemma {:induction false} CompleteMore(rung: Rung, e: Expr, rest: seq<Token>)
    requires Ladder(e, false) && Rank(e) >= RungRank(rung) && Ended(rest) && !Continues(RungRank(rung) + 1, rest)
    ensures Ended(TokensOf(e) + rest) && Binary(rung, TokensOf(e) + rest) == More(rung, e, rest)
    decreases |TokensOf(e)|, 5 * Height(rung) + 2
  {
    hide Operand, After, OperatorKind, OperatorTokens, OperatorRank, TokensOf, Ladder;
    if Rank(e) > RungRank(rung) {
      hide More;
      CompleteOperand(rung, e, rest);
    } else {
      assert e.BinaryExpr?;
      BinaryParts(e, rest);
      CompleteMore(rung, e.left, After(e.operator, e.right, rest));
      CompleteOperand(rung, e.right, rest);
    }
  }

  lemma {:induction false} CompleteEquality(e: Expr, rest: seq<Token>)
    requires Before(e, 3, rest)
    ensures Ended(TokensOf(e) + rest) && Equality(TokensOf(e) + rest) == Done(e, rest)
    decreases |TokensOf(e)|, 44
  {
    hide EmptyTest, After, OperatorKind, OperatorTokens, OperatorRank, IsChainedLeft, IsChainedRight, IsStateLiteral;
    hide TokensOf, Ladder;
    if Rank(e) >= 4 {
      CompleteEmptyTest(e, rest);
    } else {
      BinaryParts(e, rest);
      CompleteEmptyTest(e.left, After(e.operator, e.right, rest));
      CompleteEmptyTest(e.right, rest);
    }
  }

  /** A state test read from the left. */
  lemma {:induction false} StateParts(e: Expr, rest: seq<Token>)
    requires Ladder(e, false) && IsStateTest(e) && Ended(rest)
    ensures Ladder(e.operand, false) && Rank(e.operand) >= 5 && |TokensOf(e.operand)| < |TokensOf(e)|
    ensures var after := StateTokens(e.negated, if e.EmptyTestExpr? then EMPTY else EMPTYS) + rest;
            && Ended(after) && Ended(TokensOf(e) + rest) && TokensOf(e) + rest == TokensOf(e.operand) + after
            && At(after, {IS}) && (At(after[1..], {NOT}) <==> e.negated)
            && var state := if e.negated then after[2..] else after[1..];
               && Ended(state) && At(state, {if e.EmptyTestExpr? then EMPTY else EMPTYS}) && state[1..] == rest
  {
    hide ElementTokens, NamedTokens, Joined, OperatorTokens, OperatorRank, OperatorKind;
    var after := StateTokens(e.negated, if e.EmptyTestExpr? then EMPTY else EMPTYS) + rest;
    assert TokensOf(e) + rest == TokensOf(e.operand) + after;
    assert (if e.negated then after[2..] else after[1..])[1..] == rest;
  }

  lemma {:induction false} CompleteEmptyTest(e: Expr, rest: seq<Token>)
    requires Before(e, 4, rest)
    ensures Ended(TokensOf(e) + rest) && EmptyTest(TokensOf(e) + rest) == Done(e, rest)
    decreases |TokensOf(e)|, 40
  {
    hide Comparison, TokensOf, Ladder, OperatorRank, StateTokens;
    if Rank(e) >= 5 {
      CompleteComparison(e, rest);
    } else {
      RankFour(e);
      StateParts(e, rest);
      CompleteComparison(e.operand, StateTokens(e.negated, if e.EmptyTestExpr? then EMPTY else EMPTYS) + rest);
    }
  }

  lemma {:induction false} RankFour(e: Expr)
    requires Rank(e) == 4
    ensures IsStateTest(e)
  {
  }

  lemma {:induction false} NotInShape(right: Expr, rest: seq<Token>)
    requires Ended(rest)
    ensures var after := After("not in", right, rest);
            && Ended(after) && At(after, {NOT}) && |after| >= 2 && Peek(after, 1).kind == IN
            && after[2..] == TokensOf(right) + rest
  {
    assert OperatorTokens("not in") == [Word(NOT, "not"), Word(IN, "in")];
    hide TokensOf, OperatorTokens;
    assert After("not in", right, rest)[2..] == TokensOf(right) + rest;
  }

  lemma {:induction false} CompleteComparison(e: Expr, rest: seq<Token>)
    requires Before(e, 5, rest)
    ensures Ended(TokensOf(e) + rest) && Comparison(TokensOf(e) + rest) == Done(e, rest)
    decreases |TokensOf(e)|, 36
  {
    hide Term, OperatorKind, OperatorRank, TokensOf, Ladder, After;
    if Rank(e) >= 6 {
      CompleteTerm(e, rest);
    } else {
      var after := After(e.operator, e.right, rest);
      BinaryParts(e, rest);
      if e.operator == "not in" {
        NotInShape(e.right, rest);
      }
      CompleteTerm(e.left, after);
      CompleteTerm(e.right, rest);
    }
  }

  lemma {:induction false} UnaryParts(e: Expr, rest: seq<Token>)
    requires Ladder(e, false) && e.UnaryExpr? && Ended(rest)
    ensures Ladder(e.operand, false) && Rank(e.operand) >= 8 && |TokensOf(e.operand)| < |TokensOf(e)|
    ensures Ended(TokensOf(e) + rest) && Ended(TokensOf(e.operand) + rest)
    ensures (TokensOf(e) + rest)[0] == UnaryToken(e.operator) && (TokensOf(e) + rest)[1..] == TokensOf(e.operand) + rest
  {
    hide UnaryToken, Lower;
    assert TokensOf(e) == [UnaryToken(e.operator)] + TokensOf(e.operand);
    hide TokensOf, Ladder, Rank;
    assert TokensOf(e) + rest == [UnaryToken(e.operator)] + (TokensOf(e.operand) + rest);
  }

  lemma {:induction false} CompleteUnary(e: Expr, rest: seq<Token>)
    requires Before(e, 8, rest)
    ensures Ended(TokensOf(e) + rest) && Unary(TokensOf(e) + rest) == Done(e, rest)
    decreases |TokensOf(e)|, 18
  {
    hide Power, OperatorRank, TokensOf, Ladder;
    if e.UnaryExpr? {
      UnaryParts(e, rest);
      CompleteUnary(e.operand, rest);
    } else {
      FirstToken(e);
      RankNine(e);
      CompletePower(e, rest);
    }
  }

  lemma {:induction false} RankNine(e: Expr)
    requires Rank(e) >= 8 && !e.UnaryExpr?
    ensures Rank(e) >= 9
  {
  }

  lemma {:induction false} CompletePower(e: Expr, rest: seq<Token>)
    requires Before(e, 9, rest)
    ensures Ended(TokensOf(e) + rest) && Power(TokensOf(e) + rest) == Done(e, rest)
    decreases |TokensOf(e)|, 16
  {
    hide Postfix, Unary, After, OperatorKind, OperatorTokens, OperatorRank, TokensOf, Ladder;
    if Rank(e) >= 10 {
      CompletePostfix(e, rest);
    } else {
      BinaryParts(e, rest);
      CompletePostfix(e.left, After(e.operator, e.right, rest));
      CompleteUnary(e.right, rest);
    }
  }

  lemma {:induction false} CompletePostfix(e: Expr, rest: seq<Token>)
    requires Before(e, 10, rest)
    ensures Ended(TokensOf(e) + rest) && Postfix(TokensOf(e) + rest) == Done(e, rest)
    decreases |TokensOf(e)|, 14
  {
    hide Primary, TokensOf, Ladder, Rank, Postfix;
    CompleteSuffixes(e, rest);
  }

  /** The suffixes are taken one after the other, like the left operands of a rung. */
  lemma {:induction false} CompleteSuffixes(e: Expr, rest: seq<Token>)
    requires Ladder(e, false) && Rank(e) >= 10 && Ended(rest) && !At(rest, {LPAREN})
    ensures Ended(TokensOf(e) + rest) && Postfix(TokensOf(e) + rest) == Suffixes(e, rest)
    decreases |TokensOf(e)|, 12
  {
    hide Primary, Expression, Arguments, Ladder, Rank, OperatorRank;
    if e.IndexExpr? {
      CompleteIndex(e, rest);
    } else if e.MemberExpr? {
      CompleteMember(e, rest);
    } else if e.MemberCallExpr? {
      CompleteMemberCall(e, rest);
    } else {
      assert Rank(e) >= 11 by { RankOfOthers(e); }
      CompletePrimary(e, rest);
    }
  }

  lemma {:induction false} RankOfOthers(e: Expr)
    requires Rank(e) >= 10 && !e.IndexExpr? && !e.MemberExpr? && !e.MemberCallExpr?
    ensures Rank(e) == 11
  {
  }

  lemma {:induction false} IndexParts(e: Expr, rest: seq<Token>) returns (after: seq<Token>, close: seq<Token>)
    requires Ladder(e, false) && e.IndexExpr? && Ended(rest)
    ensures Ladder(e.target, false) && Rank(e.target) >= 10 && Ladder(e.index, false)
    ensures |TokensOf(e.target)| < |TokensOf(e)| && |TokensOf(e.index)| < |TokensOf(e)|
    ensures Ended(TokensOf(e) + rest) && TokensOf(e) + rest == TokensOf(e.target) + after
    ensures Ended(after) && At(after, {LBRACKET}) && after[1..] == TokensOf(e.index) + close
    ensures Ended(close) && At(close, {RBRACKET}) && close[1..] == rest
  {
    hide ElementTokens, NamedTokens, Joined, OperatorTokens, StateTokens, OperatorRank, OperatorKind;
    close := [Word(RBRACKET, "]")] + rest;
    after := [Word(LBRACKET, "[")] + (TokensOf(e.index) + close);
    assert TokensOf(e) + rest == TokensOf(e.target) + after;
  }

  lemma {:induction false} CompleteIndex(e: Expr, rest: seq<Token>)
    requires Ladder(e, false) && e.IndexExpr? && Ended(rest)
    ensures Ended(TokensOf(e) + rest) && Postfix(TokensOf(e) + rest) == Suffixes(e, rest)
    decreases |TokensOf(e)|, 11
  {
    hide Expression, Arguments, Postfix, TokensOf, Ladder, Rank;
    var after, close := IndexParts(e, rest);
    CompleteSuffixes(e.target, after);
    CompleteExpression(e.index, close);
  }

  lemma {:induction false} CompleteMember(e: Expr, rest: seq<Token>)
    requires Ladder(e, false) && e.MemberExpr? && Ended(rest) && !At(rest, {LPAREN})
    ensures Ended(TokensOf(e) + rest) && Postfix(TokensOf(e) + rest) == Suffixes(e, rest)
    decreases |TokensOf(e)|, 11
  {
    hide Expression, Arguments;
    var after := [Word(DOT, "."), Word(IDENTIFIER, e.name)] + rest;
    assert TokensOf(e) + rest == TokensOf(e.target) + after;
    CompleteSuffixes(e.target, after);
    assert after[2..] == rest;
  }

  lemma {:induction false} CompleteMemberCall(e: Expr, rest: seq<Token>)
    requires Ladder(e, false) && e.MemberCallExpr? && Ended(rest)
    ensures Ended(TokensOf(e) + rest) && Postfix(TokensOf(e) + rest) == Suffixes(e, rest)
    decreases |TokensOf(e)|, 11
  {
    hide Expression, Arguments, Joined, ElementTokens, NamedTokens, ElementsLadder, NamedLadder;
    var arguments := Joined(ElementTokens(e.arguments), NamedTokens(e.named));
    var close := [Word(RPAREN, ")")] + rest;
    var after := [Word(DOT, "."), Word(IDENTIFIER, e.name), Word(LPAREN, "(")] + (arguments + close);
    assert TokensOf(e) + rest == TokensOf(e.target) + after;
    CompleteSuffixes(e.target, after);
    CompleteArguments(e.arguments, e.named, rest);
    assert after[3..] == arguments + close;
  }

  lemma {:induction false} CompletePrimary(e: Expr, rest: seq<Token>)
    requires Ladder(e, false) && Rank(e) >= 11 && Ended(rest) && !At(rest, {LPAREN})
    ensures Ended(TokensOf(e) + rest) && Primary(TokensOf(e) + rest) == Done(e, rest)
    decreases |TokensOf(e)|, 10
  {
    hide Expression, Arguments, Elements, Joined, ElementTokens, NamedTokens, ElementsLadder, NamedLadder, OperatorRank;
    hide Ladder, Primary, TokensOf, Rank;
    if e.GroupExpr? {
      CompleteGroup(e, rest);
    } else if e.ListExpr? {
      CompleteList(e, rest);
    } else if e.CallExpr? {
      CompleteCall(e, rest);
    } else {
      CompleteWord(e, rest);
    }
  }

  lemma {:induction false} WordToken(e: Expr) returns (t: Token)
    requires Ladder(e, false) && Rank(e) >= 11
    requires !e.GroupExpr? && !e.ListExpr? && !e.CallExpr?
    ensures TokensOf(e) == [t]
    ensures e.LiteralExpr? || e.VariableExpr? || e.PositionSelectorExpr?
    ensures e.LiteralExpr? ==> t == LiteralToken(e.value)
    ensures e.VariableExpr? ==> t == Word(IDENTIFIER, e.name)
    ensures e.PositionSelectorExpr? ==> t.kind in {FRONT, BACK} && t.lexeme == e.name
  {
    hide ElementTokens, NamedTokens, Joined, OperatorTokens, StateTokens, OperatorKind, Lower;
    t := TokensOf(e)[0];
  }

  lemma {:induction false} CompleteWord(e: Expr, rest: seq<Token>)
    requires Ladder(e, false) && Rank(e) >= 11 && Ended(rest) && !At(rest, {LPAREN})
    requires !e.GroupExpr? && !e.ListExpr? && !e.CallExpr?
    ensures Ended(TokensOf(e) + rest) && Primary(TokensOf(e) + rest) == Done(e, rest)
  {
    hide Expression, Arguments, Elements, Lower;
    var t := WordToken(e);
    hide TokensOf, Ladder, Rank;
    assert ([t] + rest)[1..] == rest;
  }

  lemma {:induction false} CompleteGroup(e: Expr, rest: seq<Token>)
    requires Ladder(e, false) && e.GroupExpr? && Ended(rest)
    ensures Ended(TokensOf(e) + rest) && Primary(TokensOf(e) + rest) == Done(e, rest)
    decreases |TokensOf(e)|, 9
  {
    hide Expression, Arguments, Elements;
    var close := [Word(RPAREN, ")")] + rest;
    assert TokensOf(e) + rest == [Word(LPAREN, "(")] + (TokensOf(e.expression) + close);
    CompleteExpression(e.expression, close);
    assert close[1..] == rest;
  }

  lemma {:induction false} CompleteCall(e: Expr, rest: seq<Token>)
    requires Ladder(e, false) && e.CallExpr? && Ended(rest)
    ensures Ended(TokensOf(e) + rest) && Primary(TokensOf(e) + rest) == Done(e, rest)
    decreases |TokensOf(e)|, 9
  {
    hide Expression, Arguments, Elements, Joined, ElementTokens, NamedTokens, ElementsLadder, NamedLadder;
    var arguments := Joined(ElementTokens(e.arguments), NamedTokens(e.named));
    var close := [Word(RPAREN, ")")] + rest;
    var toks := [Word(IDENTIFIER, e.callee), Word(LPAREN, "(")] + (arguments + close);
    assert TokensOf(e) + rest == toks;
    CompleteArguments(e.arguments, e.named, rest);
    assert toks[2..] == arguments + close;
  }

  lemma {:induction false} ListParts(e: Expr, rest: seq<Token>)
    requires Ladder(e, false) && e.ListExpr? && Ended(rest)
    ensures ElementsLadder(e.elements, false) && |ElementTokens(e.elements)| < |TokensOf(e)|
    ensures var toks := TokensOf(e) + rest;
            var inside := ElementTokens(e.elements) + ([Word(RBRACKET, "]")] + rest);
            && Ended(toks) && toks[0].kind == LBRACKET && toks[1..] == inside && Ended(inside)
            && (if e.elements == [] then At(inside, {RBRACKET}) && toks[2..] == rest else !At(inside, {RBRACKET}))
  {
    hide Joined, ElementsLadder, Rank;
    var inside := ElementTokens(e.elements) + ([Word(RBRACKET, "]")] + rest);
    assert TokensOf(e) + rest == [Word(LBRACKET, "[")] + inside;
    if e.elements == [] {
      assert inside == [Word(RBRACKET, "]")] + rest;
    } else {
      FirstElement(e.elements);
    }
  }

  lemma {:induction false} CompleteList(e: Expr, rest: seq<Token>)
    requires Ladder(e, false) && e.ListExpr? && Ended(rest)
    ensures Ended(TokensOf(e) + rest) && Primary(TokensOf(e) + rest) == Done(e, rest)
    decreases |TokensOf(e)|, 9
  {
    hide Expression, Arguments, Elements, Ladder, ElementsLadder, TokensOf, ElementTokens, At;
    ListParts(e, rest);
    if e.elements != [] {
      CompleteElements(e.elements, rest);
    }
  }

  lemma {:induction false} FirstElement(elements: seq<Expr>)
    requires elements != [] && ElementsLadder(elements, false)
    ensures ElementTokens(elements) != [] && ElementTokens(elements)[0].kind in STARTERS + {BANG, NOT, MINUS}
  {
    hide TokensOf, Ladder;
    FirstToken(elements[0]);
  }

  lemma {:induction false} JoinedShape(first: seq<Token>, more: seq<Token>, close: seq<Token>)
    requires first != [] && more != []
    ensures Joined(first, more) + close == first + ([Word(COMMA, ",")] + (more + close))
    ensures |Joined(first, more)| > |first| + |more|
  {
    var comma := [Word(COMMA, ",")];
    assert (first + (comma + more)) + close == first + (comma + (more + close));
  }

  lemma {:induction false} ElementParts(elements: seq<Expr>, close: seq<Token>) returns (after: seq<Token>)
    requires elements != [] && ElementsLadder(elements, false) && Ended(close)
    ensures Ended(ElementTokens(elements) + close) && ElementTokens(elements) + close == TokensOf(elements[0]) + after
    ensures elements == [elements[0]] + elements[1..]
    ensures Ladder(elements[0], false) && ElementsLadder(elements[1..], false)
    ensures |elements| == 1 ==> after == close && ElementTokens(elements) == TokensOf(elements[0])
    ensures |elements| > 1 ==>
              && Ended(after) && At(after, {COMMA}) && after[1..] == ElementTokens(elements[1..]) + close
              && |ElementTokens(elements)| > |TokensOf(elements[0])|
                 && |ElementTokens(elements)| > |ElementTokens(elements[1..])|
  {
    hide TokensOf, Ladder, Joined;
    var first, more := elements[0], elements[1..];
    assert ElementTokens(elements) == Joined(TokensOf(first), ElementTokens(more));
    hide ElementTokens;
    if more == [] {
      JoinedNothing(TokensOf(first));
      after := close;
    } else {
      JoinedShape(TokensOf(first), ElementTokens(more), close);
      after := [Word(COMMA, ",")] + (ElementTokens(more) + close);
    }
  }

  lemma {:induction false} CompleteElements(elements: seq<Expr>, rest: seq<Token>)
    requires elements != [] && ElementsLadder(elements, false) && Ended(rest)
    ensures var toks := ElementTokens(elements) + ([Word(RBRACKET, "]")] + rest);
            Ended(toks) && Elements(toks) == Done(elements, rest)
    decreases |ElementTokens(elements)|, 70
  {
    hide Expression, TokensOf, Ladder, ElementTokens, ElementsLadder, Rank;
    var close := [Word(RBRACKET, "]")] + rest;
    assert close[1..] == rest;
    var after := ElementParts(elements, close);
    CompleteExpression(elements[0], after);
    if |elements| > 1 {
      CompleteElements(elements[1..], rest);
    } else {
      assert elements == [elements[0]];
    }
  }

  lemma {:induction false} JoinedNothing(first: seq<Token>)
    ensures Joined(first, []) == first
  {
  }

  lemma {:induction false} FirstNamed(named: seq<NamedArgument>)
    requires named != []
    ensures NamedTokens(named)[0].kind == IDENTIFIER
  {
    hide TokensOf;
  }

  lemma {:induction false} CompleteArguments(arguments: seq<Expr>, named: seq<NamedArgument>, rest: seq<Token>)
    requires ElementsLadder(arguments, false) && NamedLadder(named, false) && Ended(rest)
    ensures var toks := Joined(ElementTokens(arguments), NamedTokens(named)) + ([Word(RPAREN, ")")] + rest);
            Ended(toks) && Arguments(toks) == Done((arguments, named), rest)
    decreases |Joined(ElementTokens(arguments), NamedTokens(named))|, 80
  {
    hide ArgumentsFrom, ElementsLadder, NamedLadder, TokensOf, ElementTokens, NamedTokens;
    var toks := Joined(ElementTokens(arguments), NamedTokens(named)) + ([Word(RPAREN, ")")] + rest);
    assert [] + arguments == arguments && [] + named == named;
    if arguments != [] {
      FirstElement(arguments);
      CompletePositional([], arguments, named, rest);
    } else if named != [] {
      FirstNamed(named);
      CompleteNamed([], [], named, rest);
    } else {
      assert toks[1..] == rest;
    }
  }

  /** Positional arguments, and the named ones behind them. */
  lemma {:induction false} PositionalParts(arguments: seq<Expr>, named: seq<NamedArgument>, close: seq<Token>)
      returns (after: seq<Token>)
    requires arguments != [] && ElementsLadder(arguments, false) && Ended(close) && !At(close, {EQUAL, LPAREN})
    ensures var toks := Joined(ElementTokens(arguments), NamedTokens(named)) + close;
            var behind := Joined(ElementTokens(arguments[1..]), NamedTokens(named));
            && Ended(toks) && toks == TokensOf(arguments[0]) + after
            && |Joined(ElementTokens(arguments), NamedTokens(named))| >= |TokensOf(arguments[0])| + |behind|
            && Ended(after) && !At(after, {EQUAL, LPAREN})
            && if behind == [] then after == close else At(after, {COMMA}) && after[1..] == behind + close
    ensures arguments == [arguments[0]] + arguments[1..]
    ensures Ladder(arguments[0], false) && ElementsLadder(arguments[1..], false)
  {
    hide TokensOf, Ladder;
    var first, more := TokensOf(arguments[0]), ElementTokens(arguments[1..]);
    assert ElementTokens(arguments) == Joined(first, more);
    hide ElementTokens, NamedTokens;
    ArgumentShape(first, more, NamedTokens(named), close);
    var behind := Joined(more, NamedTokens(named));
    after := if behind == [] then close else [Word(COMMA, ",")] + (behind + close);
  }

  lemma {:induction false} CompletePositional(before: seq<Expr>, arguments: seq<Expr>, named: seq<NamedArgument>,
                                              rest: seq<Token>)
    requires arguments != [] && ElementsLadder(arguments, false) && NamedLadder(named, false) && Ended(rest)
    ensures var toks := Joined(ElementTokens(arguments), NamedTokens(named)) + ([Word(RPAREN, ")")] + rest);
            Ended(toks) && ArgumentsFrom(before, [], toks) == Done((before + arguments, named), rest)
    decreases |Joined(ElementTokens(arguments), NamedTokens(named))|, 75
  {
    hide Expression, TokensOf, Ladder, Rank, NamedLadder, NamedTokens, ElementTokens, ElementsLadder;
    var close := [Word(RPAREN, ")")] + rest;
    assert close[1..] == rest;
    var first, more := arguments[0], arguments[1..];
    var after := PositionalParts(arguments, named, close);
    CompleteExpression(first, after);
    NotNamed(first, after);
    assert (before + [first]) + more == before + arguments;
    assert [] + named == named;
    if more != [] {
      CompletePositional(before + [first], more, named, rest);
    } else {
      assert before + [first] == before + arguments;
      if named != [] {
        CompleteNamed(before + [first], [], named, rest);
      }
    }
  }

  lemma {:induction false} ArgumentShape(first: seq<Token>, more: seq<Token>, named: seq<Token>, close: seq<Token>)
    requires first != []
    ensures Joined(Joined(first, more), named) + close
         == first + (if Joined(more, named) == [] then close else [Word(COMMA, ",")] + (Joined(more, named) + close))
  {
    var comma := [Word(COMMA, ",")];
    if more != [] && named != [] {
      assert ((first + (comma + more)) + (comma + named)) + close
          == first + (comma + ((more + (comma + named)) + close));
    }
  }

  lemma {:induction false} NamedParts(named: seq<NamedArgument>, close: seq<Token>) returns (after: seq<Token>)
    requires named != [] && Ended(close)
    ensures var toks := NamedTokens(named) + close;
            && Ended(toks) && |toks| > 2 && toks[0].kind == IDENTIFIER && toks[0].lexeme == named[0].name
            && toks[1].kind == EQUAL && toks[2..] == TokensOf(named[0].value) + after
    ensures |NamedTokens(named)| > |TokensOf(named[0].value)|
    ensures |named| == 1 ==> after == close
    ensures |named| > 1 ==>
              && Ended(after) && At(after, {COMMA}) && after[1..] == NamedTokens(named[1..]) + close
              && |NamedTokens(named)| > |NamedTokens(named[1..])|
  {
    hide TokensOf;
    var value := TokensOf(named[0].value);
    var opening := [Word(IDENTIFIER, named[0].name), Word(EQUAL, "=")];
    var first, more := opening + value, NamedTokens(named[1..]);
    assert NamedTokens(named) == Joined(first, more);
    hide NamedTokens, Joined;
    if |named| == 1 {
      JoinedNothing(first);
      after := close;
    } else {
      JoinedShape(first, more, close);
      after := [Word(COMMA, ",")] + (more + close);
    }
    assert NamedTokens(named) + close == opening + (value + after);
  }

  lemma {:induction false} NewName(before: seq<NamedArgument>, named: seq<NamedArgument>)
    requires named != [] && DistinctNames(before + named)
    ensures !HasName(before, named[0].name)
  {
    forall i | 0 <= i < |before| ensures before[i].name != named[0].name {
      assert (before + named)[i] == before[i] && (before + named)[|before|] == named[0];
    }
  }

  lemma {:induction false} CompleteNamed(arguments: seq<Expr>, before: seq<NamedArgument>, named: seq<NamedArgument>,
                                         rest: seq<Token>)
    requires named != [] && NamedLadder(before + named, false) && Ended(rest)
    ensures var toks := NamedTokens(named) + ([Word(RPAREN, ")")] + rest);
            Ended(toks) && ArgumentsFrom(arguments, before, toks) == Done((arguments, before + named), rest)
    decreases |NamedTokens(named)|, 70
  {
    hide Expression, TokensOf, Ladder, NamedTokens, Rank;
    var close := [Word(RPAREN, ")")] + rest;
    assert close[1..] == rest;
    var after := NamedParts(named, close);
    NewName(before, named);
    assert (before + named)[|before|] == named[0];
    CompleteExpression(named[0].value, after);
    assert before + [named[0]] + named[1..] == before + named;
    if |named| > 1 {
      CompleteNamed(arguments, before + [named[0]], named[1..], rest);
    } else {
      assert before + [named[0]] == before + named;
    }
  }
}
