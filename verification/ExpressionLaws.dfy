/** The expression parser and the precedence ladder describe the same language. */
module ExpressionLaws {
  import opened Ast
  import opened Tokens
  import opened Expressions
  import opened Grammar
  import Soundness = ExpressionSoundness
  import Completeness = ExpressionCompleteness

  /** With `plain` more trees are refused, none accepted. */
  lemma {:induction false} PlainIsLadder(e: Expr)
    requires Ladder(e, true)
    ensures Ladder(e, false)
    decreases e
  {
    match e
    case BinaryExpr(left, _, right) => PlainIsLadder(left); PlainIsLadder(right);
    case UnaryExpr(_, operand) => PlainIsLadder(operand);
    case EmptyTestExpr(operand, _) => PlainIsLadder(operand);
    case EmptysTestExpr(operand, _) => PlainIsLadder(operand);
    case GroupExpr(inner) => PlainIsLadder(inner);
    case IndexExpr(target, index) => PlainIsLadder(target); PlainIsLadder(index);
    case MemberExpr(target, _) => PlainIsLadder(target);
    case ListExpr(elements) => PlainElements(elements);
    case CallExpr(_, arguments, named) => PlainElements(arguments); PlainNamed(named);
    case MemberCallExpr(target, _, arguments, named) => PlainIsLadder(target); PlainElements(arguments);
        PlainNamed(named);
    case _ =>
  }

  lemma {:induction false} PlainElements(elements: seq<Expr>)
    requires ElementsLadder(elements, true)
    ensures ElementsLadder(elements, false)
    decreases elements
  {
    forall i | 0 <= i < |elements| ensures Ladder(elements[i], false) { PlainIsLadder(elements[i]); }
  }

  lemma {:induction false} PlainNamed(named: seq<NamedArgument>)
    requires NamedLadder(named, true)
    ensures NamedLadder(named, false)
    decreases named
  {
    forall i | 0 <= i < |named| ensures Ladder(named[i].value, false) { PlainIsLadder(named[i].value); }
  }

  const END: seq<Token> := [Word(EOF, "")]

  /** Two trees of the ladder with the same written form are the same tree: parentheses are
      never needed to tell them apart, since GroupExpr keeps those that were written. */
  lemma {:induction false} WrittenFormIsUnambiguous(a: Expr, b: Expr)
    requires Ladder(a, false) && Ladder(b, false) && TokensOf(a) == TokensOf(b)
    ensures a == b
  {
    hide Ladder, TokensOf, Expression;
    Completeness.CompleteExpression(a, END);
    Completeness.CompleteExpression(b, END);
  }

  /** What was accepted, written down again, is accepted as the same tree. */
  lemma {:induction false} WritingAgainKeepsTheTree(toks: seq<Token>)
    requires Ended(toks) && Soundness.Scanned(toks, false) && Expression(toks).Done?
    ensures var e := Expression(toks).value;
            Ended(TokensOf(e) + END) && Expression(TokensOf(e) + END) == Done(e, END)
  {
    hide Ladder, TokensOf, Expression, Soundness.Scanned, Soundness.Reads;
    Soundness.SoundExpression(toks, false);
    Completeness.CompleteExpression(Expression(toks).value, END);
  }

  // ---- Chained comparisons ----

  predicate Compares(e: Expr) {
    e.BinaryExpr? && (e.operator in {"==", "!="} || IsComparison(e.operator))
  }

  predicate ChainsWith(operand: Expr) { Compares(operand) || IsStateTest(operand) }

  /** An `in` that is not written in lower case. */
  predicate ShoutsIn(e: Expr) {
    e.BinaryExpr? && IsIn(e.operator) && e.operator != "in"
  }

  /** `P(node)` at every node of the tree. */
  predicate Everywhere(e: Expr, P: Expr -> bool)
    decreases e, 0
  {
    && P(e)
    && match e
       case BinaryExpr(left, _, right) => Everywhere(left, P) && Everywhere(right, P)
       case UnaryExpr(_, operand) => Everywhere(operand, P)
       case EmptyTestExpr(operand, _) => Everywhere(operand, P)
       case EmptysTestExpr(operand, _) => Everywhere(operand, P)
       case GroupExpr(inner) => Everywhere(inner, P)
       case ListExpr(elements) => AllElements(elements, P)
       case CallExpr(_, arguments, named) => AllElements(arguments, P) && AllNamed(named, P)
       case IndexExpr(target, index) => Everywhere(target, P) && Everywhere(index, P)
       case MemberExpr(target, _) => Everywhere(target, P)
       case MemberCallExpr(target, _, arguments, named) =>
         Everywhere(target, P) && AllElements(arguments, P) && AllNamed(named, P)
       case _ => true
  }

  predicate AllElements(elements: seq<Expr>, P: Expr -> bool)
    decreases elements, 1
  {
    forall i | 0 <= i < |elements| :: Everywhere(elements[i], P)
  }

  predicate AllNamed(named: seq<NamedArgument>, P: Expr -> bool)
    decreases named, 1
  {
    forall i | 0 <= i < |named| :: Everywhere(named[i].value, P)
  }

  /** A comparison has no bare comparison or state test as an operand. */
  predicate Unchained(e: Expr) {
    Compares(e) ==> !ChainsWith(e.left) && !ChainsWith(e.right)
  }

  /** An equality has no operand with an `in` outside lower case. */
  predicate Unshouted(e: Expr) {
    e.BinaryExpr? && e.operator in {"==", "!="} ==> !ShoutsIn(e.left) && !ShoutsIn(e.right)
  }

  lemma {:induction false} InSpelling(operator: string)
    requires IsIn(operator)
    ensures |operator| == 2 && operator[0] in {'i', 'I'}
  {
    assert |Lower(operator)| == |operator|;
    assert Lower(operator)[0] == LowerChar(operator[0]);
  }

  lemma {:induction false} UnchainedNode(e: Expr)
    requires Ladder(e, false)
    ensures Unchained(e) <==> Unshouted(e)
  {
    if e.BinaryExpr? && IsIn(e.operator) { InSpelling(e.operator); }
    if Compares(e) {
      RankOfComparison(e.left);
      RankOfComparison(e.right);
    }
  }

  lemma {:induction false} RankOfComparison(e: Expr)
    requires Ladder(e, false)
    ensures ChainsWith(e) <==> 3 <= Rank(e) <= 5
    ensures 4 <= Rank(e) && Compares(e) ==> e.operator in COMPARISON_NAMES || ShoutsIn(e)
    ensures ShoutsIn(e) ==> Compares(e) && Rank(e) == 5 && e.operator !in COMPARISON_NAMES
  {
    hide OperandsFit;
    if e.BinaryExpr? && IsIn(e.operator) { InSpelling(e.operator); }
  }

  /** The exact extent of the check for chained comparisons: in an accepted tree a comparison is
      chained with another one if and only if an equality has an operand whose `in` is not in
      lower case. */
  lemma {:induction false} ChainsAreShouted(e: Expr)
    requires Ladder(e, false)
    ensures Everywhere(e, Unchained) <==> Everywhere(e, Unshouted)
    decreases e
  {
    hide Unchained, Unshouted;
    UnchainedNode(e);
    match e
    case BinaryExpr(left, _, right) => ChainsAreShouted(left); ChainsAreShouted(right);
    case UnaryExpr(_, operand) => ChainsAreShouted(operand);
    case EmptyTestExpr(operand, _) => ChainsAreShouted(operand);
    case EmptysTestExpr(operand, _) => ChainsAreShouted(operand);
    case GroupExpr(inner) => ChainsAreShouted(inner);
    case IndexExpr(target, index) => ChainsAreShouted(target); ChainsAreShouted(index);
    case MemberExpr(target, _) => ChainsAreShouted(target);
    case ListExpr(elements) => ChainsInElements(elements);
    case CallExpr(_, arguments, named) => ChainsInElements(arguments); ChainsInNamed(named);
    case MemberCallExpr(target, _, arguments, named) =>
      ChainsAreShouted(target); ChainsInElements(arguments); ChainsInNamed(named);
    case _ =>
  }

  lemma {:induction false} ChainsInElements(elements: seq<Expr>)
    requires ElementsLadder(elements, false)
    ensures AllElements(elements, Unchained) <==> AllElements(elements, Unshouted)
    decreases elements
  {
    hide Unchained, Unshouted;
    forall i | 0 <= i < |elements|
      ensures Everywhere(elements[i], Unchained) <==> Everywhere(elements[i], Unshouted)
    {
      ChainsAreShouted(elements[i]);
    }
  }

  lemma {:induction false} ChainsInNamed(named: seq<NamedArgument>)
    requires NamedLadder(named, false)
    ensures AllNamed(named, Unchained) <==> AllNamed(named, Unshouted)
    decreases named
  {
    hide Unchained, Unshouted;
    forall i | 0 <= i < |named|
      ensures Everywhere(named[i].value, Unchained) <==> Everywhere(named[i].value, Unshouted)
    {
      ChainsAreShouted(named[i].value);
    }
  }

  lemma {:induction false} PlainIsUnshouted(e: Expr)
    requires Ladder(e, true)
    ensures Everywhere(e, Unshouted)
    decreases e
  {
    match e
    case BinaryExpr(left, _, right) => PlainIsUnshouted(left); PlainIsUnshouted(right);
    case UnaryExpr(_, operand) => PlainIsUnshouted(operand);
    case EmptyTestExpr(operand, _) => PlainIsUnshouted(operand);
    case EmptysTestExpr(operand, _) => PlainIsUnshouted(operand);
    case GroupExpr(inner) => PlainIsUnshouted(inner);
    case IndexExpr(target, index) => PlainIsUnshouted(target); PlainIsUnshouted(index);
    case MemberExpr(target, _) => PlainIsUnshouted(target);
    case ListExpr(elements) => PlainElementsUnshouted(elements);
    case CallExpr(_, arguments, named) => PlainElementsUnshouted(arguments); PlainNamedUnshouted(named);
    case MemberCallExpr(target, _, arguments, named) =>
      PlainIsUnshouted(target); PlainElementsUnshouted(arguments); PlainNamedUnshouted(named);
    case _ =>
  }

  lemma {:induction false} PlainElementsUnshouted(elements: seq<Expr>)
    requires ElementsLadder(elements, true)
    ensures AllElements(elements, Unshouted)
    decreases elements
  {
    forall i | 0 <= i < |elements| ensures Everywhere(elements[i], Unshouted) { PlainIsUnshouted(elements[i]); }
  }

  lemma {:induction false} PlainNamedUnshouted(named: seq<NamedArgument>)
    requires NamedLadder(named, true)
    ensures AllNamed(named, Unshouted)
    decreases named
  {
    forall i | 0 <= i < |named| ensures Everywhere(named[i].value, Unshouted) { PlainIsUnshouted(named[i].value); }
  }

  /** From input in which `in` is always written in lower case, no chain is accepted, whichever
      rung of the ladder has to refuse it. */
  lemma {:induction false} PlainInputHasNoChains(toks: seq<Token>)
    requires Ended(toks) && Soundness.Scanned(toks, true) && Expression(toks).Done?
    ensures Everywhere(Expression(toks).value, Unchained)
  {
    hide Ladder, TokensOf, Expression, Soundness.Scanned, Soundness.Reads, Everywhere;
    Soundness.SoundExpression(toks, true);
    var e := Expression(toks).value;
    PlainIsLadder(e);
    PlainIsUnshouted(e);
    ChainsAreShouted(e);
  }

  /** `a IN b == c` is accepted although the code means to refuse it: the keyword is found in
      any letter case, but the check looks for the lower-case spelling only. */
  lemma {:induction false} ShoutedChainIsAccepted()
    ensures var toks := [Word(IDENTIFIER, "a"), Word(IN, "IN"), Word(IDENTIFIER, "b"),
                         Word(EQUAL_EQUAL, "=="), Word(IDENTIFIER, "c")] + END;
            && Soundness.Scanned(toks, false)
            && Expression(toks).Done? && !Everywhere(Expression(toks).value, Unchained)
  {
    hide Expression, SpellsKeyword, SpellsNoKeyword;
    var a, b, c := VariableExpr("a"), VariableExpr("b"), VariableExpr("c");
    var e := BinaryExpr(BinaryExpr(a, "IN", b), "==", c);
    var toks := [Word(IDENTIFIER, "a"), Word(IN, "IN"), Word(IDENTIFIER, "b"),
                 Word(EQUAL_EQUAL, "=="), Word(IDENTIFIER, "c")];
    assert Lower("IN") == "in";
    assert SpellsKeyword("IN", IN) by { ShoutedIn(); }
    assert |Lower("==")| == 2 && Lower("==")[0] == '=';
    assert TokensOf(e) == toks;
    LettersAreNames("a");
    LettersAreNames("b");
    LettersAreNames("c");
    Completeness.CompleteExpression(e, END);
  }

  lemma ShoutedIn()
    ensures SpellsKeyword("IN", IN)
  {
    assert Lower("IN") == "in" && IN as int == 9;
  }

  /** No keyword has a single letter. */
  lemma LettersAreNames(word: string)
    requires |word| == 1
    ensures SpellsNoKeyword(word)
  {
    assert |Lower(word)| == 1;
    assert forall k | 0 <= k < |KEYWORDS| :: |KEYWORDS[k]| > 1;
  }
}
