/** Every well-formed statement and program is returned unchanged when its written form is parsed. */
module StatementCompleteness {
  import opened Ast
  import opened TypeSpecs
  import opened Tokens
  import opened Grammar
  import opened Statements
  import opened StatementGrammar
  import opened Programs
  import E = Expressions
  import Completeness = ExpressionCompleteness

  // ---- Expressions at the beginning of a line ----

  /** What can stand behind the first part of a longer expression. */
  const FOLLOWERS: set<Kind> := SPELLED + {NOT, IS, LBRACKET, DOT}

  /** An expression that is built from another one on its left begins with that. */
  lemma {:induction false} LeadingFollow(e: Expr) returns (behind: seq<Token>)
    requires Ladder(e, false) && Completeness.Leading(e).Some?
    ensures TokensOf(e) == TokensOf(Completeness.Leading(e).value) + behind
    ensures behind != [] && behind[0].kind in FOLLOWERS
    ensures Ladder(Completeness.Leading(e).value, false)
    ensures e.IndexExpr? ==> behind == [Word(LBRACKET, "[")] + (TokensOf(e.index) + [Word(RBRACKET, "]")])
    ensures !e.IndexExpr? ==> behind[0].kind != LBRACKET
    ensures behind[0].kind == DOT ==> |behind| > 1 && (|behind| > 2 ==> behind[2].kind == LPAREN)
  {
    hide Lower, ElementTokens, NamedTokens, Joined, ElementsLadder, NamedLadder, OperandsFit, Rank, IsIn;
    behind := TokensOf(e)[|TokensOf(Completeness.Leading(e).value)|..];
    if e.BinaryExpr? {
      if e.operator != "not in" {
        Completeness.OperatorRungs(e.operator);
      }
    }
  }

  // ---- Matching brackets ----

  /** A search for the bracket that closes an index passes over these tokens. */
  ghost predicate IsPassed(toks: seq<Token>) {
    forall rest: seq<Token>, depth: nat :: Ended(rest) && depth > 0 ==> IsPassedBefore(toks, rest, depth)
  }

  predicate IsPassedBefore(toks: seq<Token>, rest: seq<Token>, depth: nat)
    requires Ended(rest)
  {
    Ended(toks + rest) && BehindBracket(toks + rest, depth) == BehindBracket(rest, depth)
  }

  /** Tokens that are neither brackets nor the end of a line. */
  predicate IsFlat(toks: seq<Token>) {
    forall t | t in toks :: t.kind !in {LBRACKET, RBRACKET, NEWLINE, EOF}
  }

  lemma {:induction false} OneIsPassed(t: Token)
    requires t.kind !in {LBRACKET, RBRACKET, NEWLINE, EOF}
    ensures IsPassed([t])
  {
    forall rest: seq<Token>, depth: nat | Ended(rest) && depth > 0
      ensures IsPassedBefore([t], rest, depth)
    {
      assert ([t] + rest)[1..] == rest;
    }
  }

  lemma {:induction false} BothArePassed(a: seq<Token>, b: seq<Token>)
    requires IsPassed(a) && IsPassed(b)
    ensures IsPassed(a + b)
  {
    hide BehindBracket;
    forall rest: seq<Token>, depth: nat | Ended(rest) && depth > 0
      ensures IsPassedBefore(a + b, rest, depth)
    {
      assert IsPassedBefore(b, rest, depth) && IsPassedBefore(a, b + rest, depth);
      assert (a + b) + rest == a + (b + rest);
    }
  }

  lemma {:induction false} BracketedIsPassed(toks: seq<Token>)
    requires IsPassed(toks)
    ensures IsPassed([Word(LBRACKET, "[")] + (toks + [Word(RBRACKET, "]")]))
  {
    var (open, close) := (Word(LBRACKET, "["), Word(RBRACKET, "]"));
    var all := [open] + (toks + [close]);
    forall rest: seq<Token>, depth: nat | Ended(rest) && depth > 0
      ensures IsPassedBefore(all, rest, depth)
    {
      var inside := toks + ([close] + rest);
      assert (all + rest)[0] == open && (all + rest)[1..] == inside;
      assert Ended([close] + rest) && Ended(inside);
      assert ([close] + rest)[1..] == rest;
      assert IsPassedBefore(toks, [close] + rest, depth + 1);
    }
  }

  lemma {:induction false} FlatIsPassed(toks: seq<Token>)
    requires IsFlat(toks)
    ensures IsPassed(toks)
    decreases |toks|
  {
    hide IsPassed;
    if toks == [] {
      NothingIsPassed();
    } else {
      assert toks[0] in toks && forall t | t in toks[1..] :: t in toks;
      FlatIsPassed(toks[1..]);
      OneIsPassed(toks[0]);
      BothArePassed([toks[0]], toks[1..]);
      assert [toks[0]] + toks[1..] == toks;
    }
  }

  lemma {:induction false} NothingIsPassed()
    ensures IsPassed([])
  {
    forall rest: seq<Token>, depth: nat | Ended(rest) && depth > 0
      ensures IsPassedBefore([], rest, depth)
    {
      assert [] + rest == rest;
    }
  }

  lemma {:induction false} WordsAreFlat(e: Expr)
    requires Ladder(e, false)
    ensures e.BinaryExpr? ==> IsFlat(OperatorTokens(e.operator))
    ensures e.UnaryExpr? ==> IsFlat([UnaryToken(e.operator)])
    ensures e.EmptyTestExpr? ==> IsFlat(StateTokens(e.negated, EMPTY))
    ensures e.EmptysTestExpr? ==> IsFlat(StateTokens(e.negated, EMPTYS))
    ensures e.LiteralExpr? || e.VariableExpr? || e.PositionSelectorExpr? ==> IsFlat(TokensOf(e))
  {
    hide Lower, ElementTokens, NamedTokens, Joined, ElementsLadder, NamedLadder, OperandsFit, Rank;
  }

  /** The brackets of an expression match. */
  lemma {:induction false} BracketsMatch(e: Expr)
    requires Ladder(e, false)
    ensures IsPassed(TokensOf(e))
    decreases e, 0
  {
    hide IsPassed, IsFlat, Lower, Rank, OperandsFit, ElementTokens, NamedTokens, Joined, ElementsLadder, NamedLadder;
    hide OperatorTokens, StateTokens, LiteralToken, UnaryToken, OperatorKind, IsIn;
    WordsAreFlat(e);
    match e
    case BinaryExpr(left, operator, right) =>
      FlatIsPassed(OperatorTokens(operator));
      BracketsMatch(left);
      BracketsMatch(right);
      BothArePassed(OperatorTokens(operator), TokensOf(right));
      BothArePassed(TokensOf(left), OperatorTokens(operator) + TokensOf(right));
    case UnaryExpr(operator, operand) =>
      FlatIsPassed([UnaryToken(operator)]);
      BracketsMatch(operand);
      BothArePassed([UnaryToken(operator)], TokensOf(operand));
    case EmptyTestExpr(operand, negated) =>
      FlatIsPassed(StateTokens(negated, EMPTY));
      BracketsMatch(operand);
      BothArePassed(TokensOf(operand), StateTokens(negated, EMPTY));
    case EmptysTestExpr(operand, negated) =>
      FlatIsPassed(StateTokens(negated, EMPTYS));
      BracketsMatch(operand);
      BothArePassed(TokensOf(operand), StateTokens(negated, EMPTYS));
    case GroupExpr(inner) =>
      BracketsMatch(inner);
      OneIsPassed(Word(LPAREN, "("));
      OneIsPassed(Word(RPAREN, ")"));
      BothArePassed(TokensOf(inner), [Word(RPAREN, ")")]);
      BothArePassed([Word(LPAREN, "(")], TokensOf(inner) + [Word(RPAREN, ")")]);
    case ListExpr(elements) =>
      ElementBracketsMatch(elements);
      BracketedIsPassed(ElementTokens(elements));
    case CallExpr(callee, arguments, named) =>
      ElementBracketsMatch(arguments);
      NamedBracketsMatch(named);
      CallIsPassed([Word(IDENTIFIER, callee), Word(LPAREN, "(")], ElementTokens(arguments), NamedTokens(named));
    case IndexExpr(target, index) =>
      BracketsMatch(target);
      BracketsMatch(index);
      BracketedIsPassed(TokensOf(index));
      BothArePassed(TokensOf(target), [Word(LBRACKET, "[")] + (TokensOf(index) + [Word(RBRACKET, "]")]));
    case MemberExpr(target, name) =>
      BracketsMatch(target);
      MemberIsPassed(name);
      BothArePassed(TokensOf(target), [Word(DOT, "."), Word(IDENTIFIER, name)]);
    case MemberCallExpr(target, name, arguments, named) =>
      BracketsMatch(target);
      var open := [Word(DOT, "."), Word(IDENTIFIER, name), Word(LPAREN, "(")];
      ElementBracketsMatch(arguments);
      NamedBracketsMatch(named);
      CallIsPassed(open, ElementTokens(arguments), NamedTokens(named));
      BothArePassed(TokensOf(target),
                    open + (Joined(ElementTokens(arguments), NamedTokens(named)) + [Word(RPAREN, ")")]));
    case _ => FlatIsPassed(TokensOf(e));
  }

  lemma {:induction false} MemberIsPassed(name: string)
    ensures IsPassed([Word(DOT, "."), Word(IDENTIFIER, name)])
  {
    hide IsPassed;
    FlatIsPassed([Word(DOT, "."), Word(IDENTIFIER, name)]);
  }

  lemma {:induction false} JoinedIsPassed(a: seq<Token>, b: seq<Token>)
    requires IsPassed(a) && IsPassed(b)
    ensures IsPassed(Joined(a, b))
  {
    hide IsPassed;
    OneIsPassed(Word(COMMA, ","));
    BothArePassed([Word(COMMA, ",")], b);
    BothArePassed(a, [Word(COMMA, ",")] + b);
  }

  lemma {:induction false} ElementBracketsMatch(elements: seq<Expr>)
    requires ElementsLadder(elements, false)
    ensures IsPassed(ElementTokens(elements))
    decreases elements, 1
  {
    hide IsPassed, TokensOf, Ladder, Joined;
    if elements == [] {
      NothingIsPassed();
    } else {
      BracketsMatch(elements[0]);
      ElementBracketsMatch(elements[1..]);
      JoinedIsPassed(TokensOf(elements[0]), ElementTokens(elements[1..]));
    }
  }

  lemma {:induction false} NamedBracketsMatch(named: seq<NamedArgument>)
    requires NamedLadder(named, false)
    ensures IsPassed(NamedTokens(named))
    decreases named, 1
  {
    hide IsPassed, TokensOf, Ladder, Joined;
    if named == [] {
      NothingIsPassed();
    } else {
      var opening := [Word(IDENTIFIER, named[0].name), Word(EQUAL, "=")];
      FlatIsPassed(opening);
      BracketsMatch(named[0].value);
      NamedBracketsMatch(named[1..]);
      BothArePassed(opening, TokensOf(named[0].value));
      JoinedIsPassed(opening + TokensOf(named[0].value), NamedTokens(named[1..]));
    }
  }

  lemma {:induction false} CallIsPassed(open: seq<Token>, a: seq<Token>, b: seq<Token>)
    requires IsPassed(a) && IsPassed(b)
    requires forall i | 0 <= i < |open| :: open[i].kind in {DOT, IDENTIFIER, LPAREN}
    ensures IsPassed(open + (Joined(a, b) + [Word(RPAREN, ")")]))
  {
    FlatIsPassed(open);
    hide IsPassed, Joined;
    JoinedIsPassed(a, b);
    OneIsPassed(Word(RPAREN, ")"));
    BothArePassed(Joined(a, b), [Word(RPAREN, ")")]);
    BothArePassed(open, Joined(a, b) + [Word(RPAREN, ")")]);
  }

  // ---- Expressions as statements ----

  /** What follows does not make an assignment of the expression before it. */
  predicate NoAssignment(rest: seq<Token>)
    requires Ended(rest)
  {
    && At(rest, FOLLOWERS + {NEWLINE})
    && !EqualBehindIndexes(rest)
    && !(At(rest, {DOT}) && Peek(rest, 1).kind == IDENTIFIER && Peek(rest, 2).kind == EQUAL)
  }

  /** A line that begins with an expression and cannot be taken for anything else. */
  predicate BeginsWith(e: Expr, toks: seq<Token>)
    requires Ended(toks)
  {
    && At(toks, Completeness.STARTERS + {BANG, NOT, MINUS})
    && (LeftName(e).Some? <==> At(toks, {IDENTIFIER}))
    && (LeftName(e).Some? ==>
          toks[0].lexeme == LeftName(e).value && Peek(toks, 1).kind in FOLLOWERS + {LPAREN, NEWLINE})
    && !StartsIndexAssignment(toks)
    && !(At(toks, {IDENTIFIER}) && Peek(toks, 1).kind == DOT && Peek(toks, 2).kind == IDENTIFIER
         && Peek(toks, 3).kind == EQUAL)
  }

  /** An index is passed over as a whole. */
  lemma {:induction false} IndexIsPassed(index: Expr, rest: seq<Token>)
    requires Ladder(index, false) && Ended(rest)
    ensures var toks := [Word(LBRACKET, "[")] + (TokensOf(index) + ([Word(RBRACKET, "]")] + rest));
            Ended(toks) && EqualBehindIndexes(toks) == EqualBehindIndexes(rest)
  {
    hide TokensOf, Ladder;
    var close := [Word(RBRACKET, "]")] + rest;
    var inside := TokensOf(index) + close;
    var toks := [Word(LBRACKET, "[")] + inside;
    BracketsMatch(index);
    assert IsPassedBefore(TokensOf(index), close, 1);
    assert toks[1..] == inside && close[1..] == rest;
    assert BehindBracket(close, 1) == Some(rest);
    assert BehindBracket(toks, 0) == BehindBracket(inside, 1);
  }

  lemma {:induction false} ExpressionBegins(e: Expr, rest: seq<Token>)
    requires Ladder(e, false) && Ended(rest) && NoAssignment(rest)
    ensures Ended(TokensOf(e) + rest) && BeginsWith(e, TokensOf(e) + rest)
    decreases e
  {
    hide TokensOf, Ladder, NoAssignment, BeginsWith;
    if Completeness.Leading(e).Some? {
      var l := Completeness.Leading(e).value;
      var behind := LeadingFollow(e);
      assert TokensOf(e) + rest == TokensOf(l) + (behind + rest);
      BehindLeading(e, behind, rest);
      ExpressionBegins(l, behind + rest);
      SameBeginning(e, l, TokensOf(e) + rest);
    } else if e.VariableExpr? || e.CallExpr? {
      NameBegins(e, rest);
    } else {
      OtherBegins(e, rest);
    }
  }

  lemma {:induction false} SameBeginning(e: Expr, l: Expr, toks: seq<Token>)
    requires Completeness.Leading(e) == Some(l) && Ended(toks) && BeginsWith(l, toks)
    ensures BeginsWith(e, toks)
  {
    hide StartsIndexAssignment;
    assert LeftName(e) == LeftName(l);
  }

  lemma {:induction false} BehindLeading(e: Expr, behind: seq<Token>, rest: seq<Token>)
    requires Ladder(e, false) && Ended(rest) && NoAssignment(rest)
    requires behind != [] && behind[0].kind in FOLLOWERS
    requires e.IndexExpr? ==> behind == [Word(LBRACKET, "[")] + (TokensOf(e.index) + [Word(RBRACKET, "]")])
    requires !e.IndexExpr? ==> behind[0].kind != LBRACKET
    requires behind[0].kind == DOT ==> |behind| > 1 && (|behind| > 2 ==> behind[2].kind == LPAREN)
    ensures Ended(behind + rest) && NoAssignment(behind + rest)
  {
    hide BehindBracket, TokensOf, EqualBehindIndexes;
    if e.IndexExpr? {
      assert behind + rest == [Word(LBRACKET, "[")] + (TokensOf(e.index) + ([Word(RBRACKET, "]")] + rest));
      IndexIsPassed(e.index, rest);
    } else {
      hide Ladder;
      BehindWord(behind, rest);
    }
  }

  lemma {:induction false} BehindWord(behind: seq<Token>, rest: seq<Token>)
    requires Ended(rest) && NoAssignment(rest) && behind != [] && behind[0].kind in FOLLOWERS
             && behind[0].kind != LBRACKET
    requires behind[0].kind == DOT ==> |behind| > 1 && (|behind| > 2 ==> behind[2].kind == LPAREN)
    ensures Ended(behind + rest) && NoAssignment(behind + rest)
  {
    hide BehindBracket;
    var next := behind + rest;
    assert next[0] == behind[0];
    if behind[0].kind == DOT {
      assert |behind| == 2 ==> next[2] == rest[0];
    }
  }

  lemma {:induction false} NameBegins(e: Expr, rest: seq<Token>)
    requires e.VariableExpr? || e.CallExpr?
    requires Ended(rest) && NoAssignment(rest)
    ensures Ended(TokensOf(e) + rest) && BeginsWith(e, TokensOf(e) + rest)
  {
    hide ElementTokens, NamedTokens, Joined, BehindBracket, EqualBehindIndexes;
    var toks := TokensOf(e) + rest;
    if e.VariableExpr? {
      assert toks[1..] == rest;
    } else {
      assert toks[1].kind == LPAREN;
    }
  }

  lemma {:induction false} OtherBegins(e: Expr, rest: seq<Token>)
    requires Ladder(e, false) && Completeness.Leading(e).None? && !e.VariableExpr? && !e.CallExpr? && Ended(rest)
    ensures Ended(TokensOf(e) + rest) && BeginsWith(e, TokensOf(e) + rest)
  {
    hide Lower, ElementTokens, ElementsLadder, Rank, BehindBracket, EqualBehindIndexes, StartsIndexAssignment;
    var toks := TokensOf(e) + rest;
    assert toks[0] == TokensOf(e)[0];
    Completeness.FirstToken(e);
    assert !At(toks, {IDENTIFIER});
    NoNameNoAssignment(toks);
  }

  lemma {:induction false} NoNameNoAssignment(toks: seq<Token>)
    requires Ended(toks) && !At(toks, {IDENTIFIER})
    ensures !StartsIndexAssignment(toks)
  {
  }

  /** The line of an expression statement. */
  lemma {:induction false} LineBegins(e: Expr, rest: seq<Token>)
    requires Ladder(e, false) && Ended(rest)
    ensures BeginsWith(e, WriteLine(e, rest))
  {
    hide TokensOf, Ladder, BeginsWith;
    ExpressionBegins(e, [NewLine()] + rest);
  }

  lemma {:induction false} IndexesArePassed(indexes: seq<Expr>, rest: seq<Token>)
    requires ElementsLadder(indexes, false) && Ended(rest) && At(rest, {EQUAL})
    ensures EqualBehindIndexes(WriteIndexes(indexes, rest))
    decreases indexes
  {
    hide TokensOf, Ladder, BehindBracket;
    if indexes != [] {
      IndexesArePassed(indexes[1..], rest);
      hide EqualBehindIndexes;
      IndexIsPassed(indexes[0], WriteIndexes(indexes[1..], rest));
    }
  }

  // ---- Parts of lines ----

  lemma {:induction false} ReadExpression(e: Expr, rest: seq<Token>)
    requires Ladder(e, false) && Ended(rest) && At(rest, {NEWLINE, COLON, RBRACKET})
    ensures Ended(TokensOf(e) + rest) && E.Expression(TokensOf(e) + rest) == Done(e, rest)
  {
    hide Ladder, TokensOf, E.Expression, Rank;
    Completeness.CompleteExpression(e, rest);
  }

  lemma {:induction false} ReadLine(e: Expr, rest: seq<Token>)
    requires Ladder(e, false) && Ended(rest)
    ensures ExpressionLine(WriteLine(e, rest)) == Done(e, rest)
  {
    hide Ladder, TokensOf, E.Expression;
    ReadExpression(e, [NewLine()] + rest);
    assert ([NewLine()] + rest)[1..] == rest;
  }

  /** A name, the equals sign, and a value to the end of the line. */
  lemma {:induction false} ValueParts(name: string, e: Expr, rest: seq<Token>)
    requires Ended(rest)
    ensures var toks := WriteValue(name, e, rest);
            && toks[0] == Word(IDENTIFIER, name) && toks[1] == Word(EQUAL, "=") && toks[2..] == WriteLine(e, rest)
            && toks[1..] == [Word(EQUAL, "=")] + WriteLine(e, rest)
  {
    hide WriteLine;
  }

  lemma {:induction false} ReadLabel(kind: string, name: string, rest: seq<Token>, stack: Stack)
    requires Ended(rest) && Push(kind, name, stack).Ok?
    ensures OpeningLabel(kind, WriteLabel(name, rest), stack) == Good(name, rest, Push(kind, name, stack).value)
    ensures IsFree(name) ==>
              OpeningName(kind, WriteLabel(name, rest), stack) == Good(name, rest, Push(kind, name, stack).value)
  {
    hide Push;
    LabelParts(name, rest);
  }

  lemma {:induction false} LabelParts(name: string, rest: seq<Token>)
    ensures var toks := WriteLabel(name, rest);
            && |toks| == |rest| + 3 && toks[0].kind == COLON
            && toks[1..][0] == Word(IDENTIFIER, name)
            && toks[1..][1..][0].kind == NEWLINE && toks[1..][1..][1..] == rest
  {
    var toks := WriteLabel(name, rest);
    assert toks[1..][1..][1..] == toks[3..] == rest;
  }

  lemma {:induction false} ReadBranchLabel(name: string, rest: seq<Token>)
    requires Ended(rest)
    ensures BranchLabel(name, WriteLabel(name, rest)) == Done((), rest)
  {
    LabelParts(name, rest);
  }

  lemma {:induction false} ReadCloser(closer: Kind, kind: string, name: string, rest: seq<Token>, stack: Stack)
    requires Ended(rest) && stack != [] && stack[|stack| - 1].name == name && closer != EOF
    ensures Close(closer, kind, WriteCloser(closer, name, rest), stack) == Good((), rest, stack[..|stack| - 1])
  {
    hide WriteLabel;
    LabelParts(name, rest);
    assert WriteCloser(closer, name, rest)[1..] == WriteLabel(name, rest);
  }

  // ---- Declared types ----

  lemma {:induction false} TypeIsRead(name: string, rest: seq<Token>)
    requires Declarable(name)
    ensures TypeName(TypeToken(name)) == name && TypeToken(name).kind in {IDENTIFIER, OBJECT, LIST}
  {
  }

  /** The declared type of an element with this specification. */
  function ElementType(s: Spec): DeclaredType
    requires IsElement(s)
  {
    if s.ListOf? then DeclaredType("list", s.element) else DeclaredType(s.name, Unknown)
  }

  lemma {:induction false} ReadElement(s: Spec, rest: seq<Token>)
    requires IsElement(s) && Ended(rest)
    ensures var toks := WriteElement(s, rest);
            At(toks, {IDENTIFIER, OBJECT, LIST}) && DeclaredTypeOf(toks) == Done(ElementType(s), rest)
    decreases s
  {
    hide Declarable;
    var toks := WriteElement(s, rest);
    if s.Scalar? {
      TypeIsRead(s.name, rest);
      assert toks[1..] == rest;
    } else {
      ReadElement(s.element, [Word(GREATER, ">")] + rest);
      ListParts(s.element, rest);
    }
  }

  lemma {:induction false} ListParts(element: Spec, rest: seq<Token>)
    requires IsElement(element) && Ended(rest)
    ensures Declarable("list")
    ensures var inside := WriteElement(element, [Word(GREATER, ">")] + rest);
            var toks := [TypeToken("list"), Word(LESS, "<")] + inside;
            && toks[0].kind == LIST && toks[1..][0].kind == LESS && toks[2..] == inside
            && ([Word(GREATER, ">")] + rest)[1..] == rest
  {
    hide WriteElement;
  }

  lemma {:induction false} ReadType(declared: DeclaredType, rest: seq<Token>)
    requires IsWritten(declared) && Ended(rest)
    ensures var toks := WriteType(declared, rest);
            At(toks, {IDENTIFIER, OBJECT, LIST}) && DeclaredTypeOf(toks) == Done(declared, rest)
    ensures var toks := WriteType(declared, rest);
            toks[0] == TypeToken(declared.name) && Peek(toks, 1).kind == if declared.name == "list" then LESS
                else rest[0].kind
  {
    hide Declarable;
    var toks := WriteType(declared, rest);
    TypeIsRead(declared.name, rest);
    if declared.name == "list" {
      ReadElement(declared.element, [Word(GREATER, ">")] + rest);
      ListParts(declared.element, rest);
    } else {
      assert toks[1..] == rest;
    }
  }

  // ---- Statements of one line ----

  /** The written form of a statement is read as that statement. */
  predicate IsRead(s: Stmt, rest: seq<Token>, stack: Stack, top: bool, after: Stack)
    requires Ended(rest)
  {
    !At(Write(s, rest), {EOF}) && Statement(Write(s, rest), stack, top) == Good(s, rest, after)
  }

  predicate IsBlock(s: Stmt) {
    || s.ObjectBlock? || s.ListBlock? || s.IfStmt? || s.WhileStmt? || s.ForStmt? || s.TryStmt? || s.TransactionStmt?
    || s.ErrorDecl? || s.HttpRouteDecl? || s.LogicDecl?
  }

  lemma {:induction false} SimpleIsWritten(s: Stmt, rest: seq<Token>)
    requires !IsBlock(s)
    ensures Write(s, rest) == WriteSimple(s, rest)
  {
    hide WriteSimple;
  }

  /** The written form of the statements that begin with a keyword and hold one expression. */
  lemma {:induction false} KeywordedIsWritten(s: Stmt, rest: seq<Token>)
    ensures s.PrintStmt? ==> Write(s, rest) == [Word(PRINT, "")] + WriteLine(s.value, rest)
    ensures s.PrintErrorStmt? ==> Write(s, rest) == [Word(PRINT_ERROR, "")] + WriteLine(s.value, rest)
    ensures s.ThrowStmt? ==> Write(s, rest) == [Word(THROW, "")] + WriteLine(s.value, rest)
    ensures s.ReturnStmt? ==>
              Write(s, rest) == if s.result.Some? then [Word(RETURN, "")] + WriteLine(s.result.value, rest)
                                else [Word(RETURN, ""), NewLine()] + rest
    ensures s.ConstDeclaration? ==> Write(s, rest) == [Word(CONST, "")] + WriteValue(s.name, s.value, rest)
    ensures s.ExpressionStmt? ==> Write(s, rest) == WriteLine(s.expression, rest)
  {
    hide WriteLine, WriteValue;
    if !IsBlock(s) {
      SimpleIsWritten(s, rest);
      hide Write;
    }
  }

  lemma {:induction false} DefinitionIsWritten(s: Stmt, rest: seq<Token>)
    ensures s.Assignment? ==> Write(s, rest) == WriteAssignment(s.name, s.value, rest)
    ensures s.IndexAssignment? ==>
              Write(s, rest) == [Word(IDENTIFIER, s.name)]
                  + WriteIndexes(s.indexes, [Word(EQUAL, "=")] + WriteLine(s.value, rest))
    ensures s.TypedDeclaration? ==>
              var typed := WriteType(s.declared, WriteValue(s.name, s.value, rest));
              Write(s, rest) == if s.constant then [Word(CONST, "")] + typed else typed
    ensures s.ImportStmt? ==>
              Write(s, rest) == [Word(IMPORT, ""), Text(s.path), Word(AS, ""), Word(IDENTIFIER, s.alias), NewLine()]
                  + rest
  {
    hide WriteLine, WriteValue, WriteType, WriteAssignment, WriteIndexes;
    if s.TypedDeclaration? {
      assert [] + WriteType(s.declared, WriteValue(s.name, s.value, rest))
          == WriteType(s.declared, WriteValue(s.name, s.value, rest));
    }
    if !IsBlock(s) {
      SimpleIsWritten(s, rest);
      hide Write;
    }
  }

  lemma {:induction false} DataIsWritten(s: Stmt, rest: seq<Token>)
    ensures s.ObjectBlock? ==>
              Write(s, rest)
              == [Word(OBJECT, "")] + WriteLabel(s.name, WriteEntries(s.entries, WriteCloser(END_OBJECT, s.name, rest)))
    ensures s.ListBlock? ==>
              Write(s, rest)
              == [Word(LIST, "")] + WriteLabel(s.name, WriteElements(s.elements, WriteCloser(END_LIST, s.name, rest)))
    ensures s.ErrorDecl? ==>
              Write(s, rest) == [Word(ERROR, "")] + WriteLabel(s.name, WriteCloser(END_ERROR, s.name, rest))
    ensures s.HttpRouteDecl? ==>
              Write(s, rest)
              == [Word(HTTP_ROUTE, ""), Word(IDENTIFIER, s.verb), Text(s.path)]
                 + WriteLabel(s.blockLabel, WriteAll(s.body, WriteCloser(END_HTTP_ROUTE, s.blockLabel, rest)))
    ensures s.LogicDecl? ==>
              Write(s, rest)
              == [Word(SEP, ""), Word(COLON, ":"), Word(IDENTIFIER, s.logic.name), Word(LPAREN, "(")]
                 + WriteParameters(s.logic.parameters,
                     [NewLine()] + WriteTags(s.logic.tags,
                                             WriteAll(s.logic.body, WriteCloser(END_SEP, s.logic.name, rest))))
  {
    hide WriteLabel, WriteCloser, WriteAll, WriteEntries, WriteElements, WriteParameters, WriteTags;
    if s.LogicDecl? {
      assert Write(s, rest) == WriteLogic(s.logic, rest);
      hide Write;
    }
  }

  lemma {:induction false} ControlIsWritten(s: Stmt, rest: seq<Token>)
    ensures s.WhileStmt? ==>
              Write(s, rest)
              == WriteHead(WHILE, s.condition, s.blockLabel,
                           WriteAll(s.body, WriteCloser(ENDWHILE, s.blockLabel, rest)))
    ensures s.TransactionStmt? ==>
              Write(s, rest)
              == WriteHead(TRANSACTION, s.connection, s.blockLabel,
                           WriteAll(s.body, WriteCloser(END_TRANSACTION, s.blockLabel, rest)))
    ensures s.ForStmt? ==>
              Write(s, rest)
              == [Word(FOR, ""), Word(IDENTIFIER, s.variable)]
                 + WriteHead(IN, s.iterable, s.blockLabel, WriteAll(s.body, WriteCloser(ENDFOR, s.blockLabel, rest)))
    ensures s.IfStmt? && s.branches != [] ==>
              Write(s, rest)
              == WriteHead(IF, s.branches[0].condition, s.blockLabel,
                           WriteAll(s.branches[0].body, WriteBranches(s.blockLabel, s.branches[1..],
                                    WriteLast(ELSE, s.blockLabel, s.elseBody, WriteCloser(ENDIF, s.blockLabel, rest)))))
    ensures s.TryStmt? ==>
              Write(s, rest)
              == [Word(TRY, "")]
                 + WriteLabel(s.blockLabel, WriteAll(s.body, WriteCatches(s.blockLabel, s.catches,
                              WriteLast(FINALLY, s.blockLabel, s.finallyBody,
                                        WriteCloser(ENDTRY, s.blockLabel, rest)))))
  {
    hide WriteLabel, WriteCloser, WriteHead, WriteAll, WriteBranches, WriteCatches, WriteLast;
    if s.WhileStmt? || s.TransactionStmt? || s.ForStmt? || s.IfStmt? || s.TryStmt? {
      assert Write(s, rest) == WriteControl(s, rest);
      hide Write;
    }
  }

  /** No keyword, and no declaration: the line is a simple statement. */
  lemma {:induction false} ToSimple(toks: seq<Token>, stack: Stack, top: bool)
    requires Ended(toks) && toks[0].kind !in {EOF, TAG, COLON, IMPORT, ERROR, HTTP_ROUTE, SEP}
    requires toks[0].kind == IDENTIFIER ==> toks[0].lexeme != "function"
    requires Declarable(TypeName(toks[0])) ==>
               Peek(toks, 1).kind != IDENTIFIER && (TypeName(toks[0]) == "list" ==> Peek(toks, 1).kind != LESS)
    requires !IsBlockOpener(toks[0].kind) && !(top && OnlyInside(toks[0].kind))
    ensures Statement(toks, stack, top) == SimpleStatement(toks, stack, top)
  {
    hide Declarable, SimpleStatement;
  }

  /** A line that begins with a keyword of a statement. */
  lemma {:induction false} KeywordIsSimple(toks: seq<Token>, stack: Stack, top: bool)
    requires Ended(toks) && toks[0].kind in {THROW, PRINT, PRINT_ERROR, RETURN, CONST}
    requires top ==> !OnlyInside(toks[0].kind)
    ensures Statement(toks, stack, top) == SimpleStatement(toks, stack, top)
    ensures SimpleStatement(toks, stack, top)
         == Lift(if toks[0].kind == CONST then ConstantOf(toks[1..]) else Keyworded(toks[0].kind, toks[1..]), stack)
  {
    assert TypeName(toks[0]) == "" && !Declarable("");
    hide Declarable;
    ToSimple(toks, stack, top);
  }

  lemma {:induction false} ReadKeyworded(s: Stmt, rest: seq<Token>, stack: Stack, top: bool)
    requires s.PrintStmt? || s.PrintErrorStmt? || s.ThrowStmt?
    requires Checked(s, stack, top).Some? && Ended(rest)
    ensures IsRead(s, rest, stack, top, stack)
  {
    hide Write;
    KeywordedIsWritten(s, rest);
    hide Statement, SimpleStatement, ExpressionLine, WriteLine, Ladder;
    var toks := Write(s, rest);
    ReadLine(s.value, rest);
    assert toks[1..] == WriteLine(s.value, rest);
    KeywordIsSimple(toks, stack, top);
  }

  lemma {:induction false} ReadReturn(s: Stmt, rest: seq<Token>, stack: Stack, top: bool)
    requires s.ReturnStmt? && Checked(s, stack, top).Some? && Ended(rest)
    ensures IsRead(s, rest, stack, top, stack)
  {
    hide Write;
    KeywordedIsWritten(s, rest);
    ReadReturned(s.result, rest);
    hide Statement, SimpleStatement, WriteLine, Ladder, Keyworded;
    var toks := Write(s, rest);
    assert toks[1..] == if s.result.Some? then WriteLine(s.result.value, rest) else [NewLine()] + rest;
    KeywordIsSimple(toks, stack, top);
  }

  lemma {:induction false} ReadReturned(result: Option<Expr>, rest: seq<Token>)
    requires (result.Some? ==> Ladder(result.value, false)) && Ended(rest)
    ensures var toks := if result.Some? then WriteLine(result.value, rest) else [NewLine()] + rest;
            Keyworded(RETURN, toks) == Done(ReturnStmt(result), rest)
  {
    hide ExpressionLine, WriteLine, Ladder;
    if result.Some? {
      ReadLine(result.value, rest);
      LineIsNotEmpty(result.value, rest);
    } else {
      assert ([NewLine()] + rest)[1..] == rest;
    }
  }

  lemma {:induction false} LineIsNotEmpty(e: Expr, rest: seq<Token>)
    requires Ladder(e, false) && Ended(rest)
    ensures !At(WriteLine(e, rest), {NEWLINE, EOF})
  {
    hide Ladder;
    Completeness.FirstToken(e);
    assert WriteLine(e, rest)[0] == TokensOf(e)[0];
  }

  /** The words of a typed declaration, from the type on. */
  lemma {:induction false} ReadTyped(name: string, declared: DeclaredType, e: Expr, constant: bool, missing: string,
                                     rest: seq<Token>)
    requires IsFree(name) && IsWritten(declared) && Ladder(e, false) && Ended(rest)
    ensures var toks := WriteType(declared, WriteValue(name, e, rest));
            && StartsTypedDeclaration(toks) && toks[0].kind in {IDENTIFIER, OBJECT, LIST}
            && TypedDeclarationOf(toks, constant, missing) == Done(TypedDeclaration(name, declared, e, constant), rest)
            && toks[0] == TypeToken(declared.name)
  {
    hide Declarable, WriteLine, DeclaredTypeOf, ExpressionLine, Ladder;
    var value := WriteValue(name, e, rest);
    ValueParts(name, e, rest);
    ReadType(declared, value);
    TypeIsRead(declared.name, value);
    ReadLine(e, rest);
    assert value[1..][1..] == value[2..];
  }

  lemma {:induction false} ReadTypedConstant(s: Stmt, rest: seq<Token>, stack: Stack, top: bool)
    requires s.TypedDeclaration? && s.constant && Checked(s, stack, top).Some? && Ended(rest)
    ensures IsRead(s, rest, stack, top, stack)
  {
    hide Write;
    DefinitionIsWritten(s, rest);
    hide Statement, SimpleStatement, WriteValue, Ladder, Declarable, TypedDeclarationOf, WriteType;
    hide StartsTypedDeclaration;
    var toks := Write(s, rest);
    KeywordIsSimple(toks, stack, top);
    ReadTyped(s.name, s.declared, s.value, true, "E124", rest);
    assert toks[1..] == WriteType(s.declared, WriteValue(s.name, s.value, rest));
  }

  lemma {:induction false} ReadConstant(s: Stmt, rest: seq<Token>, stack: Stack, top: bool)
    requires s.ConstDeclaration? && Checked(s, stack, top).Some? && Ended(rest)
    ensures IsRead(s, rest, stack, top, stack)
  {
    hide Write;
    KeywordedIsWritten(s, rest);
    hide Statement, SimpleStatement, ExpressionLine, WriteLine, Ladder, TypedDeclarationOf, ConstantOf;
    var toks := Write(s, rest);
    KeywordIsSimple(toks, stack, top);
    assert toks[1..] == WriteValue(s.name, s.value, rest);
    ReadConstantValue(s.name, s.value, rest);
  }

  lemma {:induction false} ReadConstantValue(name: string, e: Expr, rest: seq<Token>)
    requires IsFree(name) && Ladder(e, false) && Ended(rest)
    ensures ConstantOf(WriteValue(name, e, rest)) == Done(ConstDeclaration(name, e), rest)
  {
    hide ExpressionLine, WriteLine, Ladder, TypedDeclarationOf, Declarable;
    ValueParts(name, e, rest);
    ReadLine(e, rest);
    var value := WriteValue(name, e, rest);
    assert value[1..][1..] == value[2..];
  }

  lemma {:induction false} ReadTypedStatement(s: Stmt, rest: seq<Token>, stack: Stack, top: bool)
    requires s.TypedDeclaration? && !s.constant
    requires Checked(s, stack, top).Some? && Ended(rest)
    ensures IsRead(s, rest, stack, top, stack)
  {
    hide Write;
    DefinitionIsWritten(s, rest);
    hide WriteValue, Ladder, Declarable, TypedDeclarationOf, WriteType, StartsTypedDeclaration, Statement, TypeToken;
    ReadTyped(s.name, s.declared, s.value, false, "E124", rest);
    TypesAreNoFunctions(s.declared.name);
    ToTyped(Write(s, rest), stack, top);
  }

  lemma {:induction false} ToTyped(toks: seq<Token>, stack: Stack, top: bool)
    requires Ended(toks) && StartsTypedDeclaration(toks) && toks[0].kind in {IDENTIFIER, OBJECT, LIST}
    requires toks[0].lexeme != "function"
    ensures Statement(toks, stack, top) == Lift(TypedDeclarationOf(toks, false, "E124"), stack)
  {
    hide StartsTypedDeclaration, TypedDeclarationOf, Declarable;
  }

  lemma {:induction false} TypesAreNoFunctions(name: string)
    requires Declarable(name)
    ensures name != "function" && TypeToken(name).kind in {IDENTIFIER, OBJECT, LIST} && TypeToken(name).lexeme == name
  {
  }

  lemma {:induction false} CompoundsAreRead(operator: string)
    requires CompoundKind(operator).Some?
    ensures IsAssignment(CompoundKind(operator).value)
            && CompoundOperator(CompoundKind(operator).value) == Some(operator)
    ensures CompoundKind(operator).value !in {IDENTIFIER, LESS, LBRACKET}
  {
  }

  lemma {:induction false} ReadAssignment(name: string, e: Expr, rest: seq<Token>)
    requires IsTarget(name) && (Ladder(e, false) || IsCompound(name, e)) && Ended(rest)
    ensures var toks := WriteAssignment(name, e, rest);
            && At(toks, {IDENTIFIER}) && toks[0].lexeme == name && IsAssignment(Peek(toks, 1).kind)
            && Peek(toks, 1).kind !in {IDENTIFIER, LESS, LBRACKET}
            && AssignmentOf(toks) == Done(Assignment(name, e), rest)
  {
    hide ExpressionLine, WriteLine, Ladder, CompoundKind;
    var toks := WriteAssignment(name, e, rest);
    if Ladder(e, false) {
      ValueParts(name, e, rest);
      ReadLine(e, rest);
    } else {
      CompoundsAreRead(e.operator);
      ReadLine(e.right, rest);
      assert toks[2..] == WriteLine(e.right, rest);
    }
  }

  lemma {:induction false} ReadAssignmentStatement(s: Stmt, rest: seq<Token>, stack: Stack, top: bool)
    requires s.Assignment? && Checked(s, stack, top).Some? && Ended(rest)
    ensures IsRead(s, rest, stack, top, stack)
  {
    hide Write;
    DefinitionIsWritten(s, rest);
    hide WriteAssignment, AssignmentOf, Ladder, Declarable, IsAssignment, Statement, IndexAssignmentOf;
    var toks := Write(s, rest);
    ReadAssignment(s.name, s.value, rest);
    ToSimple(toks, stack, top);
    assert toks[1].kind != LBRACKET;
  }

  lemma {:induction false} ReadIndexes(before: seq<Expr>, indexes: seq<Expr>, rest: seq<Token>)
    requires ElementsLadder(indexes, false) && Ended(rest) && !At(rest, {LBRACKET})
    ensures Indexes(before, WriteIndexes(indexes, rest)) == Done(before + indexes, rest)
    decreases indexes
  {
    hide TokensOf, Ladder, E.Expression;
    if indexes == [] {
      assert before + indexes == before;
    } else {
      var close := [Word(RBRACKET, "]")] + WriteIndexes(indexes[1..], rest);
      IndexParts(indexes, rest);
      ReadExpression(indexes[0], close);
      ReadIndexes(before + [indexes[0]], indexes[1..], rest);
      assert (before + [indexes[0]]) + indexes[1..] == before + indexes;
      IndexStep(before, indexes[0], WriteIndexes(indexes, rest), close);
      hide WriteIndexes, Indexes;
    }
  }

  lemma {:induction false} IndexStep(before: seq<Expr>, index: Expr, toks: seq<Token>, close: seq<Token>)
    requires Ended(toks) && At(toks, {LBRACKET}) && Ended(close) && At(close, {RBRACKET})
    requires E.Expression(toks[1..]) == Done(index, close)
    ensures Indexes(before, toks) == Indexes(before + [index], close[1..])
  {
    hide E.Expression;
  }

  lemma {:induction false} IndexParts(indexes: seq<Expr>, rest: seq<Token>)
    requires indexes != [] && Ended(rest)
    ensures var close := [Word(RBRACKET, "]")] + WriteIndexes(indexes[1..], rest);
            var toks := WriteIndexes(indexes, rest);
            && Ended(close) && toks[0].kind == LBRACKET && toks[1..] == TokensOf(indexes[0]) + close
            && close[0].kind == RBRACKET && close[1..] == WriteIndexes(indexes[1..], rest)
  {
    hide TokensOf;
  }

  lemma {:induction false} ReadIndexAssignment(s: Stmt, rest: seq<Token>, stack: Stack, top: bool)
    requires s.IndexAssignment? && Checked(s, stack, top).Some? && Ended(rest)
    ensures IsRead(s, rest, stack, top, stack)
  {
    hide Write;
    DefinitionIsWritten(s, rest);
    hide WriteLine, Indexes, Ladder, ElementsLadder, Declarable, IsAssignment, Statement, AssignmentOf, TokensOf;
    hide ExpressionLine;
    hide EqualBehindIndexes;
    var toks := Write(s, rest);
    var equal := [Word(EQUAL, "=")] + WriteLine(s.value, rest);
    assert toks[1..] == WriteIndexes(s.indexes, equal) && equal[1..] == WriteLine(s.value, rest);
    IndexesArePassed(s.indexes, equal);
    ReadIndexes([], s.indexes, equal);
    assert [] + s.indexes == s.indexes;
    ReadLine(s.value, rest);
    assert toks[1] == toks[1..][0] == Word(LBRACKET, "[");
    ToSimple(toks, stack, top);
  }

  lemma {:induction false} ReadExpressionStatement(s: Stmt, rest: seq<Token>, stack: Stack, top: bool)
    requires s.ExpressionStmt? && Checked(s, stack, top).Some? && Ended(rest)
    ensures IsRead(s, rest, stack, top, stack)
  {
    hide Write;
    KeywordedIsWritten(s, rest);
    hide WriteLine, Ladder, Declarable, Statement, SimpleStatement, ExpressionLine, BeginsWith;
    var toks := Write(s, rest);
    LineBegins(s.expression, rest);
    ReadLine(s.expression, rest);
    ToExpression(s.expression, toks, stack, top);
  }

  /** A line that begins with an expression, and with no name that says otherwise. */
  lemma {:induction false} ToExpression(e: Expr, toks: seq<Token>, stack: Stack, top: bool)
    requires Ended(toks) && BeginsWith(e, toks) && IsExpressionStatement(e, top) && ExpressionLine(toks).Done?
    ensures !At(toks, {EOF})
    ensures Statement(toks, stack, top)
            == Good(ExpressionStmt(ExpressionLine(toks).value), ExpressionLine(toks).rest, stack)
  {
    hide Ladder, Declarable, Statement, SimpleStatement, ExpressionLine, StartsIndexAssignment, LeftName, IsAssignment;
    OnlyNamesAreTypes(toks[0]);
    if At(toks, {IDENTIFIER}) {
      FollowersAssignNothing(Peek(toks, 1).kind);
    }
    ToSimple(toks, stack, top);
    IsSimpleExpression(toks, stack, top);
  }

  lemma {:induction false} IsSimpleExpression(toks: seq<Token>, stack: Stack, top: bool)
    requires Ended(toks) && toks[0].kind !in {EOF, THROW, PRINT, PRINT_ERROR, RETURN, CONST}
             && ExpressionLine(toks).Done?
    requires !StartsIndexAssignment(toks)
    requires toks[0].kind == IDENTIFIER ==> !IsAssignment(Peek(toks, 1).kind)
    requires !(toks[0].kind == IDENTIFIER && Peek(toks, 1).kind == DOT && Peek(toks, 2).kind == IDENTIFIER
               && Peek(toks, 3).kind == EQUAL)
    requires top ==> toks[0].kind == IDENTIFIER && toks[0].lexeme in {"http_host", "http_static"}
    ensures SimpleStatement(toks, stack, top)
         == Good(ExpressionStmt(ExpressionLine(toks).value), ExpressionLine(toks).rest, stack)
  {
    hide ExpressionLine, StartsIndexAssignment, IsAssignment, IndexAssignmentOf, AssignmentOf, ConstantOf, Keyworded;
  }

  lemma {:induction false} FollowersAssignNothing(kind: Kind)
    requires kind in FOLLOWERS + {LPAREN, NEWLINE}
    ensures !IsAssignment(kind) && kind != IDENTIFIER
  {
  }

  /** A type name stands for itself, or is one of two keywords. */
  lemma {:induction false} OnlyNamesAreTypes(t: Token)
    ensures Declarable(TypeName(t)) ==>
              t.kind in {IDENTIFIER, LIST, OBJECT} && (t.kind == IDENTIFIER ==> TypeName(t) == t.lexeme)
  {
  }

  /** What may stand outside of a SEP only. */
  lemma {:induction false} ToDeclaration(toks: seq<Token>, stack: Stack)
    requires Ended(toks) && At(toks, {IMPORT, ERROR, HTTP_ROUTE, SEP})
    ensures !At(toks, {EOF})
    ensures Statement(toks, stack, true)
         == if toks[0].kind == IMPORT then Lift(ImportOf(toks[1..]), stack)
            else if toks[0].kind == ERROR then ErrorDeclaration(toks, stack)
            else if toks[0].kind == HTTP_ROUTE then HttpRoute(toks, stack) else SepOf(toks, stack)
  {
    hide ImportOf, ErrorDeclaration, HttpRoute, SepOf, Declarable;
  }

  lemma {:induction false} ReadImportOf(path: string, alias: string, rest: seq<Token>)
    requires IsFree(alias) && Ended(rest)
    ensures var toks := [Text(path), Word(AS, ""), Word(IDENTIFIER, alias), NewLine()] + rest;
            Ended(toks) && ImportOf(toks) == Done(ImportStmt(path, alias), rest)
  {
    var line := [NewLine()] + rest;
    var name := [Word(IDENTIFIER, alias)] + line;
    var toks := [Text(path), Word(AS, ""), Word(IDENTIFIER, alias), NewLine()] + rest;
    assert toks[1..] == [Word(AS, "")] + name;
    assert toks[1..][1..] == name && name[1..] == line && line[1..] == rest;
    assert Binding(name) == Done(alias, line) && LineEnd(line) == Done((), rest);
    hide Binding, LineEnd;
  }

  lemma {:induction false} ReadImport(s: Stmt, rest: seq<Token>, stack: Stack)
    requires s.ImportStmt? && Checked(s, stack, true).Some? && Ended(rest)
    ensures IsRead(s, rest, stack, true, stack)
  {
    assert IsFree(s.alias);
    ReadImportLine(s, rest, stack);
    hide IsRead;
  }

  lemma {:induction false} ReadImportLine(s: Stmt, rest: seq<Token>, stack: Stack)
    requires s.ImportStmt? && IsFree(s.alias) && Ended(rest)
    ensures IsRead(s, rest, stack, true, stack)
  {
    hide Write, Statement, ImportOf, IsFree;
    DefinitionIsWritten(s, rest);
    ReadImportOf(s.path, s.alias, rest);
    var toks := Write(s, rest);
    hide WriteAssignment, WriteIndexes, WriteType;
    ToDeclaration(toks, stack);
    assert toks[1..] == [Text(s.path), Word(AS, ""), Word(IDENTIFIER, s.alias), NewLine()] + rest;
  }

  // ---- Open blocks ----

  /** The blocks that are open behind the innermost one. */
  function Outside(after: Option<Stack>): Stack {
    if Shut(after).Some? then Shut(after).value else []
  }

  /** A block of this name is the innermost one, and the others are those of `stack`. */
  predicate IsInside(name: string, stack: Stack, inside: Stack) {
    inside != [] && inside[|inside| - 1].name == name && SameBlocks(stack, inside[..|inside| - 1])
  }

  lemma {:induction false} EnterIsInside(kind: string, name: string, stack: Stack)
    requires Enter(kind, name, stack).Some?
    ensures Push(kind, name, stack) == Ok(Enter(kind, name, stack).value)
    ensures IsInside(name, stack, Enter(kind, name, stack).value)
  {
    hide IsLocal, LooksLocal, IsOpen;
    var inside := Enter(kind, name, stack).value;
    if IsLocal(name) {
      var sep := InnermostSep(stack);
      assert inside[..|inside| - 1] == stack[sep := stack[sep].(used := stack[sep].used + {name})];
    } else {
      assert inside[..|inside| - 1] == stack;
    }
  }

  lemma {:induction false} StillInside(name: string, stack: Stack, inside: Stack, after: Stack)
    requires IsInside(name, stack, inside) && SameBlocks(inside, after)
    ensures IsInside(name, stack, after)
  {
  }

  lemma {:induction false} BlocksTransitive(a: Stack, b: Stack, c: Stack)
    requires SameBlocks(a, b) && SameBlocks(b, c)
    ensures SameBlocks(a, c)
  {
  }

  /** The open blocks behind the branches of an if from branch `i` on, and behind its last one. */
  function CheckedFrom(s: Stmt, i: nat, stack: Stack): Option<Stack>
    requires s.IfStmt? && i <= |s.branches|
  {
    var after := CheckedBranches(s.branches[i..], stack);
    if after.None? then None else CheckedLast(s.elseBody, after.value)
  }

  lemma {:induction false} IfStacks(s: Stmt, stack: Stack)
    requires s.IfStmt? && Checked(s, stack, false).Some?
    ensures s.branches != [] && Enter("if", s.blockLabel, stack).Some?
    ensures var inside := Enter("if", s.blockLabel, stack).value;
            && Push("if", s.blockLabel, stack) == Ok(inside) && inside != []
            && CheckedFrom(s, 0, inside).Some? && IsInside(s.blockLabel, stack, CheckedFrom(s, 0, inside).value)
            && Checked(s, stack, false) == Some(Outside(CheckedFrom(s, 0, inside)))
    decreases s, 0
  {
    hide CheckedBranches, CheckedLast, Enter;
    assert s.branches[0..] == s.branches;
    var inside := Enter("if", s.blockLabel, stack).value;
    EnterIsInside("if", s.blockLabel, stack);
    BranchesKeepBlocks(s.branches, inside);
    var after := CheckedBranches(s.branches, inside).value;
    LastKeepsBlocks(s.elseBody, after);
    var left := CheckedLast(s.elseBody, after).value;
    BlocksTransitive(inside, after, left);
    StillInside(s.blockLabel, stack, inside, left);
  }

  lemma {:induction false} TryStacks(s: Stmt, stack: Stack)
    requires s.TryStmt? && Checked(s, stack, false).Some?
    ensures (s.catches != [] || s.finallyBody.Body?) && Enter("try", s.blockLabel, stack).Some?
    ensures var inside := Enter("try", s.blockLabel, stack).value;
            Push("try", s.blockLabel, stack) == Ok(inside) && inside != [] && CheckedAll(s.body, inside).Some?
            && var tried := CheckedAll(s.body, inside).value;
            tried != [] && CheckedCatches([], s.catches, tried).Some?
            && var after := CheckedCatches([], s.catches, tried).value;
            after != [] && CheckedLast(s.finallyBody, after).Some?
            && var left := CheckedLast(s.finallyBody, after).value;
            IsInside(s.blockLabel, stack, left) && Checked(s, stack, false) == Some(Outside(Some(left)))
    decreases s, 0
  {
    hide Enter, CheckedAll, CheckedCatches, CheckedLast;
    var inside := Enter("try", s.blockLabel, stack).value;
    var tried := CheckedAll(s.body, inside).value;
    var after := CheckedCatches([], s.catches, tried).value;
    var left := CheckedLast(s.finallyBody, after).value;
    EnterIsInside("try", s.blockLabel, stack);
    AllKeepBlocks(s.body, inside);
    CatchesKeepBlocks([], s.catches, tried);
    LastKeepsBlocks(s.finallyBody, after);
    BlocksTransitive(inside, tried, after);
    BlocksTransitive(inside, after, left);
    StillInside(s.blockLabel, stack, inside, left);
  }

  /** A well-formed statement leaves the blocks open that it finds. */
  lemma {:induction false} BlocksAreKept(s: Stmt, stack: Stack, top: bool)
    requires Checked(s, stack, top).Some?
    ensures SameBlocks(stack, Checked(s, stack, top).value)
    decreases s, 1
  {
    if s.IfStmt? {
      IfStacks(s, stack);
      hide Checked, CheckedFrom, Enter;
    } else if s.TryStmt? {
      TryStacks(s, stack);
      hide Checked, CheckedAll, CheckedCatches, CheckedLast, Enter;
    } else {
      OneBodyKept(s, stack, top);
    }
  }

  lemma {:induction false} OneBodyKept(s: Stmt, stack: Stack, top: bool)
    requires !s.IfStmt? && !s.TryStmt? && Checked(s, stack, top).Some?
    ensures SameBlocks(stack, Checked(s, stack, top).value)
    decreases s, 0
  {
    hide Ladder, ElementsLadder, Declarable, IsExpressionStatement, IsWritten, IsTarget, IsCompound, AreParameters;
    hide AreDistinct, IsRoute;
    hide CheckedAll, CheckedBranches, CheckedLast, CheckedCatches, CheckedEntries, EndsWithError, Enter, IsFree;
    match s
    case ObjectBlock(name, entries) =>
      EnterIsInside("object", name, stack);
      var inside := Enter("object", name, stack).value;
      EntriesKeepBlocks([], entries, inside);
      StillInside(name, stack, inside, CheckedEntries([], entries, inside).value);
    case ListBlock(name, _) => EnterIsInside("list", name, stack);
    case WhileStmt(name, _, body) => BodyKeepsBlocks("while", name, body, stack);
    case ForStmt(name, _, _, body) => BodyKeepsBlocks("for", name, body, stack);
    case TransactionStmt(name, _, body) => BodyKeepsBlocks("transaction", name, body, stack);
    case ErrorDecl(name) => EnterIsInside("error", name, stack);
    case HttpRouteDecl(name, _, _, body) => BodyKeepsBlocks("http_route", name, body, stack);
    case LogicDecl(logic) => BodyKeepsBlocks("SEP", logic.name, logic.body, stack);
    case _ =>
  }

  lemma {:induction false} BodyKeepsBlocks(kind: string, name: string, body: seq<Stmt>, stack: Stack)
    requires Enter(kind, name, stack).Some? && CheckedAll(body, Enter(kind, name, stack).value).Some?
    ensures var inside := Enter(kind, name, stack).value;
            var after := CheckedAll(body, inside).value;
            IsInside(name, stack, inside) && SameBlocks(inside, after) && IsInside(name, stack, after)
    decreases body, 1
  {
    hide CheckedAll, Enter;
    EnterIsInside(kind, name, stack);
    var inside := Enter(kind, name, stack).value;
    AllKeepBlocks(body, inside);
    StillInside(name, stack, inside, CheckedAll(body, inside).value);
  }

  lemma {:induction false} AllKeepBlocks(ss: seq<Stmt>, stack: Stack)
    requires CheckedAll(ss, stack).Some?
    ensures SameBlocks(stack, CheckedAll(ss, stack).value)
    decreases ss, 0
  {
    hide Checked;
    if ss != [] {
      var next := Checked(ss[0], stack, false).value;
      BlocksAreKept(ss[0], stack, false);
      AllKeepBlocks(ss[1..], next);
      BlocksTransitive(stack, next, CheckedAll(ss[1..], next).value);
    }
  }

  lemma {:induction false} BranchesKeepBlocks(branches: seq<IfBranch>, stack: Stack)
    requires CheckedBranches(branches, stack).Some?
    ensures SameBlocks(stack, CheckedBranches(branches, stack).value)
    decreases branches, 0
  {
    hide Checked, CheckedAll, Ladder;
    if branches != [] {
      var next := CheckedAll(branches[0].body, stack).value;
      AllKeepBlocks(branches[0].body, stack);
      BranchesKeepBlocks(branches[1..], next);
      BlocksTransitive(stack, next, CheckedBranches(branches[1..], next).value);
    }
  }

  lemma {:induction false} LastKeepsBlocks(body: OptionalBody, stack: Stack)
    requires CheckedLast(body, stack).Some?
    ensures SameBlocks(stack, CheckedLast(body, stack).value)
    decreases body, 0
  {
    hide CheckedAll;
    if body.Body? {
      AllKeepBlocks(body.statements, stack);
    }
  }

  lemma {:induction false} CatchesKeepBlocks(before: seq<CatchBranch>, catches: seq<CatchBranch>, stack: Stack)
    requires CheckedCatches(before, catches, stack).Some?
    ensures SameBlocks(stack, CheckedCatches(before, catches, stack).value)
    decreases catches, 0
  {
    hide CheckedAll, Catching;
    if catches != [] {
      var next := CheckedAll(catches[0].body, stack).value;
      AllKeepBlocks(catches[0].body, stack);
      CatchesKeepBlocks(before + [catches[0]], catches[1..], next);
      BlocksTransitive(stack, next, CheckedCatches(before + [catches[0]], catches[1..], next).value);
    }
  }

  lemma {:induction false} EntriesKeepBlocks(before: seq<Entry>, entries: seq<Entry>, stack: Stack)
    requires CheckedEntries(before, entries, stack).Some?
    ensures SameBlocks(stack, CheckedEntries(before, entries, stack).value)
    decreases entries, 0
  {
    hide CheckedEntry, HasEntry;
    if entries != [] {
      var next := CheckedEntry(entries[0], stack).value;
      EntryKeepsBlocks(entries[0], stack);
      EntriesKeepBlocks(before + [entries[0]], entries[1..], next);
      BlocksTransitive(stack, next, CheckedEntries(before + [entries[0]], entries[1..], next).value);
    }
  }

  lemma {:induction false} EntryKeepsBlocks(entry: Entry, stack: Stack)
    requires CheckedEntry(entry, stack).Some?
    ensures SameBlocks(stack, CheckedEntry(entry, stack).value)
    decreases entry, 2
  {
    hide Checked, Ladder, IsWritten;
    if entry.BlockEntry? {
      BlocksAreKept(entry.block, stack, false);
    }
  }

  // ---- Blocks ----

  /** What ends a list of statements. */
  predicate IsEnder(kind: Kind) {
    || kind == ELSEIF || kind == ELSE || kind == CATCH || kind == FINALLY || CloserKind(kind).Some?
  }

  /** Where a statement can begin. */
  predicate IsBeginning(kind: Kind) { !IsEnder(kind) && kind != NEWLINE && kind != EOF && kind != TAG }

  lemma {:induction false} ExpressionsAreBeginnings(kind: Kind)
    requires kind in Completeness.STARTERS + {BANG, NOT, MINUS}
    ensures IsBeginning(kind)
  {
  }

  /** No statement begins like the end of a list of statements. */
  lemma {:induction false} StatementBegins(s: Stmt, rest: seq<Token>, stack: Stack, top: bool)
    requires Checked(s, stack, top).Some? && Ended(rest)
    ensures IsBeginning(Write(s, rest)[0].kind)
  {
    if IsBlock(s) {
      BlockBegins(s, rest, stack, top);
    } else {
      LineOfStatementBegins(s, rest, stack, top);
    }
  }

  /** The keywords of statements. */
  predicate IsKeyword(kind: Kind) {
    || kind == SEP || kind == IF || kind == WHILE || kind == FOR || kind == PRINT || kind == PRINT_ERROR
       || kind == RETURN
    || kind == CONST || kind == OBJECT || kind == LIST || kind == IMPORT || kind == TRY || kind == THROW
       || kind == ERROR
    || kind == HTTP_ROUTE || kind == TRANSACTION || kind == IDENTIFIER
  }

  lemma {:induction false} KeywordsAreBeginnings(kind: Kind)
    requires IsKeyword(kind)
    ensures IsBeginning(kind)
  {
  }

  lemma {:induction false} BlockBegins(s: Stmt, rest: seq<Token>, stack: Stack, top: bool)
    requires IsBlock(s) && Checked(s, stack, top).Some? && Ended(rest)
    ensures IsBeginning(Write(s, rest)[0].kind)
  {
    hide Write, WriteAll, WriteBranches, WriteLast, WriteCatches, WriteEntries, WriteElements, WriteParameters;
    hide WriteTags, WriteLabel;
    hide TokensOf, WriteCloser, IsBeginning;
    ControlIsWritten(s, rest);
    DataIsWritten(s, rest);
    if s.IfStmt? {
      NoEmptyIf(s, stack, top);
    }
    hide Checked;
    KeywordsAreBeginnings(Write(s, rest)[0].kind);
  }

  lemma {:induction false} NoEmptyIf(s: Stmt, stack: Stack, top: bool)
    requires s.IfStmt? && Checked(s, stack, top).Some?
    ensures s.branches != []
  {
  }

  lemma {:induction false} LineOfStatementBegins(s: Stmt, rest: seq<Token>, stack: Stack, top: bool)
    requires !IsBlock(s) && Checked(s, stack, top).Some? && Ended(rest)
    ensures IsBeginning(Write(s, rest)[0].kind)
  {
    hide Write, TokensOf, Ladder, ElementsLadder, Declarable, WriteElement, WriteIndexes, WriteType, WriteLine;
    hide IsBeginning;
    KeywordedIsWritten(s, rest);
    DefinitionIsWritten(s, rest);
    if s.ExpressionStmt? {
      ExpressionLineBegins(s.expression, rest);
    } else {
      if s.TypedDeclaration? {
        TypesAreNoFunctions(s.declared.name);
        TypeBegins(s.declared, WriteValue(s.name, s.value, rest));
      }
      KeywordsAreBeginnings(Write(s, rest)[0].kind);
    }
  }

  lemma {:induction false} TypeBegins(declared: DeclaredType, rest: seq<Token>)
    requires IsWritten(declared) && Ended(rest)
    ensures WriteType(declared, rest)[0] == TypeToken(declared.name)
  {
  }

  lemma {:induction false} ExpressionLineBegins(e: Expr, rest: seq<Token>)
    requires Ladder(e, false) && Ended(rest)
    ensures IsBeginning(WriteLine(e, rest)[0].kind)
  {
    hide Ladder, TokensOf, IsBeginning;
    Completeness.FirstToken(e);
    assert WriteLine(e, rest)[0] == TokensOf(e)[0];
    ExpressionsAreBeginnings(TokensOf(e)[0].kind);
  }

  /** A block statement, unless it may stand inside of a SEP only. */
  lemma {:induction false} ToBlock(toks: seq<Token>, stack: Stack, top: bool)
    requires Ended(toks) && IsBlockOpener(toks[0].kind) && !(top && OnlyInside(toks[0].kind))
    requires toks[0].kind in {OBJECT, LIST} ==> Peek(toks, 1).kind == COLON
    ensures Statement(toks, stack, top) == BlockStatement(toks, stack)
  {
    hide Declarable, BlockStatement, HttpRoute, SepOf, ErrorDeclaration, ImportOf, TypedDeclarationOf, SimpleStatement;
    hide InnermostSep;
    OnlyNamesAreTypes(toks[0]);
  }

  lemma {:induction false} ToControl(toks: seq<Token>, stack: Stack)
    requires Ended(toks) && At(toks, {IF, WHILE, FOR, TRY, TRANSACTION})
    ensures !At(toks, {EOF})
    ensures Statement(toks, stack, false)
         == if toks[0].kind == IF then IfOf(toks, stack)
            else if toks[0].kind == WHILE then WhileOf(toks, stack)
            else if toks[0].kind == FOR then ForOf(toks, stack)
            else if toks[0].kind == TRY then TryOf(toks, stack) else TransactionOf(toks, stack)
  {
    hide Statement, ObjectOf, ListBlockOf, TryOf, TransactionOf, IfOf, WhileOf, ForOf;
    ToBlock(toks, stack, false);
  }

  lemma {:induction false} ToData(toks: seq<Token>, stack: Stack, top: bool)
    requires Ended(toks) && At(toks, {OBJECT, LIST}) && Peek(toks, 1).kind == COLON
    ensures !At(toks, {EOF})
    ensures Statement(toks, stack, top) == if toks[0].kind == OBJECT then ObjectOf(toks, stack)
        else ListBlockOf(toks, stack)
  {
    hide Statement, ObjectOf, ListBlockOf, TryOf, TransactionOf, IfOf, WhileOf, ForOf;
    ToBlock(toks, stack, top);
  }

  /** The keyword of a block, an expression and the label. */
  lemma {:induction false} ReadHead(keyword: Kind, e: Expr, name: string, rest: seq<Token>)
    requires Ladder(e, false) && Ended(rest)
    ensures var toks := WriteHead(keyword, e, name, rest);
            && toks[0].kind == keyword && Ended(toks[1..])
            && E.Expression(toks[1..]) == Done(e, WriteLabel(name, rest))
  {
    hide TokensOf, Ladder, E.Expression;
    var toks := WriteHead(keyword, e, name, rest);
    assert toks[1..] == TokensOf(e) + WriteLabel(name, rest);
    ReadExpression(e, WriteLabel(name, rest));
  }

  lemma {:induction false} EofIsNoEnder()
    ensures !IsEnder(EOF) && !IsEnder(NEWLINE)
  {
  }

  lemma {:induction false} ReadBody(endings: set<Kind>, before: seq<Stmt>, body: seq<Stmt>, rest: seq<Token>,
                                    stack: Stack)
    requires CheckedAll(body, stack).Some? && Ended(rest) && At(rest, endings) && stack != []
    requires forall kind | kind in endings :: IsEnder(kind)
    ensures EOF !in endings
    ensures BodyUntil(endings, before, WriteAll(body, rest), stack)
            == Good(before + body, rest, CheckedAll(body, stack).value)
    decreases body, 0
  {
    EofIsNoEnder();
    hide Checked, Write, Statement;
    if body == [] {
      assert before + body == before;
    } else {
      var more := WriteAll(body[1..], rest);
      var toks := WriteAll(body, rest);
      var next := Checked(body[0], stack, false).value;
      StatementBegins(body[0], more, stack, false);
      ReadStatement(body[0], more, stack, false);
      BlocksAreKept(body[0], stack, false);
      ReadBody(endings, before + [body[0]], body[1..], rest, next);
      assert (before + [body[0]]) + body[1..] == before + body;
      hide CloserKind, CheckedAll;
    }
  }

  /** The body of a block, up to its closer. */
  lemma {:induction false} ReadBlock(closer: Kind, kind: string, name: string, body: seq<Stmt>, rest: seq<Token>,
                                     stack: Stack)
    requires Enter(kind, name, stack).Some? && CheckedAll(body, Enter(kind, name, stack).value).Some?
    requires Ended(rest) && IsEnder(closer)
    ensures var inside := Enter(kind, name, stack).value;
            var after := CheckedAll(body, inside).value;
            var end := WriteCloser(closer, name, rest);
            && inside != [] && after != []
            && BodyUntil({closer}, [], WriteAll(body, end), inside) == Good(body, end, after)
            && Close(closer, kind, end, after) == Good((), rest, after[..|after| - 1])
    decreases body, 1
  {
    hide CheckedAll, WriteAll, BodyUntil, Close, Enter;
    var inside := Enter(kind, name, stack).value;
    var end := WriteCloser(closer, name, rest);
    BodyKeepsBlocks(kind, name, body, stack);
    ReadBody({closer}, [], body, end, inside);
    assert [] + body == body;
    hide WriteCloser;
    ReadCloser(closer, kind, name, rest, CheckedAll(body, inside).value);
  }

  lemma {:induction false} ReadWhileOf(name: string, e: Expr, body: seq<Stmt>, rest: seq<Token>, stack: Stack)
    requires Ladder(e, false) && Enter("while", name, stack).Some? && Ended(rest)
    requires CheckedAll(body, Enter("while", name, stack).value).Some?
    ensures var toks := WriteHead(WHILE, e, name, WriteAll(body, WriteCloser(ENDWHILE, name, rest)));
            && At(toks, {WHILE})
            && WhileOf(toks, stack)
               == Good(WhileStmt(name, e, body), rest, Outside(CheckedAll(body, Enter("while", name, stack).value)))
    decreases body, 2
  {
    hide WriteAll, BodyUntil, Close, Enter, E.Expression, Ladder, WriteLabel, WriteCloser, OpeningLabel, CheckedAll;
    hide WriteHead;
    var inner := WriteAll(body, WriteCloser(ENDWHILE, name, rest));
    EnterIsInside("while", name, stack);
    ReadHead(WHILE, e, name, inner);
    ReadLabel("while", name, inner, stack);
    ReadBlock(ENDWHILE, "while", name, body, rest, stack);
  }

  lemma {:induction false} ReadWhile(s: Stmt, rest: seq<Token>, stack: Stack)
    requires s.WhileStmt? && Checked(s, stack, false).Some? && Ended(rest)
    ensures IsRead(s, rest, stack, false, Checked(s, stack, false).value)
    decreases s, 1
  {
    hide Write;
    ControlIsWritten(s, rest);
    hide WriteAll, Enter, Ladder, WriteCloser, CheckedAll, WriteHead;
    ReadWhileOf(s.blockLabel, s.condition, s.body, rest, stack);
    hide WhileOf, Statement;
    ToControl(Write(s, rest), stack);
  }

  lemma {:induction false} ReadTransactionOf(name: string, e: Expr, body: seq<Stmt>, rest: seq<Token>, stack: Stack)
    requires Ladder(e, false) && Enter("transaction", name, stack).Some? && Ended(rest)
    requires CheckedAll(body, Enter("transaction", name, stack).value).Some?
    ensures var toks := WriteHead(TRANSACTION, e, name, WriteAll(body, WriteCloser(END_TRANSACTION, name, rest)));
            && At(toks, {TRANSACTION})
            && TransactionOf(toks, stack)
               == Good(TransactionStmt(name, e, body), rest,
                       Outside(CheckedAll(body, Enter("transaction", name, stack).value)))
    decreases body, 2
  {
    hide WriteAll, BodyUntil, Close, Enter, E.Expression, Ladder, WriteLabel, WriteCloser, OpeningLabel, CheckedAll;
    hide WriteHead;
    var inner := WriteAll(body, WriteCloser(END_TRANSACTION, name, rest));
    EnterIsInside("transaction", name, stack);
    ReadHead(TRANSACTION, e, name, inner);
    ReadLabel("transaction", name, inner, stack);
    ReadBlock(END_TRANSACTION, "transaction", name, body, rest, stack);
  }

  lemma {:induction false} ReadTransaction(s: Stmt, rest: seq<Token>, stack: Stack)
    requires s.TransactionStmt? && Checked(s, stack, false).Some? && Ended(rest)
    ensures IsRead(s, rest, stack, false, Checked(s, stack, false).value)
    decreases s, 1
  {
    hide Write;
    ControlIsWritten(s, rest);
    hide WriteAll, Enter, Ladder, WriteCloser, CheckedAll, WriteHead;
    ReadTransactionOf(s.blockLabel, s.connection, s.body, rest, stack);
    hide TransactionOf, Statement;
    ToControl(Write(s, rest), stack);
  }

  lemma {:induction false} ReadForOf(name: string, variable: string, e: Expr, body: seq<Stmt>, rest: seq<Token>,
                                     stack: Stack)
    requires IsFree(variable) && Ladder(e, false) && Enter("for", name, stack).Some? && Ended(rest)
    requires CheckedAll(body, Enter("for", name, stack).value).Some?
    ensures var toks := [Word(FOR, ""), Word(IDENTIFIER, variable)]
                        + WriteHead(IN, e, name, WriteAll(body, WriteCloser(ENDFOR, name, rest)));
            && Ended(toks) && At(toks, {FOR})
            && ForOf(toks, stack)
               == Good(ForStmt(name, variable, e, body), rest,
                       Outside(CheckedAll(body, Enter("for", name, stack).value)))
    decreases body, 2
  {
    hide WriteAll, BodyUntil, Close, Enter, E.Expression, Ladder, WriteLabel, WriteCloser, OpeningLabel, CheckedAll;
    hide WriteHead;
    var inner := WriteAll(body, WriteCloser(ENDFOR, name, rest));
    var head := WriteHead(IN, e, name, inner);
    var toks := [Word(FOR, ""), Word(IDENTIFIER, variable)] + head;
    EnterIsInside("for", name, stack);
    ReadHead(IN, e, name, inner);
    ReadLabel("for", name, inner, stack);
    ReadBlock(ENDFOR, "for", name, body, rest, stack);
    assert toks[1..] == [Word(IDENTIFIER, variable)] + head && toks[1..][1..] == head;
  }

  lemma {:induction false} ReadFor(s: Stmt, rest: seq<Token>, stack: Stack)
    requires s.ForStmt? && Checked(s, stack, false).Some? && Ended(rest)
    ensures IsRead(s, rest, stack, false, Checked(s, stack, false).value)
    decreases s, 1
  {
    hide Write;
    ControlIsWritten(s, rest);
    hide WriteAll, Enter, Ladder, WriteCloser, CheckedAll, WriteHead;
    ReadForOf(s.blockLabel, s.variable, s.iterable, s.body, rest, stack);
    hide ForOf, Statement;
    ToControl(Write(s, rest), stack);
  }

  // ---- Blocks with branches ----

  const IF_ENDINGS: set<Kind> := {ELSEIF, ELSE, ENDIF}

  const TRY_ENDINGS: set<Kind> := {CATCH, FINALLY, ENDTRY}

  lemma {:induction false} BranchEndings()
    ensures forall kind | kind in IF_ENDINGS + TRY_ENDINGS :: IsEnder(kind)
    ensures IF_ENDINGS == {ELSEIF, ELSE, ENDIF} && TRY_ENDINGS == {CATCH, FINALLY, ENDTRY}
  {
  }

  lemma {:induction false} ReadLast(name: string, branches: seq<IfBranch>, last: OptionalBody, rest: seq<Token>,
                                    stack: Stack)
    requires CheckedLast(last, stack).Some? && Ended(rest) && At(rest, {ENDIF}) && stack != []
    ensures var toks := WriteLast(ELSE, name, last, rest);
            && At(toks, {ELSE, ENDIF})
            && LastBranch(name, branches, toks, stack) == Good((branches, last), rest, CheckedLast(last, stack).value)
    decreases last, 1
  {
    hide CheckedAll, WriteAll, BodyUntil, WriteLabel, BranchLabel;
    if last.Body? {
      var inner := WriteAll(last.statements, rest);
      assert WriteLast(ELSE, name, last, rest)[1..] == WriteLabel(name, inner);
      ReadBranchLabel(name, inner);
      BranchEndings();
      ReadBody(IF_ENDINGS, [], last.statements, rest, stack);
      assert [] + last.statements == last.statements;
    }
  }

  /** What follows the opening line of an if, from the body of branch `i` on. */
  function IfTail(s: Stmt, i: nat, rest: seq<Token>): seq<Token>
    requires s.IfStmt? && i < |s.branches|
  {
    WriteAll(s.branches[i].body, WriteBranches(s.blockLabel, s.branches[i + 1..],
                                               WriteLast(ELSE, s.blockLabel, s.elseBody, rest)))
  }

  lemma {:induction false} CheckedOne(s: Stmt, i: nat, stack: Stack)
    requires s.IfStmt? && i < |s.branches| && CheckedFrom(s, i, stack).Some?
    ensures Ladder(s.branches[i].condition, false)
    ensures var next := CheckedAll(s.branches[i].body, stack);
            && next.Some? && (stack != [] ==> next.value != [])
            && CheckedFrom(s, i + 1, next.value) == CheckedFrom(s, i, stack)
  {
    hide CheckedAll, CheckedLast, Ladder;
    var branches := s.branches[i..];
    assert branches[0] == s.branches[i] && branches[1..] == s.branches[i + 1..];
    AllKeepBlocks(s.branches[i].body, stack);
  }

  lemma {:induction false} ReadBranches(s: Stmt, i: nat, rest: seq<Token>, stack: Stack)
    requires s.IfStmt? && i < |s.branches| && CheckedFrom(s, i, stack).Some?
    requires Ended(rest) && At(rest, {ENDIF}) && stack != []
    ensures Branches(s.blockLabel, s.branches[..i], s.branches[i].condition, IfTail(s, i, rest), stack)
         == Good((s.branches, s.elseBody), rest, CheckedFrom(s, i, stack).value)
    decreases s, 0, |s.branches| - i
  {
    hide CheckedAll, WriteAll, BodyUntil, WriteLabel, BranchLabel, LastBranch, E.Expression, WriteLast, CheckedLast;
    hide Ladder, WriteHead;
    var name, b, more := s.blockLabel, s.branches[i], s.branches[i + 1..];
    var next := CheckedAll(b.body, stack).value;
    var tail := WriteLast(ELSE, name, s.elseBody, rest);
    var behind := WriteBranches(name, more, tail);
    CheckedOne(s, i, stack);
    BranchEndings();
    assert [] + b.body == b.body && s.branches[..i] + [IfBranch(b.condition, b.body)] == s.branches[..i + 1];
    if more == [] {
      assert s.branches[..i + 1] == s.branches;
      ReadLast(name, s.branches, s.elseBody, rest, next);
      ReadBody(IF_ENDINGS, [], b.body, behind, stack);
    } else {
      assert more[0] == s.branches[i + 1] && more[1..] == s.branches[i + 2..];
      var inner := IfTail(s, i + 1, rest);
      CheckedOne(s, i + 1, next);
      ReadHead(ELSEIF, more[0].condition, name, inner);
      ReadBranchLabel(name, inner);
      hide CheckedFrom;
      ReadBody(IF_ENDINGS, [], b.body, behind, stack);
      ReadBranches(s, i + 1, rest, next);
    }
  }

  lemma {:induction false} ReadCatches(name: string, before: seq<CatchBranch>, catches: seq<CatchBranch>,
                                       rest: seq<Token>, stack: Stack)
    requires CheckedCatches(before, catches, stack).Some? && Ended(rest) && At(rest, {FINALLY, ENDTRY}) && stack != []
    ensures var toks := WriteCatches(name, catches, rest);
            && At(toks, TRY_ENDINGS)
            && Catches(name, before, toks, stack)
               == Good(before + catches, rest, CheckedCatches(before, catches, stack).value)
    decreases catches, 1
  {
    hide CheckedAll, WriteAll, BodyUntil, WriteLabel, BranchLabel, Catching;
    if catches == [] {
      assert before + catches == before;
    } else {
      var first := catches[0];
      var behind := WriteCatches(name, catches[1..], rest);
      var inner := WriteAll(first.body, behind);
      var toks := WriteCatches(name, catches, rest);
      var next := CheckedAll(first.body, stack).value;
      assert toks[1..][0] == Word(IDENTIFIER, first.category) && toks[1..][1..] == WriteLabel(name, inner);
      ReadBranchLabel(name, inner);
      BranchEndings();
      AllKeepBlocks(first.body, stack);
      assert next != [];
      ReadCatches(name, before + [first], catches[1..], rest, next);
      ReadBody(TRY_ENDINGS, [], first.body, behind, stack);
      assert [] + first.body == first.body && first == CatchBranch(first.category, first.body);
      assert (before + [first]) + catches[1..] == before + catches;
    }
  }

  lemma {:induction false} ReadFinally(name: string, last: OptionalBody, rest: seq<Token>, stack: Stack)
    requires CheckedLast(last, stack).Some? && Ended(rest) && At(rest, {ENDTRY}) && stack != []
    ensures var toks := WriteLast(FINALLY, name, last, rest);
            && At(toks, {FINALLY, ENDTRY})
            && FinallyOf(name, toks, stack) == Good(last, rest, CheckedLast(last, stack).value)
    decreases last, 1
  {
    hide CheckedAll, WriteAll, BodyUntil, WriteLabel, BranchLabel;
    if last.Body? {
      var inner := WriteAll(last.statements, rest);
      assert WriteLast(FINALLY, name, last, rest)[1..] == WriteLabel(name, inner);
      ReadBranchLabel(name, inner);
      BranchEndings();
      ReadBody({ENDTRY}, [], last.statements, rest, stack);
      assert [] + last.statements == last.statements;
    }
  }

  /** The parts of an if, put together. */
  lemma {:induction false} IfParts(s: Stmt, toks: seq<Token>, opening: seq<Token>, inner: seq<Token>, end: seq<Token>,
                                   rest: seq<Token>, stack: Stack, inside: Stack, left: Stack, outside: Stack)
    requires s.IfStmt? && s.branches != []
    requires Ended(toks) && Ended(opening) && Ended(inner) && Ended(end) && inside != [] && left != [] && At(toks, {IF})
    requires E.Expression(toks[1..]) == Done(s.branches[0].condition, opening)
    requires OpeningLabel("if", opening, stack) == Good(s.blockLabel, inner, inside)
    requires Branches(s.blockLabel, [], s.branches[0].condition, inner, inside)
             == Good((s.branches, s.elseBody), end, left)
    requires Close(ENDIF, "if", end, left) == Good((), rest, outside)
    ensures IfOf(toks, stack) == Good(s, rest, outside)
  {
    hide E.Expression, OpeningLabel, Branches, Close;
  }

  lemma {:induction false} ReadIfOf(s: Stmt, rest: seq<Token>, stack: Stack)
    requires s.IfStmt? && Checked(s, stack, false).Some? && Ended(rest)
    ensures s.branches != []
    ensures var toks := WriteHead(IF, s.branches[0].condition, s.blockLabel,
                                  IfTail(s, 0, WriteCloser(ENDIF, s.blockLabel, rest)));
            && At(toks, {IF}) && IfOf(toks, stack) == Good(s, rest, Checked(s, stack, false).value)
    decreases s, 1
  {
    IfStacks(s, stack);
    hide Checked, IfTail, CheckedFrom, Branches, Close, Enter, E.Expression, Ladder, WriteLabel, OpeningLabel;
    hide WriteHead, IfOf;
    var name := s.blockLabel;
    var inside := Enter("if", name, stack).value;
    var left := CheckedFrom(s, 0, inside).value;
    var end := WriteCloser(ENDIF, name, rest);
    var inner := IfTail(s, 0, end);
    CheckedOne(s, 0, inside);
    var toks := WriteHead(IF, s.branches[0].condition, name, inner);
    ReadHead(IF, s.branches[0].condition, name, inner);
    ReadLabel("if", name, inner, stack);
    ReadBranches(s, 0, end, inside);
    assert s.branches[..0] == [];
    hide WriteCloser;
    ReadCloser(ENDIF, "if", name, rest, left);
    IfParts(s, toks, WriteLabel(name, inner), inner, end, rest, stack, inside, left, left[..|left| - 1]);
  }

  lemma {:induction false} ReadIf(s: Stmt, rest: seq<Token>, stack: Stack)
    requires s.IfStmt? && Checked(s, stack, false).Some? && Ended(rest)
    ensures IsRead(s, rest, stack, false, Checked(s, stack, false).value)
    decreases s, 2
  {
    hide Write;
    ReadIfOf(s, rest, stack);
    ControlIsWritten(s, rest);
    hide Checked, WriteAll, WriteBranches, WriteLast, WriteCloser, WriteHead;
    hide IfOf, Statement;
    ToControl(Write(s, rest), stack);
  }

  /** The parts of a try, put together. */
  lemma {:induction false} TryParts(s: Stmt, toks: seq<Token>, inner: seq<Token>, handlers: seq<Token>,
                                    behind: seq<Token>, end: seq<Token>, rest: seq<Token>,
                                    stack: Stack, inside: Stack, tried: Stack, after: Stack, left: Stack,
                                        outside: Stack)
    requires s.TryStmt? && (s.catches != [] || s.finallyBody.Body?)
    requires Ended(toks) && Ended(inner) && Ended(handlers) && Ended(behind) && Ended(end)
    requires inside != [] && tried != [] && after != [] && left != [] && At(toks, {TRY})
    requires OpeningLabel("try", toks[1..], stack) == Good(s.blockLabel, inner, inside)
    requires BodyUntil({CATCH, FINALLY, ENDTRY}, [], inner, inside) == Good(s.body, handlers, tried)
    requires Catches(s.blockLabel, [], handlers, tried) == Good(s.catches, behind, after)
    requires FinallyOf(s.blockLabel, behind, after) == Good(s.finallyBody, end, left)
    requires Close(ENDTRY, "try", end, left) == Good((), rest, outside)
    ensures TryOf(toks, stack) == Good(s, rest, outside)
  {
    hide OpeningLabel, BodyUntil, Catches, FinallyOf, Close;
  }

  /** What stands between the opening line of a try and its closer. */
  lemma {:induction false} ReadTryBodies(s: Stmt, end: seq<Token>, inside: Stack, tried: Stack, after: Stack)
    requires s.TryStmt? && Ended(end) && At(end, {ENDTRY}) && inside != [] && tried != [] && after != []
    requires CheckedAll(s.body, inside) == Some(tried) && CheckedCatches([], s.catches, tried) == Some(after)
    requires CheckedLast(s.finallyBody, after).Some?
    ensures var behind := WriteLast(FINALLY, s.blockLabel, s.finallyBody, end);
            var handlers := WriteCatches(s.blockLabel, s.catches, behind);
            && BodyUntil({CATCH, FINALLY, ENDTRY}, [], WriteAll(s.body, handlers), inside)
               == Good(s.body, handlers, tried)
            && Catches(s.blockLabel, [], handlers, tried) == Good(s.catches, behind, after)
            && FinallyOf(s.blockLabel, behind, after)
               == Good(s.finallyBody, end, CheckedLast(s.finallyBody, after).value)
    decreases s, 0
  {
    hide WriteAll, WriteCatches, WriteLast, CheckedAll, BodyUntil, Catches, FinallyOf, CheckedLast, CheckedCatches;
    var behind := WriteLast(FINALLY, s.blockLabel, s.finallyBody, end);
    var handlers := WriteCatches(s.blockLabel, s.catches, behind);
    BranchEndings();
    assert [] + s.body == s.body && [] + s.catches == s.catches;
    ReadFinally(s.blockLabel, s.finallyBody, end, after);
    ReadCatches(s.blockLabel, [], s.catches, behind, tried);
    ReadBody(TRY_ENDINGS, [], s.body, handlers, inside);
  }

  /** The tokens of a try. */
  function TryTokens(s: Stmt, rest: seq<Token>): (toks: seq<Token>)
    requires s.TryStmt?
    ensures toks != [] && At(toks, {TRY}) && (Ended(rest) ==> Ended(toks))
    ensures toks[1..] == WriteLabel(s.blockLabel, WriteAll(s.body, WriteCatches(s.blockLabel, s.catches,
                         WriteLast(FINALLY, s.blockLabel, s.finallyBody, WriteCloser(ENDTRY, s.blockLabel, rest)))))
  {
    [Word(TRY, "")]
    + WriteLabel(s.blockLabel, WriteAll(s.body, WriteCatches(s.blockLabel, s.catches,
                 WriteLast(FINALLY, s.blockLabel, s.finallyBody, WriteCloser(ENDTRY, s.blockLabel, rest)))))
  }

  lemma {:induction false} ReadTryWith(s: Stmt, rest: seq<Token>, stack: Stack, inside: Stack, tried: Stack,
                                       after: Stack, left: Stack)
    requires s.TryStmt? && (s.catches != [] || s.finallyBody.Body?) && Ended(rest)
    requires inside != [] && tried != [] && after != [] && IsInside(s.blockLabel, stack, left)
    requires Push("try", s.blockLabel, stack) == Ok(inside) && CheckedAll(s.body, inside) == Some(tried)
    requires CheckedCatches([], s.catches, tried) == Some(after) && CheckedLast(s.finallyBody, after) == Some(left)
    ensures TryOf(TryTokens(s, rest), stack) == Good(s, rest, left[..|left| - 1])
    decreases s, 1
  {
    hide WriteAll, WriteCatches, WriteLast, Close, WriteLabel, OpeningLabel, CheckedAll, BodyUntil, Catches, FinallyOf;
    hide CheckedLast, CheckedCatches, TryOf, Push, TryTokens;
    var name := s.blockLabel;
    var end := WriteCloser(ENDTRY, name, rest);
    var behind := WriteLast(FINALLY, name, s.finallyBody, end);
    var handlers := WriteCatches(name, s.catches, behind);
    var inner := WriteAll(s.body, handlers);
    ReadLabel("try", name, inner, stack);
    ReadTryBodies(s, end, inside, tried, after);
    hide WriteCloser;
    ReadCloser(ENDTRY, "try", name, rest, left);
    TryParts(s, TryTokens(s, rest), inner, handlers, behind, end, rest, stack, inside, tried, after, left,
             left[..|left| - 1]);
  }

  lemma {:induction false} ReadTryOf(s: Stmt, rest: seq<Token>, stack: Stack)
    requires s.TryStmt? && Checked(s, stack, false).Some? && Ended(rest)
    ensures TryOf(TryTokens(s, rest), stack) == Good(s, rest, Checked(s, stack, false).value)
    decreases s, 2
  {
    TryStacks(s, stack);
    hide Checked, CheckedAll, CheckedCatches, CheckedLast, Enter, Push, TryOf, TryTokens;
    var inside := Enter("try", s.blockLabel, stack).value;
    var tried := CheckedAll(s.body, inside).value;
    var after := CheckedCatches([], s.catches, tried).value;
    var left := CheckedLast(s.finallyBody, after).value;
    ReadTryWith(s, rest, stack, inside, tried, after, left);
  }

  lemma {:induction false} ReadTry(s: Stmt, rest: seq<Token>, stack: Stack)
    requires s.TryStmt? && Checked(s, stack, false).Some? && Ended(rest)
    ensures IsRead(s, rest, stack, false, Checked(s, stack, false).value)
    decreases s, 3
  {
    hide Write;
    ReadTryOf(s, rest, stack);
    ControlIsWritten(s, rest);
    hide Checked, WriteAll, WriteCatches, WriteLast, WriteLabel, WriteCloser, Statement, TryOf;
    ToControl(Write(s, rest), stack);
  }

  // ---- Data blocks ----

  /** Data blocks may stand anywhere. */
  lemma {:induction false} DataAnywhere(s: Stmt, stack: Stack, top: bool)
    requires s.ObjectBlock? || s.ListBlock?
    ensures Checked(s, stack, top) == Checked(s, stack, false)
  {
    hide CheckedEntries, ElementsLadder, Enter;
  }

  lemma {:induction false} EntryBegins(entry: Entry, rest: seq<Token>, stack: Stack)
    requires CheckedEntry(entry, stack).Some? && Ended(rest)
    ensures At(WriteEntry(entry, rest), {IDENTIFIER, OBJECT, LIST})
  {
    hide Checked, Ladder, IsWritten, Write, WriteType, WriteValue, Declarable;
    match entry
    case FieldEntry(name, declared, e) =>
      if declared.Some? {
        ReadTyped(name, declared.value, e, false, "E100", rest);
      } else {
        ValueParts(name, e, rest);
      }
    case BlockEntry(block) =>
      DataIsWritten(block, rest);
  }

  lemma {:induction false} ReadEntry(entry: Entry, rest: seq<Token>, stack: Stack)
    requires CheckedEntry(entry, stack).Some? && Ended(rest)
    ensures EntryOf(WriteEntry(entry, rest), stack) == Good(entry, rest, CheckedEntry(entry, stack).value)
    decreases entry, 4
  {
    hide Checked, Ladder, IsWritten, Write, WriteType, WriteValue, Declarable, ObjectOf, ListBlockOf;
    hide StartsTypedDeclaration;
    hide TypedDeclarationOf, FieldOf;
    match entry
    case FieldEntry(name, declared, e) =>
      if declared.Some? {
        ReadTyped(name, declared.value, e, false, "E100", rest);
      } else {
        ReadField(name, e, rest);
      }
    case BlockEntry(block) =>
      if block.ObjectBlock? {
        ReadObjectOf(block, rest, stack);
      } else {
        ReadListOf(block, rest, stack);
      }
      NoTypeBefore(WriteEntry(entry, rest));
  }

  lemma {:induction false} NoTypeBefore(toks: seq<Token>)
    requires toks != [] && Peek(toks, 1).kind in {COLON, EQUAL}
    ensures !StartsTypedDeclaration(toks)
  {
    hide Declarable;
  }

  lemma {:induction false} ReadField(name: string, e: Expr, rest: seq<Token>)
    requires Ladder(e, false) && Ended(rest)
    ensures var toks := WriteValue(name, e, rest);
            && !StartsTypedDeclaration(toks) && At(toks, {IDENTIFIER}) && Peek(toks, 1).kind == EQUAL
            && FieldOf(toks) == Done(FieldEntry(name, None, e), rest)
  {
    hide ExpressionLine, WriteLine, Ladder, WriteValue, StartsTypedDeclaration;
    ValueParts(name, e, rest);
    ReadLine(e, rest);
    NoTypeBefore(WriteValue(name, e, rest));
  }

  lemma {:induction false} EntryStep(before: seq<Entry>, entry: Entry, toks: seq<Token>, rest: seq<Token>, stack: Stack,
                                     next: Stack)
    requires Ended(toks) && At(toks, {IDENTIFIER, OBJECT, LIST}) && Ended(rest) && !At(rest, {NEWLINE})
    requires stack != [] && next != [] && EntryOf(toks, stack) == Good(entry, rest, next)
             && !HasEntry(before, EntryName(entry))
    ensures Entries(before, toks, stack) == Entries(before + [entry], rest, next)
  {
    hide EntryOf, HasEntry, EntryName;
    NoNewline(rest);
  }

  lemma {:induction false} ReadEntries(before: seq<Entry>, entries: seq<Entry>, rest: seq<Token>, stack: Stack)
    requires CheckedEntries(before, entries, stack).Some? && Ended(rest) && At(rest, {END_OBJECT}) && stack != []
    ensures var toks := WriteEntries(entries, rest);
            && !At(toks, {NEWLINE})
            && Entries(before, toks, stack)
               == Good(before + entries, rest, CheckedEntries(before, entries, stack).value)
    decreases entries, 0
  {
    hide CheckedEntry, EntryOf, WriteEntry, HasEntry;
    if entries == [] {
      assert before + entries == before;
    } else {
      hide Entries;
      var entry, more := entries[0], WriteEntries(entries[1..], rest);
      var next := CheckedEntry(entry, stack).value;
      EntryBegins(entry, more, stack);
      ReadEntry(entry, more, stack);
      EntryKeepsBlocks(entry, stack);
      ReadEntries(before + [entry], entries[1..], rest, next);
      EntryStep(before, entry, WriteEntries(entries, rest), more, stack, next);
      assert (before + [entry]) + entries[1..] == before + entries;
    }
  }

  lemma {:induction false} NoNewline(toks: seq<Token>)
    requires Ended(toks) && !At(toks, {NEWLINE})
    ensures Newlines(toks) == toks
  {
  }

  lemma {:induction false} ReadObjectOf(s: Stmt, rest: seq<Token>, stack: Stack)
    requires s.ObjectBlock? && Checked(s, stack, false).Some? && Ended(rest)
    ensures var toks := Write(s, rest);
            && At(toks, {OBJECT}) && Peek(toks, 1).kind == COLON
            && ObjectOf(toks, stack) == Good(s, rest, Checked(s, stack, false).value)
    decreases s, 1
  {
    hide Write;
    DataIsWritten(s, rest);
    hide CheckedEntries, Enter, WriteEntries, WriteLabel, Entries, OpeningName, Close;
    var toks := Write(s, rest);
    var end := WriteCloser(END_OBJECT, s.name, rest);
    var inner := WriteEntries(s.entries, end);
    assert toks[1..] == WriteLabel(s.name, inner);
    LabelParts(s.name, inner);
    EnterIsInside("object", s.name, stack);
    var inside := Enter("object", s.name, stack).value;
    ReadLabel("object", s.name, inner, stack);
    ReadEntries([], s.entries, end, inside);
    NoNewline(inner);
    assert [] + s.entries == s.entries;
    EntriesKeepBlocks([], s.entries, inside);
    var left := CheckedEntries([], s.entries, inside).value;
    StillInside(s.name, stack, inside, left);
    hide WriteCloser;
    ReadCloser(END_OBJECT, "object", s.name, rest, left);
  }

  lemma {:induction false} ReadElements(before: seq<Expr>, elements: seq<Expr>, rest: seq<Token>, stack: Stack)
    requires ElementsLadder(elements, false) && Ended(rest) && At(rest, {END_LIST}) && stack != []
    ensures var toks := WriteElements(elements, rest);
            !At(toks, {NEWLINE}) && ListLines(before, toks, stack) == Good(before + elements, rest, stack)
    decreases elements
  {
    hide Ladder, ExpressionLine, WriteLine;
    if elements == [] {
      assert before + elements == before;
    } else {
      var more := WriteElements(elements[1..], rest);
      ExpressionLineBegins(elements[0], more);
      ReadLine(elements[0], more);
      ReadElements(before + [elements[0]], elements[1..], rest, stack);
      assert (before + [elements[0]]) + elements[1..] == before + elements;
    }
  }

  lemma {:induction false} ReadListOf(s: Stmt, rest: seq<Token>, stack: Stack)
    requires s.ListBlock? && Checked(s, stack, false).Some? && Ended(rest)
    ensures var toks := Write(s, rest);
            && At(toks, {LIST}) && Peek(toks, 1).kind == COLON
            && ListBlockOf(toks, stack) == Good(s, rest, Checked(s, stack, false).value)
  {
    hide Write;
    DataIsWritten(s, rest);
    hide ElementsLadder, Enter, WriteElements, WriteLabel, ListLines, OpeningName, Close;
    var toks := Write(s, rest);
    var end := WriteCloser(END_LIST, s.name, rest);
    var inner := WriteElements(s.elements, end);
    assert toks[1..] == WriteLabel(s.name, inner);
    LabelParts(s.name, inner);
    EnterIsInside("list", s.name, stack);
    var inside := Enter("list", s.name, stack).value;
    ReadLabel("list", s.name, inner, stack);
    ReadElements([], s.elements, end, inside);
    NoNewline(inner);
    assert [] + s.elements == s.elements;
    hide WriteCloser;
    ReadCloser(END_LIST, "list", s.name, rest, inside);
  }

  lemma {:induction false} ReadData(s: Stmt, rest: seq<Token>, stack: Stack, top: bool)
    requires s.ObjectBlock? || s.ListBlock?
    requires Checked(s, stack, top).Some? && Ended(rest)
    ensures IsRead(s, rest, stack, top, Checked(s, stack, top).value)
    decreases s, 2
  {
    DataAnywhere(s, stack, top);
    hide Checked, Write, ObjectOf, ListBlockOf, Statement;
    if s.ObjectBlock? {
      ReadObjectOf(s, rest, stack);
    } else {
      ReadListOf(s, rest, stack);
    }
    ToData(Write(s, rest), stack, top);
  }

  // ---- Declarations at the top ----

  lemma {:induction false} ReadOpened(kind: string, name: string, rest: seq<Token>, stack: Stack)
    requires Ended(rest) && Push(kind, name, stack).Ok?
    ensures Opened(kind, name, [NewLine()] + rest, stack) == Good(name, rest, Push(kind, name, stack).value)
  {
    hide Push;
    assert ([NewLine()] + rest)[1..] == rest;
  }

  lemma {:induction false} ReadErrorOf(name: string, rest: seq<Token>, stack: Stack)
    requires EndsWithError(name) && Enter("error", name, stack).Some? && Ended(rest)
    ensures var toks := [Word(ERROR, "")] + WriteLabel(name, WriteCloser(END_ERROR, name, rest));
            && Ended(toks) && At(toks, {ERROR})
            && ErrorDeclaration(toks, stack) == Good(ErrorDecl(name), rest, Outside(Enter("error", name, stack)))
  {
    var end := WriteCloser(END_ERROR, name, rest);
    var toks := [Word(ERROR, "")] + WriteLabel(name, end);
    var line := [NewLine()] + end;
    EnterIsInside("error", name, stack);
    var inside := Enter("error", name, stack).value;
    ReadOpened("error", name, end, stack);
    assert toks[1..][1..] == [Word(IDENTIFIER, name)] + line && toks[1..][1..][1..] == line;
    NoNewline(end);
    hide WriteCloser, Opened, Close, Enter, EndsWithError, Newlines;
    ReadCloser(END_ERROR, "error", name, rest, inside);
  }

  lemma {:induction false} ReadError(s: Stmt, rest: seq<Token>, stack: Stack)
    requires s.ErrorDecl? && Checked(s, stack, true).Some? && Ended(rest)
    ensures IsRead(s, rest, stack, true, Checked(s, stack, true).value)
  {
    hide Write;
    DataIsWritten(s, rest);
    hide WriteLabel, WriteCloser, Statement, ErrorDeclaration, Enter, EndsWithError;
    ReadErrorOf(s.name, rest, stack);
    ToDeclaration(Write(s, rest), stack);
  }

  lemma {:induction false} ReadRouteOf(s: Stmt, rest: seq<Token>, stack: Stack)
    requires s.HttpRouteDecl? && Checked(s, stack, true).Some? && Ended(rest)
    ensures var name := s.blockLabel;
            var toks := [Word(HTTP_ROUTE, ""), Word(IDENTIFIER, s.verb), Text(s.path)]
                        + WriteLabel(name, WriteAll(s.body, WriteCloser(END_HTTP_ROUTE, name, rest)));
            && Ended(toks) && At(toks, {HTTP_ROUTE})
            && HttpRoute(toks, stack) == Good(s, rest, Checked(s, stack, true).value)
    decreases s, 1
  {
    hide WriteAll, BodyUntil, Close, Enter, WriteLabel, WriteCloser, OpeningLabel, CheckedAll, IsRoute;
    var name := s.blockLabel;
    var inner := WriteAll(s.body, WriteCloser(END_HTTP_ROUTE, name, rest));
    var toks := [Word(HTTP_ROUTE, ""), Word(IDENTIFIER, s.verb), Text(s.path)] + WriteLabel(name, inner);
    EnterIsInside("http_route", name, stack);
    ReadLabel("http_route", name, inner, stack);
    ReadBlock(END_HTTP_ROUTE, "http_route", name, s.body, rest, stack);
    assert toks[1..] == [Word(IDENTIFIER, s.verb), Text(s.path)] + WriteLabel(name, inner);
    assert toks[1..][1..] == [Text(s.path)] + WriteLabel(name, inner) && toks[1..][1..][1..] == WriteLabel(name, inner);
  }

  lemma {:induction false} ReadRoute(s: Stmt, rest: seq<Token>, stack: Stack)
    requires s.HttpRouteDecl? && Checked(s, stack, true).Some? && Ended(rest)
    ensures IsRead(s, rest, stack, true, Checked(s, stack, true).value)
    decreases s, 2
  {
    hide Write;
    DataIsWritten(s, rest);
    hide Checked, WriteLabel, WriteAll, WriteCloser, Statement, HttpRoute;
    ReadRouteOf(s, rest, stack);
    ToDeclaration(Write(s, rest), stack);
  }

  // ---- SEPs ----

  /** The parameters are well formed, and new behind those before them. */
  predicate AreMoreParameters(before: seq<Parameter>, parameters: seq<Parameter>) {
    AreParameters(before + parameters)
  }

  lemma {:induction false} NextParameter(before: seq<Parameter>, parameters: seq<Parameter>)
    requires AreMoreParameters(before, parameters) && parameters != []
    ensures IsFree(parameters[0].name) && !HasParameter(before, parameters[0].name)
    ensures parameters[0].declared.Some? ==> IsWritten(parameters[0].declared.value)
    ensures AreMoreParameters(before + [parameters[0]], parameters[1..])
  {
    hide IsWritten, IsFree;
    var all := before + parameters;
    assert all[|before|] == parameters[0];
    assert (before + [parameters[0]]) + parameters[1..] == all;
    forall i | 0 <= i < |before| ensures before[i].name != parameters[0].name {
      assert all[i] == before[i];
    }
  }

  lemma {:induction false} ReadParameter(before: seq<Parameter>, p: Parameter, rest: seq<Token>)
    requires IsFree(p.name) && !HasParameter(before, p.name) && (p.declared.Some? ==> IsWritten(p.declared.value))
    requires Ended(rest) && !At(rest, {COLON})
    ensures OneParameter(before, WriteParameter(p, rest)) == Done(before + [p], rest)
  {
    hide Declarable, IsWritten, DeclaredTypeOf, HasParameter, WriteType;
    var toks := WriteParameter(p, rest);
    if p.declared.Some? {
      var typed := WriteType(p.declared.value, rest);
      ReadType(p.declared.value, rest);
      WrittenIsDeclarable(p.declared.value);
      TypeIsRead(p.declared.value.name, rest);
      assert toks[1..] == [Word(COLON, ":")] + typed && toks[1..][1..] == typed;
    } else {
      assert toks[1..] == rest;
    }
  }

  lemma {:induction false} WrittenIsDeclarable(declared: DeclaredType)
    requires IsWritten(declared)
    ensures Declarable(declared.name)
  {
  }

  lemma {:induction false} ReadParameters(before: seq<Parameter>, parameters: seq<Parameter>, rest: seq<Token>)
    requires AreMoreParameters(before, parameters) && parameters != [] && Ended(rest)
    ensures var toks := WriteParameters(parameters, rest);
            && !At(toks, {RPAREN})
            && Parameters(before, toks) == Done(before + parameters, rest)
    decreases |parameters|
  {
    hide OneParameter, WriteParameter, AreMoreParameters;
    var p, more := parameters[0], parameters[1..];
    var behind := WriteMoreParameters(more, rest);
    NextParameter(before, parameters);
    ReadParameter(before, p, behind);
    ParameterBegins(p, behind);
    if more == [] {
      assert behind[1..] == rest && before + [p] == before + parameters;
    } else {
      ReadParameters(before + [p], more, rest);
      assert behind[1..] == WriteParameters(more, rest);
      assert (before + [p]) + more == before + parameters;
    }
  }

  lemma {:induction false} ParameterBegins(p: Parameter, rest: seq<Token>)
    ensures At(WriteParameter(p, rest), {IDENTIFIER})
  {
    hide WriteType;
  }

  lemma {:induction false} ReadParameterList(parameters: seq<Parameter>, rest: seq<Token>)
    requires AreParameters(parameters) && Ended(rest)
    ensures ParameterList([Word(LPAREN, "(")] + WriteParameters(parameters, rest)) == Done(parameters, rest)
  {
    var inside := WriteParameters(parameters, rest);
    var toks := [Word(LPAREN, "(")] + inside;
    assert toks[1..] == inside;
    if parameters == [] {
      assert toks[2..] == rest;
    } else {
      assert [] + parameters == parameters;
      hide AreParameters, WriteParameters, Parameters;
      ReadParameters([], parameters, rest);
    }
  }

  lemma {:induction false} ReadTags(before: seq<string>, tags: seq<string>, rest: seq<Token>)
    requires AreDistinct(before + tags) && Ended(rest) && !At(rest, {TAG, NEWLINE})
    ensures !At(WriteTags(tags, rest), {NEWLINE})
    ensures Tags(before, WriteTags(tags, rest)) == Done(before + tags, rest)
    decreases tags
  {
    if tags == [] {
      assert before + tags == before;
    } else {
      var more := WriteTags(tags[1..], rest);
      var toks := WriteTags(tags, rest);
      assert toks[1..] == [NewLine()] + more && toks[1..][1..] == more;
      assert (before + [tags[0]]) + tags[1..] == before + tags;
      assert tags[0] !in before by {
        assert (before + tags)[|before|] == tags[0];
        assert forall i | 0 <= i < |before| :: (before + tags)[i] == before[i];
      }
      ReadTags(before + [tags[0]], tags[1..], rest);
      NoNewline(more);
    }
  }

  lemma {:induction false} BodyBegins(body: seq<Stmt>, rest: seq<Token>, stack: Stack)
    requires CheckedAll(body, stack).Some? && Ended(rest) && At(rest, {END_SEP})
    ensures !At(WriteAll(body, rest), {TAG, NEWLINE})
  {
    hide Checked, Write;
    if body != [] {
      StatementBegins(body[0], WriteAll(body[1..], rest), stack, false);
    }
  }

  /** The parts of a SEP, put together. */
  lemma {:induction false} SepParts(logic: Logic, toks: seq<Token>, named: seq<Token>, list: seq<Token>,
                                    line: seq<Token>,
                                    tagged: seq<Token>, inner: seq<Token>, end: seq<Token>, rest: seq<Token>,
                                    stack: Stack, inside: Stack, left: Stack, outside: Stack)
    requires Ended(toks) && Ended(named) && Ended(list) && Ended(line) && Ended(tagged) && Ended(inner) && Ended(end)
    requires At(toks, {SEP}) && At(toks[1..], {COLON}) && toks[2..] == named && inside != [] && left != []
    requires Binding(named) == Done(logic.name, list)
    requires ParameterList(list) == Done(logic.parameters, line)
    requires Opened("SEP", logic.name, line, stack) == Good(logic.name, tagged, inside)
    requires Tags([], Newlines(tagged)) == Done(logic.tags, inner)
    requires BodyUntil({END_SEP}, [], inner, inside) == Good(logic.body, end, left)
    requires Close(END_SEP, "SEP", end, left) == Good((), rest, outside)
    ensures SepOf(toks, stack) == Good(LogicDecl(logic), rest, outside)
  {
    assert toks[1..][1..] == toks[2..];
    hide Binding, ParameterList, Opened, Tags, BodyUntil, Close, Newlines;
  }

  /** The first line of a SEP and its tags. */
  lemma {:induction false} ReadSepHead(logic: Logic, inner: seq<Token>, stack: Stack)
    requires IsFree(logic.name) && AreParameters(logic.parameters) && AreDistinct(logic.tags)
    requires Ended(inner) && !At(inner, {TAG, NEWLINE}) && Push("SEP", logic.name, stack).Ok?
    ensures var tagged := WriteTags(logic.tags, inner);
            var line := [NewLine()] + tagged;
            var list := [Word(LPAREN, "(")] + WriteParameters(logic.parameters, line);
            && Binding([Word(IDENTIFIER, logic.name)] + list) == Done(logic.name, list)
            && ParameterList(list) == Done(logic.parameters, line)
            && Opened("SEP", logic.name, line, stack) == Good(logic.name, tagged, Push("SEP", logic.name, stack).value)
            && Tags([], Newlines(tagged)) == Done(logic.tags, inner)
  {
    hide WriteParameters, WriteTags, ParameterList, Opened, Tags, AreParameters, Push;
    var tagged := WriteTags(logic.tags, inner);
    var line := [NewLine()] + tagged;
    var list := [Word(LPAREN, "(")] + WriteParameters(logic.parameters, line);
    assert ([Word(IDENTIFIER, logic.name)] + list)[1..] == list;
    assert [] + logic.tags == logic.tags;
    ReadTags([], logic.tags, inner);
    NoNewline(tagged);
    hide AreDistinct, Newlines;
    ReadParameterList(logic.parameters, line);
    ReadOpened("SEP", logic.name, tagged, stack);
  }

  lemma {:induction false} SepTokens(name: string, list: seq<Token>, behind: seq<Token>)
    requires list == [Word(LPAREN, "(")] + behind && Ended(behind)
    ensures var toks := [Word(SEP, ""), Word(COLON, ":"), Word(IDENTIFIER, name), Word(LPAREN, "(")] + behind;
            && Ended(toks) && At(toks, {SEP}) && At(toks[1..], {COLON}) && toks[2..] == [Word(IDENTIFIER, name)] + list
  {
  }

  lemma {:induction false} ReadSepOf(logic: Logic, rest: seq<Token>, stack: Stack)
    requires IsFree(logic.name) && AreParameters(logic.parameters) && AreDistinct(logic.tags) && Ended(rest)
    requires Enter("SEP", logic.name, stack).Some?
             && CheckedAll(logic.body, Enter("SEP", logic.name, stack).value).Some?
    ensures var toks := [Word(SEP, ""), Word(COLON, ":"), Word(IDENTIFIER, logic.name), Word(LPAREN, "(")]
                        + WriteParameters(logic.parameters,
                            [NewLine()] + WriteTags(logic.tags,
                                                    WriteAll(logic.body, WriteCloser(END_SEP, logic.name, rest))));
            && Ended(toks) && At(toks, {SEP})
            && SepOf(toks, stack)
               == Good(LogicDecl(logic), rest, Outside(CheckedAll(logic.body, Enter("SEP", logic.name, stack).value)))
    decreases logic, 1
  {
    hide WriteAll, BodyUntil, Close, Enter, Opened, CheckedAll, WriteParameters, WriteTags, ParameterList, Tags, SepOf;
    hide AreParameters, AreDistinct, Newlines, Push, Binding, WriteLabel, IsFree;
    var name := logic.name;
    var end := WriteCloser(END_SEP, name, rest);
    var inner := WriteAll(logic.body, end);
    var tagged := WriteTags(logic.tags, inner);
    var line := [NewLine()] + tagged;
    var behind := WriteParameters(logic.parameters, line);
    var list := [Word(LPAREN, "(")] + behind;
    var inside := Enter("SEP", name, stack).value;
    EnterIsInside("SEP", name, stack);
    BodyBegins(logic.body, end, inside);
    hide WriteCloser;
    ReadSepHead(logic, inner, stack);
    ReadBlock(END_SEP, "SEP", name, logic.body, rest, stack);
    var left := CheckedAll(logic.body, inside).value;
    SepTokens(name, list, behind);
    var toks := [Word(SEP, ""), Word(COLON, ":"), Word(IDENTIFIER, name), Word(LPAREN, "(")] + behind;
    SepParts(logic, toks, [Word(IDENTIFIER, name)] + list, list, line, tagged, inner, end, rest, stack, inside, left,
             left[..|left| - 1]);
  }

  lemma {:induction false} ReadSep(s: Stmt, rest: seq<Token>, stack: Stack)
    requires s.LogicDecl? && Checked(s, stack, true).Some? && Ended(rest)
    ensures IsRead(s, rest, stack, true, Checked(s, stack, true).value)
    decreases s, 2
  {
    hide Write;
    DataIsWritten(s, rest);
    hide WriteAll, WriteCloser, WriteParameters, WriteTags, Statement, SepOf, Enter, CheckedAll, AreParameters;
    hide AreDistinct;
    ReadSepOf(s.logic, rest, stack);
    ToDeclaration(Write(s, rest), stack);
  }

  // ---- Every statement ----

  lemma {:induction false} OnlyInsideSeps(s: Stmt, stack: Stack, top: bool)
    requires Checked(s, stack, top).Some?
    ensures s.WhileStmt? || s.TransactionStmt? || s.ForStmt? || s.IfStmt? || s.TryStmt? ==> !top
    ensures s.ImportStmt? || s.ErrorDecl? || s.HttpRouteDecl? || s.LogicDecl? ==> top
    ensures !IsBlock(s) ==> Checked(s, stack, top) == Some(stack)
  {
    hide CheckedAll, CheckedBranches, CheckedLast, CheckedCatches, CheckedEntries, Enter, Ladder, ElementsLadder;
    hide IsTarget, IsFree;
    hide IsExpressionStatement, IsWritten, IsCompound;
  }

  lemma {:induction false} ReadOneLine(s: Stmt, rest: seq<Token>, stack: Stack, top: bool)
    requires !IsBlock(s) && Checked(s, stack, top).Some? && Ended(rest)
    ensures IsRead(s, rest, stack, top, stack)
  {
    OnlyInsideSeps(s, stack, top);
    hide IsRead, Checked;
    match s
    case ImportStmt(_, _) => ReadImport(s, rest, stack);
    case Assignment(_, _) => ReadAssignmentStatement(s, rest, stack, top);
    case IndexAssignment(_, _, _) => ReadIndexAssignment(s, rest, stack, top);
    case ConstDeclaration(_, _) => ReadConstant(s, rest, stack, top);
    case TypedDeclaration(_, _, _, constant) =>
      if constant { ReadTypedConstant(s, rest, stack, top); } else { ReadTypedStatement(s, rest, stack, top); }
    case ReturnStmt(_) => ReadReturn(s, rest, stack, top);
    case ExpressionStmt(_) => ReadExpressionStatement(s, rest, stack, top);
    case _ => ReadKeyworded(s, rest, stack, top);
  }

  /** A well-formed statement is read from its written form, in any surroundings. */
  lemma {:induction false} ReadStatement(s: Stmt, rest: seq<Token>, stack: Stack, top: bool)
    requires Checked(s, stack, top).Some? && Ended(rest)
    ensures IsRead(s, rest, stack, top, Checked(s, stack, top).value)
    decreases s, 4
  {
    OnlyInsideSeps(s, stack, top);
    hide IsRead, Checked;
    match s
    case ObjectBlock(_, _) => ReadData(s, rest, stack, top);
    case ListBlock(_, _) => ReadData(s, rest, stack, top);
    case IfStmt(_, _, _) => ReadIf(s, rest, stack);
    case WhileStmt(_, _, _) => ReadWhile(s, rest, stack);
    case ForStmt(_, _, _, _) => ReadFor(s, rest, stack);
    case TryStmt(_, _, _, _) => ReadTry(s, rest, stack);
    case TransactionStmt(_, _, _) => ReadTransaction(s, rest, stack);
    case ErrorDecl(_) => ReadError(s, rest, stack);
    case HttpRouteDecl(_, _, _, _) => ReadRoute(s, rest, stack);
    case LogicDecl(_) => ReadSep(s, rest, stack);
    case _ => ReadOneLine(s, rest, stack, top);
  }

  // ---- Programs ----

  lemma {:induction false} ReadProgramFrom(before: seq<Stmt>, statements: seq<Stmt>, seenOther: bool)
    requires IsProgram(statements, seenOther)
    ensures var toks := ProgramTokens(statements);
            Ended(toks) && !At(toks, {NEWLINE}) && ProgramFrom(before, seenOther, toks) == Ok(before + statements)
    decreases |statements|
  {
    hide Statement, Write, Checked;
    if statements == [] {
      assert before + statements == before;
    } else {
      var s, more := statements[0], statements[1..];
      var rest := ProgramTokens(more);
      ReadProgramFrom(before + [s], more, seenOther || !s.ImportStmt?);
      StatementBegins(s, rest, [], true);
      ReadStatement(s, rest, [], true);
      NoNewline(rest);
      hide WriteAll, CloserKind;
      assert (before + [s]) + more == before + statements;
    }
  }

  /** Every well-formed program is returned unchanged when its written form is parsed. */
  lemma {:induction false} CompleteProgram(statements: seq<Stmt>)
    requires IsProgram(statements, false)
    ensures Ended(ProgramTokens(statements)) && Program(ProgramTokens(statements)) == Ok(statements)
  {
    hide IsProgram, ProgramTokens, ProgramFrom;
    ReadProgramFrom([], statements, false);
    NoNewline(ProgramTokens(statements));
    assert [] + statements == statements;
  }

  /** Two well-formed programs with the same written form are the same. */
  lemma {:induction false} ProgramsAreUnambiguous(a: seq<Stmt>, b: seq<Stmt>)
    requires IsProgram(a, false) && IsProgram(b, false) && ProgramTokens(a) == ProgramTokens(b)
    ensures a == b
  {
    hide IsProgram, ProgramTokens;
    CompleteProgram(a);
    CompleteProgram(b);
  }
}
