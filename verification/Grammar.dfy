/** The written form of an expression tree, and which trees obey the precedence ladder. */
module Grammar {
  import opened Ast
  import opened Tokens
  import opened Expressions

  function Word(kind: Kind, lexeme: string): Token {
    Token(kind, lexeme, EmptyLit, 0)
  }

  function LiteralToken(value: Literal): Token {
    match value
    case IntLit(_) => Token(NUMBER, "", value, 0)
    case FloatLit(_) => Token(NUMBER, "", value, 0)
    case BoolLit(b) => Token(if b then TRUE else FALSE, "", value, 0)
    case StringLit(_) => Token(STRING, "", value, 0)
    case EmptyLit => Word(EMPTY, "EMPTY")
    case EmptysLit => Word(EMPTYS, "EMPTYS")
  }

  predicate IsIn(operator: string) { Lower(operator) == "in" }

  function OperatorKind(operator: string): Option<Kind> {
    if operator == "??" then Some(EMPTY_COALESCE)
    else if operator == "||" then Some(OR)
    else if operator == "&&" then Some(AND)
    else if operator == "==" then Some(EQUAL_EQUAL)
    else if operator == "!=" then Some(BANG_EQUAL)
    else if operator == ">" then Some(GREATER)
    else if operator == ">=" then Some(GREATER_EQUAL)
    else if operator == "<" then Some(LESS)
    else if operator == "<=" then Some(LESS_EQUAL)
    else if IsIn(operator) then Some(IN)
    else if operator == "+" then Some(PLUS)
    else if operator == "-" then Some(MINUS)
    else if operator == "*" then Some(STAR)
    else if operator == "/" then Some(SLASH)
    else if operator == "//" then Some(FLOOR_DIV)
    else if operator == "%" then Some(PERCENT)
    else if operator == "**" then Some(POWER)
    else None
  }

  function OperatorTokens(operator: string): (r: seq<Token>)
    ensures r != []
  {
    if operator == "not in" then [Word(NOT, "not"), Word(IN, "in")]
    else [Word(if OperatorKind(operator).Some? then OperatorKind(operator).value else EOF, operator)]
  }

  function UnaryToken(operator: string): Token {
    Word(if operator == "!" then BANG else if operator == "-" then MINUS else NOT, operator)
  }

  function StateTokens(negated: bool, state: Kind): seq<Token> {
    [Word(IS, "is")] + (if negated then [Word(NOT, "not")] else []) + [Word(state, "")]
  }

  function TokensOf(e: Expr): (r: seq<Token>)
    ensures r != []
    decreases e, 0
  {
    match e
    case LiteralExpr(value) => [LiteralToken(value)]
    case VariableExpr(name) => [Word(IDENTIFIER, name)]
    case PositionSelectorExpr(name) => [Word(if Lower(name) == "back" then BACK else FRONT, name)]
    case BinaryExpr(left, operator, right) => TokensOf(left) + (OperatorTokens(operator) + TokensOf(right))
    case UnaryExpr(operator, operand) => [UnaryToken(operator)] + TokensOf(operand)
    case EmptyTestExpr(operand, negated) => TokensOf(operand) + StateTokens(negated, EMPTY)
    case EmptysTestExpr(operand, negated) => TokensOf(operand) + StateTokens(negated, EMPTYS)
    case GroupExpr(inner) => [Word(LPAREN, "(")] + (TokensOf(inner) + [Word(RPAREN, ")")])
    case ListExpr(elements) => [Word(LBRACKET, "[")] + (ElementTokens(elements) + [Word(RBRACKET, "]")])
    case CallExpr(callee, arguments, named) =>
      [Word(IDENTIFIER, callee), Word(LPAREN, "(")]
          + (Joined(ElementTokens(arguments), NamedTokens(named)) + [Word(RPAREN, ")")])
    case IndexExpr(target, index) =>
      TokensOf(target) + ([Word(LBRACKET, "[")] + (TokensOf(index) + [Word(RBRACKET, "]")]))
    case MemberExpr(target, name) => TokensOf(target) + [Word(DOT, "."), Word(IDENTIFIER, name)]
    case MemberCallExpr(target, name, arguments, named) =>
      TokensOf(target) + ([Word(DOT, "."), Word(IDENTIFIER, name), Word(LPAREN, "(")]
                          + (Joined(ElementTokens(arguments), NamedTokens(named)) + [Word(RPAREN, ")")]))
  }

  /** Two token lists with a comma between them, if there is something to separate. */
  function Joined(a: seq<Token>, b: seq<Token>): seq<Token> {
    if a == [] then b else if b == [] then a else a + ([Word(COMMA, ",")] + b)
  }

  function ElementTokens(elements: seq<Expr>): (r: seq<Token>)
    ensures r == [] <==> elements == []
    decreases elements, 0
  {
    if elements == [] then [] else Joined(TokensOf(elements[0]), ElementTokens(elements[1..]))
  }

  function NamedTokens(named: seq<NamedArgument>): (r: seq<Token>)
    ensures r == [] <==> named == []
    decreases named, 0
  {
    if named == [] then []
    else
      Joined([Word(IDENTIFIER, named[0].name), Word(EQUAL, "=")] + TokensOf(named[0].value), NamedTokens(named[1..]))
  }

  // ---- The precedence ladder ----

  /** The rung of the ladder at which a tree is built. Higher binds tighter. */
  function Rank(e: Expr): nat {
    match e
    case BinaryExpr(_, operator, _) => OperatorRank(operator)
    case EmptyTestExpr(_, _) => 4
    case EmptysTestExpr(_, _) => 4
    case UnaryExpr(_, _) => 8
    case IndexExpr(_, _) => 10
    case MemberExpr(_, _) => 10
    case MemberCallExpr(_, _, _, _) => 10
    case _ => 11
  }

  function OperatorRank(operator: string): nat {
    if operator == "??" then 0
    else if operator == "||" then 1
    else if operator == "&&" then 2
    else if operator in {"==", "!="} then 3
    else if IsComparison(operator) then 5
    else if operator in {"+", "-"} then 6
    else if operator in {"*", "/", "//", "%"} then 7
    else 9
  }

  /** The comparisons of the rung above equality; `in` in any letter case. */
  predicate IsComparison(operator: string) {
    operator in {">", ">=", "<", "<=", "not in"} || IsIn(operator)
  }

  /** A tree that respects precedence and associativity, so that it needs no further
      parentheses. With `plain`, the operator `in` is written in lower case. */
  predicate Ladder(e: Expr, plain: bool)
    decreases e, 0
  {
    match e
    case LiteralExpr(_) => true
    case VariableExpr(_) => true
    case PositionSelectorExpr(name) => Lower(name) in {"front", "back"}
    case BinaryExpr(left, operator, right) =>
      && Ladder(left, plain) && Ladder(right, plain)
      && (operator == "not in" || OperatorKind(operator).Some?)
      && (plain && IsIn(operator) ==> operator == "in")
      && OperandsFit(left, operator, right)
    case UnaryExpr(operator, operand) =>
      && (operator in {"!", "-"} || Lower(operator) == "not")
      && Ladder(operand, plain) && Rank(operand) >= 8
    case EmptyTestExpr(operand, _) => Ladder(operand, plain) && Rank(operand) >= 5
    case EmptysTestExpr(operand, _) => Ladder(operand, plain) && Rank(operand) >= 5
    case GroupExpr(inner) => Ladder(inner, plain)
    case ListExpr(elements) => ElementsLadder(elements, plain)
    case CallExpr(_, arguments, named) => ElementsLadder(arguments, plain) && NamedLadder(named, plain)
    case IndexExpr(target, index) => Ladder(target, plain) && Rank(target) >= 10 && Ladder(index, plain)
    case MemberExpr(target, _) => Ladder(target, plain) && Rank(target) >= 10
    case MemberCallExpr(target, _, arguments, named) =>
      Ladder(target, plain) && Rank(target) >= 10 && ElementsLadder(arguments, plain) && NamedLadder(named, plain)
  }

  predicate OperandsFit(left: Expr, operator: string, right: Expr) {
    var rank := OperatorRank(operator);
    if rank == 0 then Rank(left) >= 1
    else if rank == 9 then Rank(left) >= 10 && Rank(right) >= 8
    else if rank == 3 then
      && Rank(left) >= 4 && Rank(right) >= 4
      && !IsChainedLeft(left) && !IsChainedRight(right)
      && !IsStateLiteral(left) && !IsStateLiteral(right)
    else if rank == 5 then Rank(left) >= 6 && Rank(right) >= 6
    else Rank(left) >= rank && Rank(right) > rank
  }

  predicate ElementsLadder(elements: seq<Expr>, plain: bool)
    decreases elements, 1
  {
    forall i | 0 <= i < |elements| :: Ladder(elements[i], plain)
  }

  /** The names of the named arguments are distinct. */
  predicate NamedLadder(named: seq<NamedArgument>, plain: bool)
    decreases named, 1
  {
    && (forall i | 0 <= i < |named| :: Ladder(named[i].value, plain))
    && DistinctNames(named)
  }

  predicate DistinctNames(named: seq<NamedArgument>) {
    forall i, j | 0 <= i < j < |named| :: named[i].name != named[j].name
  }

  // ---- Operator tokens and their rungs ----

  const SPELLED: set<Kind> := {EMPTY_COALESCE, OR, AND, EQUAL_EQUAL, BANG_EQUAL, GREATER, GREATER_EQUAL, LESS,
      LESS_EQUAL,
                               PLUS, MINUS, STAR, SLASH, FLOOR_DIV, PERCENT, POWER, IN}

  function KindRank(kind: Kind): nat {
    if kind == EMPTY_COALESCE then 0
    else if kind == OR then 1
    else if kind == AND then 2
    else if kind in {EQUAL_EQUAL, BANG_EQUAL} then 3
    else if kind in COMPARISONS then 5
    else if kind in {PLUS, MINUS} then 6
    else if kind == POWER then 9
    else 7
  }

  function RungRank(rung: Rung): nat {
    match rung
    case OrRung => 1
    case AndRung => 2
    case TermRung => 6
    case FactorRung => 7
  }
}
