/** The expression parser as functions from tokens to trees, one for each rung of the ladder. */
module Expressions {
  import opened Ast
  import opened Tokens

  const COMPARISONS: set<Kind> := {GREATER, GREATER_EQUAL, LESS, LESS_EQUAL, IN}
  const COMPARISON_NAMES: set<string> := {">", "<", ">=", "<=", "in", "not in"}

  predicate AtComparison(toks: seq<Token>)
    requires toks != []
  {
    At(toks, COMPARISONS) || (At(toks, {NOT}) && Peek(toks, 1).kind == IN)
  }

  predicate IsStateTest(e: Expr) { e.EmptyTestExpr? || e.EmptysTestExpr? }

  predicate IsStateLiteral(e: Expr) { e.LiteralExpr? && (e.value.EmptyLit? || e.value.EmptysLit?) }

  function Expression(toks: seq<Token>): (r: Parsed<Expr>)
    requires Ended(toks)
    ensures Ended(r.rest) && |r.rest| <= |toks| && (r.Done? ==> |r.rest| < |toks|)
    decreases |toks|, 12
  {
    Coalesce(toks)
  }

  function Coalesce(toks: seq<Token>): (r: Parsed<Expr>)
    requires Ended(toks)
    ensures Ended(r.rest) && |r.rest| <= |toks| && (r.Done? ==> |r.rest| < |toks|)
    decreases |toks|, 11
  {
    var left := Or(toks);
    if left.Fail? || !At(left.rest, {EMPTY_COALESCE}) then left
    else
      var right := Coalesce(left.rest[1..]);
      if right.Fail? then right
      else Done(BinaryExpr(left.value, left.rest[0].lexeme, right.value), right.rest)
  }

  /** The rungs whose operators associate to the left. */
  datatype Rung = OrRung | AndRung | TermRung | FactorRung

  function Operators(rung: Rung): set<Kind> {
    match rung
    case OrRung => {OR}
    case AndRung => {AND}
    case TermRung => {PLUS, MINUS}
    case FactorRung => {STAR, SLASH, FLOOR_DIV, PERCENT}
  }

  function Height(rung: Rung): nat {
    match rung
    case OrRung => 10
    case AndRung => 9
    case TermRung => 5
    case FactorRung => 4
  }

  function Operand(rung: Rung, toks: seq<Token>): (r: Parsed<Expr>)
    requires Ended(toks)
    ensures Ended(r.rest) && |r.rest| <= |toks| && (r.Done? ==> |r.rest| < |toks|)
    decreases |toks|, Height(rung) - 1, 2
  {
    match rung
    case OrRung => And(toks)
    case AndRung => Equality(toks)
    case TermRung => Factor(toks)
    case FactorRung => Unary(toks)
  }

  /** Collects further operands to the right of what is there already. */
  function More(rung: Rung, left: Expr, toks: seq<Token>): (r: Parsed<Expr>)
    requires Ended(toks)
    ensures Ended(r.rest) && |r.rest| <= |toks|
    decreases |toks|, Height(rung), 0
  {
    if !At(toks, Operators(rung)) then Done(left, toks)
    else
      var right := Operand(rung, toks[1..]);
      if right.Fail? then right
      else More(rung, BinaryExpr(left, toks[0].lexeme, right.value), right.rest)
  }

  function Binary(rung: Rung, toks: seq<Token>): (r: Parsed<Expr>)
    requires Ended(toks)
    ensures Ended(r.rest) && |r.rest| <= |toks| && (r.Done? ==> |r.rest| < |toks|)
    decreases |toks|, Height(rung), 0
  {
    var left := Operand(rung, toks);
    if left.Fail? then left else More(rung, left.value, left.rest)
  }

  function Or(toks: seq<Token>): (r: Parsed<Expr>)
    requires Ended(toks)
    ensures Ended(r.rest) && |r.rest| <= |toks| && (r.Done? ==> |r.rest| < |toks|)
    decreases |toks|, 10, 1
  {
    Binary(OrRung, toks)
  }

  function And(toks: seq<Token>): (r: Parsed<Expr>)
    requires Ended(toks)
    ensures Ended(r.rest) && |r.rest| <= |toks| && (r.Done? ==> |r.rest| < |toks|)
    decreases |toks|, 9, 1
  {
    Binary(AndRung, toks)
  }

  /** The comparison names checked here are spelled in lower case only. */
  predicate IsChainedLeft(e: Expr) {
    IsStateTest(e) || (e.BinaryExpr? && e.operator in COMPARISON_NAMES + {"==", "!="})
  }

  predicate IsChainedRight(e: Expr) {
    IsStateTest(e) || (e.BinaryExpr? && e.operator in COMPARISON_NAMES)
  }

  function Equality(toks: seq<Token>): (r: Parsed<Expr>)
    requires Ended(toks)
    ensures Ended(r.rest) && |r.rest| <= |toks| && (r.Done? ==> |r.rest| < |toks|)
    decreases |toks|, 8, 0
  {
    var left := EmptyTest(toks);
    if left.Fail? then left
    else
      var e :=
        if !At(left.rest, {EQUAL_EQUAL, BANG_EQUAL}) then left
        else if IsChainedLeft(left.value) then Fail("E111", left.rest[1..])
        else
          var right := EmptyTest(left.rest[1..]);
          if right.Fail? then right
          else if IsStateLiteral(left.value) || IsStateLiteral(right.value) then Fail("E128", right.rest)
          else if IsChainedRight(right.value) then Fail("E111", right.rest)
          else Done(BinaryExpr(left.value, left.rest[0].lexeme, right.value), right.rest);
      if e.Done? && At(e.rest, {EQUAL_EQUAL, BANG_EQUAL, GREATER, GREATER_EQUAL, LESS, LESS_EQUAL})
      then Fail("E111", e.rest)
      else e
  }

  function EmptyTest(toks: seq<Token>): (r: Parsed<Expr>)
    requires Ended(toks)
    ensures Ended(r.rest) && |r.rest| <= |toks| && (r.Done? ==> |r.rest| < |toks|)
    decreases |toks|, 7, 0
  {
    var operand := Comparison(toks);
    if operand.Fail? || !At(operand.rest, {IS}) then operand
    else
      var afterIs := operand.rest[1..];
      var negated := At(afterIs, {NOT});
      var state := if negated then afterIs[1..] else afterIs;
      if !At(state, {EMPTY, EMPTYS}) then Fail("E128", state)
      else if At(state[1..], {IS}) then Fail("E111", state[1..])
      else if At(state, {EMPTY}) then Done(EmptyTestExpr(operand.value, negated), state[1..])
      else Done(EmptysTestExpr(operand.value, negated), state[1..])
  }

  function Comparison(toks: seq<Token>): (r: Parsed<Expr>)
    requires Ended(toks)
    ensures Ended(r.rest) && |r.rest| <= |toks| && (r.Done? ==> |r.rest| < |toks|)
    decreases |toks|, 6
  {
    var left := Term(toks);
    if left.Fail? then left
    else
      var e :=
        if !AtComparison(left.rest) then left
        else
          var negated := At(left.rest, {NOT});
          var right := Term(if negated then left.rest[2..] else left.rest[1..]);
          if right.Fail? then right
          else Done(BinaryExpr(left.value, if negated then "not in" else left.rest[0].lexeme, right.value), right.rest);
      if e.Done? && AtComparison(e.rest) then Fail("E111", e.rest) else e
  }

  function Term(toks: seq<Token>): (r: Parsed<Expr>)
    requires Ended(toks)
    ensures Ended(r.rest) && |r.rest| <= |toks| && (r.Done? ==> |r.rest| < |toks|)
    decreases |toks|, 5, 1
  {
    Binary(TermRung, toks)
  }

  function Factor(toks: seq<Token>): (r: Parsed<Expr>)
    requires Ended(toks)
    ensures Ended(r.rest) && |r.rest| <= |toks| && (r.Done? ==> |r.rest| < |toks|)
    decreases |toks|, 4, 1
  {
    Binary(FactorRung, toks)
  }

  function Unary(toks: seq<Token>): (r: Parsed<Expr>)
    requires Ended(toks)
    ensures Ended(r.rest) && |r.rest| <= |toks| && (r.Done? ==> |r.rest| < |toks|)
    decreases |toks|, 3, 1
  {
    if At(toks, {BANG, NOT, MINUS}) then
      var operand := Unary(toks[1..]);
      if operand.Fail? then operand else Done(UnaryExpr(toks[0].lexeme, operand.value), operand.rest)
    else Power(toks)
  }

  function Power(toks: seq<Token>): (r: Parsed<Expr>)
    requires Ended(toks)
    ensures Ended(r.rest) && |r.rest| <= |toks| && (r.Done? ==> |r.rest| < |toks|)
    decreases |toks|, 2, 0
  {
    var base := Postfix(toks);
    if base.Fail? || !At(base.rest, {POWER}) then base
    else
      var exponent := Unary(base.rest[1..]);
      if exponent.Fail? then exponent
      else Done(BinaryExpr(base.value, base.rest[0].lexeme, exponent.value), exponent.rest)
  }

  function Postfix(toks: seq<Token>): (r: Parsed<Expr>)
    requires Ended(toks)
    ensures Ended(r.rest) && |r.rest| <= |toks| && (r.Done? ==> |r.rest| < |toks|)
    decreases |toks|, 1
  {
    var target := Primary(toks);
    if target.Fail? then target else Suffixes(target.value, target.rest)
  }

  /** Indexes, members and member calls behind a target. */
  function Suffixes(target: Expr, toks: seq<Token>): (r: Parsed<Expr>)
    requires Ended(toks)
    ensures Ended(r.rest) && |r.rest| <= |toks|
    decreases |toks|, 13
  {
    if At(toks, {LBRACKET}) then
      var index := Expression(toks[1..]);
      if index.Fail? then index
      else if !At(index.rest, {RBRACKET}) then Fail("E100", index.rest)
      else Suffixes(IndexExpr(target, index.value), index.rest[1..])
    else if At(toks, {DOT}) then
      var member := MemberAfterDot(target, toks[1..]);
      if member.Fail? then member else Suffixes(member.value, member.rest)
    else Done(target, toks)
  }

  function MemberAfterDot(target: Expr, toks: seq<Token>): (r: Parsed<Expr>)
    requires Ended(toks)
    ensures Ended(r.rest) && |r.rest| <= |toks| && (r.Done? ==> |r.rest| < |toks|)
    decreases |toks|, 13
  {
    if !At(toks, {IDENTIFIER}) then Fail("E100", toks)
    else
      var name := toks[0].lexeme;
      if At(toks[1..], {LPAREN}) then
        var arguments := Arguments(toks[2..]);
        if arguments.Fail? then arguments.Retype()
        else Done(MemberCallExpr(target, name, arguments.value.0, arguments.value.1), arguments.rest)
      else Done(MemberExpr(target, name), toks[1..])
  }

  function Primary(toks: seq<Token>): (r: Parsed<Expr>)
    requires Ended(toks)
    ensures Ended(r.rest) && |r.rest| <= |toks| && (r.Done? ==> |r.rest| < |toks|)
    decreases |toks|, 0
  {
    var t := toks[0];
    if t.kind in {NUMBER, STRING, TRUE, FALSE} then Done(LiteralExpr(t.literal), toks[1..])
    else if t.kind == EMPTY then Done(LiteralExpr(EmptyLit), toks[1..])
    else if t.kind == EMPTYS then Done(LiteralExpr(EmptysLit), toks[1..])
    else if t.kind in {FRONT, BACK} then Done(PositionSelectorExpr(t.lexeme), toks[1..])
    else if t.kind == LBRACKET then
      var elements := ListElements(toks[1..]);
      if elements.Fail? then elements.Retype() else Done(ListExpr(elements.value), elements.rest)
    else if t.kind == IDENTIFIER then
      if At(toks[1..], {LPAREN}) then
        var arguments := Arguments(toks[2..]);
        if arguments.Fail? then arguments.Retype()
        else Done(CallExpr(t.lexeme, arguments.value.0, arguments.value.1), arguments.rest)
      else Done(VariableExpr(t.lexeme), toks[1..])
    else if t.kind == LPAREN then
      var inner := Expression(toks[1..]);
      if inner.Fail? then inner
      else if !At(inner.rest, {RPAREN}) then Fail("E100", inner.rest)
      else Done(GroupExpr(inner.value), inner.rest[1..])
    else Fail("E100", toks)
  }

  /** The elements of a list, and the closing bracket. */
  function ListElements(toks: seq<Token>): (r: Parsed<seq<Expr>>)
    requires Ended(toks)
    ensures Ended(r.rest) && |r.rest| <= |toks| && (r.Done? ==> |r.rest| < |toks|)
    decreases |toks|, 15
  {
    if At(toks, {RBRACKET}) then Done([], toks[1..]) else Elements(toks)
  }

  /** One or more list elements, and the closing bracket. */
  function Elements(toks: seq<Token>): (r: Parsed<seq<Expr>>)
    requires Ended(toks)
    ensures Ended(r.rest) && |r.rest| <= |toks| && (r.Done? ==> |r.rest| < |toks|)
    decreases |toks|, 14
  {
    var first := Expression(toks);
    if first.Fail? then first.Retype()
    else if At(first.rest, {COMMA}) then
      var rest := Elements(first.rest[1..]);
      if rest.Fail? then rest else Done([first.value] + rest.value, rest.rest)
    else if At(first.rest, {RBRACKET}) then Done([first.value], first.rest[1..])
    else Fail("E100", first.rest)
  }

  /** Elements that have been read already, before those still to be read. */
  ghost function Prepended<T>(before: seq<T>, r: Parsed<seq<T>>): Parsed<seq<T>> {
    if r.Done? then Done(before + r.value, r.rest) else r
  }

  lemma PrependedNothing<T>(r: Parsed<seq<T>>)
    ensures Prepended([], r) == r
  {
    if r.Done? { assert [] + r.value == r.value; }
  }

  /** One more element has been read, up to `toks`. */
  lemma PrependedElements(before: seq<Expr>, element: Expr, toks: seq<Token>)
    requires Ended(toks)
    ensures At(toks, {COMMA}) ==>
              Prepended(before, Prepended([element], Elements(toks[1..])))
                  == Prepended(before + [element], Elements(toks[1..]))
  {
    hide Elements;
    if At(toks, {COMMA}) {
      var r := Elements(toks[1..]);
      if r.Done? { assert before + ([element] + r.value) == (before + [element]) + r.value; }
    }
  }

  ghost function ElementsEnd(elements: seq<Expr>, toks: seq<Token>): Parsed<seq<Expr>>
    requires Ended(toks)
  {
    if At(toks, {RBRACKET}) then Done(elements, toks[1..]) else Fail("E100", toks)
  }

  /** The arguments of a call, and the closing parenthesis. */
  function Arguments(toks: seq<Token>): (r: Parsed<(seq<Expr>, seq<NamedArgument>)>)
    requires Ended(toks)
    ensures Ended(r.rest) && |r.rest| <= |toks| && (r.Done? ==> |r.rest| < |toks|)
    decreases |toks|, 15
  {
    if At(toks, {RPAREN}) then Done(([], []), toks[1..]) else ArgumentsFrom([], [], toks)
  }

  predicate HasName(named: seq<NamedArgument>, name: string) {
    exists i | 0 <= i < |named| :: named[i].name == name
  }

  /** One more argument. Names come last, and none twice. */
  function OneArgument(arguments: seq<Expr>, named: seq<NamedArgument>, toks: seq<Token>):
    (r: Parsed<(seq<Expr>, seq<NamedArgument>)>)
    requires Ended(toks)
    ensures Ended(r.rest) && |r.rest| <= |toks| && (r.Done? ==> |r.rest| < |toks|)
    decreases |toks|, 13
  {
    if At(toks, {IDENTIFIER}) && Peek(toks, 1).kind == EQUAL then
      if HasName(named, toks[0].lexeme) then Fail("E113", toks[2..])
      else
        var value := Expression(toks[2..]);
        if value.Fail? then value.Retype()
        else Done((arguments, named + [NamedArgument(toks[0].lexeme, value.value)]), value.rest)
    else if named != [] then Fail("E114", toks)
    else
      var value := Expression(toks);
      if value.Fail? then value.Retype() else Done((arguments + [value.value], named), value.rest)
  }

  /** Continues an argument list. */
  function ArgumentsFrom(arguments: seq<Expr>, named: seq<NamedArgument>, toks: seq<Token>):
    (r: Parsed<(seq<Expr>, seq<NamedArgument>)>)
    requires Ended(toks)
    ensures Ended(r.rest) && |r.rest| <= |toks| && (r.Done? ==> |r.rest| < |toks|)
    decreases |toks|, 14
  {
    var one := OneArgument(arguments, named, toks);
    if one.Fail? then one else ArgumentsEnd(one.value.0, one.value.1, one.rest)
  }

  function ArgumentsEnd(arguments: seq<Expr>, named: seq<NamedArgument>, toks: seq<Token>):
    (r: Parsed<(seq<Expr>, seq<NamedArgument>)>)
    requires Ended(toks)
    ensures Ended(r.rest) && |r.rest| <= |toks| && (r.Done? ==> |r.rest| < |toks|)
    decreases |toks|, 15
  {
    if At(toks, {COMMA}) then ArgumentsFrom(arguments, named, toks[1..])
    else if At(toks, {RPAREN}) then Done((arguments, named), toks[1..])
    else Fail("E100", toks)
  }
}
