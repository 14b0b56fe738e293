/** The recursive descent parser itself: a cursor over the token list. */
module Parsers {
  import opened Ast
  import opened Tokens
  import E = Expressions
  import S = Statements
  import T = TypeSpecs
  import P = Programs

  class Parser {
    const tokens: seq<Token>
    var current: nat
    var stack: S.Stack

    ghost predicate Valid()
      reads this`current
    {
      Ended(tokens) && current < |tokens|
    }

    /** The tokens still to be read. */
    ghost function Rest(): (r: seq<Token>)
      requires Valid()
      reads this`current
      ensures Ended(r)
    {
      tokens[current..]
    }

    /** The parser stands where the specification stops, with the same outcome. */
    ghost predicate Agrees<T>(r: Result<T>, p: Parsed<T>)
      reads this`current
    {
      && Valid() && p.rest == Rest()
      && match r
         case Ok(value) => p.Done? && p.value == value
         case Err(code) => p.Fail? && p.code == code
    }

    /** The same for a step that also works on the stack of open blocks. */
    ghost predicate Follows<T>(r: Result<T>, p: S.Step<T>)
      reads this
    {
      && Valid() && p.rest == Rest() && p.stack == stack
      && match r case Ok(value) => p.Good? && p.value == value case Err(code) => p.Bad? && p.code == code
    }

    constructor (tokens: seq<Token>)
      requires Ended(tokens)
      ensures Valid() && this.tokens == tokens && Rest() == tokens && stack == []
    {
      this.tokens := tokens;
      current, stack := 0, [];
    }

    method Peek(offset: nat) returns (t: Token)
      requires Valid()
      ensures t == Tokens.Peek(Rest(), offset)
    {
      var last := |tokens| - 1;
      t := tokens[if current + offset < last then current + offset else last];
    }

    function AtAny(kinds: set<Kind>): (b: bool)
      requires Valid()
      reads this`current
      ensures b == At(Rest(), kinds)
    {
      tokens[current].kind in kinds
    }

    method Advance() returns (t: Token)
      requires Valid() && !AtAny({EOF})
      modifies this`current
      ensures Valid() && t == old(Rest())[0] && Rest() == old(Rest())[1..]
      ensures current == old(current) + 1
    {
      t := tokens[current];
      current := current + 1;
    }

    method Match(kinds: set<Kind>) returns (matched: bool)
      requires Valid() && EOF !in kinds
      modifies this`current
      ensures Valid() && matched == old(AtAny(kinds))
      ensures Rest() == if matched then old(Rest())[1..] else old(Rest())
      ensures current == if matched then old(current) + 1 else old(current)
    {
      matched := AtAny(kinds);
      if matched {
        var _ := Advance();
      }
    }

    method Consume(kind: Kind) returns (r: Result<Token>)
      requires Valid() && kind != EOF
      modifies this`current
      ensures Valid() && (r == if old(AtAny({kind})) then Ok(old(Rest())[0]) else Err("E100"))
      ensures Rest() == if r.Ok? then old(Rest())[1..] else old(Rest())
      ensures current == if r.Ok? then old(current) + 1 else old(current)
    {
      if AtAny({kind}) {
        var t := Advance();
        r := Ok(t);
      } else {
        r := Err("E100");
      }
    }

    // ---- The expression ladder ----

    method Expression() returns (r: Result<Expr>)
      requires Valid()
      modifies this`current
      ensures old(current) <= current && (r.Ok? ==> old(current) < current)
      ensures Agrees(r, E.Expression(old(Rest())))
      decreases |tokens| - current, 12
    {
      hide Parser.Valid, Parser.Rest;
      r := Coalesce();
    }

    method Coalesce() returns (r: Result<Expr>)
      requires Valid()
      modifies this`current
      ensures old(current) <= current && (r.Ok? ==> old(current) < current)
      ensures Agrees(r, E.Coalesce(old(Rest())))
      decreases |tokens| - current, 11
    {
      hide Parser.Valid, Parser.Rest, E.Or;
      r := Or();
      if r.Ok? {
        if AtAny({EMPTY_COALESCE}) {
          var operator := Advance();
          var right := Coalesce();
          r := if right.Ok? then Ok(BinaryExpr(r.value, operator.lexeme, right.value)) else right;
        }
      }
    }

    method Or() returns (r: Result<Expr>)
      requires Valid()
      modifies this`current
      ensures old(current) <= current && (r.Ok? ==> old(current) < current)
      ensures Agrees(r, E.Or(old(Rest())))
      decreases |tokens| - current, 10, 1
    {
      hide Parser.Valid, Parser.Rest;
      r := Binary(E.OrRung);
    }

    method And() returns (r: Result<Expr>)
      requires Valid()
      modifies this`current
      ensures old(current) <= current && (r.Ok? ==> old(current) < current)
      ensures Agrees(r, E.And(old(Rest())))
      decreases |tokens| - current, 9, 1
    {
      hide Parser.Valid, Parser.Rest;
      r := Binary(E.AndRung);
    }

    method Term() returns (r: Result<Expr>)
      requires Valid()
      modifies this`current
      ensures old(current) <= current && (r.Ok? ==> old(current) < current)
      ensures Agrees(r, E.Term(old(Rest())))
      decreases |tokens| - current, 5, 1
    {
      hide Parser.Valid, Parser.Rest;
      r := Binary(E.TermRung);
    }

    method Factor() returns (r: Result<Expr>)
      requires Valid()
      modifies this`current
      ensures old(current) <= current && (r.Ok? ==> old(current) < current)
      ensures Agrees(r, E.Factor(old(Rest())))
      decreases |tokens| - current, 4, 1
    {
      hide Parser.Valid, Parser.Rest;
      r := Binary(E.FactorRung);
    }

    method Operand(rung: E.Rung) returns (r: Result<Expr>)
      requires Valid()
      modifies this`current
      ensures old(current) <= current && (r.Ok? ==> old(current) < current)
      ensures Agrees(r, E.Operand(rung, old(Rest())))
      decreases |tokens| - current, E.Height(rung) - 1, 2
    {
      hide Parser.Valid, Parser.Rest;
      match rung
      case OrRung => r := And();
      case AndRung => r := Equality();
      case TermRung => r := Factor();
      case FactorRung => r := Unary();
    }

    method Binary(rung: E.Rung) returns (r: Result<Expr>)
      requires Valid()
      modifies this`current
      ensures old(current) <= current && (r.Ok? ==> old(current) < current)
      ensures Agrees(r, E.Binary(rung, old(Rest())))
      decreases |tokens| - current, E.Height(rung), 0
    {
      hide Parser.Valid, Parser.Rest, E.Operand;
      ghost var start := Rest();
      r := Operand(rung);
      while r.Ok? && AtAny(E.Operators(rung))
        invariant Valid() && old(current) <= current
        invariant r.Ok? ==> old(current) < current && E.Binary(rung, start) == E.More(rung, r.value, Rest())
        invariant r.Err? ==> Agrees(r, E.Binary(rung, start))
        decreases |tokens| - current, r.Ok?
      {
        var operator := Advance();
        var right := Operand(rung);
        r := if right.Ok? then Ok(BinaryExpr(r.value, operator.lexeme, right.value)) else right;
      }
    }

    method Equality() returns (r: Result<Expr>)
      requires Valid()
      modifies this`current
      ensures old(current) <= current && (r.Ok? ==> old(current) < current)
      ensures Agrees(r, E.Equality(old(Rest())))
      decreases |tokens| - current, 8, 0
    {
      hide Parser.Valid, Parser.Rest, E.EmptyTest, E.IsChainedLeft, E.IsChainedRight, E.IsStateLiteral;
      r := EmptyTest();
      if r.Err? { return; }
      if AtAny({EQUAL_EQUAL, BANG_EQUAL}) {
        var operator := Advance();
        if E.IsChainedLeft(r.value) {
          return Err("E111");
        }
        var right := EmptyTest();
        if right.Err? {
          return right;
        }
        if E.IsStateLiteral(r.value) || E.IsStateLiteral(right.value) {
          return Err("E128");
        }
        if E.IsChainedRight(right.value) {
          return Err("E111");
        }
        r := Ok(BinaryExpr(r.value, operator.lexeme, right.value));
      }
      if AtAny({EQUAL_EQUAL, BANG_EQUAL, GREATER, GREATER_EQUAL, LESS, LESS_EQUAL}) {
        r := Err("E111");
      }
    }

    method EmptyTest() returns (r: Result<Expr>)
      requires Valid()
      modifies this`current
      ensures old(current) <= current && (r.Ok? ==> old(current) < current)
      ensures Agrees(r, E.EmptyTest(old(Rest())))
      decreases |tokens| - current, 7, 0
    {
      hide Parser.Valid, Parser.Rest, E.Comparison;
      r := Comparison();
      if r.Err? { return; }
      if AtAny({IS}) {
        var _ := Advance();
        var negated := Match({NOT});
        if !AtAny({EMPTY, EMPTYS}) {
          return Err("E128");
        }
        var state := Advance();
        r := Ok(if state.kind == EMPTY then EmptyTestExpr(r.value, negated) else EmptysTestExpr(r.value, negated));
        if AtAny({IS}) {
          r := Err("E111");
        }
      }
    }

    method AtComparison() returns (b: bool)
      requires Valid()
      ensures b == E.AtComparison(Rest())
    {
      hide Parser.Valid, Parser.Rest;
      var next := Peek(1);
      b := AtAny(E.COMPARISONS) || (AtAny({NOT}) && next.kind == IN);
    }

    method Comparison() returns (r: Result<Expr>)
      requires Valid()
      modifies this`current
      ensures old(current) <= current && (r.Ok? ==> old(current) < current)
      ensures Agrees(r, E.Comparison(old(Rest())))
      decreases |tokens| - current, 6, 0
    {
      hide Parser.Valid, Parser.Rest, E.Term;
      r := Term();
      if r.Err? { return; }
      var compared := AtComparison();
      if compared {
        var operator := Advance();
        var lexeme := operator.lexeme;
        if operator.kind == NOT {
          var _ := Advance();
          lexeme := "not in";
        }
        var right := Term();
        if right.Err? {
          return right;
        }
        r := Ok(BinaryExpr(r.value, lexeme, right.value));
      }
      var again := AtComparison();
      if again {
        r := Err("E111");
      }
    }

    method Unary() returns (r: Result<Expr>)
      requires Valid()
      modifies this`current
      ensures old(current) <= current && (r.Ok? ==> old(current) < current)
      ensures Agrees(r, E.Unary(old(Rest())))
      decreases |tokens| - current, 3, 1
    {
      hide Parser.Valid, Parser.Rest, E.Power;
      if AtAny({BANG, NOT, MINUS}) {
        var operator := Advance();
        r := Unary();
        r := if r.Ok? then Ok(UnaryExpr(operator.lexeme, r.value)) else r;
      } else {
        r := Power();
      }
    }

    method Power() returns (r: Result<Expr>)
      requires Valid()
      modifies this`current
      ensures old(current) <= current && (r.Ok? ==> old(current) < current)
      ensures Agrees(r, E.Power(old(Rest())))
      decreases |tokens| - current, 2, 0
    {
      hide Parser.Valid, Parser.Rest, E.Postfix, E.Unary;
      r := Postfix();
      if r.Ok? && AtAny({POWER}) {
        var operator := Advance();
        var exponent := Unary();
        r := if exponent.Ok? then Ok(BinaryExpr(r.value, operator.lexeme, exponent.value)) else exponent;
      }
    }

    method Postfix() returns (r: Result<Expr>)
      requires Valid()
      modifies this`current
      ensures old(current) <= current && (r.Ok? ==> old(current) < current)
      ensures Agrees(r, E.Postfix(old(Rest())))
      decreases |tokens| - current, 1, 0
    {
      hide Parser.Valid, Parser.Rest, E.Primary, E.Expression, E.MemberAfterDot;
      ghost var start := Rest();
      r := Primary();
      while r.Ok? && AtAny({LBRACKET, DOT})
        invariant Valid() && old(current) <= current
        invariant r.Ok? ==> old(current) < current && E.Postfix(start) == E.Suffixes(r.value, Rest())
        invariant r.Err? ==> Agrees(r, E.Postfix(start))
        decreases |tokens| - current, r.Ok?
      {
        var index := Match({LBRACKET});
        if index {
          r := IndexSuffix(r.value);
        } else {
          var _ := Advance();
          r := MemberSuffix(r.value);
        }
      }
    }

    /** Behind the bracket of an index. */
    method IndexSuffix(target: Expr) returns (r: Result<Expr>)
      requires Valid()
      modifies this`current
      ensures old(current) <= current && (r.Ok? ==> old(current) < current)
      ensures var index := E.Expression(old(Rest()));
              Agrees(r, if index.Fail? then index
                        else if !At(index.rest, {RBRACKET}) then Fail("E100", index.rest)
                        else Done(IndexExpr(target, index.value), index.rest[1..]))
      decreases |tokens| - current, 13
    {
      hide Parser.Valid, Parser.Rest, E.Expression;
      var index := Expression();
      if index.Err? {
        return index;
      }
      var close := Consume(RBRACKET);
      r := if close.Ok? then Ok(IndexExpr(target, index.value)) else Err("E100");
    }

    /** Behind the dot of a member. */
    method MemberSuffix(target: Expr) returns (r: Result<Expr>)
      requires Valid()
      modifies this`current
      ensures old(current) <= current && (r.Ok? ==> old(current) < current)
      ensures Agrees(r, E.MemberAfterDot(target, old(Rest())))
      decreases |tokens| - current, 13
    {
      hide Parser.Valid, Parser.Rest, E.Arguments;
      var name := Consume(IDENTIFIER);
      if name.Err? {
        return Err(name.code);
      }
      var called := Match({LPAREN});
      if called {
        var arguments := CallArguments();
        r := if arguments.Ok? then Ok(MemberCallExpr(target, name.value.lexeme, arguments.value.0, arguments.value.1))
             else Err(arguments.code);
      } else {
        r := Ok(MemberExpr(target, name.value.lexeme));
      }
    }

    method Primary() returns (r: Result<Expr>)
      requires Valid()
      modifies this`current
      ensures old(current) <= current && (r.Ok? ==> old(current) < current)
      ensures Agrees(r, E.Primary(old(Rest())))
      decreases |tokens| - current, 0, 0
    {
      hide Parser.Valid, Parser.Rest, E.ListElements, E.Arguments, E.Expression;
      var t := Peek(0);
      if AtAny({NUMBER, STRING, TRUE, FALSE}) {
        var _ := Advance();
        return Ok(LiteralExpr(t.literal));
      }
      if AtAny({EMPTY, EMPTYS}) {
        var _ := Advance();
        return Ok(LiteralExpr(if t.kind == EMPTY then EmptyLit else EmptysLit));
      }
      if AtAny({FRONT, BACK}) {
        var _ := Advance();
        return Ok(PositionSelectorExpr(t.lexeme));
      }
      if AtAny({LBRACKET}) {
        var _ := Advance();
        var elements := ListElements();
        return if elements.Ok? then Ok(ListExpr(elements.value)) else Err(elements.code);
      }
      if AtAny({IDENTIFIER}) {
        var _ := Advance();
        r := NameSuffix(t.lexeme);
        return;
      }
      if AtAny({LPAREN}) {
        var _ := Advance();
        r := GroupSuffix();
        return;
      }
      r := Err("E100");
    }

    /** Behind a name: a variable or a call. */
    method NameSuffix(name: string) returns (r: Result<Expr>)
      requires Valid()
      modifies this`current
      ensures old(current) <= current
      ensures var arguments := if At(old(Rest()), {LPAREN}) then E.Arguments(old(Rest())[1..])
          else Done(([], []), old(Rest()));
              Agrees(r, if arguments.Fail? then arguments.Retype()
                        else if At(old(Rest()), {LPAREN})
                            then Done(CallExpr(name, arguments.value.0, arguments.value.1), arguments.rest)
                        else Done(VariableExpr(name), old(Rest())))
      decreases |tokens| - current, 17
    {
      hide Parser.Valid, Parser.Rest, E.Arguments;
      if !AtAny({LPAREN}) {
        return Ok(VariableExpr(name));
      }
      var _ := Advance();
      var arguments := CallArguments();
      r := if arguments.Ok? then Ok(CallExpr(name, arguments.value.0, arguments.value.1)) else Err(arguments.code);
    }

    /** Behind an opening parenthesis. */
    method GroupSuffix() returns (r: Result<Expr>)
      requires Valid()
      modifies this`current
      ensures old(current) <= current && (r.Ok? ==> old(current) < current)
      ensures var inner := E.Expression(old(Rest()));
              Agrees(r, if inner.Fail? then inner
                        else if !At(inner.rest, {RPAREN}) then Fail("E100", inner.rest)
                        else Done(GroupExpr(inner.value), inner.rest[1..]))
      decreases |tokens| - current, 13
    {
      hide Parser.Valid, Parser.Rest, E.Expression;
      r := Expression();
      if r.Err? { return; }
      var close := Consume(RPAREN);
      r := if close.Ok? then Ok(GroupExpr(r.value)) else Err("E100");
    }

    /** The elements of a list, behind its bracket. */
    method ListElements() returns (r: Result<seq<Expr>>)
      requires Valid()
      modifies this`current
      ensures old(current) <= current && (r.Ok? ==> old(current) < current)
      ensures Agrees(r, E.ListElements(old(Rest())))
      decreases |tokens| - current, 16
    {
      hide Parser.Rest, E.Expression, Ended;
      var elements: seq<Expr> := [];
      ghost var start := Rest();
      if !AtAny({RBRACKET}) {
        var more := true;
        assert E.Elements(start) == E.Prepended([], E.Elements(start)) by { E.PrependedNothing(E.Elements(start)); }
        while more
          invariant Valid() && old(current) <= current
          invariant E.Elements(start) ==
                    if more then E.Prepended(elements, E.Elements(Rest())) else E.ElementsEnd(elements, Rest())
          decreases |tokens| - current, more
        {
          var element := Expression();
          if element.Err? {
            return Err(element.code);
          }
          E.PrependedElements(elements, element.value, Rest());
          elements := elements + [element.value];
          more := Match({COMMA});
        }
      }
      var close := Consume(RBRACKET);
      r := if close.Ok? then Ok(elements) else Err("E100");
    }

    /** One argument of a call. */
    method CallArgument(arguments: seq<Expr>, named: seq<NamedArgument>)
        returns (r: Result<(seq<Expr>, seq<NamedArgument>)>)
      requires Valid()
      modifies this`current
      ensures old(current) <= current && (r.Ok? ==> old(current) < current)
      ensures Agrees(r, E.OneArgument(arguments, named, old(Rest())))
      decreases |tokens| - current, 13
    {
      hide Parser.Valid, Parser.Rest, E.Expression, E.HasName;
      var second := Peek(1);
      if AtAny({IDENTIFIER}) && second.kind == EQUAL {
        var name := Advance();
        var _ := Advance();
        if E.HasName(named, name.lexeme) {
          return Err("E113");
        }
        var value := Expression();
        r := if value.Ok? then Ok((arguments, named + [NamedArgument(name.lexeme, value.value)])) else Err(value.code);
      } else {
        if named != [] {
          return Err("E114");
        }
        var value := Expression();
        r := if value.Ok? then Ok((arguments + [value.value], named)) else Err(value.code);
      }
    }

    /** The arguments of a call, behind the parenthesis. */
    method CallArguments() returns (r: Result<(seq<Expr>, seq<NamedArgument>)>)
      requires Valid()
      modifies this`current
      ensures old(current) <= current && (r.Ok? ==> old(current) < current)
      ensures Agrees(r, E.Arguments(old(Rest())))
      decreases |tokens| - current, 16
    {
      hide Parser.Rest, E.OneArgument, Ended;
      r := Ok(([], []));
      ghost var start := Rest();
      if !AtAny({RPAREN}) {
        var more := true;
        while more
          invariant Valid() && old(current) <= current && r.Ok?
          invariant E.Arguments(start) ==
                    if more then E.ArgumentsFrom(r.value.0, r.value.1, Rest())
                    else E.ArgumentsEnd(r.value.0, r.value.1, Rest())
          invariant !more ==> !AtAny({COMMA})
          decreases |tokens| - current, more
        {
          r := CallArgument(r.value.0, r.value.1);
          if r.Err? { return; }
          more := Match({COMMA});
        }
      }
      var close := Consume(RPAREN);
      if close.Err? {
        r := Err("E100");
      }
    }

    // ---- Statements ----

    method Newlines()
      requires Valid()
      modifies this`current
      ensures Valid() && Rest() == S.Newlines(old(Rest())) && old(current) <= current && !AtAny({NEWLINE})
    {
      ghost var start := Rest();
      while AtAny({NEWLINE})
        invariant Valid() && old(current) <= current && S.Newlines(start) == S.Newlines(Rest())
        decreases |tokens| - current
      {
        var _ := Advance();
      }
    }

    method LineEnd() returns (r: Result<()>)
      requires Valid()
      modifies this`current
      ensures old(current) <= current
      ensures Agrees(r, S.LineEnd(old(Rest())))
    {
      hide Parser.Valid, Parser.Rest;
      if !AtAny({NEWLINE, EOF}) {
        return Err("E100");
      }
      var _ := Match({NEWLINE});
      r := Ok(());
    }

    method ConsumeLabel() returns (r: Result<Token>)
      requires Valid()
      modifies this`current
      ensures old(current) <= current && (r.Ok? ==> old(current) < current)
      ensures Agrees(r, S.Consume({IDENTIFIER, LABEL}, old(Rest())))
    {
      hide Parser.Valid, Parser.Rest;
      if !AtAny({IDENTIFIER, LABEL}) {
        return Err("E100");
      }
      var t := Advance();
      r := Ok(t);
    }

    method Binding() returns (r: Result<string>)
      requires Valid()
      modifies this`current
      ensures old(current) <= current && (r.Ok? ==> old(current) < current)
      ensures Agrees(r, S.Binding(old(Rest())))
    {
      hide Parser.Valid, Parser.Rest;
      var name := Consume(IDENTIFIER);
      if name.Err? {
        return Err(name.code);
      }
      r := if name.value.lexeme in {"system", "pin"} then Err("E215") else Ok(name.value.lexeme);
    }

    method ExpressionLine() returns (r: Result<Expr>)
      requires Valid()
      modifies this`current
      ensures old(current) <= current && (r.Ok? ==> old(current) < current)
      ensures Agrees(r, S.ExpressionLine(old(Rest())))
    {
      hide Parser.Valid, Parser.Rest, E.Expression, S.LineEnd;
      r := Expression();
      if r.Err? { return; }
      var end := LineEnd();
      if end.Err? {
        r := Err(end.code);
      }
    }

    method ReadType() returns (r: Result<DeclaredType>)
      requires Valid() && AtAny({IDENTIFIER, OBJECT, LIST})
      modifies this`current
      ensures old(current) <= current && (r.Ok? ==> old(current) < current)
      ensures Agrees(r, S.DeclaredTypeOf(old(Rest())))
      decreases |tokens| - current, 0
    {
      hide Parser.Valid, Parser.Rest, S.Declarable;
      var t := Advance();
      var name := S.TypeName(t);
      if !S.Declarable(name) {
        return Err("E123");
      }
      if name != "list" {
        return Ok(DeclaredType(name, T.Unknown));
      }
      var less := Consume(LESS);
      if less.Err? {
        return Err("E100");
      }
      if !AtAny({IDENTIFIER, OBJECT, LIST}) {
        return Err("E100");
      }
      var element := ReadType();
      if element.Err? {
        return element;
      }
      var greater := Consume(GREATER);
      if greater.Err? {
        return Err("E100");
      }
      S.NamesOfDeclared(element.value.name);
      r := Ok(DeclaredType(name, if element.value.name == "list" then T.ListOf(element.value.element)
                                 else T.Scalar(element.value.name)));
    }

    method BranchLabel(name: string) returns (r: Result<()>)
      requires Valid()
      modifies this`current
      ensures old(current) <= current && (r.Ok? ==> old(current) < current)
      ensures Agrees(r, S.BranchLabel(name, old(Rest())))
    {
      hide Parser.Valid, Parser.Rest, S.LineEnd;
      var colon := Consume(COLON);
      if colon.Err? {
        return Err(colon.code);
      }
      var actual := ConsumeLabel();
      if actual.Err? {
        return Err(actual.code);
      }
      if actual.value.lexeme != name {
        return Err("E104");
      }
      r := LineEnd();
    }

    method Push(kind: string, name: string) returns (r: Result<()>)
      modifies this`stack
      ensures match S.Push(kind, name, old(stack))
              case Ok(after) => r.Ok? && stack == after
              case Err(code) => r == Err(code) && stack == old(stack)
    {
      if S.LooksLocal(name) && !S.IsLocal(name) {
        return Err("E101");
      }
      if S.IsOpen(stack, name) {
        return Err("E109");
      }
      if S.IsLocal(name) {
        var sep := S.InnermostSep(stack);
        if sep < 0 || name in stack[sep].used {
          return Err("E109");
        }
        stack := stack[sep := stack[sep].(used := stack[sep].used + {name})];
      }
      stack := stack + [S.Block(kind, name, {})];
      r := Ok(());
    }

    method Opened(kind: string, name: string) returns (r: Result<string>)
      requires Valid()
      modifies this`current, this`stack
      ensures old(current) <= current
      ensures Follows(r, S.Opened(kind, name, old(Rest()), old(stack)))
    {
      hide Parser.Valid, Parser.Rest, S.LineEnd, S.Push;
      var end := LineEnd();
      if end.Err? {
        return Err(end.code);
      }
      var pushed := Push(kind, name);
      r := if pushed.Ok? then Ok(name) else Err(pushed.code);
    }

    method OpeningLabel(kind: string) returns (r: Result<string>)
      requires Valid()
      modifies this`current, this`stack
      ensures old(current) <= current && (r.Ok? ==> old(current) < current)
      ensures Follows(r, S.OpeningLabel(kind, old(Rest()), old(stack)))
    {
      hide Parser.Valid, Parser.Rest, S.Opened;
      var colon := Consume(COLON);
      if colon.Err? {
        return Err(colon.code);
      }
      var name := ConsumeLabel();
      if name.Err? {
        return Err(name.code);
      }
      r := Opened(kind, name.value.lexeme);
    }

    method OpeningName(kind: string) returns (r: Result<string>)
      requires Valid()
      modifies this`current, this`stack
      ensures old(current) <= current && (r.Ok? ==> old(current) < current)
      ensures Follows(r, S.OpeningName(kind, old(Rest()), old(stack)))
    {
      hide Parser.Valid, Parser.Rest, S.Opened, S.Binding;
      var colon := Consume(COLON);
      if colon.Err? {
        return Err(colon.code);
      }
      var name := Binding();
      if name.Err? {
        return Err(name.code);
      }
      r := Opened(kind, name.value);
    }

    method Close(closer: Kind, kind: string) returns (r: Result<()>)
      requires Valid() && stack != [] && closer != EOF
      modifies this`current, this`stack
      ensures old(current) <= current && (r.Ok? ==> old(current) < current)
      ensures Follows(r, S.Close(closer, kind, old(Rest()), old(stack)))
    {
      hide Parser.Valid, Parser.Rest, S.LineEnd, S.HasBlock;
      var end := Consume(closer);
      if end.Err? {
        return Err(end.code);
      }
      var colon := Consume(COLON);
      if colon.Err? {
        return Err(colon.code);
      }
      var name := ConsumeLabel();
      if name.Err? {
        return Err(name.code);
      }
      var top, below := stack[|stack| - 1], stack[..|stack| - 1];
      if name.value.lexeme != top.name {
        return Err(if S.HasBlock(below, kind, name.value.lexeme) then "E105" else "E104");
      }
      r := LineEnd();
      if r.Ok? {
        stack := below;
        r := Ok(());
      }
    }

    method Unexpected() returns (code: string)
      requires Valid() && S.AtCloser(Rest())
      ensures code == S.Unexpected(Rest(), stack)
    {
      var t := Peek(0);
      var colon := Peek(1);
      var name := Peek(2);
      var kind := S.CloserKind(t.kind).value;
      var found := if colon.kind == COLON && name.kind in {IDENTIFIER, LABEL} then name.lexeme else "<missing>";
      code := if stack != [] && stack[|stack| - 1].name == found && stack[|stack| - 1].kind != kind then "E105"
              else if S.HasBlock(stack, kind, found) then "E105"
              else "E107";
    }

    method IndexAssignmentLine() returns (r: Result<Stmt>)
      requires Valid()
      modifies this`current
      ensures old(current) <= current && (r.Ok? ==> old(current) < current)
      ensures Agrees(r, S.IndexAssignmentOf(old(Rest())))
    {
      hide Parser.Valid, Parser.Rest, S.Binding, S.Indexes, S.ExpressionLine;
      var name := Binding();
      if name.Err? {
        return Err(name.code);
      }
      var indexes := Indexes();
      if indexes.Err? {
        return Err(indexes.code);
      }
      var equal := Consume(EQUAL);
      if equal.Err? {
        return Err(equal.code);
      }
      var value := ExpressionLine();
      r := if value.Ok? then Ok(IndexAssignment(name.value, indexes.value, value.value)) else Err(value.code);
    }

    method Indexes() returns (r: Result<seq<Expr>>)
      requires Valid()
      modifies this`current
      ensures old(current) <= current
      ensures Agrees(r, S.Indexes([], old(Rest())))
    {
      hide Parser.Rest, Ended, E.Expression;
      r := Ok([]);
      ghost var start := Rest();
      while AtAny({LBRACKET})
        invariant Valid() && old(current) <= current && r.Ok?
        invariant S.Indexes([], start) == S.Indexes(r.value, Rest())
        decreases |tokens| - current
      {
        var _ := Advance();
        var index := Expression();
        if index.Err? {
          return Err(index.code);
        }
        var close := Consume(RBRACKET);
        if close.Err? {
          return Err(close.code);
        }
        r := Ok(r.value + [index.value]);
      }
    }

    method TypedDeclarationLine(constant: bool, missing: string) returns (r: Result<Stmt>)
      requires Valid() && S.StartsTypedDeclaration(Rest())
      modifies this`current
      ensures old(current) <= current && (r.Ok? ==> old(current) < current)
      ensures Agrees(r, S.TypedDeclarationOf(old(Rest()), constant, missing))
    {
      hide Parser.Valid, Parser.Rest, S.Binding, S.ExpressionLine, S.DeclaredTypeOf, S.StartsTypedDeclaration;
      S.TypedStart(Rest());
      var declared := ReadType();
      if declared.Err? {
        return Err(declared.code);
      }
      var name := Binding();
      if name.Err? {
        return Err(name.code);
      }
      var equal := Match({EQUAL});
      if !equal {
        return Err(missing);
      }
      var value := ExpressionLine();
      r := if value.Ok? then Ok(TypedDeclaration(name.value, declared.value, value.value, constant))
          else Err(value.code);
    }

    method StartsTypedDeclaration() returns (b: bool)
      requires Valid()
      ensures b == S.StartsTypedDeclaration(Rest())
    {
      var t := Peek(0);
      var next := Peek(1);
      var name := S.TypeName(t);
      b := S.Declarable(name) && next.kind == (if name == "list" then LESS else IDENTIFIER);
    }

    method Constant() returns (r: Result<Stmt>)
      requires Valid()
      modifies this`current
      ensures old(current) <= current && (r.Ok? ==> old(current) < current)
      ensures Agrees(r, S.ConstantOf(old(Rest())))
    {
      hide Parser.Valid, Parser.Rest, S.Binding, S.ExpressionLine, S.StartsTypedDeclaration, S.TypedDeclarationOf;
      var typed := StartsTypedDeclaration();
      if typed {
        r := TypedDeclarationLine(true, "E124");
        return;
      }
      var name := Binding();
      if name.Err? {
        return Err(name.code);
      }
      var equal := Consume(EQUAL);
      if equal.Err? {
        return Err(equal.code);
      }
      var value := ExpressionLine();
      r := if value.Ok? then Ok(ConstDeclaration(name.value, value.value)) else Err(value.code);
    }

    method AssignmentLine() returns (r: Result<Stmt>)
      requires Valid() && AtAny({IDENTIFIER}) && S.IsAssignment(Tokens.Peek(Rest(), 1).kind)
      modifies this`current
      ensures old(current) <= current && (r.Ok? ==> old(current) < current)
      ensures Agrees(r, S.AssignmentOf(old(Rest())))
    {
      hide Parser.Valid, Parser.Rest, S.ExpressionLine, S.CompoundOperator;
      var second := Peek(1);
      var name := Binding();
      if name.Err? {
        return Err(name.code);
      }
      var assignment := Advance();
      var value := ExpressionLine();
      if value.Err? {
        return Err(value.code);
      }
      var operator := S.CompoundOperator(assignment.kind);
      r := Ok(Assignment(name.value, if operator.None? then value.value
                                     else BinaryExpr(VariableExpr(name.value), operator.value, value.value)));
    }

    method Import() returns (r: Result<Stmt>)
      requires Valid()
      modifies this`current
      ensures old(current) <= current && (r.Ok? ==> old(current) < current)
      ensures Agrees(r, S.ImportOf(old(Rest())))
    {
      hide Parser.Valid, Parser.Rest, S.Binding, S.LineEnd;
      var path := Consume(STRING);
      if path.Err? {
        return Err(path.code);
      }
      var asWord := Consume(AS);
      if asWord.Err? {
        return Err(asWord.code);
      }
      var alias := Binding();
      if alias.Err? {
        return Err(alias.code);
      }
      var end := LineEnd();
      if end.Err? {
        return Err(end.code);
      }
      r := Ok(ImportStmt(if path.value.literal.StringLit? then path.value.literal.s else "", alias.value));
    }

    method Keyworded(keyword: Kind) returns (r: Result<Stmt>)
      requires Valid() && keyword in {THROW, PRINT, PRINT_ERROR, RETURN}
      modifies this`current
      ensures old(current) <= current
      ensures Agrees(r, S.Keyworded(keyword, old(Rest())))
    {
      hide Parser.Valid, Parser.Rest, S.ExpressionLine, S.LineEnd;
      if keyword == RETURN && AtAny({NEWLINE, EOF}) {
        var end := LineEnd();
        return if end.Ok? then Ok(ReturnStmt(None)) else Err(end.code);
      }
      var value := ExpressionLine();
      if value.Err? {
        return Err(value.code);
      }
      r := Ok(if keyword == THROW then ThrowStmt(value.value)
              else if keyword == PRINT then PrintStmt(value.value)
              else if keyword == PRINT_ERROR then PrintErrorStmt(value.value)
              else ReturnStmt(Some(value.value)));
    }

    /** Looks ahead for `name[...][...] =`, without moving the cursor. */
    method StartsIndexAssignment() returns (b: bool)
      requires Valid()
      ensures b == S.StartsIndexAssignment(Rest())
    {
      if !AtAny({IDENTIFIER}) {
        return false;
      }
      var i := current + 1;
      ghost var start := tokens[current..];
      assert start[1..] == tokens[i..];
      if tokens[i].kind != LBRACKET {
        return false;
      }
      while tokens[i].kind == LBRACKET
        invariant current < i < |tokens|
        invariant S.StartsIndexAssignment(start) == S.EqualBehindIndexes(tokens[i..])
        decreases |tokens| - i
      {
        var behind := BehindBracket(i);
        if behind.None? {
          return false;
        }
        i := behind.value;
      }
      b := tokens[i].kind == EQUAL;
    }

    method BehindBracket(from: nat) returns (end: Option<nat>)
      requires Valid() && from < |tokens|
      ensures match S.BehindBracket(tokens[from..], 0)
              case Some(rest) => end.Some? && from < end.value < |tokens| && tokens[end.value..] == rest
              case None => end == None
    {
      var i, depth := from, 0;
      while tokens[i].kind !in {NEWLINE, EOF}
        invariant from <= i < |tokens| && depth >= 0
        invariant S.BehindBracket(tokens[from..], 0) == S.BehindBracket(tokens[i..], depth)
        decreases |tokens| - i
      {
        assert tokens[i..][1..] == tokens[i + 1..];
        if tokens[i].kind == LBRACKET {
          depth := depth + 1;
        } else if tokens[i].kind == RBRACKET {
          if depth <= 1 {
            return Some(i + 1);
          }
          depth := depth - 1;
        }
        i := i + 1;
      }
      end := None;
    }

    method Statement(top: bool) returns (r: Result<Stmt>)
      requires Valid() && !AtAny({EOF})
      modifies this`current, this`stack
      ensures old(current) <= current && (r.Ok? ==> old(current) < current)
      ensures Follows(r, S.Statement(old(Rest()), old(stack), top))
      decreases |tokens| - current, 5
    {
      hide Parser.Valid, Parser.Rest, S.ImportOf, S.ErrorDeclaration, S.HttpRoute, S.SepOf, S.TypedDeclarationOf;
      hide S.StartsTypedDeclaration, S.Declarable, S.BlockStatement, S.IsBlockOpener, S.OnlyInside, S.SimpleStatement;
      hide S.TypeName, S.InnermostSep;
      var t := Peek(0);
      var next := Peek(1);
      if t.kind == TAG {
        return Err(if S.InnermostSep(stack) >= 0 then "E217" else "E216");
      }
      if t.kind == COLON && next.kind == IDENTIFIER && next.lexeme == "end" {
        return Err("E122");
      }
      if t.kind in {IMPORT, ERROR, HTTP_ROUTE} {
        if !top {
          return Err(if t.kind == IMPORT then "E703" else if t.kind == ERROR then "E120" else "E890");
        }
        if t.kind == IMPORT {
          var _ := Advance();
          r := Import();
        } else if t.kind == ERROR {
          r := ErrorDeclaration();
        } else {
          r := HttpRoute();
        }
        return;
      }
      if t.kind == IDENTIFIER && t.lexeme == "function" {
        return Err("E100");
      }
      if t.kind == SEP {
        if !top {
          return Err("E110");
        }
        r := Sep();
        return;
      }
      var typed := StartsTypedDeclaration();
      if typed {
        r := TypedDeclarationLine(false, "E124");
        return;
      }
      if S.Declarable(S.TypeName(t)) && next.kind == IDENTIFIER {
        return Err("E124");
      }
      if S.OnlyInside(t.kind) && top {
        return Err("E110");
      }
      if S.IsBlockOpener(t.kind) {
        r := BlockStatement();
      } else {
        r := SimpleStatement(top);
      }
    }

    method SimpleStatement(top: bool) returns (r: Result<Stmt>)
      requires Valid() && !AtAny({EOF})
      modifies this`current, this`stack
      ensures old(current) <= current && (r.Ok? ==> old(current) < current)
      ensures Follows(r, S.SimpleStatement(old(Rest()), old(stack), top))
    {
      hide Parser.Valid, Parser.Rest, S.Keyworded, S.ConstantOf, S.StartsIndexAssignment, S.IndexAssignmentOf;
      hide S.AssignmentOf, S.IsAssignment, S.ExpressionLine;
      var t := Peek(0);
      var next := Peek(1);
      var third := Peek(2);
      var fourth := Peek(3);
      if t.kind in {THROW, PRINT, PRINT_ERROR, RETURN} {
        var _ := Advance();
        r := Keyworded(t.kind);
        return;
      }
      if t.kind == CONST {
        var _ := Advance();
        r := Constant();
        return;
      }
      var indexed := StartsIndexAssignment();
      if indexed {
        r := IndexAssignmentLine();
        return;
      }
      if t.kind == IDENTIFIER && S.IsAssignment(next.kind) {
        r := AssignmentLine();
        return;
      }
      if t.kind == IDENTIFIER && next.kind == DOT && third.kind == IDENTIFIER && fourth.kind == EQUAL {
        return Err("E214");
      }
      if top && !(t.kind == IDENTIFIER && t.lexeme in {"http_host", "http_static"}) {
        return Err("E110");
      }
      var e := ExpressionLine();
      r := if e.Ok? then Ok(ExpressionStmt(e.value)) else Err(e.code);
    }

    method BlockStatement() returns (r: Result<Stmt>)
      requires Valid() && S.IsBlockOpener(Rest()[0].kind)
      modifies this`current, this`stack
      ensures old(current) <= current && (r.Ok? ==> old(current) < current)
      ensures Follows(r, S.BlockStatement(old(Rest()), old(stack)))
      decreases |tokens| - current, 4
    {
      hide Parser.Valid, Parser.Rest, S.ObjectOf, S.ListBlockOf, S.TryOf, S.TransactionOf, S.IfOf, S.WhileOf, S.ForOf;
      var t := Peek(0);
      if t.kind == OBJECT {
        r := Object();
      } else if t.kind == LIST {
        r := BlockList();
      } else if t.kind == TRY {
        r := Try();
      } else if t.kind == TRANSACTION {
        r := Transaction();
      } else if t.kind == IF {
        r := If();
      } else if t.kind == WHILE {
        r := While();
      } else {
        r := For();
      }
    }

    method BodyUntil(endings: set<Kind>) returns (r: Result<seq<Stmt>>)
      requires Valid() && stack != [] && EOF !in endings
      modifies this`current, this`stack
      ensures old(current) <= current
      ensures Follows(r, S.BodyUntil(endings, [], old(Rest()), old(stack)))
      decreases |tokens| - current, 6
    {
      hide Parser.Rest, S.Statement, S.Unexpected, S.CloserKind;
      r := Ok([]);
      ghost var start, openBefore := Rest(), stack;
      Newlines();
      while !AtAny(endings) && !AtAny({EOF})
        invariant Valid() && old(current) <= current && r.Ok? && stack != [] && S.Newlines(Rest()) == Rest()
        invariant S.BodyUntil(endings, [], start, openBefore) == S.BodyUntil(endings, r.value, Rest(), stack)
        decreases |tokens| - current
      {
        var t := Peek(0);
        if S.CloserKind(t.kind).Some? {
          var code := Unexpected();
          return Err(code);
        }
        var s := Statement(false);
        if s.Err? {
          return Err(s.code);
        }
        r := Ok(r.value + [s.value]);
        ghost var behind := Rest();
        Newlines();
        NewlinesTwice(endings, r.value, behind, stack);
      }
      if AtAny({EOF}) && !AtAny(endings) {
        r := Err("E106");
      }
    }

    method ErrorDeclaration() returns (r: Result<Stmt>)
      requires Valid() && AtAny({ERROR})
      modifies this`current, this`stack
      ensures old(current) <= current && (r.Ok? ==> old(current) < current)
      ensures Follows(r, S.ErrorDeclaration(old(Rest()), old(stack)))
    {
      hide Parser.Valid, Parser.Rest, S.EndsWithError, S.Opened, S.Newlines, S.Close;
      var _ := Advance();
      var colon := Consume(COLON);
      if colon.Err? {
        return Err(colon.code);
      }
      var name := Consume(IDENTIFIER);
      if name.Err? {
        return Err(name.code);
      }
      if !S.EndsWithError(name.value.lexeme) {
        return Err("E121");
      }
      var start := Opened("error", name.value.lexeme);
      if start.Err? {
        return Err(start.code);
      }
      Newlines();
      var end := Close(END_ERROR, "error");
      r := if end.Ok? then Ok(ErrorDecl(start.value)) else Err(end.code);
    }

    method HttpRoute() returns (r: Result<Stmt>)
      requires Valid() && AtAny({HTTP_ROUTE})
      modifies this`current, this`stack
      ensures old(current) <= current && (r.Ok? ==> old(current) < current)
      ensures Follows(r, S.HttpRoute(old(Rest()), old(stack)))
      decreases |tokens| - current, 4
    {
      hide Parser.Valid, Parser.Rest, S.OpeningLabel, S.BodyUntil, S.Close, S.IsRoute;
      var _ := Advance();
      var verb := Consume(IDENTIFIER);
      if verb.Err? {
        return Err(verb.code);
      }
      if verb.value.lexeme !in {"GET", "HEAD", "POST", "PUT", "PATCH", "DELETE"} {
        return Err("E891");
      }
      var path := Consume(STRING);
      if path.Err? {
        return Err(path.code);
      }
      var text := if path.value.literal.StringLit? then path.value.literal.s else "";
      if !S.IsRoute(text) {
        return Err("E892");
      }
      var start := OpeningLabel("http_route");
      if start.Err? {
        return Err(start.code);
      }
      var body := BodyUntil({END_HTTP_ROUTE});
      if body.Err? {
        return Err(body.code);
      }
      var end := Close(END_HTTP_ROUTE, "http_route");
      r := if end.Ok? then Ok(HttpRouteDecl(start.value, verb.value.lexeme, text, body.value)) else Err(end.code);
    }

    method Sep() returns (r: Result<Stmt>)
      requires Valid() && AtAny({SEP})
      modifies this`current, this`stack
      ensures old(current) <= current && (r.Ok? ==> old(current) < current)
      ensures Follows(r, S.SepOf(old(Rest()), old(stack)))
      decreases |tokens| - current, 4
    {
      hide Parser.Valid, Parser.Rest, S.Binding, S.ParameterList, S.Opened, S.Newlines, S.Tags, S.BodyUntil, S.Close;
      var _ := Advance();
      var colon := Consume(COLON);
      if colon.Err? {
        return Err(colon.code);
      }
      var name := Binding();
      if name.Err? {
        return Err(name.code);
      }
      var parameters := ParameterList();
      if parameters.Err? {
        return Err(parameters.code);
      }
      var start := Opened("SEP", name.value);
      if start.Err? {
        return Err(start.code);
      }
      Newlines();
      var tags := Tags();
      if tags.Err? {
        return Err(tags.code);
      }
      var body := BodyUntil({END_SEP});
      if body.Err? {
        return Err(body.code);
      }
      var end := Close(END_SEP, "SEP");
      r := if end.Ok? then Ok(LogicDecl(Logic(name.value, parameters.value, tags.value, body.value)))
          else Err(end.code);
    }

    method ParameterList() returns (r: Result<seq<Parameter>>)
      requires Valid()
      modifies this`current
      ensures old(current) <= current
      ensures Agrees(r, S.ParameterList(old(Rest())))
    {
      hide Parser.Rest, S.OneParameter;
      r := Ok([]);
      var listed := Match({LPAREN});
      if !listed { return; }
      if !AtAny({RPAREN}) {
        var more := true;
        ghost var start := Rest();
        while more
          invariant Valid() && old(current) <= current && r.Ok?
          invariant S.Parameters([], start) == if more then S.Parameters(r.value, Rest())
              else S.ParametersEnd(r.value, Rest())
          decreases |tokens| - current, more
        {
          r := OneParameter(r.value);
          if r.Err? { return; }
          more := Match({COMMA});
        }
      }
      var close := Consume(RPAREN);
      if close.Err? {
        r := Err(close.code);
      }
    }

    method OneParameter(parameters: seq<Parameter>) returns (r: Result<seq<Parameter>>)
      requires Valid()
      modifies this`current
      ensures old(current) <= current && (r.Ok? ==> old(current) < current)
      ensures Agrees(r, S.OneParameter(parameters, old(Rest())))
    {
      hide Parser.Valid, Parser.Rest, S.Binding, S.HasParameter, S.Declarable, S.DeclaredTypeOf, S.TypeName;
      var name := Binding();
      if name.Err? {
        return Err(name.code);
      }
      if S.HasParameter(parameters, name.value) {
        return Err("E112");
      }
      var typed := Match({COLON});
      if !typed {
        return Ok(parameters + [Parameter(name.value, None)]);
      }
      var t := Peek(0);
      if !S.Declarable(S.TypeName(t)) {
        return Err("E123");
      }
      S.NamedStart(Rest());
      var declared := ReadType();
      r := if declared.Ok? then Ok(parameters + [Parameter(name.value, Some(declared.value))]) else Err(declared.code);
    }

    method Tags() returns (r: Result<seq<string>>)
      requires Valid()
      modifies this`current
      ensures old(current) <= current
      ensures Agrees(r, S.Tags([], old(Rest())))
    {
      hide Parser.Rest, Ended, S.LineEnd, S.Newlines;
      r := Ok([]);
      ghost var start := Rest();
      while AtAny({TAG})
        invariant Valid() && old(current) <= current && r.Ok?
        invariant S.Tags([], start) == S.Tags(r.value, Rest())
        decreases |tokens| - current
      {
        var tag := Advance();
        if tag.lexeme in r.value {
          return Err("E218");
        }
        var end := LineEnd();
        if end.Err? {
          return Err(end.code);
        }
        r := Ok(r.value + [tag.lexeme]);
        Newlines();
      }
    }

    method Object() returns (r: Result<Stmt>)
      requires Valid() && AtAny({OBJECT})
      modifies this`current, this`stack
      ensures old(current) <= current && (r.Ok? ==> old(current) < current)
      ensures Follows(r, S.ObjectOf(old(Rest()), old(stack)))
      decreases |tokens| - current, 3
    {
      hide Parser.Valid, Parser.Rest, S.OpeningName, S.Newlines, S.Entries, S.Close;
      var _ := Advance();
      var start := OpeningName("object");
      if start.Err? {
        return Err(start.code);
      }
      Newlines();
      var entries := Entries();
      if entries.Err? {
        return Err(entries.code);
      }
      var end := Close(END_OBJECT, "object");
      r := if end.Ok? then Ok(ObjectBlock(start.value, entries.value)) else Err(end.code);
    }

    method ReadEntry() returns (r: Result<Entry>)
      requires Valid()
      modifies this`current, this`stack
      ensures old(current) <= current && (r.Ok? ==> old(current) < current)
      ensures Follows(r, S.EntryOf(old(Rest()), old(stack)))
      decreases |tokens| - current, 4
    {
      hide Parser.Valid, Parser.Rest, S.StartsTypedDeclaration, S.TypedDeclarationOf, S.ObjectOf, S.ListBlockOf;
      hide S.ExpressionLine;
      var typed := StartsTypedDeclaration();
      if typed {
        var field := TypedDeclarationLine(false, "E100");
        return if field.Ok? then Ok(FieldEntry(field.value.name, Some(field.value.declared), field.value.value))
            else Err(field.code);
      }
      if AtAny({OBJECT, LIST}) {
        var block;
        if AtAny({OBJECT}) {
          block := Object();
        } else {
          block := BlockList();
        }
        return if block.Ok? then Ok(BlockEntry(block.value)) else Err(block.code);
      }
      var next := Peek(1);
      if !(AtAny({IDENTIFIER}) && next.kind == EQUAL) {
        return Err("E115");
      }
      var name := Advance();
      var _ := Advance();
      var value := ExpressionLine();
      r := if value.Ok? then Ok(FieldEntry(name.lexeme, None, value.value)) else Err(value.code);
    }

    method Entries() returns (r: Result<seq<Entry>>)
      requires Valid() && stack != []
      modifies this`current, this`stack
      ensures old(current) <= current
      ensures Follows(r, S.Entries([], old(Rest()), old(stack)))
      decreases |tokens| - current, 5
    {
      hide Parser.Rest, S.EntryOf, S.Newlines, S.Unexpected, S.CloserKind, S.HasEntry, S.EntryName;
      r := Ok([]);
      ghost var start, openBefore := Rest(), stack;
      while !AtAny({END_OBJECT, EOF})
        invariant Valid() && old(current) <= current && r.Ok? && stack != []
        invariant S.Entries([], start, openBefore) == S.Entries(r.value, Rest(), stack)
        decreases |tokens| - current
      {
        var t := Peek(0);
        if S.CloserKind(t.kind).Some? {
          var code := Unexpected();
          return Err(code);
        }
        var entry := ReadEntry();
        if entry.Err? {
          return Err(entry.code);
        }
        if S.HasEntry(r.value, S.EntryName(entry.value)) {
          return Err("E116");
        }
        r := Ok(r.value + [entry.value]);
        Newlines();
      }
      if AtAny({EOF}) {
        r := Err("E106");
      }
    }

    method BlockList() returns (r: Result<Stmt>)
      requires Valid() && AtAny({LIST})
      modifies this`current, this`stack
      ensures old(current) <= current && (r.Ok? ==> old(current) < current)
      ensures Follows(r, S.ListBlockOf(old(Rest()), old(stack)))
      decreases |tokens| - current, 3
    {
      hide Parser.Valid, Parser.Rest, S.OpeningName, S.Newlines, S.ListLines, S.Close;
      var _ := Advance();
      var start := OpeningName("list");
      if start.Err? {
        return Err(start.code);
      }
      Newlines();
      var elements := ListLines();
      if elements.Err? {
        return Err(elements.code);
      }
      var end := Close(END_LIST, "list");
      r := if end.Ok? then Ok(ListBlock(start.value, elements.value)) else Err(end.code);
    }

    method ListLines() returns (r: Result<seq<Expr>>)
      requires Valid() && stack != []
      modifies this`current, this`stack
      ensures old(current) <= current
      ensures Follows(r, S.ListLines([], old(Rest()), old(stack)))
      decreases |tokens| - current, 2
    {
      hide Parser.Rest, S.ExpressionLine, S.Newlines, S.Unexpected, S.CloserKind;
      r := Ok([]);
      ghost var start := Rest();
      while !AtAny({END_LIST, EOF})
        invariant Valid() && old(current) <= current && r.Ok? && stack == old(stack)
        invariant S.ListLines([], start, stack) == S.ListLines(r.value, Rest(), stack)
        decreases |tokens| - current
      {
        var t := Peek(0);
        if S.CloserKind(t.kind).Some? {
          var code := Unexpected();
          return Err(code);
        }
        var element := ExpressionLine();
        if element.Err? {
          return Err(element.code);
        }
        r := Ok(r.value + [element.value]);
        Newlines();
      }
      if AtAny({EOF}) {
        r := Err("E106");
      }
    }

    method While() returns (r: Result<Stmt>)
      requires Valid() && AtAny({WHILE})
      modifies this`current, this`stack
      ensures old(current) <= current && (r.Ok? ==> old(current) < current)
      ensures Follows(r, S.WhileOf(old(Rest()), old(stack)))
      decreases |tokens| - current, 3
    {
      hide Parser.Valid, Parser.Rest, S.OpeningLabel, S.BodyUntil, S.Close, E.Expression;
      var _ := Advance();
      var condition := Expression();
      if condition.Err? {
        return Err(condition.code);
      }
      var start := OpeningLabel("while");
      if start.Err? {
        return Err(start.code);
      }
      var body := BodyUntil({ENDWHILE});
      if body.Err? {
        return Err(body.code);
      }
      var end := Close(ENDWHILE, "while");
      r := if end.Ok? then Ok(WhileStmt(start.value, condition.value, body.value)) else Err(end.code);
    }

    method Transaction() returns (r: Result<Stmt>)
      requires Valid() && AtAny({TRANSACTION})
      modifies this`current, this`stack
      ensures old(current) <= current && (r.Ok? ==> old(current) < current)
      ensures Follows(r, S.TransactionOf(old(Rest()), old(stack)))
      decreases |tokens| - current, 3
    {
      hide Parser.Valid, Parser.Rest, S.OpeningLabel, S.BodyUntil, S.Close, E.Expression;
      var _ := Advance();
      var connection := Expression();
      if connection.Err? {
        return Err(connection.code);
      }
      var start := OpeningLabel("transaction");
      if start.Err? {
        return Err(start.code);
      }
      var body := BodyUntil({END_TRANSACTION});
      if body.Err? {
        return Err(body.code);
      }
      var end := Close(END_TRANSACTION, "transaction");
      r := if end.Ok? then Ok(TransactionStmt(start.value, connection.value, body.value)) else Err(end.code);
    }

    method For() returns (r: Result<Stmt>)
      requires Valid() && AtAny({FOR})
      modifies this`current, this`stack
      ensures old(current) <= current && (r.Ok? ==> old(current) < current)
      ensures Follows(r, S.ForOf(old(Rest()), old(stack)))
      decreases |tokens| - current, 3
    {
      hide Parser.Valid, Parser.Rest, S.OpeningLabel, S.BodyUntil, S.Close, E.Expression, S.Binding;
      var _ := Advance();
      var variable := Binding();
      if variable.Err? {
        return Err(variable.code);
      }
      var inWord := Consume(IN);
      if inWord.Err? {
        return Err(inWord.code);
      }
      var iterable := Expression();
      if iterable.Err? {
        return Err(iterable.code);
      }
      var start := OpeningLabel("for");
      if start.Err? {
        return Err(start.code);
      }
      var body := BodyUntil({ENDFOR});
      if body.Err? {
        return Err(body.code);
      }
      var end := Close(ENDFOR, "for");
      r := if end.Ok? then Ok(ForStmt(start.value, variable.value, iterable.value, body.value)) else Err(end.code);
    }

    method If() returns (r: Result<Stmt>)
      requires Valid() && AtAny({IF})
      modifies this`current, this`stack
      ensures old(current) <= current && (r.Ok? ==> old(current) < current)
      ensures Follows(r, S.IfOf(old(Rest()), old(stack)))
      decreases |tokens| - current, 3
    {
      hide Parser.Valid, Parser.Rest, E.Expression, S.OpeningLabel, S.Branches, S.Close;
      var _ := Advance();
      var condition := Expression();
      if condition.Err? {
        return Err(condition.code);
      }
      var start := OpeningLabel("if");
      if start.Err? {
        return Err(start.code);
      }
      var branches := Branches(start.value, condition.value);
      if branches.Err? {
        return Err(branches.code);
      }
      var end := Close(ENDIF, "if");
      r := if end.Ok? then Ok(IfStmt(start.value, branches.value.0, branches.value.1)) else Err(end.code);
    }

    /** The branches of an if. */
    method Branches(name: string, first: Expr) returns (r: Result<(seq<IfBranch>, OptionalBody)>)
      requires Valid() && stack != []
      modifies this`current, this`stack
      ensures old(current) <= current
      ensures Follows(r, S.Branches(name, [], first, old(Rest()), old(stack)))
      decreases |tokens| - current, 8
    {
      hide Parser.Rest, Ended, E.Expression, S.BodyUntil, S.BranchLabel;
      var branches, condition, more := [], first, true;
      ghost var start, openBefore := Rest(), stack;
      while more
        invariant Valid() && old(current) <= current && stack != []
        invariant more ==>
            S.Branches(name, [], first, start, openBefore) == S.Branches(name, branches, condition, Rest(), stack)
        invariant !more ==>
            S.Branches(name, [], first, start, openBefore)
                  == S.LastBranch(name, branches, Rest(), stack)
        decreases |tokens| - current, more
      {
        var body := BodyUntil({ELSEIF, ELSE, ENDIF});
        if body.Err? {
          return Err(body.code);
        }
        branches := branches + [IfBranch(condition, body.value)];
        more := Match({ELSEIF});
        if more {
          var next := Expression();
          if next.Err? {
            return Err(next.code);
          }
          var line := BranchLabel(name);
          if line.Err? {
            return Err(line.code);
          }
          condition := next.value;
        }
      }
      r := Else(name, branches);
    }

    method Else(name: string, branches: seq<IfBranch>) returns (r: Result<(seq<IfBranch>, OptionalBody)>)
      requires Valid() && stack != []
      modifies this`current, this`stack
      ensures old(current) <= current
      ensures Follows(r, S.LastBranch(name, branches, old(Rest()), old(stack)))
      decreases |tokens| - current, 7
    {
      hide Parser.Valid, Parser.Rest, S.BodyUntil, S.BranchLabel;
      var alternative := Match({ELSE});
      if !alternative {
        return Ok((branches, NoBody));
      }
      var line := BranchLabel(name);
      if line.Err? {
        return Err(line.code);
      }
      var last := BodyUntil({ELSEIF, ELSE, ENDIF});
      if last.Err? {
        return Err(last.code);
      }
      r := if AtAny({ELSEIF, ELSE}) then Err("E108") else Ok((branches, Body(last.value)));
    }

    method Try() returns (r: Result<Stmt>)
      requires Valid() && AtAny({TRY})
      modifies this`current, this`stack
      ensures old(current) <= current && (r.Ok? ==> old(current) < current)
      ensures Follows(r, S.TryOf(old(Rest()), old(stack)))
      decreases |tokens| - current, 3
    {
      hide Parser.Valid, Parser.Rest, S.OpeningLabel, S.BodyUntil, S.Catches, S.FinallyOf, S.Close;
      var _ := Advance();
      var start := OpeningLabel("try");
      if start.Err? {
        return Err(start.code);
      }
      var body := BodyUntil({CATCH, FINALLY, ENDTRY});
      if body.Err? {
        return Err(body.code);
      }
      var catches := Catches(start.value);
      if catches.Err? {
        return Err(catches.code);
      }
      var lastBody := Finally(start.value);
      if lastBody.Err? {
        return Err(lastBody.code);
      }
      var end := Close(ENDTRY, "try");
      if end.Err? {
        return Err(end.code);
      }
      r := if catches.value == [] && lastBody.value.NoBody? then Err("E119")
           else Ok(TryStmt(start.value, body.value, catches.value, lastBody.value));
    }

    method Catches(name: string) returns (r: Result<seq<CatchBranch>>)
      requires Valid() && stack != []
      modifies this`current, this`stack
      ensures old(current) <= current
      ensures Follows(r, S.Catches(name, [], old(Rest()), old(stack)))
      decreases |tokens| - current, 7
    {
      hide Parser.Rest, Ended, S.BodyUntil, S.BranchLabel, S.Catching;
      r := Ok([]);
      ghost var start, openBefore := Rest(), stack;
      while AtAny({CATCH})
        invariant Valid() && old(current) <= current && r.Ok? && stack != []
        invariant S.Catches(name, [], start, openBefore) == S.Catches(name, r.value, Rest(), stack)
        decreases |tokens| - current
      {
        var _ := Advance();
        var category := Consume(IDENTIFIER);
        if category.Err? {
          return Err(category.code);
        }
        if S.Catching(r.value, category.value.lexeme) {
          return Err("E117");
        }
        if S.Catching(r.value, "any") {
          return Err("E118");
        }
        var line := BranchLabel(name);
        if line.Err? {
          return Err(line.code);
        }
        var body := BodyUntil({CATCH, FINALLY, ENDTRY});
        if body.Err? {
          return Err(body.code);
        }
        r := Ok(r.value + [CatchBranch(category.value.lexeme, body.value)]);
      }
    }

    method Finally(name: string) returns (r: Result<OptionalBody>)
      requires Valid() && stack != []
      modifies this`current, this`stack
      ensures old(current) <= current
      ensures Follows(r, S.FinallyOf(name, old(Rest()), old(stack)))
      decreases |tokens| - current, 7
    {
      hide Parser.Valid, Parser.Rest, S.BodyUntil, S.BranchLabel;
      var present := Match({FINALLY});
      if !present {
        return Ok(NoBody);
      }
      var line := BranchLabel(name);
      if line.Err? {
        return Err(line.code);
      }
      var body := BodyUntil({ENDTRY});
      r := if body.Ok? then Ok(Body(body.value)) else Err(body.code);
    }

    // ---- Programs ----

    method TopStatement(seenOther: bool) returns (r: Result<Stmt>)
      requires Valid() && stack == [] && !AtAny({EOF})
      modifies this`current, this`stack
      ensures old(current) <= current && (r.Ok? ==> old(current) < current && stack == [])
      ensures Follows(r, P.TopStatement(old(Rest()), seenOther))
    {
      hide Parser.Valid, Parser.Rest, S.Statement, S.Unexpected, S.CloserKind;
      var t := Peek(0);
      if S.CloserKind(t.kind).Some? {
        var code := Unexpected();
        return Err(code);
      }
      r := Statement(true);
      if r.Ok? && r.value.ImportStmt? && seenOther {
        r := Err("E702");
      }
    }

    /** Stops at the first error. */
    method Parse() returns (r: Result<seq<Stmt>>)
      requires Valid() && stack == []
      modifies this`current, this`stack
      ensures r == P.Program(old(Rest()))
      ensures Valid() && (r.Ok? ==> stack == [])
    {
      hide Parser.Rest, Ended, P.TopStatement, S.Newlines;
      ghost var start := Rest();
      Newlines();
      var seenOther := false;
      r := Ok([]);
      while !AtAny({EOF})
        invariant Valid() && stack == [] && r.Ok?
        invariant P.Program(start) == P.ProgramFrom(r.value, seenOther, Rest())
        decreases |tokens| - current
      {
        var s := TopStatement(seenOther);
        if s.Err? {
          return Err(s.code);
        }
        seenOther := seenOther || !s.value.ImportStmt?;
        r := Ok(r.value + [s.value]);
        Newlines();
      }
    }

    /** Goes on after an error: every iteration moves the cursor, and none leaves a block open. */
    method ParseWithDiagnostics() returns (statements: seq<Stmt>, diagnostics: seq<string>)
      requires Valid() && stack == []
      modifies this`current, this`stack
      ensures P.Report(statements, diagnostics) == P.ProgramReport(old(Rest()))
      ensures Valid() && stack == [] && AtAny({EOF})
    {
      hide P.TopStatement, P.Recovered, S.Newlines;
      ghost var start := Rest();
      Newlines();
      statements, diagnostics := [], [];
      var seenOther := false;
      while !AtAny({EOF})
        invariant Valid() && stack == [] && !AtAny({NEWLINE})
        invariant P.ProgramReport(start) == P.ReportFrom(statements, diagnostics, seenOther, Rest())
        decreases |tokens| - current
      {
        var from := current;
        var s := TopStatement(seenOther);
        if s.Ok? {
          seenOther := seenOther || !s.value.ImportStmt?;
          statements := statements + [s.value];
          Newlines();
        } else {
          diagnostics := diagnostics + [s.code];
          Recover(from);
        }
      }
    }

    method Recover(from: nat)
      requires Valid() && from <= current && tokens[from].kind !in {NEWLINE, EOF}
      modifies this`current, this`stack
      ensures Valid() && from < current && stack == [] && !AtAny({NEWLINE})
      ensures Rest() == P.Recovered(tokens[from..], old(Rest()), old(stack))
    {
      if stack != [] {
        PastBlock(stack[0].kind, from);
      } else if tokens[from].kind == SEP {
        PastBlock("SEP", from);
      } else {
        PastLine(tokens[from].line);
      }
      stack := [];
    }

    method PastBlock(kind: string, from: nat)
      requires Valid() && from <= current && tokens[from].kind != EOF
      modifies this`current
      ensures Valid() && old(current) <= current
      ensures Rest() == P.PastBlock(kind, tokens[from..], old(Rest()))
    {
      hide S.CloserKind;
      ghost var start := Rest();
      while !AtAny({EOF})
        invariant Valid() && from <= old(current) <= current
        invariant P.PastBlock(kind, tokens[from..], start) == P.PastBlock(kind, tokens[from..], Rest())
        decreases |tokens| - current
      {
        var t := Peek(0);
        if S.CloserKind(t.kind) == Some(kind) {
          var _ := Advance();
          ToLineEnd();
          Newlines();
          return;
        }
        if from < current && t.kind == SEP && t.line > tokens[from].line {
          return;
        }
        var _ := Advance();
      }
    }

    method ToLineEnd()
      requires Valid()
      modifies this`current
      ensures Valid() && old(current) <= current && Rest() == P.ToLineEnd(old(Rest()))
    {
      ghost var start := Rest();
      while !AtAny({NEWLINE, EOF})
        invariant Valid() && old(current) <= current && P.ToLineEnd(start) == P.ToLineEnd(Rest())
        decreases |tokens| - current
      {
        var _ := Advance();
      }
    }

    method PastLine(line: nat)
      requires Valid()
      modifies this`current
      ensures Valid() && old(current) <= current && Rest() == P.PastLine(old(Rest()), line)
    {
      ghost var start := Rest();
      while !AtAny({NEWLINE, EOF}) && tokens[current].line == line
        invariant Valid() && old(current) <= current && P.PastLine(start, line) == P.PastLine(Rest(), line)
        decreases |tokens| - current
      {
        var _ := Advance();
      }
      Newlines();
    }
  }

  /** Skipping empty lines before a body makes no difference. */
  lemma {:induction false} NewlinesTwice(endings: set<Kind>, body: seq<Stmt>, toks: seq<Token>, stack: S.Stack)
    requires Ended(toks) && stack != [] && EOF !in endings
    ensures S.BodyUntil(endings, body, toks, stack) == S.BodyUntil(endings, body, S.Newlines(toks), stack)
  {
    hide S.Statement, S.Unexpected;
  }
}
