/** What becomes of a block that does not end with its own closer. */
module BlockErrors {
  import opened Ast
  import opened Tokens
  import opened Grammar
  import opened Statements
  import opened StatementGrammar
  import opened StatementCompleteness
  import E = Expressions

  /** The body of a block with its closer, as every block with one body is read. */
  function BlockFrom(closer: Kind, kind: string, toks: seq<Token>, stack: Stack): Step<seq<Stmt>>
    requires Ended(toks) && stack != [] && closer != EOF
  {
    var body := BodyUntil({closer}, [], toks, stack);
    if body.Bad? then body
    else
      var end := Close(closer, kind, body.rest, body.stack);
      if end.Bad? then end.Retype() else Good(body.value, end.rest, end.stack)
  }

  /** Well-formed statements are read one after the other, whatever stands behind them. */
  lemma {:induction false} ReadPrefix(endings: set<Kind>, before: seq<Stmt>, body: seq<Stmt>, rest: seq<Token>,
                                      stack: Stack)
    requires CheckedAll(body, stack).Some? && Ended(rest) && stack != []
    requires forall kind | kind in endings :: IsEnder(kind)
    ensures EOF !in endings && SameBlocks(stack, CheckedAll(body, stack).value)
    ensures BodyUntil(endings, before, WriteAll(body, rest), stack)
         == BodyUntil(endings, before + body, rest, CheckedAll(body, stack).value)
    decreases body
  {
    EofIsNoEnder();
    hide Checked, Write, Statement;
    if body == [] {
      assert before + body == before;
    } else {
      var more, next := WriteAll(body[1..], rest), Checked(body[0], stack, false).value;
      StatementBegins(body[0], more, stack, false);
      ReadStatement(body[0], more, stack, false);
      BlocksAreKept(body[0], stack, false);
      ReadPrefix(endings, before + [body[0]], body[1..], rest, next);
      assert (before + [body[0]]) + body[1..] == before + body;
      hide CloserKind, CheckedAll;
    }
  }

  lemma SameOpenBlocks(a: Stack, b: Stack)
    requires SameBlocks(a, b)
    ensures forall kind, name :: HasBlock(a, kind, name) <==> HasBlock(b, kind, name)
  {
    forall kind, name
      ensures HasBlock(a, kind, name) <==> HasBlock(b, kind, name)
    {
      if i :| 0 <= i < |a| && a[i].kind == kind && a[i].name == name { assert b[i].kind == kind && b[i].name == name; }
      if i :| 0 <= i < |b| && b[i].kind == kind && b[i].name == name { assert a[i].kind == kind && a[i].name == name; }
    }
  }

  lemma CloserParts(closer: Kind, name: string, rest: seq<Token>)
    requires Ended(rest) && IsEnder(closer)
    ensures var toks := WriteCloser(closer, name, rest);
            && Newlines(toks) == toks && toks[0].kind == closer && CloserLabel(toks) == name
            && toks[1..] == WriteLabel(name, rest)
  {
    EofIsNoEnder();
    var toks := WriteCloser(closer, name, rest);
    assert toks[1..] == WriteLabel(name, rest);
    LabelParts(name, rest);
    assert toks[1] == WriteLabel(name, rest)[0] && toks[2] == WriteLabel(name, rest)[1..][0];
  }

  lemma CloserKindsDiffer(a: Kind, b: Kind)
    requires CloserKind(a).Some? && CloserKind(a) == CloserKind(b)
    ensures a == b
  {
  }

  /** A closer with another label, behind the body of a block. */
  lemma WrongLabel(closer: Kind, kind: string, closing: string, rest: seq<Token>, stack: Stack)
    requires Ended(rest) && stack != [] && IsEnder(closer) && closer != EOF && stack[|stack| - 1].name != closing
    ensures var r := Close(closer, kind, WriteCloser(closer, closing, rest), stack);
            r.Bad? && r.code == if HasBlock(stack[..|stack| - 1], kind, closing) then "E105" else "E104"
  {
    hide WriteLabel;
    CloserParts(closer, closing, rest);
    LabelParts(closing, rest);
  }

  /** A closer of another kind, behind the body of a block. */
  lemma WrongKind(kind: string, name: string, found: Kind, closing: string, rest: seq<Token>, stack: Stack)
    requires Ended(rest) && CloserKind(found).Some? && CloserKind(found).value != kind
    requires stack != [] && stack[|stack| - 1].name == name && stack[|stack| - 1].kind == kind
    ensures var toks := WriteCloser(found, closing, rest);
            && toks != [] && AtCloser(toks)
            && Unexpected(toks, stack)
            == if closing == name || HasBlock(stack[..|stack| - 1], CloserKind(found).value, closing) then "E105"
               else "E107"
  {
    hide CloserKind, CloserLabel, WriteCloser;
    assert IsEnder(found);
    CloserParts(found, closing, rest);
    var other, last := CloserKind(found).value, |stack| - 1;
    assert HasBlock(stack, other, closing) <==> HasBlock(stack[..last], other, closing) by {
      assert forall i | 0 <= i < last :: stack[..last][i] == stack[i];
      if i :| 0 <= i < |stack| && stack[i].kind == other && stack[i].name == closing { assert i < last; }
    }
  }

  lemma AtTheEnd(closer: Kind, body: seq<Stmt>, found: Kind, closing: string, rest: seq<Token>, stack: Stack)
    requires CloserKind(closer).Some? && CloserKind(found).Some? && Ended(rest) && stack != [] && closer != EOF
    ensures var toks := WriteCloser(found, closing, rest);
            BodyUntil({closer}, body, toks, stack)
            == if found == closer then Good(body, toks, stack) else Bad(Unexpected(toks, stack), toks, stack)
  {
    hide CloserKind, WriteCloser, CloserLabel, Unexpected, Statement, Newlines;
    EofIsNoEnder();
    assert IsEnder(found);
    CloserParts(found, closing, rest);
  }

  /** The new block is the innermost one. */
  lemma Innermost(kind: string, name: string, body: seq<Stmt>, stack: Stack)
    requires Enter(kind, name, stack).Some? && CheckedAll(body, Enter(kind, name, stack).value).Some?
    ensures var inside := Enter(kind, name, stack).value;
            var after := CheckedAll(body, inside).value;
            && inside != [] && after != []
            && after[|after| - 1].kind == kind && after[|after| - 1].name == name
            && SameBlocks(stack, after[..|after| - 1])
  {
    BodyKeepsBlocks(kind, name, body, stack);
    var inside := Enter(kind, name, stack).value;
    assert inside[|inside| - 1].kind == kind;
    hide Enter, CheckedAll;
  }

  /** The error of a block with this closer and label at its end, if they are not its own: one that has the label of
      the block, or belongs to an open block around it, breaks the nesting (E105); another label of the same closer does
      not fit (E104), and another closer has no block (E107). */
  function Complaint(closer: Kind, name: string, found: Kind, closing: string, around: Stack): Option<string>
    requires CloserKind(found).Some?
  {
    if found == closer && closing == name then None
    else if closing == name || HasBlock(around, CloserKind(found).value, closing) then Some("E105")
    else Some(if found == closer then "E104" else "E107")
  }

  /** A block ends with its own closer and its own label only. */
  lemma {:induction false} BlocksEndWithTheirCloser(closer: Kind, kind: string, name: string, body: seq<Stmt>,
                                                    found: Kind, closing: string, rest: seq<Token>, stack: Stack)
    requires CloserKind(closer) == Some(kind) && CloserKind(found).Some? && Ended(rest)
    requires Enter(kind, name, stack).Some? && CheckedAll(body, Enter(kind, name, stack).value).Some?
    ensures closer != EOF && Enter(kind, name, stack).value != []
    ensures var toks := WriteAll(body, WriteCloser(found, closing, rest));
            var r, error := BlockFrom(closer, kind, toks, Enter(kind, name, stack).value),
                            Complaint(closer, name, found, closing, stack);
            if error.Some? then r.Bad? && r.code == error.value
            else r.Good? && r.value == body && r.rest == rest && SameBlocks(stack, r.stack)
  {
    Innermost(kind, name, body, stack);
    hide WriteAll, CheckedAll, Enter, BodyUntil, Close, WriteCloser, CloserKind, HasBlock, Unexpected;
    EofIsNoEnder();
    assert IsEnder(closer) && IsEnder(found);
    var inside, end := Enter(kind, name, stack).value, WriteCloser(found, closing, rest);
    ReadPrefix({closer}, [], body, end, inside);
    assert [] + body == body;
    var after := CheckedAll(body, inside).value;
    var outer := after[..|after| - 1];
    SameOpenBlocks(stack, outer);
    AtTheEnd(closer, body, found, closing, rest, after);
    if found != closer {
      if CloserKind(found).value == kind { CloserKindsDiffer(closer, found); }
      WrongKind(kind, name, found, closing, rest, after);
    } else if closing != name {
      WrongLabel(closer, kind, closing, rest, after);
    } else {
      ReadCloser(closer, kind, name, rest, after);
    }
  }

  /** A block that reaches the end of the file. */
  lemma UnclosedBlocks(closer: Kind, kind: string, name: string, body: seq<Stmt>, rest: seq<Token>, stack: Stack)
    requires CloserKind(closer) == Some(kind) && Ended(rest) && At(rest, {EOF})
    requires Enter(kind, name, stack).Some? && CheckedAll(body, Enter(kind, name, stack).value).Some?
    ensures closer != EOF && Enter(kind, name, stack).value != []
    ensures var r := BlockFrom(closer, kind, WriteAll(body, rest), Enter(kind, name, stack).value);
            r.Bad? && r.code == "E106"
  {
    Innermost(kind, name, body, stack);
    hide WriteAll, CheckedAll, Enter, Close, CloserKind, Statement, Unexpected;
    EofIsNoEnder();
    assert IsEnder(closer);
    ReadPrefix({closer}, [], body, rest, Enter(kind, name, stack).value);
  }

  /** A while loop is read as the block behind its condition. */
  lemma LoopIsBlock(name: string, e: Expr, inner: seq<Token>, stack: Stack)
    requires Ladder(e, false) && Enter("while", name, stack).Some? && Ended(inner)
    ensures Enter("while", name, stack).value != [] && At(WriteHead(WHILE, e, name, inner), {WHILE})
    ensures var block := BlockFrom(ENDWHILE, "while", inner, Enter("while", name, stack).value);
            var loop := WhileOf(WriteHead(WHILE, e, name, inner), stack);
            if block.Bad? then loop.Bad? && loop.code == block.code
            else loop == Good(WhileStmt(name, e, block.value), block.rest, block.stack)
  {
    hide BodyUntil, Close, Enter, E.Expression, Ladder, WriteLabel, OpeningLabel, WriteHead;
    EnterIsInside("while", name, stack);
    ReadHead(WHILE, e, name, inner);
    ReadLabel("while", name, inner, stack);
  }

  /** A while loop that is written with any closer and any label at its end. */
  lemma LoopsEndWithTheirCloser(name: string, e: Expr, body: seq<Stmt>, found: Kind, closing: string, rest: seq<Token>,
                                stack: Stack)
    requires Ladder(e, false) && Enter("while", name, stack).Some? && Ended(rest) && CloserKind(found).Some?
    requires CheckedAll(body, Enter("while", name, stack).value).Some?
    ensures var toks := WriteHead(WHILE, e, name, WriteAll(body, WriteCloser(found, closing, rest)));
            && At(toks, {WHILE})
            && var (r, error) := (WhileOf(toks, stack), Complaint(ENDWHILE, name, found, closing, stack));
               if error.Some? then r.Bad? && r.code == error.value
               else r.Good? && r.value == WhileStmt(name, e, body) && r.rest == rest && SameBlocks(stack, r.stack)
  {
    BlocksEndWithTheirCloser(ENDWHILE, "while", name, body, found, closing, rest, stack);
    LoopIsBlock(name, e, WriteAll(body, WriteCloser(found, closing, rest)), stack);
    hide WriteAll, BlockFrom, Enter, Ladder, WriteCloser, CheckedAll, WriteHead, Complaint, WhileOf, SameBlocks;
  }
}
