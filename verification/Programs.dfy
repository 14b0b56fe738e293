/** Whole programs: the parser that stops at the first error, and the one that recovers and
    goes on to report further errors. */
module Programs {
  import opened Ast
  import opened Tokens
  import opened Statements

  /** One top-level statement; imports come before everything else. */
  function TopStatement(toks: seq<Token>, seenOther: bool): (r: Step<Stmt>)
    requires Ended(toks) && !At(toks, {EOF})
    ensures Proper(toks, [], r, 0, true)
  {
    if AtCloser(toks) then Bad(Unexpected(toks, []), toks, [])
    else
      var s := Statement(toks, [], true);
      if s.Good? && s.value.ImportStmt? && seenOther then Bad("E702", s.rest, s.stack) else s
  }

  /** The program that starts at `toks`, behind the statements that have been read already. */
  function ProgramFrom(statements: seq<Stmt>, seenOther: bool, toks: seq<Token>): (r: Result<seq<Stmt>>)
    requires Ended(toks)
    decreases |toks|
  {
    if At(toks, {EOF}) then Ok(statements)
    else
      var s := TopStatement(toks, seenOther);
      if s.Bad? then Err(s.code)
      else ProgramFrom(statements + [s.value], seenOther || !s.value.ImportStmt?, Newlines(s.rest))
  }

  /** `parse`: the program, or the code of the first error. */
  function Program(toks: seq<Token>): Result<seq<Stmt>>
    requires Ended(toks)
  {
    ProgramFrom([], false, Newlines(toks))
  }

  // ---- Recovery ----

  function ToLineEnd(toks: seq<Token>): (r: seq<Token>)
    requires Ended(toks)
    ensures Ended(r) && |r| <= |toks| && At(r, {NEWLINE, EOF})
  {
    if At(toks, {NEWLINE, EOF}) then toks else ToLineEnd(toks[1..])
  }

  function PastLine(toks: seq<Token>, line: nat): (r: seq<Token>)
    requires Ended(toks)
    ensures Ended(r) && |r| <= |toks| && !At(r, {NEWLINE})
    ensures !At(toks, {NEWLINE, EOF}) && toks[0].line == line ==> |r| < |toks|
  {
    if At(toks, {NEWLINE, EOF}) || toks[0].line != line then Newlines(toks) else PastLine(toks[1..], line)
  }

  /** Behind the next closer of this kind of block, or at the next SEP on a later line. */
  function PastBlock(kind: string, start: seq<Token>, toks: seq<Token>): (r: seq<Token>)
    requires Ended(toks) && Ended(start) && |toks| <= |start|
    ensures Ended(r) && |r| <= |toks| && !At(r, {NEWLINE})
    ensures |toks| == |start| && !At(toks, {EOF}) ==> |r| < |start|
    ensures At(r, {EOF}) || |r| < |start|
    decreases |toks|
  {
    if At(toks, {EOF}) then toks
    else if CloserKind(toks[0].kind) == Some(kind) then Newlines(ToLineEnd(toks[1..]))
    else if |toks| < |start| && At(toks, {SEP}) && toks[0].line > start[0].line then toks
    else PastBlock(kind, start, toks[1..])
  }

  /** Where parsing goes on after an error at `toks` in a statement that began at `start`. Of the
      stack only the outermost block matters. */
  function Recovered(start: seq<Token>, toks: seq<Token>, stack: Stack): (r: seq<Token>)
    requires Ended(start) && !At(start, {NEWLINE, EOF}) && Ended(toks) && |toks| <= |start|
    ensures Ended(r) && |r| < |start| && !At(r, {NEWLINE})
  {
    var here := if |toks| < |start| then toks else start;
    if stack != [] then PastBlock(stack[0].kind, start, here)
    else if At(start, {SEP}) then PastBlock("SEP", start, here)
    else PastLine(here, start[0].line)
  }

  datatype Report = Report(statements: seq<Stmt>, diagnostics: seq<string>)

  function ReportFrom(statements: seq<Stmt>, diagnostics: seq<string>, seenOther: bool, toks: seq<Token>): (r: Report)
    requires Ended(toks) && !At(toks, {NEWLINE})
    decreases |toks|
  {
    if At(toks, {EOF}) then Report(statements, diagnostics)
    else
      var s := TopStatement(toks, seenOther);
      if s.Good? then
        ReportFrom(statements + [s.value], diagnostics, seenOther || !s.value.ImportStmt?, Newlines(s.rest))
      else ReportFrom(statements, diagnostics + [s.code], seenOther, Recovered(toks, s.rest, s.stack))
  }

  /** `parse_with_diagnostics`: the statements that could be parsed, and all errors. */
  function ProgramReport(toks: seq<Token>): Report
    requires Ended(toks)
  {
    ReportFrom([], [], false, Newlines(toks))
  }

  // ---- The two parsers agree ----

  /** Errors found so far are never lost, and statements neither. */
  lemma {:induction false} ReportKeeps(statements: seq<Stmt>, diagnostics: seq<string>, seenOther: bool,
                                       toks: seq<Token>)
    requires Ended(toks) && !At(toks, {NEWLINE})
    ensures var r := ReportFrom(statements, diagnostics, seenOther, toks);
            statements <= r.statements && diagnostics <= r.diagnostics
    decreases |toks|
  {
    hide TopStatement, Recovered;
    if !At(toks, {EOF}) {
      var s := TopStatement(toks, seenOther);
      if s.Good? {
        ReportKeeps(statements + [s.value], diagnostics, seenOther || !s.value.ImportStmt?, Newlines(s.rest));
      } else {
        ReportKeeps(statements, diagnostics + [s.code], seenOther, Recovered(toks, s.rest, s.stack));
      }
    }
  }

  lemma {:induction false} ReportAgreesFrom(statements: seq<Stmt>, seenOther: bool, toks: seq<Token>)
    requires Ended(toks) && !At(toks, {NEWLINE})
    ensures var p := ProgramFrom(statements, seenOther, toks);
            var r := ReportFrom(statements, [], seenOther, toks);
            match p
            case Ok(program) => r == Report(program, [])
            case Err(code) => r.diagnostics != [] && r.diagnostics[0] == code
    decreases |toks|
  {
    hide TopStatement, Recovered;
    if !At(toks, {EOF}) {
      var s := TopStatement(toks, seenOther);
      if s.Good? {
        ReportAgreesFrom(statements + [s.value], seenOther || !s.value.ImportStmt?, Newlines(s.rest));
      } else {
        assert [] + [s.code] == [s.code];
        ReportKeeps(statements, [s.code], seenOther, Recovered(toks, s.rest, s.stack));
      }
    }
  }

  /** No diagnostics exactly when the strict parser accepts, and then the same program;
      otherwise the first diagnostic is the error of the strict parser. */
  lemma {:induction false} ReportAgrees(toks: seq<Token>)
    requires Ended(toks)
    ensures var p := Program(toks);
            var r := ProgramReport(toks);
            && (r.diagnostics == [] <==> p.Ok?)
            && (p.Ok? ==> r.statements == p.value)
            && (p.Err? ==> r.diagnostics[0] == p.code)
  {
    hide ProgramFrom, ReportFrom;
    ReportAgreesFrom([], false, Newlines(toks));
  }
}
