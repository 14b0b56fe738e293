/** The parts of the front end together, from source text on. */
module Frontend {
  import opened Ast
  import opened Tokens
  import L = LexicalRules
  import Lexer = Scanners
  import S = Statements
  import P = Programs
  import D = BlockDiscipline
  import X = Expressions
  import G = Grammar
  import Completeness = ExpressionCompleteness
  import StatementGrammar
  import StatementSoundness
  import StatementYield
  import Spellings

  /** A source that the lexer and the parser accept. */
  ghost predicate Accepted(source: string, u: L.Unicode) {
    && L.Sensible(u)
    && var tokens := Lexer.TokensOfSource(source, u);
       tokens.Ok? && Ended(tokens.value) && P.Program(tokens.value).Ok?
  }

  /** The block lines of an accepted source are well nested, and each SEP-local label is opened
      at most once in its SEP. Nothing is asked of the source but that it is accepted. */
  lemma {:induction false} AcceptedSourcesAreNested(source: string, u: L.Unicode)
    requires Accepted(source, u)
    ensures var events := D.Events(SymbolsOf(Lexer.TokensOfSource(source, u).value));
            && D.Replay(events, []) == Some([])
            && forall i: nat, j: nat, name: string ::
                 i < j && D.OpensAt(events, i, name) && D.OpensAt(events, j, name) && S.IsLocal(name) ==>
                 exists k :: i < k < j && D.ClosesSep(events, k)
  {
    hide P.Program, D.Replay, D.Events, WellFormed;
    var tokens := Lexer.TokensOfSource(source, u).value;
    Lexer.ScannedSourcesAreWellFormed(source, u);
    assert D.Clean(tokens);
    D.AcceptedProgramsReplay(tokens);
    var events := D.Events(SymbolsOf(tokens));
    forall i: nat, j: nat, name: string |
      i < j && D.OpensAt(events, i, name) && D.OpensAt(events, j, name) && S.IsLocal(name)
      ensures exists k :: i < k < j && D.ClosesSep(events, k)
    {
      D.LocalLabelsOpenOnce(events, name, i, j);
    }
  }

  /** The program of an accepted source is well formed. Its written form has the lines of the source,
      and parsing it gives the program again. */
  lemma {:induction false} AcceptedSourcesAreWellFormed(source: string, u: L.Unicode)
    requires Accepted(source, u)
    ensures var program := P.Program(Lexer.TokensOfSource(source, u).value).value;
            && StatementGrammar.IsProgram(program, false)
            && Ended(StatementGrammar.ProgramTokens(program))
            && P.Program(StatementGrammar.ProgramTokens(program)) == Ok(program)
            && StatementYield.SameLines(Lexer.TokensOfSource(source, u).value, StatementGrammar.ProgramTokens(program))
  {
    hide P.Program, WellFormed, StatementGrammar.IsProgram, StatementGrammar.ProgramTokens, StatementYield.SameLines;
    var tokens := Lexer.TokensOfSource(source, u).value;
    Lexer.ScannedSourcesAreWellFormed(source, u);
    assert D.Clean(tokens);
    StatementSoundness.SoundProgram(tokens);
    StatementSoundness.WritingAgainKeepsTheProgram(tokens);
    StatementYield.AcceptedIsWritten(tokens);
  }

  const COMPOUNDS := {"+", "-", "*", "/", "//", "%", "**"}

  lemma CompoundSpellings(operator: string)
    requires operator in COMPOUNDS
    ensures operator + "=" == if operator == "+" then "+=" else if operator == "-" then "-="
                              else if operator == "*" then "*=" else if operator == "/" then "/="
                              else if operator == "//" then "//=" else if operator == "%" then "%=" else "**="
  {
  }

  /** A compound assignment is spelled as its operator with an equals sign behind it, and nothing else is. */
  lemma CompoundsAreSpelled(kind: Kind, operator: string)
    ensures S.CompoundOperator(kind) == Some(operator)
       <==> operator in COMPOUNDS && Spelling(kind) == Some(operator + "=")
  {
    if operator in COMPOUNDS { CompoundSpellings(operator); }
    if S.CompoundOperator(kind).Some? { CompoundSpellings(S.CompoundOperator(kind).value); }
  }

  /** In the tokens of a source, `x op= e` is read as `x = x op e`, for each of the operators. */
  lemma CompoundsAreWrittenOut(toks: seq<Token>, operator: string)
    requires D.Clean(toks) && |toks| > 2 && At(toks, {IDENTIFIER}) && IsOperator(toks[1].kind)
    requires operator in COMPOUNDS && toks[1].lexeme == operator + "="
    ensures S.IsAssignment(toks[1].kind)
    ensures var line := S.ExpressionLine(toks[2..]);
            S.AssignmentOf(toks).Done? ==>
              line.Done? && S.AssignmentOf(toks).value
              == Assignment(toks[0].lexeme, BinaryExpr(VariableExpr(toks[0].lexeme), operator, line.value))
  {
    assert WellFormed(toks[1]);
    Spellings.OperatorsAreShort(toks[1].kind);
    CompoundsAreSpelled(toks[1].kind, operator);
    hide S.ExpressionLine, Spelling, WellFormed;
  }

  /** `front` is a keyword in any letter case, and the parser keeps its spelling. The list operations
      go by the spelling: see `StoreLaws.SelectorPicks`. */
  lemma {:induction false} FrontIsReadInAnyCase(word: string)
    requires Lower(word) == "front"
    ensures L.KeywordKind(word) == FRONT
    ensures X.Expression([G.Word(FRONT, word), G.Word(EOF, "")]) == Done(PositionSelectorExpr(word), [G.Word(EOF, "")])
  {
    hide X.Expression, L.KeywordKind;
    FrontIsAKeyword(word);
    var e := PositionSelectorExpr(word);
    assert G.TokensOf(e) == [G.Word(FRONT, word)];
    Completeness.CompleteExpression(e, [G.Word(EOF, "")]);
    assert [G.Word(FRONT, word)] + [G.Word(EOF, "")] == [G.Word(FRONT, word), G.Word(EOF, "")];
  }

  lemma {:induction false} FrontIsAKeyword(word: string)
    requires Lower(word) == "front"
    ensures L.KeywordKind(word) == FRONT
  {
    LettersOfFront(word);
    hide Lower;
  }

  lemma {:induction false} LettersOfFront(word: string)
    requires Lower(word) == "front"
    ensures |word| == 5 && word[0] in {'f', 'F'} && word[1] in {'r', 'R'} && word[2] in {'o', 'O'}
    ensures word != "front" ==> L.WordKind(word) == IDENTIFIER
  {
    assert |word| == |Lower(word)|;
    assert LowerChar(word[0]) == Lower(word)[0] && LowerChar(word[1]) == Lower(word)[1]
        && LowerChar(word[2]) == Lower(word)[2];
    assert LowerChar(word[3]) == Lower(word)[3] && LowerChar(word[4]) == Lower(word)[4];
  }
}
