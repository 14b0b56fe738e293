/** Tokens as the lexer delivers them. Keywords are found in any letter case, and a token
    keeps the spelling that stood in the source. */
module Tokens {
  import opened Ast

  /** The token types are an enumeration; numbers keep its many members cheap to compare. */
  newtype Kind = k: int | 0 <= k < 79

  const SEP: Kind := 0
  const END_SEP: Kind := 1
  const IF: Kind := 2
  const ELSEIF: Kind := 3
  const ELSE: Kind := 4
  const ENDIF: Kind := 5
  const WHILE: Kind := 6
  const ENDWHILE: Kind := 7
  const FOR: Kind := 8
  const IN: Kind := 9
  const ENDFOR: Kind := 10
  const PRINT: Kind := 11
  const PRINT_ERROR: Kind := 12
  const RETURN: Kind := 13
  const CONST: Kind := 14
  const NOT: Kind := 15
  const IS: Kind := 16
  const OBJECT: Kind := 17
  const END_OBJECT: Kind := 18
  const LIST: Kind := 19
  const END_LIST: Kind := 20
  const IMPORT: Kind := 21
  const AS: Kind := 22
  const TRY: Kind := 23
  const CATCH: Kind := 24
  const FINALLY: Kind := 25
  const ENDTRY: Kind := 26
  const THROW: Kind := 27
  const ERROR: Kind := 28
  const END_ERROR: Kind := 29
  const HTTP_ROUTE: Kind := 30
  const END_HTTP_ROUTE: Kind := 31
  const TRANSACTION: Kind := 32
  const END_TRANSACTION: Kind := 33
  const TRUE: Kind := 34
  const FALSE: Kind := 35
  const EMPTY: Kind := 36
  const EMPTYS: Kind := 37
  const FRONT: Kind := 38
  const BACK: Kind := 39
  const IDENTIFIER: Kind := 40
  const LABEL: Kind := 41
  const TAG: Kind := 42
  const NUMBER: Kind := 43
  const STRING: Kind := 44
  const PLUS: Kind := 45
  const MINUS: Kind := 46
  const STAR: Kind := 47
  const SLASH: Kind := 48
  const PERCENT: Kind := 49
  const POWER: Kind := 50
  const FLOOR_DIV: Kind := 51
  const EMPTY_COALESCE: Kind := 52
  const EQUAL: Kind := 53
  const PLUS_EQUAL: Kind := 54
  const MINUS_EQUAL: Kind := 55
  const STAR_EQUAL: Kind := 56
  const SLASH_EQUAL: Kind := 57
  const FLOOR_DIV_EQUAL: Kind := 58
  const PERCENT_EQUAL: Kind := 59
  const POWER_EQUAL: Kind := 60
  const EQUAL_EQUAL: Kind := 61
  const BANG: Kind := 62
  const BANG_EQUAL: Kind := 63
  const GREATER: Kind := 64
  const GREATER_EQUAL: Kind := 65
  const LESS: Kind := 66
  const LESS_EQUAL: Kind := 67
  const AND: Kind := 68
  const OR: Kind := 69
  const LPAREN: Kind := 70
  const RPAREN: Kind := 71
  const LBRACKET: Kind := 72
  const RBRACKET: Kind := 73
  const COMMA: Kind := 74
  const COLON: Kind := 75
  const DOT: Kind := 76
  const NEWLINE: Kind := 77
  const EOF: Kind := 78

  /** Only literal tokens have a meaningful `literal`. */
  datatype Token = Token(kind: Kind, lexeme: string, literal: Literal, line: nat)

  function LowerChar(c: char): char {
    if 'A' <= c <= 'Z' then c - 'A' + 'a' else c
  }

  function Lower(s: string): string {
    seq(|s|, i requires 0 <= i < |s| => LowerChar(s[i]))
  }

  /** Operators and punctuation, as opposed to words, literals and line ends. */
  predicate IsOperator(kind: Kind) { PLUS <= kind <= DOT }

  predicate IsKeyword(kind: Kind) { SEP <= kind <= BACK }

  /** The spelling of the operator tokens; None for all others. */
  function Spelling(kind: Kind): Option<string> {
    if kind == PLUS then Some("+")
    else if kind == MINUS then Some("-")
    else if kind == STAR then Some("*")
    else if kind == SLASH then Some("/")
    else if kind == PERCENT then Some("%")
    else if kind == POWER then Some("**")
    else if kind == FLOOR_DIV then Some("//")
    else if kind == EMPTY_COALESCE then Some("??")
    else if kind == EQUAL_EQUAL then Some("==")
    else if kind == BANG then Some("!")
    else if kind == BANG_EQUAL then Some("!=")
    else if kind == GREATER then Some(">")
    else if kind == GREATER_EQUAL then Some(">=")
    else if kind == LESS then Some("<")
    else if kind == LESS_EQUAL then Some("<=")
    else if kind == AND then Some("&&")
    else if kind == OR then Some("||")
    else if kind == EQUAL then Some("=")
    else if kind == PLUS_EQUAL then Some("+=")
    else if kind == MINUS_EQUAL then Some("-=")
    else if kind == STAR_EQUAL then Some("*=")
    else if kind == SLASH_EQUAL then Some("/=")
    else if kind == FLOOR_DIV_EQUAL then Some("//=")
    else if kind == PERCENT_EQUAL then Some("%=")
    else if kind == POWER_EQUAL then Some("**=")
    else if kind == LPAREN then Some("(")
    else if kind == RPAREN then Some(")")
    else if kind == LBRACKET then Some("[")
    else if kind == RBRACKET then Some("]")
    else if kind == COMMA then Some(",")
    else if kind == COLON then Some(":")
    else if kind == DOT then Some(".")
    else None
  }

  /** The keywords, in the order of their kinds. */
  const KEYWORDS: seq<string> := [
    "SEP", "END_SEP", "if", "elseif", "else", "endif", "while", "endwhile", "for", "in", "endfor", "print",
    "print_error", "return", "const", "not", "is", "object", "end_object", "list", "end_list", "import", "as", "try",
    "catch", "finally", "endtry", "throw", "error", "end_error", "http_route", "end_http_route", "transaction",
    "end_transaction", "true", "false", "EMPTY", "EMPTYS", "front", "back"]

  /** Four keywords are spelled in capitals; the others in any letter case. */
  predicate IsCapital(kind: Kind) { kind in {SEP, END_SEP, EMPTY, EMPTYS} }

  predicate SpellsKeyword(word: string, kind: Kind)
    requires IsKeyword(kind)
  {
    (if IsCapital(kind) then word else Lower(word)) == KEYWORDS[kind as int]
  }

  predicate SpellsNoKeyword(word: string) { forall kind | IsKeyword(kind) :: !SpellsKeyword(word, kind) }

  /** What the lexer guarantees of a token. */
  predicate WellFormed(t: Token) {
    && (Spelling(t.kind).Some? ==> t.lexeme == Spelling(t.kind).value)
    && (IsKeyword(t.kind) ==> SpellsKeyword(t.lexeme, t.kind))
    && (t.kind == IDENTIFIER ==> SpellsNoKeyword(t.lexeme))
    && (t.kind == IN ==> Lower(t.lexeme) == "in")
    && (t.kind == NOT ==> Lower(t.lexeme) == "not")
    && (t.kind == FRONT ==> Lower(t.lexeme) == "front")
    && (t.kind == BACK ==> Lower(t.lexeme) == "back")
    && (t.kind == TRUE ==> t.literal == BoolLit(true))
    && (t.kind == FALSE ==> t.literal == BoolLit(false))
    && (t.kind == NUMBER ==> t.literal.IntLit? || t.literal.FloatLit?)
    && (t.kind == STRING ==> t.literal.StringLit?)
    && (t.kind == IDENTIFIER ==> t.lexeme != "list" && t.lexeme != "object")
  }

  /** A token list always ends with its only EOF token. */
  predicate Ended(toks: seq<Token>) {
    toks != [] && toks[|toks| - 1].kind == EOF
  }

  function Peek(toks: seq<Token>, offset: nat): Token
    requires toks != []
  {
    toks[if offset < |toks| then offset else |toks| - 1]
  }

  predicate At(toks: seq<Token>, kinds: set<Kind>)
    requires toks != []
  {
    toks[0].kind in kinds
  }

  /** A step of a parser: what it produced, or the code of the error; in both cases the
      tokens that it has not consumed. */
  datatype Parsed<T> = Done(value: T, rest: seq<Token>) | Fail(code: string, rest: seq<Token>)
  {
    function Retype<U>(): Parsed<U>
      requires Fail?
    {
      Fail(code, rest)
    }
  }

  // ---- Comparing tokens up to the spelling of keywords ----

  /** What the parser can tell of a token, apart from its position: its kind, the name of an
      identifier, label or tag, and the value of a literal. */
  datatype Symbol = Symbol(kind: Kind, name: string, literal: Literal)

  function SymbolOf(t: Token): Symbol {
    Symbol(t.kind,
           if t.kind in {IDENTIFIER, LABEL, TAG} then t.lexeme else "",
           if t.kind in {NUMBER, STRING, TRUE, FALSE} then t.literal else EmptyLit)
  }

  function SymbolsOf(toks: seq<Token>): seq<Symbol> {
    seq(|toks|, i requires 0 <= i < |toks| => SymbolOf(toks[i]))
  }

  lemma SymbolsOfConcat(a: seq<Token>, b: seq<Token>)
    ensures SymbolsOf(a + b) == SymbolsOf(a) + SymbolsOf(b)
  {
  }
}
