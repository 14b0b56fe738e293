/** The statement parser as functions: what each method of the parser reads, builds and leaves
    behind, including the stack of open blocks. */
module Statements {
  import opened Ast
  import opened TypeSpecs
  import opened Tokens
  import E = Expressions

  /** An open block. `used` holds the SEP-local labels that a SEP has opened so far; it stays
      empty for all other kinds of blocks. */
  datatype Block = Block(kind: string, name: string, used: set<string>)

  type Stack = seq<Block>

  /** The outcome of a step of the parser: in both cases with the tokens and open blocks left. */
  datatype Step<T> = Good(value: T, rest: seq<Token>, stack: Stack) | Bad(code: string, rest: seq<Token>, stack: Stack)
  {
    function Retype<U>(): Step<U>
      requires Bad?
    {
      Bad(code, rest, stack)
    }
  }

  function Lift<T>(p: Parsed<T>, stack: Stack): Step<T> {
    match p
    case Done(value, rest) => Good(value, rest, stack)
    case Fail(code, rest) => Bad(code, rest, stack)
  }

  /** How far a step may have gone. Steps that succeed leave as many blocks open as they found,
      or `extra` more. */
  ghost predicate Proper<T>(toks: seq<Token>, stack: Stack, r: Step<T>, extra: nat, consumed: bool) {
    && Ended(r.rest) && |r.rest| <= |toks|
    && (r.Good? ==> |r.stack| == |stack| + extra && (consumed ==> |r.rest| < |toks|))
  }

  // ---- Small steps ----

  function Newlines(toks: seq<Token>): (r: seq<Token>)
    requires Ended(toks)
    ensures Ended(r) && |r| <= |toks| && !At(r, {NEWLINE})
  {
    if At(toks, {NEWLINE}) then Newlines(toks[1..]) else toks
  }

  /** The end of a line may also be the end of the file. */
  function LineEnd(toks: seq<Token>): (r: Parsed<()>)
    requires Ended(toks)
    ensures Ended(r.rest) && |r.rest| <= |toks|
  {
    if At(toks, {NEWLINE}) then Done((), toks[1..])
    else if At(toks, {EOF}) then Done((), toks)
    else Fail("E100", toks)
  }

  function Consume(kinds: set<Kind>, toks: seq<Token>): (r: Parsed<Token>)
    requires Ended(toks) && EOF !in kinds
    ensures Ended(r.rest) && |r.rest| <= |toks| && (r.Done? ==> |r.rest| < |toks|)
  {
    if At(toks, kinds) then Done(toks[0], toks[1..]) else Fail("E100", toks)
  }

  /** A name that is introduced: `system` and `pin` are reserved. */
  function Binding(toks: seq<Token>): (r: Parsed<string>)
    requires Ended(toks)
    ensures Ended(r.rest) && |r.rest| <= |toks| && (r.Done? ==> |r.rest| < |toks|)
  {
    if !At(toks, {IDENTIFIER}) then Fail("E100", toks)
    else if toks[0].lexeme in {"system", "pin"} then Fail("E215", toks[1..])
    else Done(toks[0].lexeme, toks[1..])
  }

  /** An expression and the end of its line. */
  function ExpressionLine(toks: seq<Token>): (r: Parsed<Expr>)
    requires Ended(toks)
    ensures Ended(r.rest) && |r.rest| <= |toks| && (r.Done? ==> |r.rest| < |toks|)
  {
    var value := E.Expression(toks);
    if value.Fail? then value
    else
      var end := LineEnd(value.rest);
      if end.Fail? then end.Retype() else Done(value.value, end.rest)
  }

  // ---- Declared types ----

  predicate Declarable(name: string) {
    name in {"number", "string", "boolean", "list", "object", "bytes",
             "datetime", "local_datetime", "timezone", "duration", "secret",
             "regex_match_result", "exec_result", "http_profile", "http_response",
             "http_auth", "oauth_token", "cookie_jar", "mail_address",
             "mail_message", "mail_sender", "mail_send_result", "xml_document",
             "xml_element", "db_connection", "board", "pin", "embedded_bus",
             "ip_address", "network_interface", "tcp_connection", "udp_socket",
             "dhcp_server", "dns_server"}
  }

  function TypeName(t: Token): string {
    if t.kind == LIST then "list" else if t.kind == OBJECT then "object" else if t.kind == IDENTIFIER then t.lexeme
    else ""
  }

  predicate StartsTypedDeclaration(toks: seq<Token>)
    requires toks != []
  {
    && Declarable(TypeName(toks[0]))
    && Peek(toks, 1).kind == (if TypeName(toks[0]) == "list" then LESS else IDENTIFIER)
  }

  lemma NamesOfElements(name: string)
    requires Declarable(name) && name != "list"
    ensures name != "VOID" && name != "EMPTYS"
  {
  }

  function DeclaredTypeOf(toks: seq<Token>): (r: Parsed<DeclaredType>)
    requires Ended(toks) && At(toks, {IDENTIFIER, OBJECT, LIST})
    ensures Ended(r.rest) && |r.rest| < |toks|
    ensures r.Done? ==> Declarable(r.value.name)
  {
    var name := TypeName(toks[0]);
    if !Declarable(name) then Fail("E123", toks[1..])
    else if name != "list" then Done(DeclaredType(name, Unknown), toks[1..])
    else if !At(toks[1..], {LESS}) then Fail("E100", toks[1..])
    else if !At(toks[2..], {IDENTIFIER, OBJECT, LIST}) then Fail("E100", toks[2..])
    else
      var element := DeclaredTypeOf(toks[2..]);
      if element.Fail? then element
      else if !At(element.rest, {GREATER}) then Fail("E100", element.rest)
      else
        NamesOfDeclared(element.value.name);
        var spec := if element.value.name == "list" then ListOf(element.value.element) else Scalar(element.value.name);
        Done(DeclaredType(name, spec), element.rest[1..])
  }

  lemma NamesOfDeclared(name: string)
    requires Declarable(name)
    ensures name != "list" ==> name != "VOID" && name != "EMPTYS"
  {
    if name != "list" { NamesOfElements(name); }
  }

  // ---- Labels and the stack ----

  predicate IsDigit(c: char) { '0' <= c <= '9' }

  /** `_` positive decimal number without leading zeros `_`. */
  predicate IsLocal(name: string) {
    && |name| >= 3 && name[0] == '_' && name[|name| - 1] == '_'
    && '1' <= name[1] <= '9' && forall i | 1 <= i < |name| - 1 :: IsDigit(name[i])
  }

  predicate LooksLocal(name: string) {
    |name| > 0 && name[0] == '_' && (name[|name| - 1] == '_' || (|name| > 1 && IsDigit(name[1])))
  }

  /** Blocks of the same kinds and labels; only the used SEP-local labels may differ. */
  predicate SameBlocks(a: Stack, b: Stack) {
    |a| == |b| && forall i | 0 <= i < |a| :: a[i].kind == b[i].kind && a[i].name == b[i].name
  }

  predicate IsOpen(stack: Stack, name: string) {
    exists i | 0 <= i < |stack| :: stack[i].name == name
  }

  /** The innermost open SEP, or -1. */
  function InnermostSep(stack: Stack): (i: int)
    ensures -1 <= i < |stack|
    ensures i >= 0 ==> stack[i].kind == "SEP"
    ensures forall j | i < j < |stack| :: stack[j].kind != "SEP"
  {
    if stack == [] then -1
    else if stack[|stack| - 1].kind == "SEP" then |stack| - 1
    else InnermostSep(stack[..|stack| - 1])
  }

  /** The stack with one more block, or the code of the error. */
  function Push(kind: string, name: string, stack: Stack): (r: Result<Stack>)
    ensures r.Ok? ==> |r.value| == |stack| + 1
  {
    if LooksLocal(name) && !IsLocal(name) then Err("E101")
    else if IsOpen(stack, name) then Err("E109")
    else if !IsLocal(name) then Ok(stack + [Block(kind, name, {})])
    else
      var sep := InnermostSep(stack);
      if sep < 0 || name in stack[sep].used then Err("E109")
      else Ok(stack[sep := stack[sep].(used := stack[sep].used + {name})] + [Block(kind, name, {})])
  }

  /** The colon and the label that open a block, to the end of the line. */
  function OpeningLabel(kind: string, toks: seq<Token>, stack: Stack): (r: Step<string>)
    requires Ended(toks)
    ensures Proper(toks, stack, r, 1, true)
  {
    var colon := Consume({COLON}, toks);
    if colon.Fail? then Bad(colon.code, colon.rest, stack)
    else
      var name := Consume({IDENTIFIER, LABEL}, colon.rest);
      if name.Fail? then Bad(name.code, name.rest, stack)
      else Opened(kind, name.value.lexeme, name.rest, stack)
  }

  /** The end of the line of an opener, where the block is pushed. */
  function Opened(kind: string, name: string, toks: seq<Token>, stack: Stack): (r: Step<string>)
    requires Ended(toks)
    ensures Proper(toks, stack, r, 1, false)
  {
    var end := LineEnd(toks);
    if end.Fail? then Bad(end.code, end.rest, stack)
    else
      var pushed := Push(kind, name, stack);
      if pushed.Err? then Bad(pushed.code, end.rest, stack) else Good(name, end.rest, pushed.value)
  }

  /** The colon and label behind elseif, else, catch or finally. */
  function BranchLabel(name: string, toks: seq<Token>): (r: Parsed<()>)
    requires Ended(toks)
    ensures Ended(r.rest) && |r.rest| <= |toks| && (r.Done? ==> |r.rest| < |toks|)
  {
    var colon := Consume({COLON}, toks);
    if colon.Fail? then colon.Retype()
    else
      var actual := Consume({IDENTIFIER, LABEL}, colon.rest);
      if actual.Fail? then actual.Retype()
      else if actual.value.lexeme != name then Fail("E104", actual.rest)
      else LineEnd(actual.rest)
  }

  predicate HasBlock(stack: Stack, kind: string, name: string) {
    exists i | 0 <= i < |stack| :: stack[i].kind == kind && stack[i].name == name
  }

  /** The closer of the innermost block. */
  function Close(closer: Kind, kind: string, toks: seq<Token>, stack: Stack): (r: Step<()>)
    requires Ended(toks) && stack != [] && closer != EOF
    ensures Ended(r.rest) && |r.rest| <= |toks| && (r.Good? ==> |r.rest| < |toks| && r.stack == stack[..|stack| - 1])
    ensures r.Bad? ==> r.stack == stack
  {
    var top := stack[|stack| - 1];
    var end := Consume({closer}, toks);
    if end.Fail? then Bad(end.code, end.rest, stack)
    else
      var colon := Consume({COLON}, end.rest);
      if colon.Fail? then Bad(colon.code, colon.rest, stack)
      else
        var name := Consume({IDENTIFIER, LABEL}, colon.rest);
        if name.Fail? then Bad(name.code, name.rest, stack)
        else if name.value.lexeme != top.name then
          Bad(if HasBlock(stack[..|stack| - 1], kind, name.value.lexeme) then "E105" else "E104", name.rest, stack)
        else
          var line := LineEnd(name.rest);
          if line.Fail? then Bad(line.code, line.rest, stack) else Good((), line.rest, stack[..|stack| - 1])
  }

  function CloserKind(kind: Kind): Option<string> {
    if kind == ENDIF then Some("if")
    else if kind == ENDWHILE then Some("while")
    else if kind == ENDFOR then Some("for")
    else if kind == END_SEP then Some("SEP")
    else if kind == END_OBJECT then Some("object")
    else if kind == END_LIST then Some("list")
    else if kind == ENDTRY then Some("try")
    else if kind == END_ERROR then Some("error")
    else if kind == END_HTTP_ROUTE then Some("http_route")
    else if kind == END_TRANSACTION then Some("transaction")
    else None
  }

  predicate AtCloser(toks: seq<Token>)
    requires toks != []
  {
    CloserKind(toks[0].kind).Some?
  }

  function CloserLabel(toks: seq<Token>): string
    requires toks != []
  {
    if Peek(toks, 1).kind == COLON && Peek(toks, 2).kind in {IDENTIFIER, LABEL} then Peek(toks, 2).lexeme
    else "<missing>"
  }

  /** The code for a closer that has no business where it stands. */
  function Unexpected(toks: seq<Token>, stack: Stack): string
    requires toks != [] && AtCloser(toks)
  {
    var kind, name := CloserKind(toks[0].kind).value, CloserLabel(toks);
    if stack != [] && stack[|stack| - 1].name == name && stack[|stack| - 1].kind != kind then "E105"
    else if HasBlock(stack, kind, name) then "E105"
    else "E107"
  }

  // ---- Statements ----

  predicate IsAssignment(kind: Kind) {
    kind in {EQUAL, PLUS_EQUAL, MINUS_EQUAL, STAR_EQUAL, SLASH_EQUAL, FLOOR_DIV_EQUAL, PERCENT_EQUAL, POWER_EQUAL}
  }

  /** The operator of a compound assignment. */
  function CompoundOperator(kind: Kind): Option<string> {
    if kind == PLUS_EQUAL then Some("+")
    else if kind == MINUS_EQUAL then Some("-")
    else if kind == STAR_EQUAL then Some("*")
    else if kind == SLASH_EQUAL then Some("/")
    else if kind == FLOOR_DIV_EQUAL then Some("//")
    else if kind == PERCENT_EQUAL then Some("%")
    else if kind == POWER_EQUAL then Some("**")
    else None
  }

  /** What follows the bracket that closes the current index, if it closes on this line. */
  function BehindBracket(toks: seq<Token>, depth: nat): (r: Option<seq<Token>>)
    requires Ended(toks)
    ensures r.Some? ==> Ended(r.value) && |r.value| < |toks|
    decreases |toks|
  {
    if At(toks, {NEWLINE, EOF}) then None
    else if At(toks, {LBRACKET}) then BehindBracket(toks[1..], depth + 1)
    else if At(toks, {RBRACKET}) then if depth <= 1 then Some(toks[1..]) else BehindBracket(toks[1..], depth - 1)
    else BehindBracket(toks[1..], depth)
  }

  predicate EqualBehindIndexes(toks: seq<Token>)
    requires Ended(toks)
    decreases |toks|
  {
    if !At(toks, {LBRACKET}) then At(toks, {EQUAL})
    else
      var behind := BehindBracket(toks, 0);
      behind.Some? && EqualBehindIndexes(behind.value)
  }

  predicate StartsIndexAssignment(toks: seq<Token>)
    requires Ended(toks)
  {
    At(toks, {IDENTIFIER}) && At(toks[1..], {LBRACKET}) && EqualBehindIndexes(toks[1..])
  }

  function Indexes(indexes: seq<Expr>, toks: seq<Token>): (r: Parsed<seq<Expr>>)
    requires Ended(toks)
    ensures Ended(r.rest) && |r.rest| <= |toks|
    decreases |toks|
  {
    if !At(toks, {LBRACKET}) then Done(indexes, toks)
    else
      var index := E.Expression(toks[1..]);
      if index.Fail? then index.Retype()
      else
        var close := Consume({RBRACKET}, index.rest);
        if close.Fail? then close.Retype() else Indexes(indexes + [index.value], close.rest)
  }

  function IndexAssignmentOf(toks: seq<Token>): (r: Parsed<Stmt>)
    requires Ended(toks)
    ensures Ended(r.rest) && |r.rest| <= |toks| && (r.Done? ==> |r.rest| < |toks|)
  {
    var name := Binding(toks);
    if name.Fail? then name.Retype()
    else
      var indexes := Indexes([], name.rest);
      if indexes.Fail? then indexes.Retype()
      else
        var equal := Consume({EQUAL}, indexes.rest);
        if equal.Fail? then equal.Retype()
        else
          var value := ExpressionLine(equal.rest);
          if value.Fail? then value.Retype()
          else Done(IndexAssignment(name.value, indexes.value, value.value), value.rest)
  }

  /** A declaration with a type. In an object block the field must have an initial value too,
      under another error code. */
  function TypedDeclarationOf(toks: seq<Token>, constant: bool, missing: string): (r: Parsed<Stmt>)
    requires Ended(toks) && StartsTypedDeclaration(toks)
    ensures Ended(r.rest) && |r.rest| <= |toks| && (r.Done? ==> |r.rest| < |toks| && r.value.TypedDeclaration?)
  {
    TypedStart(toks);
    var declared := DeclaredTypeOf(toks);
    if declared.Fail? then declared.Retype()
    else
      var name := Binding(declared.rest);
      if name.Fail? then name.Retype()
      else if !At(name.rest, {EQUAL}) then Fail(missing, name.rest)
      else
        var value := ExpressionLine(name.rest[1..]);
        if value.Fail? then value.Retype()
        else Done(TypedDeclaration(name.value, declared.value, value.value, constant), value.rest)
  }

  lemma TypedStart(toks: seq<Token>)
    requires toks != [] && StartsTypedDeclaration(toks)
    ensures At(toks, {IDENTIFIER, OBJECT, LIST})
  {
  }

  function ConstantOf(toks: seq<Token>): (r: Parsed<Stmt>)
    requires Ended(toks)
    ensures Ended(r.rest) && |r.rest| <= |toks| && (r.Done? ==> |r.rest| < |toks|)
  {
    if StartsTypedDeclaration(toks) then TypedDeclarationOf(toks, true, "E124")
    else
      var name := Binding(toks);
      if name.Fail? then name.Retype()
      else
        var equal := Consume({EQUAL}, name.rest);
        if equal.Fail? then equal.Retype()
        else
          var value := ExpressionLine(equal.rest);
          if value.Fail? then value.Retype() else Done(ConstDeclaration(name.value, value.value), value.rest)
  }

  function AssignmentOf(toks: seq<Token>): (r: Parsed<Stmt>)
    requires Ended(toks) && At(toks, {IDENTIFIER}) && IsAssignment(Peek(toks, 1).kind)
    ensures Ended(r.rest) && |r.rest| <= |toks| && (r.Done? ==> |r.rest| < |toks|)
  {
    var name := Binding(toks);
    if name.Fail? then name.Retype()
    else
      var operator := CompoundOperator(toks[1].kind);
      var value := ExpressionLine(toks[2..]);
      if value.Fail? then value.Retype()
      else if operator.None? then Done(Assignment(name.value, value.value), value.rest)
      else Done(Assignment(name.value, BinaryExpr(VariableExpr(name.value), operator.value, value.value)), value.rest)
  }

  function ImportOf(toks: seq<Token>): (r: Parsed<Stmt>)
    requires Ended(toks)
    ensures Ended(r.rest) && |r.rest| <= |toks| && (r.Done? ==> |r.rest| < |toks| && r.value.ImportStmt?)
  {
    var path := Consume({STRING}, toks);
    if path.Fail? then path.Retype()
    else
      var asWord := Consume({AS}, path.rest);
      if asWord.Fail? then asWord.Retype()
      else
        var alias := Binding(asWord.rest);
        if alias.Fail? then alias.Retype()
        else
          var end := LineEnd(alias.rest);
          if end.Fail? then end.Retype()
          else Done(ImportStmt(if path.value.literal.StringLit? then path.value.literal.s else "", alias.value),
                    end.rest)
  }

  /** A statement that is one line, from behind its keyword. */
  function Keyworded(keyword: Kind, toks: seq<Token>): (r: Parsed<Stmt>)
    requires Ended(toks) && keyword in {THROW, PRINT, PRINT_ERROR, RETURN}
    ensures Ended(r.rest) && |r.rest| <= |toks|
  {
    if keyword == RETURN && At(toks, {NEWLINE, EOF}) then
      var end := LineEnd(toks);
      if end.Fail? then end.Retype() else Done(ReturnStmt(None), end.rest)
    else
      var value := ExpressionLine(toks);
      if value.Fail? then value.Retype()
      else
        Done(if keyword == THROW then ThrowStmt(value.value)
             else if keyword == PRINT then PrintStmt(value.value)
             else if keyword == PRINT_ERROR then PrintErrorStmt(value.value)
             else ReturnStmt(Some(value.value)), value.rest)
  }

  predicate OnlyInside(kind: Kind) { kind in {TRY, TRANSACTION, THROW, IF, WHILE, FOR, RETURN} }

  predicate IsBlockOpener(kind: Kind) { kind in {OBJECT, LIST, TRY, TRANSACTION, IF, WHILE, FOR} }

  function Statement(toks: seq<Token>, stack: Stack, top: bool): (r: Step<Stmt>)
    requires Ended(toks) && !At(toks, {EOF})
    ensures Proper(toks, stack, r, 0, true)
    decreases |toks|, 5
  {
    var kind, next := toks[0].kind, Peek(toks, 1);
    if kind == TAG then Bad(if InnermostSep(stack) >= 0 then "E217" else "E216", toks, stack)
    else if kind == COLON && next.kind == IDENTIFIER && next.lexeme == "end" then Bad("E122", toks, stack)
    else if kind in {IMPORT, ERROR, HTTP_ROUTE} then
      if !top then Bad(if kind == IMPORT then "E703" else if kind == ERROR then "E120" else "E890", toks, stack)
      else if kind == IMPORT then Lift(ImportOf(toks[1..]), stack)
      else if kind == ERROR then ErrorDeclaration(toks, stack)
      else HttpRoute(toks, stack)
    else if kind == IDENTIFIER && toks[0].lexeme == "function" then Bad("E100", toks, stack)
    else if kind == SEP then if !top then Bad("E110", toks, stack) else SepOf(toks, stack)
    else if StartsTypedDeclaration(toks) then Lift(TypedDeclarationOf(toks, false, "E124"), stack)
    else if Declarable(TypeName(toks[0])) && next.kind == IDENTIFIER then Bad("E124", toks, stack)
    else if OnlyInside(kind) && top then Bad("E110", toks, stack)
    else if IsBlockOpener(kind) then BlockStatement(toks, stack)
    else SimpleStatement(toks, stack, top)
  }

  /** A statement that is one line. */
  function SimpleStatement(toks: seq<Token>, stack: Stack, top: bool): (r: Step<Stmt>)
    requires Ended(toks) && !At(toks, {EOF})
    ensures Proper(toks, stack, r, 0, true)
    ensures r.Good? ==> r.stack == stack
  {
    var kind, next := toks[0].kind, Peek(toks, 1);
    if kind in {THROW, PRINT, PRINT_ERROR, RETURN} then Lift(Keyworded(kind, toks[1..]), stack)
    else if kind == CONST then Lift(ConstantOf(toks[1..]), stack)
    else if StartsIndexAssignment(toks) then Lift(IndexAssignmentOf(toks), stack)
    else if kind == IDENTIFIER && IsAssignment(next.kind) then Lift(AssignmentOf(toks), stack)
    else if kind == IDENTIFIER && next.kind == DOT && Peek(toks, 2).kind == IDENTIFIER
       && Peek(toks, 3).kind == EQUAL then
      Bad("E214", toks, stack)
    else if top && !(kind == IDENTIFIER && toks[0].lexeme in {"http_host", "http_static"}) then Bad("E110", toks, stack)
    else
      var e := ExpressionLine(toks);
      if e.Fail? then Bad(e.code, e.rest, stack) else Good(ExpressionStmt(e.value), e.rest, stack)
  }

  /** A statement that opens a block and closes it again. */
  function BlockStatement(toks: seq<Token>, stack: Stack): (r: Step<Stmt>)
    requires Ended(toks) && IsBlockOpener(toks[0].kind)
    ensures Proper(toks, stack, r, 0, true)
    decreases |toks|, 4
  {
    var kind := toks[0].kind;
    if kind == OBJECT then ObjectOf(toks, stack)
    else if kind == LIST then ListBlockOf(toks, stack)
    else if kind == TRY then TryOf(toks, stack)
    else if kind == TRANSACTION then TransactionOf(toks, stack)
    else if kind == IF then IfOf(toks, stack)
    else if kind == WHILE then WhileOf(toks, stack)
    else ForOf(toks, stack)
  }

  /** Statements up to one of the tokens that end the body. */
  function BodyUntil(endings: set<Kind>, body: seq<Stmt>, toks: seq<Token>, stack: Stack): (r: Step<seq<Stmt>>)
    requires Ended(toks) && stack != [] && EOF !in endings
    ensures Proper(toks, stack, r, 0, false)
    ensures r.Good? ==> At(r.rest, endings)
    decreases |toks|, 6
  {
    var here := Newlines(toks);
    if At(here, endings) then Good(body, here, stack)
    else if At(here, {EOF}) then Bad("E106", here, stack)
    else if AtCloser(here) then Bad(Unexpected(here, stack), here, stack)
    else
      var s := Statement(here, stack, false);
      if s.Bad? then s.Retype() else BodyUntil(endings, body + [s.value], s.rest, s.stack)
  }

  function ErrorDeclaration(toks: seq<Token>, stack: Stack): (r: Step<Stmt>)
    requires Ended(toks) && At(toks, {ERROR})
    ensures Proper(toks, stack, r, 0, true)
  {
    var colon := Consume({COLON}, toks[1..]);
    if colon.Fail? then Bad(colon.code, colon.rest, stack)
    else
      var name := Consume({IDENTIFIER}, colon.rest);
      if name.Fail? then Bad(name.code, name.rest, stack)
      else if !EndsWithError(name.value.lexeme) then Bad("E121", name.rest, stack)
      else
        var start := Opened("error", name.value.lexeme, name.rest, stack);
        if start.Bad? then start.Retype()
        else
          var end := Close(END_ERROR, "error", Newlines(start.rest), start.stack);
          if end.Bad? then end.Retype() else Good(ErrorDecl(start.value), end.rest, end.stack)
  }

  predicate EndsWithError(name: string) { |name| >= 6 && name[|name| - 6..] == "_error" }

  function HttpRoute(toks: seq<Token>, stack: Stack): (r: Step<Stmt>)
    requires Ended(toks) && At(toks, {HTTP_ROUTE})
    ensures Proper(toks, stack, r, 0, true)
    decreases |toks|, 4
  {
    var verb := Consume({IDENTIFIER}, toks[1..]);
    if verb.Fail? then Bad(verb.code, verb.rest, stack)
    else if verb.value.lexeme !in {"GET", "HEAD", "POST", "PUT", "PATCH", "DELETE"} then Bad("E891", verb.rest, stack)
    else
      var path := Consume({STRING}, verb.rest);
      if path.Fail? then Bad(path.code, path.rest, stack)
      else
        var text := if path.value.literal.StringLit? then path.value.literal.s else "";
        if !IsRoute(text) then Bad("E892", path.rest, stack)
        else
          var start := OpeningLabel("http_route", path.rest, stack);
          if start.Bad? then start.Retype()
          else
            var body := BodyUntil({END_HTTP_ROUTE}, [], start.rest, start.stack);
            if body.Bad? then body.Retype()
            else
              var end := Close(END_HTTP_ROUTE, "http_route", body.rest, body.stack);
              if end.Bad? then end.Retype()
              else Good(HttpRouteDecl(start.value, verb.value.lexeme, text, body.value), end.rest, end.stack)
  }

  predicate IsRoute(path: string) { path != "" && path[0] == '/' && '?' !in path && '#' !in path }

  // ---- SEPs ----

  function SepOf(toks: seq<Token>, stack: Stack): (r: Step<Stmt>)
    requires Ended(toks) && At(toks, {SEP})
    ensures Proper(toks, stack, r, 0, true)
    decreases |toks|, 4
  {
    var colon := Consume({COLON}, toks[1..]);
    if colon.Fail? then Bad(colon.code, colon.rest, stack)
    else
      var name := Binding(colon.rest);
      if name.Fail? then Bad(name.code, name.rest, stack)
      else
        var parameters := ParameterList(name.rest);
        if parameters.Fail? then Bad(parameters.code, parameters.rest, stack)
        else
          var start := Opened("SEP", name.value, parameters.rest, stack);
          if start.Bad? then start.Retype()
          else
            var tags := Tags([], Newlines(start.rest));
            if tags.Fail? then Bad(tags.code, tags.rest, start.stack)
            else
              var body := BodyUntil({END_SEP}, [], tags.rest, start.stack);
              if body.Bad? then body.Retype()
              else
                var end := Close(END_SEP, "SEP", body.rest, body.stack);
                if end.Bad? then end.Retype()
                else Good(LogicDecl(Logic(name.value, parameters.value, tags.value, body.value)), end.rest, end.stack)
  }

  /** The parameters, if there is a parenthesis. */
  function ParameterList(toks: seq<Token>): (r: Parsed<seq<Parameter>>)
    requires Ended(toks)
    ensures Ended(r.rest) && |r.rest| <= |toks|
  {
    if !At(toks, {LPAREN}) then Done([], toks)
    else if At(toks[1..], {RPAREN}) then Done([], toks[2..])
    else Parameters([], toks[1..])
  }

  predicate HasParameter(parameters: seq<Parameter>, name: string) {
    exists i | 0 <= i < |parameters| :: parameters[i].name == name
  }

  function OneParameter(parameters: seq<Parameter>, toks: seq<Token>): (r: Parsed<seq<Parameter>>)
    requires Ended(toks)
    ensures Ended(r.rest) && |r.rest| <= |toks| && (r.Done? ==> |r.rest| < |toks|)
  {
    var name := Binding(toks);
    if name.Fail? then name.Retype()
    else if HasParameter(parameters, name.value) then Fail("E112", name.rest)
    else if !At(name.rest, {COLON}) then Done(parameters + [Parameter(name.value, None)], name.rest)
    else if !Declarable(TypeName(name.rest[1])) then Fail("E123", name.rest[1..])
    else
      NamedStart(name.rest[1..]);
      var declared := DeclaredTypeOf(name.rest[1..]);
      if declared.Fail? then declared.Retype()
      else Done(parameters + [Parameter(name.value, Some(declared.value))], declared.rest)
  }

  lemma NamedStart(toks: seq<Token>)
    requires toks != [] && Declarable(TypeName(toks[0]))
    ensures At(toks, {IDENTIFIER, OBJECT, LIST})
  {
  }

  function Parameters(parameters: seq<Parameter>, toks: seq<Token>): (r: Parsed<seq<Parameter>>)
    requires Ended(toks)
    ensures Ended(r.rest) && |r.rest| <= |toks|
    decreases |toks|
  {
    var one := OneParameter(parameters, toks);
    if one.Fail? then one
    else if At(one.rest, {COMMA}) then Parameters(one.value, one.rest[1..])
    else ParametersEnd(one.value, one.rest)
  }

  function ParametersEnd(parameters: seq<Parameter>, toks: seq<Token>): (r: Parsed<seq<Parameter>>)
    requires Ended(toks)
    ensures Ended(r.rest) && |r.rest| <= |toks|
  {
    var close := Consume({RPAREN}, toks);
    if close.Fail? then close.Retype() else Done(parameters, close.rest)
  }

  function Tags(tags: seq<string>, toks: seq<Token>): (r: Parsed<seq<string>>)
    requires Ended(toks)
    ensures Ended(r.rest) && |r.rest| <= |toks|
    decreases |toks|
  {
    if !At(toks, {TAG}) then Done(tags, toks)
    else if toks[0].lexeme in tags then Fail("E218", toks[1..])
    else
      var end := LineEnd(toks[1..]);
      if end.Fail? then end.Retype() else Tags(tags + [toks[0].lexeme], Newlines(end.rest))
  }

  // ---- Data blocks ----

  function EntryName(entry: Entry): string {
    match entry
    case FieldEntry(name, _, _) => name
    case BlockEntry(block) => if block.ObjectBlock? || block.ListBlock? then block.name else ""
  }

  predicate HasEntry(entries: seq<Entry>, name: string) {
    exists i | 0 <= i < |entries| :: EntryName(entries[i]) == name
  }

  /** The colon and name behind the keyword of a data block, to the end of the line. */
  function OpeningName(kind: string, toks: seq<Token>, stack: Stack): (r: Step<string>)
    requires Ended(toks)
    ensures Proper(toks, stack, r, 1, true)
  {
    var colon := Consume({COLON}, toks);
    if colon.Fail? then Bad(colon.code, colon.rest, stack)
    else
      var name := Binding(colon.rest);
      if name.Fail? then Bad(name.code, name.rest, stack) else Opened(kind, name.value, name.rest, stack)
  }

  function ObjectOf(toks: seq<Token>, stack: Stack): (r: Step<Stmt>)
    requires Ended(toks) && At(toks, {OBJECT})
    ensures Proper(toks, stack, r, 0, true)
    decreases |toks|, 3
  {
    var start := OpeningName("object", toks[1..], stack);
    if start.Bad? then start.Retype()
    else
      var entries := Entries([], Newlines(start.rest), start.stack);
      if entries.Bad? then entries.Retype()
      else
        var end := Close(END_OBJECT, "object", entries.rest, entries.stack);
        if end.Bad? then end.Retype() else Good(ObjectBlock(start.value, entries.value), end.rest, end.stack)
  }

  function FieldOf(toks: seq<Token>): (r: Parsed<Entry>)
    requires Ended(toks) && At(toks, {IDENTIFIER}) && Peek(toks, 1).kind == EQUAL
    ensures Ended(r.rest) && |r.rest| <= |toks| && (r.Done? ==> |r.rest| < |toks|)
  {
    var value := ExpressionLine(toks[2..]);
    if value.Fail? then value.Retype() else Done(FieldEntry(toks[0].lexeme, None, value.value), value.rest)
  }

  function TypedField(toks: seq<Token>): (r: Parsed<Entry>)
    requires Ended(toks) && StartsTypedDeclaration(toks)
    ensures Ended(r.rest) && |r.rest| <= |toks| && (r.Done? ==> |r.rest| < |toks|)
  {
    var field := TypedDeclarationOf(toks, false, "E100");
    if field.Fail? then field.Retype()
    else Done(FieldEntry(field.value.name, Some(field.value.declared), field.value.value), field.rest)
  }

  function EntryOf(toks: seq<Token>, stack: Stack): (r: Step<Entry>)
    requires Ended(toks)
    ensures Proper(toks, stack, r, 0, true)
    decreases |toks|, 4
  {
    if StartsTypedDeclaration(toks) then Lift(TypedField(toks), stack)
    else if At(toks, {OBJECT, LIST}) then
      var block := if At(toks, {OBJECT}) then ObjectOf(toks, stack) else ListBlockOf(toks, stack);
      if block.Bad? then block.Retype() else Good(BlockEntry(block.value), block.rest, block.stack)
    else if At(toks, {IDENTIFIER}) && Peek(toks, 1).kind == EQUAL then Lift(FieldOf(toks), stack)
    else Bad("E115", toks, stack)
  }

  function Entries(entries: seq<Entry>, toks: seq<Token>, stack: Stack): (r: Step<seq<Entry>>)
    requires Ended(toks) && stack != []
    ensures Proper(toks, stack, r, 0, false)
    decreases |toks|, 5
  {
    if At(toks, {END_OBJECT}) then Good(entries, toks, stack)
    else if At(toks, {EOF}) then Bad("E106", toks, stack)
    else if AtCloser(toks) then Bad(Unexpected(toks, stack), toks, stack)
    else
      var entry := EntryOf(toks, stack);
      if entry.Bad? then entry.Retype()
      else if HasEntry(entries, EntryName(entry.value)) then Bad("E116", entry.rest, entry.stack)
      else Entries(entries + [entry.value], Newlines(entry.rest), entry.stack)
  }

  function ListBlockOf(toks: seq<Token>, stack: Stack): (r: Step<Stmt>)
    requires Ended(toks) && At(toks, {LIST})
    ensures Proper(toks, stack, r, 0, true)
  {
    var start := OpeningName("list", toks[1..], stack);
    if start.Bad? then start.Retype()
    else
      var elements := ListLines([], Newlines(start.rest), start.stack);
      if elements.Bad? then elements.Retype()
      else
        var end := Close(END_LIST, "list", elements.rest, elements.stack);
        if end.Bad? then end.Retype() else Good(ListBlock(start.value, elements.value), end.rest, end.stack)
  }

  function ListLines(elements: seq<Expr>, toks: seq<Token>, stack: Stack): (r: Step<seq<Expr>>)
    requires Ended(toks) && stack != []
    ensures Proper(toks, stack, r, 0, false)
    decreases |toks|
  {
    if At(toks, {END_LIST}) then Good(elements, toks, stack)
    else if At(toks, {EOF}) then Bad("E106", toks, stack)
    else if AtCloser(toks) then Bad(Unexpected(toks, stack), toks, stack)
    else
      var element := ExpressionLine(toks);
      if element.Fail? then Bad(element.code, element.rest, stack)
      else ListLines(elements + [element.value], Newlines(element.rest), stack)
  }

  // ---- Control blocks ----

  function WhileOf(toks: seq<Token>, stack: Stack): (r: Step<Stmt>)
    requires Ended(toks) && At(toks, {WHILE})
    ensures Proper(toks, stack, r, 0, true)
    decreases |toks|, 3
  {
    var condition := E.Expression(toks[1..]);
    if condition.Fail? then Bad(condition.code, condition.rest, stack)
    else
      var start := OpeningLabel("while", condition.rest, stack);
      if start.Bad? then start.Retype()
      else
        var body := BodyUntil({ENDWHILE}, [], start.rest, start.stack);
        if body.Bad? then body.Retype()
        else
          var end := Close(ENDWHILE, "while", body.rest, body.stack);
          if end.Bad? then end.Retype() else Good(WhileStmt(start.value, condition.value, body.value), end.rest,
                                                  end.stack)
  }

  function TransactionOf(toks: seq<Token>, stack: Stack): (r: Step<Stmt>)
    requires Ended(toks) && At(toks, {TRANSACTION})
    ensures Proper(toks, stack, r, 0, true)
    decreases |toks|, 3
  {
    var connection := E.Expression(toks[1..]);
    if connection.Fail? then Bad(connection.code, connection.rest, stack)
    else
      var start := OpeningLabel("transaction", connection.rest, stack);
      if start.Bad? then start.Retype()
      else
        var body := BodyUntil({END_TRANSACTION}, [], start.rest, start.stack);
        if body.Bad? then body.Retype()
        else
          var end := Close(END_TRANSACTION, "transaction", body.rest, body.stack);
          if end.Bad? then end.Retype()
          else Good(TransactionStmt(start.value, connection.value, body.value), end.rest, end.stack)
  }

  function ForOf(toks: seq<Token>, stack: Stack): (r: Step<Stmt>)
    requires Ended(toks) && At(toks, {FOR})
    ensures Proper(toks, stack, r, 0, true)
    decreases |toks|, 3
  {
    var variable := Binding(toks[1..]);
    if variable.Fail? then Bad(variable.code, variable.rest, stack)
    else
      var inWord := Consume({IN}, variable.rest);
      if inWord.Fail? then Bad(inWord.code, inWord.rest, stack)
      else
        var iterable := E.Expression(inWord.rest);
        if iterable.Fail? then Bad(iterable.code, iterable.rest, stack)
        else
          var start := OpeningLabel("for", iterable.rest, stack);
          if start.Bad? then start.Retype()
          else
            var body := BodyUntil({ENDFOR}, [], start.rest, start.stack);
            if body.Bad? then body.Retype()
            else
              var end := Close(ENDFOR, "for", body.rest, body.stack);
              if end.Bad? then end.Retype()
              else Good(ForStmt(start.value, variable.value, iterable.value, body.value), end.rest, end.stack)
  }

  function IfOf(toks: seq<Token>, stack: Stack): (r: Step<Stmt>)
    requires Ended(toks) && At(toks, {IF})
    ensures Proper(toks, stack, r, 0, true)
    decreases |toks|, 3
  {
    var condition := E.Expression(toks[1..]);
    if condition.Fail? then Bad(condition.code, condition.rest, stack)
    else
      var start := OpeningLabel("if", condition.rest, stack);
      if start.Bad? then start.Retype()
      else
        var branches := Branches(start.value, [], condition.value, start.rest, start.stack);
        if branches.Bad? then branches.Retype()
        else
          var end := Close(ENDIF, "if", branches.rest, branches.stack);
          if end.Bad? then end.Retype()
          else Good(IfStmt(start.value, branches.value.0, branches.value.1), end.rest, end.stack)
  }

  /** The branches of an if, from the body that belongs to `condition`. */
  function Branches(name: string, branches: seq<IfBranch>, condition: Expr, toks: seq<Token>, stack: Stack):
    (r: Step<(seq<IfBranch>, OptionalBody)>)
    requires Ended(toks) && stack != []
    ensures Proper(toks, stack, r, 0, false)
    decreases |toks|, 8
  {
    var body := BodyUntil({ELSEIF, ELSE, ENDIF}, [], toks, stack);
    if body.Bad? then body.Retype()
    else
      var done := branches + [IfBranch(condition, body.value)];
      if At(body.rest, {ELSEIF}) then
        var next := E.Expression(body.rest[1..]);
        if next.Fail? then Bad(next.code, next.rest, body.stack)
        else
          var line := BranchLabel(name, next.rest);
          if line.Fail? then Bad(line.code, line.rest, body.stack)
          else Branches(name, done, next.value, line.rest, body.stack)
      else LastBranch(name, done, body.rest, body.stack)
  }

  /** The else branch, if there is one. Nothing may follow it. */
  function LastBranch(name: string, branches: seq<IfBranch>, toks: seq<Token>, stack: Stack):
    (r: Step<(seq<IfBranch>, OptionalBody)>)
    requires Ended(toks) && stack != []
    ensures Proper(toks, stack, r, 0, false)
    decreases |toks|, 7
  {
    if !At(toks, {ELSE}) then Good((branches, NoBody), toks, stack)
    else
      var line := BranchLabel(name, toks[1..]);
      if line.Fail? then Bad(line.code, line.rest, stack)
      else
        var last := BodyUntil({ELSEIF, ELSE, ENDIF}, [], line.rest, stack);
        if last.Bad? then last.Retype()
        else if At(last.rest, {ELSEIF, ELSE}) then Bad("E108", last.rest, last.stack)
        else Good((branches, Body(last.value)), last.rest, last.stack)
  }

  function TryOf(toks: seq<Token>, stack: Stack): (r: Step<Stmt>)
    requires Ended(toks) && At(toks, {TRY})
    ensures Proper(toks, stack, r, 0, true)
    decreases |toks|, 3
  {
    var start := OpeningLabel("try", toks[1..], stack);
    if start.Bad? then start.Retype()
    else
      var body := BodyUntil({CATCH, FINALLY, ENDTRY}, [], start.rest, start.stack);
      if body.Bad? then body.Retype()
      else
        var catches := Catches(start.value, [], body.rest, body.stack);
        if catches.Bad? then catches.Retype()
        else
          var lastBody := FinallyOf(start.value, catches.rest, catches.stack);
          if lastBody.Bad? then lastBody.Retype()
          else
            var end := Close(ENDTRY, "try", lastBody.rest, lastBody.stack);
            if end.Bad? then end.Retype()
            else if catches.value == [] && lastBody.value.NoBody? then Bad("E119", end.rest, end.stack)
            else Good(TryStmt(start.value, body.value, catches.value, lastBody.value), end.rest, end.stack)
  }

  predicate Catching(catches: seq<CatchBranch>, category: string) {
    exists i | 0 <= i < |catches| :: catches[i].category == category
  }

  function Catches(name: string, catches: seq<CatchBranch>, toks: seq<Token>, stack: Stack): (r: Step<seq<CatchBranch>>)
    requires Ended(toks) && stack != []
    ensures Proper(toks, stack, r, 0, false)
    decreases |toks|, 7
  {
    if !At(toks, {CATCH}) then Good(catches, toks, stack)
    else
      var category := Consume({IDENTIFIER}, toks[1..]);
      if category.Fail? then Bad(category.code, category.rest, stack)
      else if Catching(catches, category.value.lexeme) then Bad("E117", category.rest, stack)
      else if Catching(catches, "any") then Bad("E118", category.rest, stack)
      else
        var line := BranchLabel(name, category.rest);
        if line.Fail? then Bad(line.code, line.rest, stack)
        else
          var body := BodyUntil({CATCH, FINALLY, ENDTRY}, [], line.rest, stack);
          if body.Bad? then body.Retype()
          else Catches(name, catches + [CatchBranch(category.value.lexeme, body.value)], body.rest, body.stack)
  }

  function FinallyOf(name: string, toks: seq<Token>, stack: Stack): (r: Step<OptionalBody>)
    requires Ended(toks) && stack != []
    ensures Proper(toks, stack, r, 0, false)
    decreases |toks|, 7
  {
    if !At(toks, {FINALLY}) then Good(NoBody, toks, stack)
    else
      var line := BranchLabel(name, toks[1..]);
      if line.Fail? then Bad(line.code, line.rest, stack)
      else
        var body := BodyUntil({ENDTRY}, [], line.rest, stack);
        if body.Bad? then body.Retype() else Good(Body(body.value), body.rest, body.stack)
  }
}
