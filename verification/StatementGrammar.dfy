/** The written form of statements and programs, one line after the other, and which trees are
    well formed: their expressions obey the precedence ladder, and their names and labels the rules
    of the language. The SEP-local labels that a SEP has used are carried along. */
module StatementGrammar {
  import opened Ast
  import opened TypeSpecs
  import opened Tokens
  import opened Grammar
  import opened Statements

  // ---- Lines ----

  function NewLine(): Token { Word(NEWLINE, "") }

  function Text(path: string): Token { Token(STRING, "", StringLit(path), 0) }

  /** The name of a type: two of them are keywords. */
  function TypeToken(name: string): Token {
    Word(if name == "list" then LIST else if name == "object" then OBJECT else IDENTIFIER, name)
  }

  function WriteLine(e: Expr, rest: seq<Token>): (r: seq<Token>)
    ensures Ended(rest) ==> Ended(r) && |r| > |rest|
  {
    TokensOf(e) + ([NewLine()] + rest)
  }

  function WriteLabel(name: string, rest: seq<Token>): (r: seq<Token>)
    ensures Ended(rest) ==> Ended(r) && |r| > |rest|
  {
    [Word(COLON, ":"), Word(IDENTIFIER, name), NewLine()] + rest
  }

  function WriteCloser(closer: Kind, name: string, rest: seq<Token>): (r: seq<Token>)
    ensures Ended(rest) ==> Ended(r) && |r| > |rest|
  {
    [Word(closer, "")] + WriteLabel(name, rest)
  }

  function WriteValue(name: string, e: Expr, rest: seq<Token>): (r: seq<Token>)
    ensures Ended(rest) ==> Ended(r) && |r| > |rest|
  {
    [Word(IDENTIFIER, name), Word(EQUAL, "=")] + WriteLine(e, rest)
  }

  // ---- Types ----

  /** What can be written between angle brackets. */
  predicate IsElement(s: Spec) {
    match s
    case Unknown => false
    case Scalar(name) => Declarable(name)
    case ListOf(element) => IsElement(element)
  }

  predicate IsWritten(declared: DeclaredType) {
    && Declarable(declared.name)
    && if declared.name == "list" then IsElement(declared.element) else declared.element.Unknown?
  }

  function WriteElement(s: Spec, rest: seq<Token>): (r: seq<Token>)
    ensures Ended(rest) ==> Ended(r) && |r| >= |rest|
  {
    match s
    case Unknown => rest
    case Scalar(name) => [TypeToken(name)] + rest
    case ListOf(element) => [TypeToken("list"), Word(LESS, "<")] + WriteElement(element, [Word(GREATER, ">")] + rest)
  }

  function WriteType(declared: DeclaredType, rest: seq<Token>): (r: seq<Token>)
    ensures Ended(rest) ==> Ended(r) && |r| > |rest|
  {
    if declared.name != "list" then [TypeToken(declared.name)] + rest
    else [TypeToken("list"), Word(LESS, "<")] + WriteElement(declared.element, [Word(GREATER, ">")] + rest)
  }

  // ---- Names ----

  /** A name that may be introduced. */
  predicate IsFree(name: string) { name !in {"system", "pin"} }

  /** A name with which a statement may begin. */
  predicate IsTarget(name: string) { IsFree(name) && name != "function" }

  /** The name at the very beginning of an expression. */
  function LeftName(e: Expr): Option<string> {
    match e
    case VariableExpr(name) => Some(name)
    case CallExpr(callee, _, _) => Some(callee)
    case BinaryExpr(left, _, _) => LeftName(left)
    case EmptyTestExpr(operand, _) => LeftName(operand)
    case EmptysTestExpr(operand, _) => LeftName(operand)
    case IndexExpr(target, _) => LeftName(target)
    case MemberExpr(target, _) => LeftName(target)
    case MemberCallExpr(target, _, _, _) => LeftName(target)
    case _ => None
  }

  /** An expression that makes a statement. `list` is no name in source text. */
  predicate IsExpressionStatement(e: Expr, top: bool) {
    && Ladder(e, false)
    && LeftName(e) != Some("function") && LeftName(e) != Some("list")
    && (top ==> LeftName(e) in {Some("http_host"), Some("http_static")})
  }

  function CompoundKind(operator: string): Option<Kind> {
    if operator == "+" then Some(PLUS_EQUAL)
    else if operator == "-" then Some(MINUS_EQUAL)
    else if operator == "*" then Some(STAR_EQUAL)
    else if operator == "/" then Some(SLASH_EQUAL)
    else if operator == "//" then Some(FLOOR_DIV_EQUAL)
    else if operator == "%" then Some(PERCENT_EQUAL)
    else if operator == "**" then Some(POWER_EQUAL)
    else None
  }

  /** Applies an operator to the variable itself. */
  predicate IsCompound(name: string, e: Expr) {
    e.BinaryExpr? && e.left == VariableExpr(name) && CompoundKind(e.operator).Some? && Ladder(e.right, false)
  }

  /** An assigned value that needs no compound form is written as it is. */
  function WriteAssignment(name: string, e: Expr, rest: seq<Token>): (r: seq<Token>)
    ensures Ended(rest) ==> Ended(r) && |r| > |rest|
  {
    if Ladder(e, false) || !IsCompound(name, e) then WriteValue(name, e, rest)
    else [Word(IDENTIFIER, name), Word(CompoundKind(e.operator).value, "")] + WriteLine(e.right, rest)
  }

  // ---- Statements ----

  function WriteIndexes(indexes: seq<Expr>, rest: seq<Token>): (r: seq<Token>)
    ensures Ended(rest) ==> Ended(r) && |r| >= |rest|
  {
    if indexes == [] then rest
    else [Word(LBRACKET, "[")] + (TokensOf(indexes[0]) + ([Word(RBRACKET, "]")] + WriteIndexes(indexes[1..], rest)))
  }

  function WriteParameter(p: Parameter, rest: seq<Token>): (r: seq<Token>)
    ensures Ended(rest) ==> Ended(r) && |r| > |rest|
  {
    if p.declared.None? then [Word(IDENTIFIER, p.name)] + rest
    else [Word(IDENTIFIER, p.name), Word(COLON, ":")] + WriteType(p.declared.value, rest)
  }

  /** Parameters behind the opening parenthesis, if there are any. */
  function WriteParameters(parameters: seq<Parameter>, rest: seq<Token>): (r: seq<Token>)
    ensures Ended(rest) ==> Ended(r) && |r| >= |rest|
    decreases |parameters|, 1
  {
    if parameters == [] then [Word(RPAREN, ")")] + rest
    else WriteParameter(parameters[0], WriteMoreParameters(parameters[1..], rest))
  }

  function WriteMoreParameters(parameters: seq<Parameter>, rest: seq<Token>): (r: seq<Token>)
    ensures Ended(rest) ==> Ended(r) && |r| >= |rest|
    decreases |parameters|, 2
  {
    if parameters == [] then [Word(RPAREN, ")")] + rest else [Word(COMMA, ",")] + WriteParameters(parameters, rest)
  }

  function WriteTags(tags: seq<string>, rest: seq<Token>): (r: seq<Token>)
    ensures Ended(rest) ==> Ended(r) && |r| >= |rest|
  {
    if tags == [] then rest else [Word(TAG, tags[0]), NewLine()] + WriteTags(tags[1..], rest)
  }

  function WriteElements(elements: seq<Expr>, rest: seq<Token>): (r: seq<Token>)
    ensures Ended(rest) ==> Ended(r) && |r| >= |rest|
  {
    if elements == [] then rest else WriteLine(elements[0], WriteElements(elements[1..], rest))
  }

  function Write(s: Stmt, rest: seq<Token>): (r: seq<Token>)
    ensures Ended(rest) ==> Ended(r) && |r| >= |rest|
    decreases s, 2
  {
    match s
    case ObjectBlock(name, entries) =>
      [Word(OBJECT, "")] + WriteLabel(name, WriteEntries(entries, WriteCloser(END_OBJECT, name, rest)))
    case ListBlock(name, elements) =>
      [Word(LIST, "")] + WriteLabel(name, WriteElements(elements, WriteCloser(END_LIST, name, rest)))
    case IfStmt(_, _, _) => WriteControl(s, rest)
    case WhileStmt(_, _, _) => WriteControl(s, rest)
    case ForStmt(_, _, _, _) => WriteControl(s, rest)
    case TryStmt(_, _, _, _) => WriteControl(s, rest)
    case TransactionStmt(_, _, _) => WriteControl(s, rest)
    case ErrorDecl(name) => [Word(ERROR, "")] + WriteLabel(name, WriteCloser(END_ERROR, name, rest))
    case HttpRouteDecl(name, verb, path, body) =>
      [Word(HTTP_ROUTE, ""), Word(IDENTIFIER, verb), Text(path)]
      + WriteLabel(name, WriteAll(body, WriteCloser(END_HTTP_ROUTE, name, rest)))
    case LogicDecl(logic) => WriteLogic(logic, rest)
    case _ => WriteSimple(s, rest)
  }

  /** A statement that is one line. */
  function WriteSimple(s: Stmt, rest: seq<Token>): (r: seq<Token>)
    ensures Ended(rest) ==> Ended(r) && |r| >= |rest|
  {
    match s
    case PrintStmt(e) => [Word(PRINT, "")] + WriteLine(e, rest)
    case PrintErrorStmt(e) => [Word(PRINT_ERROR, "")] + WriteLine(e, rest)
    case ReturnStmt(result) =>
      if result.Some? then [Word(RETURN, "")] + WriteLine(result.value, rest) else [Word(RETURN, ""), NewLine()] + rest
    case ExpressionStmt(e) => WriteLine(e, rest)
    case ThrowStmt(e) => [Word(THROW, "")] + WriteLine(e, rest)
    case _ => WriteDefinition(s, rest)
  }

  /** A line that begins with the word import or const, or with the name or type of a variable. */
  function WriteDefinition(s: Stmt, rest: seq<Token>): (r: seq<Token>)
    ensures Ended(rest) ==> Ended(r) && |r| >= |rest|
  {
    match s
    case ImportStmt(path, alias) =>
      [Word(IMPORT, ""), Text(path), Word(AS, ""), Word(IDENTIFIER, alias), NewLine()] + rest
    case Assignment(name, e) => WriteAssignment(name, e, rest)
    case IndexAssignment(name, indexes, e) =>
      [Word(IDENTIFIER, name)] + WriteIndexes(indexes, [Word(EQUAL, "=")] + WriteLine(e, rest))
    case ConstDeclaration(name, e) => [Word(CONST, "")] + WriteValue(name, e, rest)
    case TypedDeclaration(name, declared, e, constant) =>
      (if constant then [Word(CONST, "")] else []) + WriteType(declared, WriteValue(name, e, rest))
    case _ => rest
  }

  /** A keyword, what stands between it and the label, the label, and what the block contains. */
  function WriteHead(keyword: Kind, e: Expr, name: string, rest: seq<Token>): (r: seq<Token>)
    ensures Ended(rest) ==> Ended(r) && |r| > |rest|
  {
    [Word(keyword, "")] + (TokensOf(e) + WriteLabel(name, rest))
  }

  function WriteControl(s: Stmt, rest: seq<Token>): (r: seq<Token>)
    ensures Ended(rest) ==> Ended(r) && |r| >= |rest|
    decreases s, 1
  {
    match s
    case IfStmt(name, branches, elseBody) =>
      if branches == [] then rest
      else
        WriteHead(IF, branches[0].condition, name, WriteAll(branches[0].body,
                  WriteBranches(name, branches[1..], WriteLast(ELSE, name, elseBody, WriteCloser(ENDIF, name, rest)))))
    case WhileStmt(name, condition, body) =>
      WriteHead(WHILE, condition, name, WriteAll(body, WriteCloser(ENDWHILE, name, rest)))
    case ForStmt(name, variable, iterable, body) =>
      [Word(FOR, ""), Word(IDENTIFIER, variable)]
      + WriteHead(IN, iterable, name, WriteAll(body, WriteCloser(ENDFOR, name, rest)))
    case TryStmt(name, body, catches, finallyBody) =>
      [Word(TRY, "")]
      + WriteLabel(name, WriteAll(body,
                   WriteCatches(name, catches, WriteLast(FINALLY, name, finallyBody, WriteCloser(ENDTRY, name, rest)))))
    case TransactionStmt(name, connection, body) =>
      WriteHead(TRANSACTION, connection, name, WriteAll(body, WriteCloser(END_TRANSACTION, name, rest)))
    case _ => rest
  }

  function WriteLogic(logic: Logic, rest: seq<Token>): (r: seq<Token>)
    ensures Ended(rest) ==> Ended(r) && |r| >= |rest|
    decreases logic, 1
  {
    [Word(SEP, ""), Word(COLON, ":"), Word(IDENTIFIER, logic.name), Word(LPAREN, "(")]
    + WriteParameters(logic.parameters,
        [NewLine()] + WriteTags(logic.tags, WriteAll(logic.body, WriteCloser(END_SEP, logic.name, rest))))
  }

  function WriteAll(ss: seq<Stmt>, rest: seq<Token>): (r: seq<Token>)
    ensures Ended(rest) ==> Ended(r) && |r| >= |rest|
    decreases ss, 0
  {
    if ss == [] then rest else Write(ss[0], WriteAll(ss[1..], rest))
  }

  /** The branches behind the first one. */
  function WriteBranches(name: string, branches: seq<IfBranch>, rest: seq<Token>): (r: seq<Token>)
    ensures Ended(rest) ==> Ended(r) && |r| >= |rest|
    decreases branches, 0
  {
    if branches == [] then rest
    else
      WriteHead(ELSEIF, branches[0].condition, name,
                WriteAll(branches[0].body, WriteBranches(name, branches[1..], rest)))
  }

  /** The branch without a condition, if there is one. */
  function WriteLast(keyword: Kind, name: string, body: OptionalBody, rest: seq<Token>): (r: seq<Token>)
    ensures Ended(rest) ==> Ended(r) && |r| >= |rest|
    decreases body, 0
  {
    if body.NoBody? then rest else [Word(keyword, "")] + WriteLabel(name, WriteAll(body.statements, rest))
  }

  function WriteCatches(name: string, catches: seq<CatchBranch>, rest: seq<Token>): (r: seq<Token>)
    ensures Ended(rest) ==> Ended(r) && |r| >= |rest|
    decreases catches, 0
  {
    if catches == [] then rest
    else
      [Word(CATCH, ""), Word(IDENTIFIER, catches[0].category)]
      + WriteLabel(name, WriteAll(catches[0].body, WriteCatches(name, catches[1..], rest)))
  }

  function WriteEntries(entries: seq<Entry>, rest: seq<Token>): (r: seq<Token>)
    ensures Ended(rest) ==> Ended(r) && |r| >= |rest|
    decreases entries, 0
  {
    if entries == [] then rest else WriteEntry(entries[0], WriteEntries(entries[1..], rest))
  }

  function WriteEntry(entry: Entry, rest: seq<Token>): (r: seq<Token>)
    ensures Ended(rest) ==> Ended(r) && |r| >= |rest|
    decreases entry, 3
  {
    match entry
    case FieldEntry(name, declared, e) =>
      if declared.None? then WriteValue(name, e, rest) else WriteType(declared.value, WriteValue(name, e, rest))
    case BlockEntry(block) => Write(block, rest)
  }

  /** The tokens of a program. */
  function ProgramTokens(statements: seq<Stmt>): seq<Token> {
    WriteAll(statements, [Word(EOF, "")])
  }

  // ---- Well-formed trees ----

  /** The open blocks behind a block that was opened here. */
  function Shut(after: Option<Stack>): Option<Stack> {
    if after.None? || after.value == [] then None else Some(after.value[..|after.value| - 1])
  }

  function Enter(kind: string, name: string, stack: Stack): Option<Stack> {
    var pushed := Push(kind, name, stack);
    if pushed.Err? then None else Some(pushed.value)
  }

  /** The open blocks behind a well-formed statement, with the SEP-local labels it used; None for
      any other tree. */
  function Checked(s: Stmt, stack: Stack, top: bool): Option<Stack>
    decreases s, 1
  {
    match s
    case ImportStmt(_, alias) => if top && IsFree(alias) then Some(stack) else None
    case Assignment(name, e) =>
      if IsTarget(name) && (Ladder(e, false) || IsCompound(name, e)) then Some(stack) else None
    case IndexAssignment(name, indexes, e) =>
      if IsTarget(name) && indexes != [] && ElementsLadder(indexes, false) && Ladder(e, false) then Some(stack)
      else None
    case ConstDeclaration(name, e) => if IsFree(name) && Ladder(e, false) then Some(stack) else None
    case TypedDeclaration(name, declared, e, _) =>
      if IsFree(name) && IsWritten(declared) && Ladder(e, false) then Some(stack) else None
    case PrintStmt(e) => if Ladder(e, false) then Some(stack) else None
    case PrintErrorStmt(e) => if Ladder(e, false) then Some(stack) else None
    case ReturnStmt(result) => if !top && (result.Some? ==> Ladder(result.value, false)) then Some(stack) else None
    case ExpressionStmt(e) => if IsExpressionStatement(e, top) then Some(stack) else None
    case ThrowStmt(e) => if !top && Ladder(e, false) then Some(stack) else None
    case ObjectBlock(name, entries) =>
      var inside := Enter("object", name, stack);
      if !IsFree(name) || inside.None? then None else Shut(CheckedEntries([], entries, inside.value))
    case ListBlock(name, elements) =>
      var inside := Enter("list", name, stack);
      if !IsFree(name) || !ElementsLadder(elements, false) then None else Shut(inside)
    case IfStmt(name, branches, elseBody) =>
      var inside := Enter("if", name, stack);
      if top || branches == [] || inside.None? then None
      else
        var after := CheckedBranches(branches, inside.value);
        if after.None? then None else Shut(CheckedLast(elseBody, after.value))
    case WhileStmt(name, condition, body) =>
      var inside := Enter("while", name, stack);
      if top || !Ladder(condition, false) || inside.None? then None else Shut(CheckedAll(body, inside.value))
    case ForStmt(name, variable, iterable, body) =>
      var inside := Enter("for", name, stack);
      if top || !IsFree(variable) || !Ladder(iterable, false) || inside.None? then None
      else Shut(CheckedAll(body, inside.value))
    case TryStmt(name, body, catches, finallyBody) =>
      var inside := Enter("try", name, stack);
      if top || (catches == [] && finallyBody.NoBody?) || inside.None? then None
      else
        var tried := CheckedAll(body, inside.value);
        if tried.None? then None
        else
          var after := CheckedCatches([], catches, tried.value);
          if after.None? then None else Shut(CheckedLast(finallyBody, after.value))
    case TransactionStmt(name, connection, body) =>
      var inside := Enter("transaction", name, stack);
      if top || !Ladder(connection, false) || inside.None? then None else Shut(CheckedAll(body, inside.value))
    case ErrorDecl(name) => if top && EndsWithError(name) then Shut(Enter("error", name, stack)) else None
    case HttpRouteDecl(name, verb, path, body) =>
      var inside := Enter("http_route", name, stack);
      if !top || verb !in {"GET", "HEAD", "POST", "PUT", "PATCH", "DELETE"} || !IsRoute(path) || inside.None? then None
      else Shut(CheckedAll(body, inside.value))
    case LogicDecl(logic) =>
      var inside := Enter("SEP", logic.name, stack);
      if !top || !IsFree(logic.name) || !AreParameters(logic.parameters) || !AreDistinct(logic.tags)
         || inside.None? then None
      else Shut(CheckedAll(logic.body, inside.value))
  }

  function CheckedAll(ss: seq<Stmt>, stack: Stack): Option<Stack>
    decreases ss, 0
  {
    if ss == [] then Some(stack)
    else
      var next := Checked(ss[0], stack, false);
      if next.None? then None else CheckedAll(ss[1..], next.value)
  }

  function CheckedBranches(branches: seq<IfBranch>, stack: Stack): Option<Stack>
    decreases branches, 0
  {
    if branches == [] then Some(stack)
    else if !Ladder(branches[0].condition, false) then None
    else
      var next := CheckedAll(branches[0].body, stack);
      if next.None? then None else CheckedBranches(branches[1..], next.value)
  }

  function CheckedLast(body: OptionalBody, stack: Stack): Option<Stack>
    decreases body, 0
  {
    if body.NoBody? then Some(stack) else CheckedAll(body.statements, stack)
  }

  /** No category twice, and none behind `any`. */
  function CheckedCatches(before: seq<CatchBranch>, catches: seq<CatchBranch>, stack: Stack): Option<Stack>
    decreases catches, 0
  {
    if catches == [] then Some(stack)
    else if Catching(before, catches[0].category) || Catching(before, "any") then None
    else
      var next := CheckedAll(catches[0].body, stack);
      if next.None? then None else CheckedCatches(before + [catches[0]], catches[1..], next.value)
  }

  /** No two entries of the same name. */
  function CheckedEntries(before: seq<Entry>, entries: seq<Entry>, stack: Stack): Option<Stack>
    decreases entries, 0
  {
    if entries == [] then Some(stack)
    else if HasEntry(before, EntryName(entries[0])) then None
    else
      var next := CheckedEntry(entries[0], stack);
      if next.None? then None else CheckedEntries(before + [entries[0]], entries[1..], next.value)
  }

  function CheckedEntry(entry: Entry, stack: Stack): Option<Stack>
    decreases entry, 2
  {
    match entry
    case FieldEntry(name, declared, e) =>
      if Ladder(e, false) && (declared.Some? ==> IsWritten(declared.value) && IsFree(name)) then Some(stack) else None
    case BlockEntry(block) => if block.ObjectBlock? || block.ListBlock? then Checked(block, stack, false) else None
  }

  predicate AreDistinct(names: seq<string>) {
    forall i, j | 0 <= i < j < |names| :: names[i] != names[j]
  }

  predicate AreParameters(parameters: seq<Parameter>) {
    && (forall i | 0 <= i < |parameters| ::
          IsFree(parameters[i].name) && (parameters[i].declared.Some? ==> IsWritten(parameters[i].declared.value)))
    && forall i, j | 0 <= i < j < |parameters| :: parameters[i].name != parameters[j].name
  }

  /** A well-formed program: imports come first. */
  predicate IsProgram(statements: seq<Stmt>, seenOther: bool) {
    statements == []
    || (
      && Checked(statements[0], [], true) == Some([])
      && (statements[0].ImportStmt? ==> !seenOther)
      && IsProgram(statements[1..], seenOther || !statements[0].ImportStmt?)
    )
  }
}
