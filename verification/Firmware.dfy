/** The firmware emitter: a function-scoped SEP becomes a block-scoped C++ function,
    and the SEPs are put in an order in which every callee precedes its callers. */
module Firmware {
  import opened Ast
  import opened Semantics
  import opened Cpp

  const UNSUPPORTED := "E966"

  // ---- Names ----

  predicate IsDigit(c: char) { '0' <= c <= '9' }

  predicate IsWordCharacter(c: char) {
    'a' <= c <= 'z' || 'A' <= c <= 'Z' || IsDigit(c) || c == '_'
  }

  /** What the lexer accepts as an identifier. */
  predicate IsIdentifier(name: string) {
    && name != ""
    && !IsDigit(name[0])
    && forall i | 0 <= i < |name| :: IsWordCharacter(name[i])
  }

  /** Replaces what C++ does not allow in a name. */
  function Identifier(name: string): string {
    var normalized := seq(|name|, i requires 0 <= i < |name| => if IsWordCharacter(name[i]) then name[i] else '_');
    if normalized == "" || IsDigit(normalized[0]) then "value_" + normalized else normalized
  }

  function VariableName(name: string): string { "sep_var_" + Identifier(name) }

  function FunctionName(name: string): string { if name == "main" then "main" else CalleeName(name) }

  /** Calls always use this form, also for main, which no emitted function answers to. */
  function CalleeName(name: string): string { "sep_fn_" + Identifier(name) }

  lemma IdentifierIsIdentity(name: string)
    requires IsIdentifier(name)
    ensures Identifier(name) == name
  {
  }

  lemma NamesAreInjective(a: string, b: string)
    requires IsIdentifier(a) && IsIdentifier(b) && a != b
    ensures VariableName(a) != VariableName(b)
    ensures CalleeName(a) != CalleeName(b)
  {
    IdentifierIsIdentity(a);
    IdentifierIsIdentity(b);
    assert VariableName(a)[8..] == a && VariableName(b)[8..] == b;
    assert CalleeName(a)[7..] == a && CalleeName(b)[7..] == b;
  }

  // ---- Emission, with the scopes flattened to the set of visible names ----

  function EmitLiteral(literal: Literal): Result<CExpr> {
    match literal
    case IntLit(i) => Ok(CLiteral(IntV(i)))
    case BoolLit(b) => Ok(CLiteral(BoolV(b)))
    case StringLit(s) => Ok(CLiteral(StringV(s)))
    case FloatLit(text) => Ok(CFloat(text))
    case _ => Err(UNSUPPORTED)
  }

  function EmitExpr(logics: set<string>, visible: set<string>, e: Expr): Result<CExpr> {
    match e
    case LiteralExpr(literal) => EmitLiteral(literal)
    case VariableExpr(name) => if name in visible then Ok(CVariable(VariableName(name))) else Err(UNSUPPORTED)
    case GroupExpr(inner) =>
      var c := EmitExpr(logics, visible, inner);
      if c.Err? then c else Ok(CParenthesis(c.value))
    case UnaryExpr(operator, operand) =>
      if operator !in {"!", "-", "+"} then Err(UNSUPPORTED)
      else
        var c := EmitExpr(logics, visible, operand);
        if c.Err? then c else Ok(CUnary(operator, c.value))
    case BinaryExpr(left, operator, right) =>
      var l := EmitExpr(logics, visible, left);
      var r := EmitExpr(logics, visible, right);
      if l.Err? then l else if r.Err? then r else EmitOperator(l.value, operator, r.value)
    case CallExpr(callee, arguments, named) =>
      if named != [] || callee !in logics then Err(UNSUPPORTED)
      else
        var cs := EmitExprs(logics, visible, arguments);
        if cs.Err? then Err(cs.code) else Ok(CCall(CalleeName(callee), cs.value))
    case _ => Err(UNSUPPORTED)
  }

  function EmitOperator(left: CExpr, operator: string, right: CExpr): Result<CExpr> {
    if operator == "**" then Ok(CLibrary("pow", left, right))
    else if operator == "//" then Ok(CLibrary("floor", left, right))
    else if operator == "%" then Ok(CLibrary("fmod", left, right))
    else if operator in {"&&", "||", "+", "-", "*", "/", "==", "!=", "<", "<=", ">", ">="}
    then Ok(CBinary(left, operator, right))
    else Err(UNSUPPORTED)
  }

  function EmitExprs(logics: set<string>, visible: set<string>, es: seq<Expr>): (r: Result<seq<CExpr>>)
    ensures r.Ok? ==> |r.value| == |es|
  {
    if es == [] then Ok([])
    else
      var c := EmitExpr(logics, visible, es[0]);
      var cs := EmitExprs(logics, visible, es[1..]);
      if c.Err? then Err(c.code) else if cs.Err? then cs else Ok([c.value] + cs.value)
  }

  function EmitOptional(logics: set<string>, visible: set<string>, e: Option<Expr>): Result<Option<CExpr>> {
    if e.None? then Ok(None)
    else
      var c := EmitExpr(logics, visible, e.value);
      if c.Err? then Err(c.code) else Ok(Some(c.value))
  }

  /** The name, the value, and whether the statement introduces a constant. */
  function Definition(s: Stmt): (string, Expr, bool)
    requires s.Assignment? || s.ConstDeclaration? || s.TypedDeclaration?
  {
    match s
    case Assignment(name, value) => (name, value, false)
    case ConstDeclaration(name, value) => (name, value, true)
    case TypedDeclaration(name, _, value, constant) => (name, value, constant)
  }

  /** A visible name is assigned; any other one is declared in the innermost block. */
  function EmitDefinition(visible: set<string>, name: string, value: CExpr, constant: bool):
    Result<(CStmt, set<string>)>
  {
    if name !in visible then Ok((CDeclare(constant, VariableName(name), value), visible + {name}))
    else if constant then Err(UNSUPPORTED)
    else Ok((CSet(VariableName(name), value), visible))
  }

  function ListKind(es: seq<Expr>): Result<string> {
    if es == [] || exists i | 0 <= i < |es| :: !es[i].LiteralExpr? then Err(UNSUPPORTED)
    else if forall i | 0 <= i < |es| :: es[i].value.BoolLit? then Ok("bool")
    else if forall i | 0 <= i < |es| :: es[i].value.IntLit? || es[i].value.FloatLit? then Ok("double")
    else if forall i | 0 <= i < |es| :: es[i].value.StringLit? then Ok("std::string")
    else Err(UNSUPPORTED)
  }

  function EmitStmt(logics: set<string>, inMain: bool, visible: set<string>, s: Stmt): Result<(CStmt, set<string>)>
    decreases s, 1
  {
    match s
    case Assignment(_, _) => EmitAnyDefinition(logics, visible, s)
    case ConstDeclaration(_, _) => EmitAnyDefinition(logics, visible, s)
    case TypedDeclaration(_, _, _, _) => EmitAnyDefinition(logics, visible, s)
    case ExpressionStmt(e) =>
      var c := EmitExpr(logics, visible, e);
      if c.Err? then Err(c.code) else Ok((CDo(c.value), visible))
    case PrintStmt(e) =>
      var c := EmitExpr(logics, visible, e);
      if c.Err? then Err(c.code) else Ok((CPrint(c.value), visible))
    case PrintErrorStmt(e) =>
      var c := EmitExpr(logics, visible, e);
      if c.Err? then Err(c.code) else Ok((CPrint(c.value), visible))
    case ReturnStmt(result) =>
      var c := EmitOptional(logics, visible, result);
      if c.Err? then Err(c.code) else Ok((if inMain then CExit(c.value) else CReturn(c.value), visible))
    case WhileStmt(_, condition, body) =>
      var c := EmitExpr(logics, visible, condition);
      var b := EmitAll(logics, inMain, visible, body);
      if c.Err? then Err(c.code) else if b.Err? then Err(b.code) else Ok((CWhile(c.value, b.value.0), visible))
    case IfStmt(_, branches, elseBody) =>
      var bs := EmitBranches(logics, inMain, visible, branches);
      var e := if elseBody.NoBody? then Ok(([], visible)) else EmitAll(logics, inMain, visible, elseBody.statements);
      if bs.Err? then Err(bs.code)
      else if e.Err? then Err(e.code)
      else Ok((CIf(bs.value, if elseBody.NoBody? then NoElse else Else(e.value.0)), visible))
    case ForStmt(_, variable, iterable, body) =>
      var inner := visible + {variable};
      var b := EmitAll(logics, inMain, inner, body);
      var header := EmitHeader(logics, inner, variable, iterable);
      if header.Err? then Err(header.code)
      else if b.Err? then Err(b.code)
      else Ok((WithBody(header.value, b.value.0), visible))
    case _ => Err(UNSUPPORTED)
  }

  function EmitAnyDefinition(logics: set<string>, visible: set<string>, s: Stmt): Result<(CStmt, set<string>)>
    requires s.Assignment? || s.ConstDeclaration? || s.TypedDeclaration?
  {
    var (name, value, constant) := Definition(s);
    var c := EmitExpr(logics, visible, value);
    if c.Err? then Err(c.code) else EmitDefinition(visible, name, c.value, constant)
  }

  /** The loop without its body. The loop variable is already visible in the bounds. */
  function EmitHeader(logics: set<string>, inner: set<string>, variable: string, iterable: Expr): (r: Result<CStmt>)
    ensures r.Ok? ==> r.value.CFor? || r.value.CForEach?
  {
    if iterable.CallExpr? && iterable.callee == "number_range" then
      if iterable.named != [] || !(1 <= |iterable.arguments| <= 3) then Err(UNSUPPORTED)
      else
        var args := iterable.arguments;
        var cs := EmitExprs(logics, inner, args);
        if cs.Err? then Err(cs.code)
        else if |args| == 3 && !(args[2].LiteralExpr? && args[2].value.IntLit? && args[2].value.i != 0) then
          Err(UNSUPPORTED)
        else
          var start := if |args| == 1 then CLiteral(IntV(0)) else cs.value[0];
          var stop := if |args| == 1 then cs.value[0] else cs.value[1];
          var step := if |args| == 3 then cs.value[2] else CLiteral(IntV(1));
          Ok(CFor(VariableName(variable), start, stop, step, []))
    else if iterable.ListExpr? then
      var kind := ListKind(iterable.elements);
      var cs := EmitExprs(logics, inner, iterable.elements);
      if kind.Err? then Err(kind.code)
      else if cs.Err? then Err(cs.code)
      else Ok(CForEach(kind.value, VariableName(variable), cs.value, []))
    else Err(UNSUPPORTED)
  }

  function WithBody(loop: CStmt, body: seq<CStmt>): CStmt
    requires loop.CFor? || loop.CForEach?
  {
    if loop.CFor? then CFor(loop.variable, loop.start, loop.stop, loop.step, body)
    else CForEach(loop.kind, loop.variable, loop.elements, body)
  }

  function EmitBranches(logics: set<string>, inMain: bool, visible: set<string>, branches: seq<IfBranch>):
    (r: Result<seq<CBranch>>)
    ensures r.Ok? ==> |r.value| == |branches|
    decreases branches, 0
  {
    if branches == [] then Ok([])
    else
      var c := EmitExpr(logics, visible, branches[0].condition);
      var b := EmitAll(logics, inMain, visible, branches[0].body);
      var rest := EmitBranches(logics, inMain, visible, branches[1..]);
      if c.Err? then Err(c.code)
      else if b.Err? then Err(b.code)
      else if rest.Err? then rest
      else Ok([CBranch(c.value, b.value.0)] + rest.value)
  }

  function EmitAll(logics: set<string>, inMain: bool, visible: set<string>, ss: seq<Stmt>):
    Result<(seq<CStmt>, set<string>)>
    decreases ss, 0
  {
    if ss == [] then Ok(([], visible))
    else
      var first := EmitStmt(logics, inMain, visible, ss[0]);
      if first.Err? then Err(first.code)
      else
        var rest := EmitAll(logics, inMain, first.value.1, ss[1..]);
        if rest.Err? then rest else Ok(([first.value.0] + rest.value.0, rest.value.1))
  }

  /** Some return in these statements carries a value (or, when not `valued`, carries none).
      Only the statements that can be emitted are looked into. */
  predicate HasReturn(ss: seq<Stmt>, valued: bool)
    decreases ss, 0
  {
    ss != [] && (StatementHasReturn(ss[0], valued) || HasReturn(ss[1..], valued))
  }

  predicate BranchHasReturn(branches: seq<IfBranch>, valued: bool)
    decreases branches, 0
  {
    branches != [] && (HasReturn(branches[0].body, valued) || BranchHasReturn(branches[1..], valued))
  }

  predicate StatementHasReturn(s: Stmt, valued: bool)
    decreases s, 1
  {
    match s
    case ReturnStmt(result) => result.Some? == valued
    case WhileStmt(_, _, body) => HasReturn(body, valued)
    case IfStmt(_, branches, elseBody) =>
      || BranchHasReturn(branches, valued)
      || (elseBody.Body? && HasReturn(elseBody.statements, valued))
    case ForStmt(_, _, _, body) => HasReturn(body, valued)
    case _ => false
  }

  function ParameterNames(logic: Logic): seq<string> {
    seq(|logic.parameters|, i requires 0 <= i < |logic.parameters| => logic.parameters[i].name)
  }

  function VariableNames(names: seq<string>): seq<string> {
    seq(|names|, i requires 0 <= i < |names| => VariableName(names[i]))
  }

  function EmitLogic(logics: set<string>, logic: Logic): Result<CFunction> {
    var inMain := logic.name == "main";
    var names := ParameterNames(logic);
    var body := EmitAll(logics, inMain, (set n | n in names), logic.body);
    if body.Err? then Err(body.code)
    else Ok(CFunction(
              FunctionName(logic.name),
              VariableNames(names),
              !inMain && (HasReturn(logic.body, true) || HasReturn(logic.body, false)),
              body.value.0 + if inMain then [CExit(None)] else []))
  }

  // ---- Which SEPs a SEP calls ----

  /** Every called name in an expression, wherever it stands. */
  function CallsIn(e: Expr): set<string>
    decreases e, 1
  {
    match e
    case LiteralExpr(_) => {}
    case VariableExpr(_) => {}
    case PositionSelectorExpr(_) => {}
    case BinaryExpr(left, _, right) => CallsIn(left) + CallsIn(right)
    case UnaryExpr(_, operand) => CallsIn(operand)
    case EmptyTestExpr(operand, _) => CallsIn(operand)
    case EmptysTestExpr(operand, _) => CallsIn(operand)
    case GroupExpr(inner) => CallsIn(inner)
    case CallExpr(callee, arguments, named) => {callee} + CallsInAll(arguments) + CallsInNamed(named)
    case ListExpr(elements) => CallsInAll(elements)
    case IndexExpr(target, index) => CallsIn(target) + CallsIn(index)
    case MemberExpr(target, _) => CallsIn(target)
    case MemberCallExpr(target, _, arguments, named) =>
      CallsIn(target) + CallsInAll(arguments) + CallsInNamed(named)
  }

  function CallsInAll(es: seq<Expr>): set<string>
    decreases es, 0
  {
    if es == [] then {} else CallsIn(es[0]) + CallsInAll(es[1..])
  }

  function CallsInNamed(named: seq<NamedArgument>): set<string>
    decreases named, 0
  {
    if named == [] then {} else CallsIn(named[0].value) + CallsInNamed(named[1..])
  }

  function CallsInStatement(s: Stmt): set<string>
    decreases s, 1
  {
    match s
    case ImportStmt(_, _) => {}
    case Assignment(_, e) => CallsIn(e)
    case IndexAssignment(_, indexes, e) => CallsInAll(indexes) + CallsIn(e)
    case ConstDeclaration(_, e) => CallsIn(e)
    case TypedDeclaration(_, _, e, _) => CallsIn(e)
    case PrintStmt(e) => CallsIn(e)
    case PrintErrorStmt(e) => CallsIn(e)
    case ReturnStmt(result) => if result.Some? then CallsIn(result.value) else {}
    case ExpressionStmt(e) => CallsIn(e)
    case ThrowStmt(e) => CallsIn(e)
    case ObjectBlock(_, entries) => CallsInEntries(entries)
    case ListBlock(_, elements) => CallsInAll(elements)
    case IfStmt(_, branches, elseBody) =>
      CallsInBranches(branches) + if elseBody.Body? then CallsInStatements(elseBody.statements) else {}
    case WhileStmt(_, condition, body) => CallsIn(condition) + CallsInStatements(body)
    case ForStmt(_, _, iterable, body) => CallsIn(iterable) + CallsInStatements(body)
    case TryStmt(_, body, catches, finallyBody) =>
      CallsInStatements(body) + CallsInCatches(catches)
      + if finallyBody.Body? then CallsInStatements(finallyBody.statements) else {}
    case TransactionStmt(_, connection, body) => CallsIn(connection) + CallsInStatements(body)
    case ErrorDecl(_) => {}
    case HttpRouteDecl(_, _, _, body) => CallsInStatements(body)
    case LogicDecl(logic) => CallsInStatements(logic.body)
  }

  function CallsInBranches(branches: seq<IfBranch>): set<string>
    decreases branches, 0
  {
    if branches == [] then {}
    else CallsIn(branches[0].condition) + CallsInStatements(branches[0].body) + CallsInBranches(branches[1..])
  }

  function CallsInCatches(catches: seq<CatchBranch>): set<string>
    decreases catches, 0
  {
    if catches == [] then {} else CallsInStatements(catches[0].body) + CallsInCatches(catches[1..])
  }

  function CallsInEntry(entry: Entry): set<string>
    decreases entry, 2
  {
    match entry
    case FieldEntry(_, _, e) => CallsIn(e)
    case BlockEntry(block) => CallsInStatement(block)
  }

  function CallsInEntries(entries: seq<Entry>): set<string>
    decreases entries, 0
  {
    if entries == [] then {} else CallsInEntry(entries[0]) + CallsInEntries(entries[1..])
  }

  function CallsInStatements(ss: seq<Stmt>): set<string>
    decreases ss, 0
  {
    if ss == [] then {} else CallsInStatement(ss[0]) + CallsInStatements(ss[1..])
  }

  /** The SEPs called from the body of a SEP. */
  function Callees(logics: Logics, name: string): set<string>
    requires name in logics
  {
    CallsInStatements(logics[name].body) * logics.Keys
  }
}
