/** The syntax tree of a Separan program, without source positions. */
module Ast {
  import opened TypeSpecs

  datatype Option<T> = None | Some(value: T)

  /** A failure carries the diagnostic code; its text is not modelled. */
  datatype Result<T> = Ok(value: T) | Err(code: string)

  /** The code of what these models leave out. It ends a run, and cannot be caught. */
  const UNMODELLED := "unmodelled"

  datatype Literal =
    | IntLit(i: int)
    | FloatLit(text: string)
    | BoolLit(b: bool)
    | StringLit(s: string)
    | EmptyLit
    | EmptysLit

  datatype Expr =
    | LiteralExpr(value: Literal)
    | VariableExpr(name: string)
    | BinaryExpr(left: Expr, operator: string, right: Expr)
    | UnaryExpr(operator: string, operand: Expr)
    | EmptyTestExpr(operand: Expr, negated: bool)
    | EmptysTestExpr(operand: Expr, negated: bool)
    | PositionSelectorExpr(name: string)
    | GroupExpr(expression: Expr)
    | CallExpr(callee: string, arguments: seq<Expr>, named: seq<NamedArgument>)
    | ListExpr(elements: seq<Expr>)
    | IndexExpr(target: Expr, index: Expr)
    | MemberExpr(target: Expr, name: string)
    | MemberCallExpr(target: Expr, name: string, arguments: seq<Expr>, named: seq<NamedArgument>)

  datatype NamedArgument = NamedArgument(name: string, value: Expr)

  /** A declared type is a type name and, for lists, the element specification. */
  datatype DeclaredType = DeclaredType(name: string, element: Spec)

  /** A branch body that may be missing altogether, such as the one of else. */
  datatype OptionalBody = NoBody | Body(statements: seq<Stmt>)

  datatype IfBranch = IfBranch(condition: Expr, body: seq<Stmt>)

  datatype CatchBranch = CatchBranch(category: string, body: seq<Stmt>)

  /** An entry of an object block: a field, or a nested object or list block. */
  datatype Entry =
    | FieldEntry(name: string, declared: Option<DeclaredType>, value: Expr)
    | BlockEntry(block: Stmt)

  datatype Stmt =
    | ImportStmt(path: string, alias: string)
    | Assignment(name: string, value: Expr)
    | IndexAssignment(name: string, indexes: seq<Expr>, value: Expr)
    | ConstDeclaration(name: string, value: Expr)
    | TypedDeclaration(name: string, declared: DeclaredType, value: Expr, constant: bool)
    | PrintStmt(value: Expr)
    | PrintErrorStmt(value: Expr)
    | ReturnStmt(result: Option<Expr>)
    | ExpressionStmt(expression: Expr)
    | ThrowStmt(value: Expr)
    | ObjectBlock(name: string, entries: seq<Entry>)
    | ListBlock(name: string, elements: seq<Expr>)
    | IfStmt(blockLabel: string, branches: seq<IfBranch>, elseBody: OptionalBody)
    | WhileStmt(blockLabel: string, condition: Expr, body: seq<Stmt>)
    | ForStmt(blockLabel: string, variable: string, iterable: Expr, body: seq<Stmt>)
    | TryStmt(blockLabel: string, body: seq<Stmt>, catches: seq<CatchBranch>, finallyBody: OptionalBody)
    | TransactionStmt(blockLabel: string, connection: Expr, body: seq<Stmt>)
    | ErrorDecl(name: string)
    | HttpRouteDecl(blockLabel: string, verb: string, path: string, body: seq<Stmt>)
    | LogicDecl(logic: Logic)

  datatype Parameter = Parameter(name: string, declared: Option<DeclaredType>)

  /** A SEP: its name, parameters, tags and body. */
  datatype Logic = Logic(name: string, parameters: seq<Parameter>, tags: seq<string>, body: seq<Stmt>)
}
