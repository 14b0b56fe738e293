/** Which SEPs can become C++: conditions on the source, and the proof that emission succeeds if and
    only if they hold. */
module Emittable {
  import opened Ast
  import opened Semantics
  import opened Cpp
  import opened Firmware
  import T = CppTypes

  // ---- Expressions ----

  /** An expression and everything in it. */
  function Parts(e: Expr): set<Expr>
    decreases e, 1
  {
    {e} + match e
          case BinaryExpr(left, _, right) => Parts(left) + Parts(right)
          case UnaryExpr(_, operand) => Parts(operand)
          case GroupExpr(inner) => Parts(inner)
          case CallExpr(_, arguments, _) => PartsOf(arguments)
          case _ => {}
  }

  function PartsOf(es: seq<Expr>): set<Expr>
    decreases es, 0
  {
    if es == [] then {} else Parts(es[0]) + PartsOf(es[1..])
  }

  const UNARY_OPERATORS := {"!", "-", "+"}
  const BINARY_OPERATORS := {"**", "//", "%", "&&", "||", "+", "-", "*", "/", "==", "!=", "<", "<=", ">", ">="}

  /** What one part of an expression must be: a literal that is not EMPTY, a name that is visible, a group,
      an operation that C++ has, or a call of a SEP by position. */
  predicate IsEmittablePart(logics: set<string>, visible: set<string>, e: Expr) {
    || (e.LiteralExpr? && !e.value.EmptyLit? && !e.value.EmptysLit?)
    || (e.VariableExpr? && e.name in visible)
    || e.GroupExpr?
    || (e.UnaryExpr? && e.operator in UNARY_OPERATORS)
    || (e.BinaryExpr? && e.operator in BINARY_OPERATORS)
    || (e.CallExpr? && e.callee in logics && e.named == [])
  }

  predicate IsEmittable(logics: set<string>, visible: set<string>, e: Expr) {
    forall p | p in Parts(e) :: IsEmittablePart(logics, visible, p)
  }

  predicate AreEmittable(logics: set<string>, visible: set<string>, es: seq<Expr>) {
    forall i | 0 <= i < |es| :: IsEmittable(logics, visible, es[i])
  }

  lemma {:induction false} EmitExprIff(logics: set<string>, visible: set<string>, e: Expr)
    ensures EmitExpr(logics, visible, e).Ok? <==> IsEmittable(logics, visible, e)
    decreases e, 1
  {
    match e
    case BinaryExpr(left, operator, right) =>
      EmitExprIff(logics, visible, left);
      EmitExprIff(logics, visible, right);
      assert IsEmittable(logics, visible, e) <==>
             && IsEmittablePart(logics, visible, e)
             && IsEmittable(logics, visible, left) && IsEmittable(logics, visible, right);
    case UnaryExpr(_, operand) =>
      EmitExprIff(logics, visible, operand);
      assert IsEmittable(logics, visible, e) <==>
             IsEmittablePart(logics, visible, e) && IsEmittable(logics, visible, operand);
    case GroupExpr(inner) =>
      EmitExprIff(logics, visible, inner);
      assert IsEmittable(logics, visible, e) <==> IsEmittable(logics, visible, inner);
    case CallExpr(_, arguments, _) =>
      EmitExprsIff(logics, visible, arguments);
      assert e in Parts(e);
      PartsOfAll(logics, visible, arguments);
    case _ => assert e in Parts(e);
  }

  lemma {:induction false} PartsOfAll(logics: set<string>, visible: set<string>, es: seq<Expr>)
    ensures AreEmittable(logics, visible, es) <==> forall p | p in PartsOf(es) :: IsEmittablePart(logics, visible, p)
  {
    if es != [] {
      PartsOfAll(logics, visible, es[1..]);
      assert AreEmittable(logics, visible, es)
        <==> IsEmittable(logics, visible, es[0]) && AreEmittable(logics, visible, es[1..]) by {
        assert forall i | 0 < i < |es| :: es[i] == es[1..][i - 1];
      }
    }
  }

  lemma {:induction false} EmitExprsIff(logics: set<string>, visible: set<string>, es: seq<Expr>)
    ensures EmitExprs(logics, visible, es).Ok? <==> AreEmittable(logics, visible, es)
    decreases es, 0
  {
    if es != [] {
      EmitExprIff(logics, visible, es[0]);
      EmitExprsIff(logics, visible, es[1..]);
      assert AreEmittable(logics, visible, es)
        <==> IsEmittable(logics, visible, es[0]) && AreEmittable(logics, visible, es[1..]) by {
        assert forall i | 0 < i < |es| :: es[i] == es[1..][i - 1];
      }
    }
  }

  // ---- Statements ----

  /** The names that are visible behind a statement of the same block. */
  function Behind(visible: set<string>, s: Stmt): set<string> {
    match s
    case Assignment(name, _) => visible + {name}
    case ConstDeclaration(name, _) => visible + {name}
    case TypedDeclaration(name, _, _, _) => visible + {name}
    case _ => visible
  }

  function BehindAll(visible: set<string>, ss: seq<Stmt>): set<string>
    decreases |ss|
  {
    if ss == [] then visible else BehindAll(Behind(visible, ss[0]), ss[1..])
  }

  /** A constant must be new; any other name may be assigned again. */
  predicate CanIntroduce(visible: set<string>, name: string, constant: bool) {
    constant ==> name !in visible
  }

  /** number_range() with one to three bounds, the step a literal other than 0; or a display of literals of
      one kind. */
  predicate CanIterate(logics: set<string>, visible: set<string>, iterable: Expr) {
    match iterable
    case CallExpr(callee, arguments, named) =>
      && callee == "number_range" && named == [] && 1 <= |arguments| <= 3
      && AreEmittable(logics, visible, arguments)
      && (|arguments| == 3 ==>
            arguments[2].LiteralExpr? && arguments[2].value.IntLit? && arguments[2].value.i != 0)
    case ListExpr(elements) =>
      && elements != [] && (forall i | 0 <= i < |elements| :: elements[i].LiteralExpr?)
      && (|| (forall i | 0 <= i < |elements| :: elements[i].value.BoolLit?)
          || (forall i | 0 <= i < |elements| :: elements[i].value.StringLit?)
          || (forall i | 0 <= i < |elements| :: elements[i].value.IntLit? || elements[i].value.FloatLit?))
    case _ => false
  }

  predicate CanEmit(logics: set<string>, visible: set<string>, s: Stmt)
    decreases s, 1
  {
    match s
    case Assignment(name, e) => IsEmittable(logics, visible, e)
    case ConstDeclaration(name, e) => IsEmittable(logics, visible, e) && CanIntroduce(visible, name, true)
    case TypedDeclaration(name, _, e, constant) =>
      IsEmittable(logics, visible, e) && CanIntroduce(visible, name, constant)
    case ExpressionStmt(e) => IsEmittable(logics, visible, e)
    case PrintStmt(e) => IsEmittable(logics, visible, e)
    case PrintErrorStmt(e) => IsEmittable(logics, visible, e)
    case ReturnStmt(result) => result.Some? ==> IsEmittable(logics, visible, result.value)
    case WhileStmt(_, condition, body) => IsEmittable(logics, visible, condition) && CanEmitAll(logics, visible, body)
    case IfStmt(_, branches, elseBody) =>
      CanEmitBranches(logics, visible, branches)
      && (elseBody.Body? ==> CanEmitAll(logics, visible, elseBody.statements))
    case ForStmt(_, variable, iterable, body) =>
      CanIterate(logics, visible + {variable}, iterable) && CanEmitAll(logics, visible + {variable}, body)
    case _ => false
  }

  /** Every statement can be emitted where it stands. */
  predicate CanEmitAll(logics: set<string>, visible: set<string>, ss: seq<Stmt>)
    decreases ss, 0
  {
    ss == [] || (CanEmit(logics, visible, ss[0]) && CanEmitAll(logics, Behind(visible, ss[0]), ss[1..]))
  }

  predicate CanEmitBranches(logics: set<string>, visible: set<string>, branches: seq<IfBranch>)
    decreases branches, 0
  {
    branches == []
    || (&& IsEmittable(logics, visible, branches[0].condition) && CanEmitAll(logics, visible, branches[0].body)
        && CanEmitBranches(logics, visible, branches[1..]))
  }

  lemma LiteralsAreEmittable(logics: set<string>, visible: set<string>, elements: seq<Expr>)
    requires forall i | 0 <= i < |elements| ::
               elements[i].LiteralExpr? && !elements[i].value.EmptyLit? && !elements[i].value.EmptysLit?
    ensures AreEmittable(logics, visible, elements)
  {
  }

  lemma HeaderIff(logics: set<string>, inner: set<string>, variable: string, iterable: Expr)
    ensures EmitHeader(logics, inner, variable, iterable).Ok? <==> CanIterate(logics, inner, iterable)
  {
    match iterable
    case CallExpr(_, arguments, _) => EmitExprsIff(logics, inner, arguments);
    case ListExpr(elements) =>
      EmitExprsIff(logics, inner, elements);
      if CanIterate(logics, inner, iterable) { LiteralsAreEmittable(logics, inner, elements); }
    case _ =>
  }

  lemma {:induction false} EmitStmtIff(logics: set<string>, inMain: bool, visible: set<string>, s: Stmt)
    ensures EmitStmt(logics, inMain, visible, s).Ok? <==> CanEmit(logics, visible, s)
    ensures EmitStmt(logics, inMain, visible, s).Ok? ==>
              EmitStmt(logics, inMain, visible, s).value.1 == Behind(visible, s)
    decreases s, 1
  {
    hide IsEmittable, EmitExpr, EmitHeader, CanIterate;
    match s
    case Assignment(_, e) => EmitExprIff(logics, visible, e);
    case ConstDeclaration(_, e) => EmitExprIff(logics, visible, e);
    case TypedDeclaration(_, _, e, _) => EmitExprIff(logics, visible, e);
    case ExpressionStmt(e) => EmitExprIff(logics, visible, e);
    case PrintStmt(e) => EmitExprIff(logics, visible, e);
    case PrintErrorStmt(e) => EmitExprIff(logics, visible, e);
    case ReturnStmt(result) => if result.Some? { EmitExprIff(logics, visible, result.value); }
    case WhileStmt(_, condition, body) =>
      EmitExprIff(logics, visible, condition);
      EmitAllIff(logics, inMain, visible, body);
    case IfStmt(_, branches, elseBody) =>
      EmitBranchesIff(logics, inMain, visible, branches);
      if elseBody.Body? { EmitAllIff(logics, inMain, visible, elseBody.statements); }
    case ForStmt(_, variable, iterable, body) =>
      HeaderIff(logics, visible + {variable}, variable, iterable);
      EmitAllIff(logics, inMain, visible + {variable}, body);
    case _ =>
  }

  lemma {:induction false} EmitAllIff(logics: set<string>, inMain: bool, visible: set<string>, ss: seq<Stmt>)
    ensures EmitAll(logics, inMain, visible, ss).Ok? <==> CanEmitAll(logics, visible, ss)
    ensures EmitAll(logics, inMain, visible, ss).Ok? ==>
              EmitAll(logics, inMain, visible, ss).value.1 == BehindAll(visible, ss)
    decreases ss, 0
  {
    hide CanEmit, EmitStmt, Behind;
    if ss != [] {
      EmitStmtIff(logics, inMain, visible, ss[0]);
      EmitAllIff(logics, inMain, Behind(visible, ss[0]), ss[1..]);
    }
  }

  lemma {:induction false} EmitBranchesIff(logics: set<string>, inMain: bool, visible: set<string>,
                                           branches: seq<IfBranch>)
    ensures EmitBranches(logics, inMain, visible, branches).Ok? <==> CanEmitBranches(logics, visible, branches)
    decreases branches, 0
  {
    hide IsEmittable, EmitExpr;
    if branches != [] {
      EmitExprIff(logics, visible, branches[0].condition);
      EmitAllIff(logics, inMain, visible, branches[0].body);
      EmitBranchesIff(logics, inMain, visible, branches[1..]);
    }
  }

  // ---- What is emitted ----

  predicate AreOfKind(es: seq<Expr>, kind: string) {
    && es != []
    && forall i | 0 <= i < |es| :: es[i].LiteralExpr? && match es[i].value
         case BoolLit(_) => kind == "bool"
         case StringLit(_) => kind == "std::string"
         case IntLit(_) => kind == "double"
         case FloatLit(_) => kind == "double"
         case _ => false
  }

  /** The elements of a display have the one C++ type that all of them are of. */
  lemma ListKindIff(es: seq<Expr>, kind: string)
    ensures ListKind(es) == Ok(kind) <==> AreOfKind(es, kind)
  {
    if es != [] && es[0].LiteralExpr? {
      assert es[0].value.BoolLit? || es[0].value.StringLit? || es[0].value.IntLit? || es[0].value.FloatLit?
          || es[0].value.EmptyLit? || es[0].value.EmptysLit?;
    }
  }

  /** A constant stays one: where it has been emitted, a later assignment is emitted as well, and refused by C++. */
  lemma ConstantsStay(logics: set<string>, inMain: bool, visible: set<string>, name: string, e: Expr, other: Expr,
                      functions: seq<CFunction>, limit: nat, f: CFunction, scopes: T.Scopes)
    requires limit <= |functions| && name !in visible
    requires EmitExpr(logics, visible, e).Ok? && EmitExpr(logics, visible + {name}, other).Ok?
    ensures var r := EmitAll(logics, inMain, visible, [ConstDeclaration(name, e), Assignment(name, other)]);
            r.Ok? && T.CheckAll(functions, limit, f, scopes, None, r.value.0).Rejected?
  {
    hide EmitExpr, T.TypeOf, VariableName;
    var (c, d) := (EmitExpr(logics, visible, e).value, EmitExpr(logics, visible + {name}, other).value);
    var define, change := CDeclare(true, VariableName(name), c), CSet(VariableName(name), d);
    var rest := [Assignment(name, other)];
    var whole := [ConstDeclaration(name, e)] + rest;
    assert whole[1..] == rest && rest[1..] == [];
    assert EmitStmt(logics, inMain, visible, whole[0]) == Ok((define, visible + {name}));
    assert EmitStmt(logics, inMain, visible + {name}, rest[0]) == Ok((change, visible + {name}));
    assert EmitAll(logics, inMain, visible + {name}, []) == Ok(([], visible + {name}));
    assert [change] + [] == [change];
    assert EmitAll(logics, inMain, visible + {name}, rest) == Ok(([change], visible + {name}));
    assert EmitAll(logics, inMain, visible, whole) == Ok(([define] + [change], visible + {name}));
    var first := T.Check(functions, limit, f, scopes, None, define);
    assert ([define] + [change])[1..] == [change];
    if first.Accepted? {
      assert T.Check(functions, limit, f, first.scopes, first.returned, change).Rejected?;
    }
  }

  // ---- Nothing is lost ----

  /** Different expressions become different C++. */
  lemma {:induction false} EmissionIsInjective(logics: set<string>, visible: set<string>, a: Expr, b: Expr)
    requires forall n | n in logics + visible :: IsIdentifier(n)
    requires EmitExpr(logics, visible, a).Ok? && EmitExpr(logics, visible, a) == EmitExpr(logics, visible, b)
    ensures a == b
    decreases a, 1
  {
    hide VariableName, CalleeName, IsIdentifier;
    match a
    case VariableExpr(name) => if name != b.name { NamesAreInjective(name, b.name); }
    case GroupExpr(inner) => EmissionIsInjective(logics, visible, inner, b.expression);
    case UnaryExpr(_, operand) => EmissionIsInjective(logics, visible, operand, b.operand);
    case BinaryExpr(left, _, right) =>
      EmissionIsInjective(logics, visible, left, b.left);
      EmissionIsInjective(logics, visible, right, b.right);
    case CallExpr(callee, arguments, _) =>
      if callee != b.callee { NamesAreInjective(callee, b.callee); }
      EmissionsAreInjective(logics, visible, arguments, b.arguments);
    case _ =>
  }

  lemma {:induction false} EmissionsAreInjective(logics: set<string>, visible: set<string>, a: seq<Expr>, b: seq<Expr>)
    requires forall n | n in logics + visible :: IsIdentifier(n)
    requires EmitExprs(logics, visible, a).Ok? && EmitExprs(logics, visible, a) == EmitExprs(logics, visible, b)
    ensures a == b
    decreases a, 0
  {
    hide IsIdentifier;
    if a != [] {
      var (cs, ds) := (EmitExprs(logics, visible, a).value, EmitExprs(logics, visible, b).value);
      assert cs[0] == ds[0] && cs[1..] == ds[1..];
      EmissionIsInjective(logics, visible, a[0], b[0]);
      EmissionsAreInjective(logics, visible, a[1..], b[1..]);
    }
  }

  // ---- SEPs ----

  /** A SEP can be emitted: the names of its parameters are visible in its body. */
  predicate CanEmitLogic(logics: set<string>, logic: Logic) {
    CanEmitAll(logics, (set p | p in logic.parameters :: p.name), logic.body)
  }

  lemma EmitLogicIff(logics: set<string>, logic: Logic)
    ensures EmitLogic(logics, logic).Ok? <==> CanEmitLogic(logics, logic)
  {
    var names := ParameterNames(logic);
    assert (set n | n in names) == (set p | p in logic.parameters :: p.name) by {
      forall p | p in logic.parameters
        ensures p.name in names
      {
        var i :| 0 <= i < |logic.parameters| && logic.parameters[i] == p;
        assert names[i] == p.name;
      }
    }
    EmitAllIff(logics, logic.name == "main", (set n | n in names), logic.body);
  }
}
