/** Firmware that a C++ compiler accepts never gets stuck: whatever it prints and however long it runs,
    every value has the type that the compiler deduced for it, and every call, assignment and return
    succeeds. */
module CppSafety {
  import opened Ast
  import opened Trees
  import opened Semantics
  import opened Cpp
  import opened CppTypes

  predicate HasType(v: Value, t: CType) {
    match t
    case BoolType => IsBool(v)
    case IntType => IsInt(v)
    case LongType => IsInt(v)
    case StringType => IsText(v)
    case VoidType => v.VoidTree?
    case Dependent => false
  }

  predicate HaveTypes(vs: seq<Value>, ts: seq<CType>) {
    |vs| == |ts| && forall i | 0 <= i < |vs| :: HasType(vs[i], ts[i])
  }

  /** A block holds the variables that were declared in it. */
  predicate Holds(scope: map<string, Declaration>, frame: map<string, Cell>) {
    && frame.Keys == scope.Keys
    && forall name | name in scope ::
         HasType(frame[name].value, scope[name].kind) && frame[name].constant == scope[name].constant
         && scope[name].kind != VoidType
  }

  predicate Fits(scopes: Scopes, frames: Frames) {
    |scopes| == |frames| && forall i | 0 <= i < |scopes| :: Holds(scopes[i], frames[i])
  }

  // ---- Variables ----

  lemma {:induction false} VisibleFits(scopes: Scopes, frames: Frames, name: string)
    requires Fits(scopes, frames)
    ensures Visible(scopes, name).Some? <==> Find(frames, name).Some?
    ensures Visible(scopes, name).Some? ==>
              var (d, cell) := (Visible(scopes, name).value, Find(frames, name).value);
              HasType(cell.value, d.kind) && cell.constant == d.constant && d.kind != VoidType
    decreases |scopes|
  {
    if scopes != [] {
      var last := |scopes| - 1;
      assert Holds(scopes[last], frames[last]);
      VisibleFits(scopes[..last], frames[..last], name);
    }
  }

  lemma FitsInner(scopes: Scopes, frames: Frames, scope: map<string, Declaration>, frame: map<string, Cell>)
    requires Fits(scopes, frames) && Holds(scope, frame)
    ensures Fits(scopes + [scope], frames + [frame])
  {
    hide Holds;
  }

  lemma FitsOuter(scopes: Scopes, frames: Frames)
    requires Fits(scopes, frames) && scopes != []
    ensures Fits(scopes[..|scopes| - 1], frames[..|frames| - 1])
  {
    hide Holds;
  }

  lemma NothingDeclared()
    ensures Holds(map[], map[])
  {
  }

  /** Assigning keeps every variable of its type. */
  lemma {:induction false} UpdateFits(scopes: Scopes, frames: Frames, name: string, v: Value)
    requires Fits(scopes, frames) && Visible(scopes, name).Some?
    requires !Visible(scopes, name).value.constant && HasType(v, Visible(scopes, name).value.kind)
    ensures Update(frames, name, v).Some? && Fits(scopes, Update(frames, name, v).value)
    decreases |scopes|
  {
    var last := |scopes| - 1;
    var (scope, frame) := (scopes[last], frames[last]);
    assert Holds(scope, frame);
    FitsOuter(scopes, frames);
    assert scopes[..last] + [scope] == scopes && frames[..last] + [frame] == frames;
    if name in scope {
      var after := frame[name := Cell(v, false)];
      assert Holds(scope, after);
      hide Holds, HasType;
      FitsInner(scopes[..last], frames[..last], scope, after);
      assert frames[last := after] == frames[..last] + [after];
    } else {
      UpdateFits(scopes[..last], frames[..last], name, v);
      hide Holds, HasType, Fits;
      FitsInner(scopes[..last], Update(frames[..last], name, v).value, scope, frame);
    }
  }

  lemma DeclareFits(scopes: Scopes, frames: Frames, name: string, d: Declaration, v: Value)
    requires Fits(scopes, frames) && scopes != [] && name !in scopes[|scopes| - 1] && d.kind != VoidType
    requires HasType(v, d.kind)
    ensures var last := |scopes| - 1;
            var after := Declare(frames, name, Cell(v, d.constant));
            after.Some? && Fits(scopes[last := scopes[last][name := d]], after.value)
  {
    var last := |scopes| - 1;
    assert Holds(scopes[last], frames[last]);
    assert Holds(scopes[last][name := d], frames[last][name := Cell(v, d.constant)]);
    hide Holds;
  }

  lemma {:induction false} BoundFits(names: seq<string>, values: seq<Value>, types: seq<CType>)
    requires |names| == |values| && HaveTypes(values, types) && VoidType !in types
    ensures Holds(BindTypes(names, types), BindAll(names, values))
    decreases |names|
  {
    if names != [] {
      var last := |names| - 1;
      assert types[last] in types;
      assert forall t | t in types[..last] :: t in types;
      BoundFits(names[..last], values[..last], types[..last]);
    }
  }

  // ---- Values ----

  lemma LiteralHasType(v: Value)
    requires LiteralType(v).Some?
    ensures HasType(v, LiteralType(v).value)
  {
  }

  lemma UnaryHasType(operator: string, v: Value, t: CType)
    requires HasType(v, t) && UnaryType(operator, t).Some?
    ensures CUnaryValue(operator, v).Some? && HasType(CUnaryValue(operator, v).value, UnaryType(operator, t).value)
  {
  }

  lemma BinaryHasType(operator: string, l: Value, r: Value, s: CType, t: CType)
    requires HasType(l, s) && HasType(r, t) && BinaryType(operator, s, t).Some? && operator !in {"&&", "||"}
    ensures CBinaryValue(operator, l, r).Some?
            && HasType(CBinaryValue(operator, l, r).value, BinaryType(operator, s, t).value)
  {
  }

  function Example(t: CType): Value {
    match t
    case BoolType => BoolV(true)
    case StringType => StringV("")
    case VoidType => VoidTree
    case _ => IntV(0)
  }

  /** An operation is accepted if and only if it has a value for all operands of these types. */
  lemma OperatorTypesAreExact(operator: string, s: CType, t: CType)
    requires s != Dependent && t != Dependent && operator !in {"&&", "||"}
    ensures BinaryType(operator, s, t).Some?
       <==> forall l, r | HasType(l, s) && HasType(r, t) :: CBinaryValue(operator, l, r).Some?
    ensures UnaryType(operator, t).Some? <==> forall v | HasType(v, t) :: CUnaryValue(operator, v).Some?
  {
    assert HasType(Example(s), s) && HasType(Example(t), t);
    if BinaryType(operator, s, t).Some? {
      forall l, r | HasType(l, s) && HasType(r, t)
        ensures CBinaryValue(operator, l, r).Some?
      {
        BinaryHasType(operator, l, r, s, t);
      }
    } else {
      assert CBinaryValue(operator, Example(s), Example(t)).None?;
    }
    if UnaryType(operator, t).Some? {
      forall v | HasType(v, t)
        ensures CUnaryValue(operator, v).Some?
      {
        UnaryHasType(operator, v, t);
      }
    } else {
      assert CUnaryValue(operator, Example(t)).None?;
    }
  }

  /** What is known of an expression of type `t`. */
  predicate IsSafe(r: CResult, t: CType) { !r.Stuck? && (r.Got? ==> HasType(r.value, t)) }

  predicate AreSafe(r: CArgs, ts: seq<CType>) { !r.StuckArgs? && (r.GotAll? ==> HaveTypes(r.values, ts)) }

  lemma {:induction false} SafeExpr(fuel: nat, functions: seq<CFunction>, limit: nat, scopes: Scopes, frames: Frames,
                                    output: seq<Value>, e: CExpr)
    requires limit <= |functions| && Fits(scopes, frames) && TypeOf(functions, limit, scopes, e).Some?
    ensures IsSafe(CEval(fuel, functions, limit, frames, output, e).0, TypeOf(functions, limit, scopes, e).value)
    decreases fuel, 1, e, 1
  {
    hide Fits, HaveTypes, LiteralType, UnaryType, BinaryType, CUnaryValue, CBinaryValue, IsBasic, InstanceType;
    hide CallFunction;
    match e
    case CLiteral(v) => LiteralHasType(v);
    case CVariable(name) => VisibleFits(scopes, frames, name);
    case CParenthesis(inner) => SafeExpr(fuel, functions, limit, scopes, frames, output, inner);
    case CUnary(operator, operand) =>
      SafeExpr(fuel, functions, limit, scopes, frames, output, operand);
      var (v, _) := CEval(fuel, functions, limit, frames, output, operand);
      if v.Got? {
        UnaryHasType(operator, v.value, TypeOf(functions, limit, scopes, operand).value);
      }
    case CBinary(_, _, _) => SafeBinary(fuel, functions, limit, scopes, frames, output, e);
    case CCall(name, arguments) =>
      SafeArgs(fuel, functions, limit, scopes, frames, output, arguments);
      var (vs, out) := CEvalArgs(fuel, functions, limit, frames, output, arguments);
      var types := TypesOf(functions, limit, scopes, arguments).value;
      if vs.GotAll? {
        NoneIsNothing(vs.values, types);
        SafeCall(fuel, functions, Declared(functions, limit, name).value, out, vs.values, types);
      }
    case _ =>
  }

  lemma NoneIsNothing(vs: seq<Value>, ts: seq<CType>)
    requires HaveTypes(vs, ts) && VoidType !in ts
    ensures VoidTree !in vs && Dependent !in ts && |vs| == |ts|
  {
    forall i | 0 <= i < |vs| ensures vs[i] != VoidTree && ts[i] != Dependent {
      assert ts[i] in ts;
    }
  }

  lemma {:induction false} SafeBinary(fuel: nat, functions: seq<CFunction>, limit: nat, scopes: Scopes, frames: Frames,
                                      output: seq<Value>, e: CExpr)
    requires limit <= |functions| && Fits(scopes, frames) && e.CBinary? && TypeOf(functions, limit, scopes, e).Some?
    ensures IsSafe(CEval(fuel, functions, limit, frames, output, e).0, TypeOf(functions, limit, scopes, e).value)
    decreases fuel, 1, e, 0
  {
    hide Fits, HaveTypes, CBinaryValue, IsBasic;
    SafeExpr(fuel, functions, limit, scopes, frames, output, e.left);
    var (l, out) := CEval(fuel, functions, limit, frames, output, e.left);
    if l.Got? {
      SafeExpr(fuel, functions, limit, scopes, frames, out, e.right);
      var (r, _) := CEval(fuel, functions, limit, frames, out, e.right);
      var (s, t) := (TypeOf(functions, limit, scopes, e.left).value, TypeOf(functions, limit, scopes, e.right).value);
      if e.operator in {"&&", "||"} {
        TruthsAreBooleans(e.operator, l.value, s, t);
      } else if r.Got? {
        BinaryHasType(e.operator, l.value, r.value, s, t);
      }
      hide BinaryType;
      hide TypeOf;
    }
  }

  lemma TruthsAreBooleans(operator: string, v: Value, s: CType, t: CType)
    requires operator in {"&&", "||"} && BinaryType(operator, s, t).Some? && HasType(v, s)
    ensures IsBool(v) && BinaryType(operator, s, t).value == BoolType && (t == BoolType || t == Dependent)
  {
  }

  lemma {:induction false} SafeArgs(fuel: nat, functions: seq<CFunction>, limit: nat, scopes: Scopes, frames: Frames,
                                    output: seq<Value>, es: seq<CExpr>)
    requires limit <= |functions| && Fits(scopes, frames) && TypesOf(functions, limit, scopes, es).Some?
    ensures AreSafe(CEvalArgs(fuel, functions, limit, frames, output, es).0,
                    TypesOf(functions, limit, scopes, es).value)
    decreases fuel, 1, es, 0
  {
    hide Fits, TypeOf, CEval;
    if es != [] {
      SafeExpr(fuel, functions, limit, scopes, frames, output, es[0]);
      var (v, out) := CEval(fuel, functions, limit, frames, output, es[0]);
      SafeArgs(fuel, functions, limit, scopes, frames, out, es[1..]);
    }
  }

  /** A call gives a value of the type that was deduced for its instance. */
  lemma {:induction false} SafeCall(fuel: nat, functions: seq<CFunction>, i: nat, output: seq<Value>,
                                    arguments: seq<Value>, types: seq<CType>)
    requires i < |functions| && functions[i].name != "main" && |types| == |functions[i].parameters|
    requires HaveTypes(arguments, types) && VoidType !in types && InstanceType(functions, i, types).Some?
    ensures IsSafe(CallFunction(fuel, functions, i, output, arguments).0, InstanceType(functions, i, types).value)
    decreases fuel, 0, 0, 0
  {
    hide CheckAll, CRunAll, NeverEnds, Returns, BindAll, BindTypes;
    var f := functions[i];
    if fuel > 0 {
      BoundFits(f.parameters, arguments, types);
      var (scopes, frames) := ([BindTypes(f.parameters, types)], [BindAll(f.parameters, arguments)]);
      SafeAll(fuel - 1, functions, i, f, scopes, None, frames, output, f.body);
      if NeverEnds(f.body) {
        NeverThrough(fuel - 1, functions, i, frames, output, f.body);
      }
      ValuesAreReturned(functions, i, f, scopes, None, f.body);
    }
  }

  // ---- Statements ----

  /** Main leaves with an exit status; any other function with a value of the type it returns. */
  predicate LeavesWith(f: CFunction, returned: Option<CType>, v: Value) {
    if f.name == "main" && !f.returnsAuto then v.VoidTree? || IsStatus(v)
    else f.name != "main" ==> returned.Some? && HasType(v, returned.value)
  }

  /** What is known of an accepted statement. */
  predicate Completes(f: CFunction, v: Verdict, r: CState) {
    && v.Accepted?
    && match r.completion
       case Through => Fits(v.scopes, r.frames)
       case Left(value) => LeavesWith(f, v.returned, value)
       case Wedged => false
       case NoFuel => true
  }

  lemma {:induction false} SafeAll(fuel: nat, functions: seq<CFunction>, limit: nat, f: CFunction, scopes: Scopes,
                                   returned: Option<CType>, frames: Frames, output: seq<Value>, ss: seq<CStmt>)
    requires limit <= |functions| && Fits(scopes, frames)
             && CheckAll(functions, limit, f, scopes, returned, ss).Accepted?
    ensures Completes(f, CheckAll(functions, limit, f, scopes, returned, ss),
                      CRunAll(fuel, functions, limit, frames, output, ss))
    decreases fuel, 1, ss, 0
  {
    hide Fits, Check, CRun, IsStatus;
    if ss != [] {
      SafeStatement(fuel, functions, limit, f, scopes, returned, frames, output, ss[0]);
      var v := Check(functions, limit, f, scopes, returned, ss[0]);
      var r := CRun(fuel, functions, limit, frames, output, ss[0]);
      if r.completion.Through? {
        SafeAll(fuel, functions, limit, f, v.scopes, v.returned, r.frames, r.output, ss[1..]);
      }
    }
  }

  lemma {:induction false} SafeStatement(fuel: nat, functions: seq<CFunction>, limit: nat, f: CFunction, scopes: Scopes,
                                         returned: Option<CType>, frames: Frames, output: seq<Value>, s: CStmt)
    requires limit <= |functions| && Fits(scopes, frames) && Check(functions, limit, f, scopes, returned, s).Accepted?
    ensures Completes(f, Check(functions, limit, f, scopes, returned, s),
                      CRun(fuel, functions, limit, frames, output, s))
    decreases fuel, 1, s, 2
  {
    hide Fits, TypeOf, TypesOf, CEval, CEvalArgs, HasType, IsStatus, CheckBlock, CheckLoop, CRunBlock, Check, CRun;
    hide LeavesWith, Completes;
    match s
    case CWhile(_, _) => SafeWhile(fuel, functions, limit, f, scopes, returned, frames, output, s);
    case CIf(_, _) => SafeIf(fuel, functions, limit, f, scopes, returned, frames, output, s);
    case CFor(_, _, _, _, _) => SafeFor(fuel, functions, limit, f, scopes, returned, frames, output, s);
    case CForEach(_, _, _, _) => SafeForEach(fuel, functions, limit, f, scopes, returned, frames, output, s);
    case CReturn(_) => SafeReturn(fuel, functions, limit, f, scopes, returned, frames, output, s);
    case CExit(_) => SafeReturn(fuel, functions, limit, f, scopes, returned, frames, output, s);
    case _ => SafePlain(fuel, functions, limit, f, scopes, returned, frames, output, s);
  }

  lemma {:induction false} SafePlain(fuel: nat, functions: seq<CFunction>, limit: nat, f: CFunction, scopes: Scopes,
                                     returned: Option<CType>, frames: Frames, output: seq<Value>, s: CStmt)
    requires limit <= |functions| && Fits(scopes, frames) && Check(functions, limit, f, scopes, returned, s).Accepted?
    requires s.CDeclare? || s.CSet? || s.CDo? || s.CPrint?
    ensures Completes(f, Check(functions, limit, f, scopes, returned, s),
                      CRun(fuel, functions, limit, frames, output, s))
    decreases fuel, 1, s, 1
  {
    hide Fits, TypeOf, CEval;
    var e := if s.CDo? then s.expression else s.value;
    SafeExpr(fuel, functions, limit, scopes, frames, output, e);
    var v := CEval(fuel, functions, limit, frames, output, e).0;
    if v.Got? {
      var t := TypeOf(functions, limit, scopes, e).value;
      if s.CDeclare? {
        DeclareFits(scopes, frames, s.name, Declaration(t, s.constant), v.value);
      } else if s.CSet? {
        VisibleFits(scopes, frames, s.name);
        FittingValues(Visible(scopes, s.name).value.kind, t, Find(frames, s.name).value.value, v.value);
        UpdateFits(scopes, frames, s.name, v.value);
      }
      hide Update, Find, Visible;
    }
  }

  /** A value of a fitting type can be assigned. */
  lemma FittingValues(declared: CType, t: CType, before: Value, v: Value)
    requires Fitting(declared, t) && HasType(before, declared) && HasType(v, t)
    ensures TypeName(before) == TypeName(v) && HasType(v, declared)
  {
  }

  lemma {:induction false} SafeReturn(fuel: nat, functions: seq<CFunction>, limit: nat, f: CFunction, scopes: Scopes,
                                      returned: Option<CType>, frames: Frames, output: seq<Value>, s: CStmt)
    requires limit <= |functions| && Fits(scopes, frames) && Check(functions, limit, f, scopes, returned, s).Accepted?
    requires s.CReturn? || s.CExit?
    ensures Completes(f, Check(functions, limit, f, scopes, returned, s),
                      CRun(fuel, functions, limit, frames, output, s))
    decreases fuel, 1, s, 1
  {
    hide Fits, TypeOf, CEval;
    if s.result.Some? {
      SafeExpr(fuel, functions, limit, scopes, frames, output, s.result.value);
    }
  }

  lemma {:induction false} SafeCondition(fuel: nat, functions: seq<CFunction>, limit: nat, scopes: Scopes,
                                         frames: Frames, output: seq<Value>, e: CExpr)
    requires limit <= |functions| && Fits(scopes, frames) && IsCondition(functions, limit, scopes, e)
    ensures var v := CEval(fuel, functions, limit, frames, output, e).0;
            !v.Stuck? && (v.Got? ==> IsBool(v.value))
    decreases fuel, 1, e, 2
  {
    hide Fits, TypeOf, CEval;
    SafeExpr(fuel, functions, limit, scopes, frames, output, e);
  }

  lemma {:induction false} SafeCount(fuel: nat, functions: seq<CFunction>, limit: nat, scopes: Scopes, frames: Frames,
                                     output: seq<Value>, e: CExpr)
    requires limit <= |functions| && Fits(scopes, frames) && IsCount(functions, limit, scopes, e)
    ensures var v := CEval(fuel, functions, limit, frames, output, e).0;
            !v.Stuck? && (v.Got? ==> IsInt(v.value))
    decreases fuel, 1, e, 2
  {
    hide Fits, TypeOf, CEval;
    SafeExpr(fuel, functions, limit, scopes, frames, output, e);
  }

  lemma {:induction false} SafeBlock(fuel: nat, functions: seq<CFunction>, limit: nat, f: CFunction, scopes: Scopes,
                                     returned: Option<CType>, frames: Frames, output: seq<Value>, ss: seq<CStmt>)
    requires limit <= |functions| && Fits(scopes, frames)
             && CheckBlock(functions, limit, f, scopes, returned, ss).Accepted?
    ensures Completes(f, CheckBlock(functions, limit, f, scopes, returned, ss),
                      CRunBlock(fuel, functions, limit, frames, output, ss))
    decreases fuel, 1, ss, 1
  {
    hide Fits, CheckAll, CRunAll, HasType, IsStatus, LeavesWith, Holds;
    NothingDeclared();
    FitsInner(scopes, frames, map[], map[]);
    SafeAll(fuel, functions, limit, f, scopes + [map[]], returned, frames + [map[]], output, ss);
    var v := CheckAll(functions, limit, f, scopes + [map[]], returned, ss);
    var r := CRunAll(fuel, functions, limit, frames + [map[]], output, ss);
    OuterScopesStay(functions, limit, f, scopes + [map[]], returned, ss);
    if r.completion.Through? {
      LeaveFits(v.scopes, r.frames, scopes);
    }
  }

  lemma LeaveFits(inner: Scopes, frames: Frames, outer: Scopes)
    requires Fits(inner, frames) && |inner| == |outer| + 1 && inner[..|outer|] == outer
    ensures frames != [] && Fits(outer, frames[..|frames| - 1])
  {
    FitsOuter(inner, frames);
    hide Holds;
    assert |frames| == |inner|;
  }

  /** Declarations are added to the innermost block only. */
  lemma {:induction false} OuterScopesStay(functions: seq<CFunction>, limit: nat, f: CFunction, scopes: Scopes,
                                           returned: Option<CType>, ss: seq<CStmt>)
    requires limit <= |functions| && CheckAll(functions, limit, f, scopes, returned, ss).Accepted? && scopes != []
    ensures var after := CheckAll(functions, limit, f, scopes, returned, ss).scopes;
            |after| == |scopes| && after[..|scopes| - 1] == scopes[..|scopes| - 1]
    decreases ss
  {
    hide Check;
    if ss != [] {
      var v := Check(functions, limit, f, scopes, returned, ss[0]);
      OuterScopesStayOne(functions, limit, f, scopes, returned, ss[0]);
      OuterScopesStay(functions, limit, f, v.scopes, v.returned, ss[1..]);
    }
  }

  lemma OuterScopesStayOne(functions: seq<CFunction>, limit: nat, f: CFunction, scopes: Scopes, returned: Option<CType>,
                           s: CStmt)
    requires limit <= |functions| && Check(functions, limit, f, scopes, returned, s).Accepted? && scopes != []
    ensures var after := Check(functions, limit, f, scopes, returned, s).scopes;
            |after| == |scopes| && after[..|scopes| - 1] == scopes[..|scopes| - 1]
  {
    hide TypeOf, TypesOf, CheckBlock, CheckLoop, CheckBranches, IsCondition, IsCount, Visible, Fitting, Mentions;
  }

  lemma {:induction false} SafeWhile(fuel: nat, functions: seq<CFunction>, limit: nat, f: CFunction, scopes: Scopes,
                                     returned: Option<CType>, frames: Frames, output: seq<Value>, s: CStmt)
    requires limit <= |functions| && Fits(scopes, frames) && Check(functions, limit, f, scopes, returned, s).Accepted?
    requires s.CWhile?
    ensures Completes(f, Check(functions, limit, f, scopes, returned, s),
                      CRun(fuel, functions, limit, frames, output, s))
    decreases fuel, 1, s, 1
  {
    hide Fits, CEval, CheckBlock, CRunBlock, IsCondition, LeavesWith;
    SafeCondition(fuel, functions, limit, scopes, frames, output, s.condition);
    var (v, out) := CEval(fuel, functions, limit, frames, output, s.condition);
    if v.Got? && v.value.value.b && fuel > 0 {
      SafeBlock(fuel, functions, limit, f, scopes, returned, frames, out, s.body);
      var r := CRunBlock(fuel, functions, limit, frames, out, s.body);
      if r.completion.Through? {
        SafeWhile(fuel - 1, functions, limit, f, scopes, returned, r.frames, r.output, s);
      }
    }
  }

  lemma {:induction false} SafeIf(fuel: nat, functions: seq<CFunction>, limit: nat, f: CFunction, scopes: Scopes,
                                  returned: Option<CType>, frames: Frames, output: seq<Value>, s: CStmt)
    requires limit <= |functions| && Fits(scopes, frames) && Check(functions, limit, f, scopes, returned, s).Accepted?
    requires s.CIf?
    ensures Completes(f, Check(functions, limit, f, scopes, returned, s),
                      CRun(fuel, functions, limit, frames, output, s))
    decreases fuel, 1, s, 1
  {
    hide Fits, CheckBranches, CheckBlock, CRunIf, Completes;
    assert s.branches[0..] == s.branches;
    SafeBranches(fuel, functions, limit, f, scopes, returned, frames, output, s, 0);
  }

  /** What becomes of an if from branch `i` on. */
  function CheckedIf(functions: seq<CFunction>, limit: nat, f: CFunction, scopes: Scopes, returned: Option<CType>,
                     s: CStmt, i: nat): Verdict
    requires limit <= |functions| && s.CIf? && i <= |s.branches|
  {
    var r := CheckBranches(functions, limit, f, scopes, returned, s.branches[i..]);
    if r.Rejected? || s.otherwise.NoElse? then r
    else CheckBlock(functions, limit, f, scopes, r.returned, s.otherwise.body)
  }

  /** A type that was deduced before is kept to the end. */
  lemma DeducedEarlier(f: CFunction, v: Verdict, v': Verdict, r: CState)
    requires Completes(f, v, r) && v'.Accepted? && v'.scopes == v.scopes
    requires IsKept(v.returned, v'.returned)
    ensures Completes(f, v', r)
  {
    hide Fits;
  }

  lemma {:induction false} SafeBranches(fuel: nat, functions: seq<CFunction>, limit: nat, f: CFunction, scopes: Scopes,
                                        returned: Option<CType>, frames: Frames, output: seq<Value>, s: CStmt, i: nat)
    requires limit <= |functions| && Fits(scopes, frames) && s.CIf? && i <= |s.branches|
    requires CheckedIf(functions, limit, f, scopes, returned, s, i).Accepted?
    ensures Completes(f, CheckedIf(functions, limit, f, scopes, returned, s, i),
                      CRunIf(fuel, functions, limit, frames, output, s, i))
    decreases fuel, 1, s, 0, |s.branches| - i
  {
    hide Fits, CheckBlock, CRunBlock, CEval, IsCondition, LeavesWith;
    var all := CheckedIf(functions, limit, f, scopes, returned, s, i);
    if i == |s.branches| {
      if s.otherwise.Else? {
        SafeBlock(fuel, functions, limit, f, scopes, returned, frames, output, s.otherwise.body);
      }
    } else {
      var b := s.branches[i];
      assert s.branches[i..][0] == b && s.branches[i..][1..] == s.branches[i + 1..];
      SafeCondition(fuel, functions, limit, scopes, frames, output, b.condition);
      var (v, out) := CEval(fuel, functions, limit, frames, output, b.condition);
      var one := CheckBlock(functions, limit, f, scopes, returned, b.body);
      assert CheckedIf(functions, limit, f, scopes, one.returned, s, i + 1) == all;
      hide CheckBranches;
      if v.Got? {
        if v.value.value.b {
          SafeBlock(fuel, functions, limit, f, scopes, returned, frames, out, b.body);
          DeducedEarlier(f, one, all, CRunBlock(fuel, functions, limit, frames, out, b.body));
        } else {
          SafeBranches(fuel, functions, limit, f, scopes, one.returned, frames, out, s, i + 1);
        }
      }
    }
  }

  // ---- Loops ----

  /** The scopes in the body of a loop. */
  function WithCounter(scopes: Scopes, variable: string, d: Declaration): Scopes { scopes + [map[variable := d]] }

  lemma CounterHolds(variable: string, d: Declaration, v: Value)
    requires HasType(v, d.kind) && d.kind != VoidType
    ensures Holds(map[variable := d], map[variable := Cell(v, d.constant)])
  {
  }

  lemma CounterIsVisible(scopes: Scopes, variable: string, d: Declaration)
    ensures Visible(WithCounter(scopes, variable, d), variable) == Some(d)
  {
  }

  lemma {:induction false} SafeFor(fuel: nat, functions: seq<CFunction>, limit: nat, f: CFunction, scopes: Scopes,
                                   returned: Option<CType>, frames: Frames, output: seq<Value>, s: CStmt)
    requires limit <= |functions| && Fits(scopes, frames) && Check(functions, limit, f, scopes, returned, s).Accepted?
    requires s.CFor?
    ensures Completes(f, Check(functions, limit, f, scopes, returned, s),
                      CRun(fuel, functions, limit, frames, output, s))
    decreases fuel, 1, s, 1
  {
    hide Fits, CEval, CheckBlock, CRunFor, IsCount, LeavesWith, HasType, Holds, Mentions;
    NothingDeclared();
    FitsInner(scopes, frames, map[], map[]);
    SafeCount(fuel, functions, limit, scopes + [map[]], frames + [map[]], output, s.start);
    var (v, out) := CEval(fuel, functions, limit, frames + [map[]], output, s.start);
    if v.Got? {
      var d := Declaration(LongType, false);
      var inner := WithCounter(scopes, s.variable, d);
      var entered := frames + [map[s.variable := Cell(v.value, false)]];
      WideValues(v.value);
      CounterHolds(s.variable, d, v.value);
      FitsInner(scopes, frames, map[s.variable := d], map[s.variable := Cell(v.value, false)]);
      SafeRounds(fuel, functions, limit, f, scopes, returned, entered, out, s);
      var r := CRunFor(fuel, functions, limit, entered, out, s);
      if r.completion.Through? {
        LeaveFits(inner, r.frames, scopes);
      }
    }
  }

  lemma WideValues(v: Value)
    ensures IsInt(v) ==> HasType(v, LongType)
  {
  }

  lemma {:induction false} SafeRounds(fuel: nat, functions: seq<CFunction>, limit: nat, f: CFunction, scopes: Scopes,
                                      returned: Option<CType>, frames: Frames, output: seq<Value>, s: CStmt)
    requires limit <= |functions| && s.CFor? && Check(functions, limit, f, scopes, returned, s).Accepted?
    requires Fits(WithCounter(scopes, s.variable, Declaration(LongType, false)), frames)
    ensures var inner := WithCounter(scopes, s.variable, Declaration(LongType, false));
            Completes(f, CheckBlock(functions, limit, f, inner, returned, s.body),
                      CRunFor(fuel, functions, limit, frames, output, s))
    decreases fuel, 1, s, 0
  {
    hide Fits, CEval, CheckBlock, CRunBlock, IsCount, LeavesWith, HasType, Mentions, Find, Visible, Update;
    var d := Declaration(LongType, false);
    var inner := WithCounter(scopes, s.variable, d);
    CounterIsVisible(scopes, s.variable, d);
    SafeCount(fuel, functions, limit, inner, frames, output, s.step);
    var (step, out) := CEval(fuel, functions, limit, frames, output, s.step);
    SafeCount(fuel, functions, limit, inner, frames, out, s.stop);
    var (stop, out') := CEval(fuel, functions, limit, frames, out, s.stop);
    VisibleFits(inner, frames, s.variable);
    WideIsInt(Find(frames, s.variable).value.value);
    SafeBlock(fuel, functions, limit, f, inner, returned, frames, out', s.body);
    var r := CRunBlock(fuel, functions, limit, frames, out', s.body);
    if r.completion.Through? && fuel > 0 {
      SafeCount(fuel, functions, limit, inner, r.frames, r.output, s.step);
      var (again, out'') := CEval(fuel, functions, limit, r.frames, r.output, s.step);
      VisibleFits(inner, r.frames, s.variable);
      WideIsInt(Find(r.frames, s.variable).value.value);
      if again.Got? {
        var next := IntV(Find(r.frames, s.variable).value.value.value.i + again.value.value.i);
        WideValues(next);
        UpdateFits(inner, r.frames, s.variable, next);
        SafeRounds(fuel - 1, functions, limit, f, scopes, returned, Update(r.frames, s.variable, next).value, out'', s);
      }
    }
  }

  lemma WideIsInt(v: Value)
    requires HasType(v, LongType)
    ensures IsInt(v)
  {
  }

  lemma {:induction false} SafeForEach(fuel: nat, functions: seq<CFunction>, limit: nat, f: CFunction, scopes: Scopes,
                                       returned: Option<CType>, frames: Frames, output: seq<Value>, s: CStmt)
    requires limit <= |functions| && Fits(scopes, frames) && Check(functions, limit, f, scopes, returned, s).Accepted?
    requires s.CForEach?
    ensures Completes(f, Check(functions, limit, f, scopes, returned, s),
                      CRun(fuel, functions, limit, frames, output, s))
    decreases fuel, 1, s, 1
  {
    hide Fits, CEvalArgs, TypesOf, CheckBlock, CRunForEach, LeavesWith, HasType, Holds;
    NothingDeclared();
    FitsInner(scopes, frames, map[], map[]);
    SafeArgs(fuel, functions, limit, scopes + [map[]], frames + [map[]], output, s.elements);
    var (vs, out) := CEvalArgs(fuel, functions, limit, frames + [map[]], output, s.elements);
    if vs.GotAll? {
      var t := if s.kind == "bool" then BoolType else StringType;
      SafeItems(fuel, functions, limit, f, scopes, returned, frames, out, s.variable, t, vs.values, s.body);
    }
  }

  lemma {:induction false} SafeItems(fuel: nat, functions: seq<CFunction>, limit: nat, f: CFunction, scopes: Scopes,
                                     returned: Option<CType>, frames: Frames, output: seq<Value>, variable: string,
                                         t: CType, items: seq<Value>, body: seq<CStmt>)
    requires limit <= |functions| && Fits(scopes, frames) && t != VoidType
    requires CheckLoop(functions, limit, f, scopes, returned, variable, Declaration(t, true), body).Accepted?
    requires forall i | 0 <= i < |items| :: HasType(items[i], t)
    ensures Completes(f, CheckLoop(functions, limit, f, scopes, returned, variable, Declaration(t, true), body),
                      CRunForEach(fuel, functions, limit, frames, output, variable, items, body))
    decreases fuel, 1, body, 2
  {
    hide Fits, CheckBlock, CRunBlock, LeavesWith, HasType, Holds;
    if items != [] && fuel > 0 {
      var d := Declaration(t, true);
      CounterHolds(variable, d, items[0]);
      var entered := frames + [map[variable := Cell(items[0], true)]];
      FitsInner(scopes, frames, map[variable := d], map[variable := Cell(items[0], true)]);
      SafeBlock(fuel, functions, limit, f, WithCounter(scopes, variable, d), returned, entered, output, body);
      var r := CRunBlock(fuel, functions, limit, entered, output, body);
      if r.completion.Through? {
        LeaveFits(WithCounter(scopes, variable, d), r.frames, scopes);
        SafeItems(fuel - 1, functions, limit, f, scopes, returned, Leave(r).frames, r.output, variable, t, items[1..],
                  body);
      }
    }
  }

  // ---- Leaving a function ----

  /** A block that cannot be left at its end is never run through. */
  lemma {:induction false} NeverThrough(fuel: nat, functions: seq<CFunction>, limit: nat, frames: Frames,
                                        output: seq<Value>, ss: seq<CStmt>)
    requires limit <= |functions| && NeverEnds(ss)
    ensures !CRunAll(fuel, functions, limit, frames, output, ss).completion.Through?
    decreases fuel, ss, 0
  {
    hide CRun;
    var r := CRun(fuel, functions, limit, frames, output, ss[0]);
    if StatementNeverEnds(ss[0]) {
      StatementNeverThrough(fuel, functions, limit, frames, output, ss[0]);
    } else if r.completion.Through? {
      NeverThrough(fuel, functions, limit, r.frames, r.output, ss[1..]);
    }
  }

  lemma {:induction false} StatementNeverThrough(fuel: nat, functions: seq<CFunction>, limit: nat, frames: Frames,
                                                 output: seq<Value>, s: CStmt)
    requires limit <= |functions| && StatementNeverEnds(s)
    ensures !CRun(fuel, functions, limit, frames, output, s).completion.Through?
    decreases fuel, s, 1
  {
    match s
    case CIf(_, _) =>
      assert s.branches[0..] == s.branches;
      BranchesNeverThrough(fuel, functions, limit, frames, output, s, 0);
    case CWhile(_, body) =>
      var r := CRunBlock(fuel, functions, limit, frames, output, body);
      if r.completion.Through? && fuel > 0 {
        StatementNeverThrough(fuel - 1, functions, limit, r.frames, r.output, s);
      }
    case _ =>
  }

  lemma {:induction false} BranchesNeverThrough(fuel: nat, functions: seq<CFunction>, limit: nat, frames: Frames,
                                                output: seq<Value>, s: CStmt, i: nat)
    requires limit <= |functions| && s.CIf? && i <= |s.branches| && s.otherwise.Else?
    requires BranchesNeverEnd(s.branches[i..]) && NeverEnds(s.otherwise.body)
    ensures !CRunIf(fuel, functions, limit, frames, output, s, i).completion.Through?
    decreases fuel, s, 0, |s.branches| - i
  {
    hide CEval;
    if i == |s.branches| {
      NeverThrough(fuel, functions, limit, frames + [map[]], output, s.otherwise.body);
    } else {
      assert s.branches[i..][0] == s.branches[i] && s.branches[i..][1..] == s.branches[i + 1..];
      var (_, out) := CEval(fuel, functions, limit, frames, output, s.branches[i].condition);
      NeverThrough(fuel, functions, limit, frames + [map[]], out, s.branches[i].body);
      BranchesNeverThrough(fuel, functions, limit, frames, out, s, i + 1);
    }
  }

  /** A type other than void is deduced from a return with a value. */
  predicate DeducedFromValue(returned: Option<CType>, r: Verdict, valued: bool) {
    r.Accepted? && returned.None? && r.returned.Some? && r.returned.value != VoidType ==> valued
  }

  lemma {:induction false} ValuesAreReturned(functions: seq<CFunction>, limit: nat, f: CFunction, scopes: Scopes,
                                             returned: Option<CType>, ss: seq<CStmt>)
    requires limit <= |functions|
    ensures DeducedFromValue(returned, CheckAll(functions, limit, f, scopes, returned, ss), Returns(ss, true))
    decreases ss, 0
  {
    hide Check, StatementReturns;
    if ss != [] {
      ValueIsReturned(functions, limit, f, scopes, returned, ss[0]);
      var r := Check(functions, limit, f, scopes, returned, ss[0]);
      if r.Accepted? {
        ValuesAreReturned(functions, limit, f, r.scopes, r.returned, ss[1..]);
      }
    }
  }

  lemma {:induction false} ValueIsReturned(functions: seq<CFunction>, limit: nat, f: CFunction, scopes: Scopes,
                                           returned: Option<CType>, s: CStmt)
    requires limit <= |functions|
    ensures DeducedFromValue(returned, Check(functions, limit, f, scopes, returned, s), StatementReturns(s, true))
    decreases s, 2
  {
    hide TypeOf, TypesOf, CheckAll, IsCondition, IsCount, Visible, Fitting, Mentions, CheckBranches, Returns;
    hide BranchReturns;
    match s
    case CWhile(_, body) => BlockIsReturned(functions, limit, f, scopes, returned, body);
    case CIf(branches, otherwise) =>
      BranchesAreReturned(functions, limit, f, scopes, returned, branches);
      var r := CheckBranches(functions, limit, f, scopes, returned, branches);
      if r.Accepted? && otherwise.Else? {
        BlockIsReturned(functions, limit, f, scopes, r.returned, otherwise.body);
      }
    case CFor(variable, _, _, _, body) =>
      BlockIsReturned(functions, limit, f, WithCounter(scopes, variable, Declaration(LongType, false)), returned, body);
    case CForEach(kind, variable, _, body) =>
      var d := Declaration(if kind == "bool" then BoolType else StringType, true);
      BlockIsReturned(functions, limit, f, WithCounter(scopes, variable, d), returned, body);
    case _ =>
  }

  lemma {:induction false} BlockIsReturned(functions: seq<CFunction>, limit: nat, f: CFunction, scopes: Scopes,
                                           returned: Option<CType>, ss: seq<CStmt>)
    requires limit <= |functions|
    ensures DeducedFromValue(returned, CheckBlock(functions, limit, f, scopes, returned, ss), Returns(ss, true))
    decreases ss, 1
  {
    hide CheckAll, Returns;
    ValuesAreReturned(functions, limit, f, scopes + [map[]], returned, ss);
  }

  lemma {:induction false} BranchesAreReturned(functions: seq<CFunction>, limit: nat, f: CFunction, scopes: Scopes,
                                               returned: Option<CType>, branches: seq<CBranch>)
    requires limit <= |functions|
    ensures DeducedFromValue(returned, CheckBranches(functions, limit, f, scopes, returned, branches),
                             BranchReturns(branches, true))
    decreases branches, 0
  {
    hide CheckBlock, Returns, IsCondition;
    if branches != [] {
      BlockIsReturned(functions, limit, f, scopes, returned, branches[0].body);
      var r := CheckBlock(functions, limit, f, scopes, returned, branches[0].body);
      if r.Accepted? {
        BranchesAreReturned(functions, limit, f, scopes, r.returned, branches[1..]);
      }
    }
  }

  // ---- Whole programs ----

  lemma AcceptedReturnsProperly(functions: seq<CFunction>)
    requires Compiles(functions)
    ensures forall i | 0 <= i < |functions| :: ReturnsProperly(functions[i].body)
  {
    hide CheckAll, ReturnsProperly;
    forall i | 0 <= i < |functions|
      ensures ReturnsProperly(functions[i].body)
    {
      assert InstanceType(functions, i, Unknowns(|functions[i].parameters|)).Some?;
    }
  }

  /** Firmware that C++ accepts never gets stuck, and main gives an exit status. */
  lemma {:induction false} AcceptedNeverGetsStuck(fuel: nat, functions: seq<CFunction>)
    requires Compiles(functions) && Declared(functions, |functions|, "main").Some?
    ensures var r := CRunProgram(fuel, functions).0;
            r.Spent? || (r.Got? && (r.value.VoidTree? || IsStatus(r.value)))
  {
    hide CheckAll, CRunAll, NeverEnds, Returns, IsStatus;
    var i := Declared(functions, |functions|, "main").value;
    var f := functions[i];
    assert HasDistinctParameters(f) && InstanceType(functions, i, Unknowns(0)).Some?;
    if fuel > 0 {
      BoundFits([], [], []);
      var (scopes, frames) := ([BindTypes([], [])], [BindAll([], [])]);
      SafeAll(fuel - 1, functions, i, f, scopes, None, frames, [], f.body);
    }
  }
}
