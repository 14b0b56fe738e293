/** What a C++ compiler finds out about firmware before it runs, unreached code included: every name
    and function is declared before it is used, operands and assigned values are of fitting types, and
    all returns of a function deduce one type. Functions with parameters are templates: a call
    instantiates one with the types of its arguments, and before that its body is checked with unknown
    ones. Running off the end of a value function is refused here as well, although compilers only warn.
    Where C++ converts silently between truth values, numbers and characters, these rules are stricter. */
module CppTypes {
  import opened Ast
  import opened Semantics
  import opened Cpp

  /** bool, int, std::int64_t, std::string and void; and a type that depends on template parameters. */
  datatype CType = BoolType | IntType | LongType | StringType | VoidType | Dependent

  datatype Declaration = Declaration(kind: CType, constant: bool)

  /** One map per open block, innermost last. */
  type Scopes = seq<map<string, Declaration>>

  /** The declarations behind a statement, and the type that the returns so far deduce. */
  datatype Verdict = Rejected | Accepted(scopes: Scopes, returned: Option<CType>)

  function Visible(scopes: Scopes, name: string): Option<Declaration> {
    if scopes == [] then None
    else
      var inner := scopes[|scopes| - 1];
      if name in inner then Some(inner[name]) else Visible(scopes[..|scopes| - 1], name)
  }

  // ---- Expressions ----

  predicate IsNumeric(t: CType) { t == IntType || t == LongType || t == Dependent }

  predicate IsTruth(t: CType) { t == BoolType || t == Dependent }

  /** A literal is an int if it fits, and a 64-bit integer otherwise; a larger one is refused. */
  function LiteralType(v: Value): Option<CType> {
    if IsBool(v) then Some(BoolType)
    else if IsText(v) then Some(StringType)
    else if !IsInt(v) then None
    else
      var size := if v.value.i < 0 then -v.value.i else v.value.i;
      if size < 0x8000_0000 then Some(IntType) else if size < 0x8000_0000_0000_0000 then Some(LongType) else None
  }

  function Arithmetic(l: CType, r: CType): Option<CType> {
    if !IsNumeric(l) || !IsNumeric(r) then None
    else Some(if l == Dependent || r == Dependent then Dependent else if l == LongType || r == LongType then LongType
              else IntType)
  }

  function UnaryType(operator: string, t: CType): Option<CType> {
    if operator == "!" then if IsTruth(t) then Some(t) else None
    else if operator == "-" || operator == "+" then if IsNumeric(t) then Some(t) else None
    else None
  }

  /** Division is no part of the modelled C++. */
  function BinaryType(operator: string, l: CType, r: CType): Option<CType> {
    if operator in {"&&", "||"} then
      if IsTruth(l) && IsTruth(r) then Some(BoolType) else None
    else if operator == "+" && l == StringType && r == StringType then Some(StringType)
    else if operator in {"+", "-", "*"} then Arithmetic(l, r)
    else if operator in {"<", "<=", ">", ">="} then
      var t := Arithmetic(l, r);
      if t.None? then None else Some(if t.value == Dependent then Dependent else BoolType)
    else if operator in {"==", "!="} then
      if !Fitting(l, r) then None else Some(if l == Dependent || r == Dependent then Dependent else BoolType)
    else None
  }

  /** Whether a value of type `t` can be assigned to a variable of type `declared`, or compared with it. */
  predicate Fitting(declared: CType, t: CType) {
    && declared != VoidType && t != VoidType
    && (declared == t || declared == Dependent || t == Dependent || (IsNumeric(declared) && IsNumeric(t)))
  }

  function TypeOf(functions: seq<CFunction>, limit: nat, scopes: Scopes, e: CExpr): Option<CType>
    requires limit <= |functions|
    decreases limit, 0, e, 0
  {
    match e
    case CLiteral(v) => LiteralType(v)
    case CFloat(_) => None
    case CVariable(name) =>
      var d := Visible(scopes, name);
      if d.None? then None else Some(d.value.kind)
    case CParenthesis(inner) => TypeOf(functions, limit, scopes, inner)
    case CUnary(operator, operand) =>
      var t := TypeOf(functions, limit, scopes, operand);
      if t.None? then None else UnaryType(operator, t.value)
    case CBinary(left, operator, right) =>
      var l := TypeOf(functions, limit, scopes, left);
      var r := TypeOf(functions, limit, scopes, right);
      if l.None? || r.None? then None else BinaryType(operator, l.value, r.value)
    case CLibrary(_, _, _) => None
    case CCall(name, arguments) =>
      var types := TypesOf(functions, limit, scopes, arguments);
      var i := Declared(functions, limit, name);
      if types.None? || VoidType in types.value || i.None? || name == "main"
         || |types.value| != |functions[i.value].parameters|
      then None
      else if Dependent in types.value then Some(Dependent)
      else InstanceType(functions, i.value, types.value)
  }

  function TypesOf(functions: seq<CFunction>, limit: nat, scopes: Scopes, es: seq<CExpr>): (r: Option<seq<CType>>)
    requires limit <= |functions|
    ensures r.Some? ==> |r.value| == |es|
    decreases limit, 0, es, 0
  {
    if es == [] then Some([])
    else
      var t := TypeOf(functions, limit, scopes, es[0]);
      var rest := TypesOf(functions, limit, scopes, es[1..]);
      if t.None? || rest.None? then None else Some([t.value] + rest.value)
  }

  // ---- Functions ----

  function BindTypes(names: seq<string>, types: seq<CType>): map<string, Declaration>
    requires |names| == |types|
  {
    if names == [] then map[]
    else
      var last := |names| - 1;
      BindTypes(names[..last], types[..last])[names[last] := Declaration(types[last], false)]
  }

  /** The type that calls of function number `i` have with arguments of these types, if its body is accepted. */
  function InstanceType(functions: seq<CFunction>, i: nat, types: seq<CType>): Option<CType>
    requires i < |functions| && |types| == |functions[i].parameters|
    decreases i, 1
  {
    var f := functions[i];
    var body := CheckAll(functions, i, f, [BindTypes(f.parameters, types)], None, f.body);
    if body.Rejected? || !ReturnsProperly(f.body) then None
    else Some(if body.returned.Some? then body.returned.value else VoidType)
  }

  // ---- Statements ----

  /** A type that has been deduced stays. */
  predicate IsKept(before: Option<CType>, after: Option<CType>) {
    before.Some? && before.value != Dependent ==> after == before
  }

  /** One more return of this type. */
  function Return(scopes: Scopes, returned: Option<CType>, t: CType): Verdict {
    if returned.None? || returned.value == Dependent then Accepted(scopes, Some(t))
    else if returned.value == t || t == Dependent then Accepted(scopes, returned)
    else Rejected
  }

  /** A statement of function `f`, which sees the functions before number `limit`. */
  function Check(functions: seq<CFunction>, limit: nat, f: CFunction, scopes: Scopes, returned: Option<CType>,
                 s: CStmt):
    (r: Verdict)
    requires limit <= |functions|
    ensures r.Accepted? ==> |r.scopes| == |scopes| && IsKept(returned, r.returned)
    decreases limit, 0, s, 1
  {
    match s
    case CDeclare(constant, name, e) =>
      var t := TypeOf(functions, limit, scopes, e);
      var last := |scopes| - 1;
      if t.None? || t.value == VoidType || scopes == [] || name in scopes[last] then Rejected
      else Accepted(scopes[last := scopes[last][name := Declaration(t.value, constant)]], returned)
    case CSet(name, e) =>
      var t := TypeOf(functions, limit, scopes, e);
      var d := Visible(scopes, name);
      if t.None? || d.None? || d.value.constant || !Fitting(d.value.kind, t.value) then Rejected
      else Accepted(scopes, returned)
    case CDo(e) => if TypeOf(functions, limit, scopes, e).None? then Rejected else Accepted(scopes, returned)
    case CPrint(e) =>
      var t := TypeOf(functions, limit, scopes, e);
      if t.None? || t.value == VoidType then Rejected else Accepted(scopes, returned)
    case CReturn(result) =>
      if !f.returnsAuto then Rejected
      else if result.None? then Return(scopes, returned, VoidType)
      else
        var t := TypeOf(functions, limit, scopes, result.value);
        if t.None? then Rejected else Return(scopes, returned, t.value)
    case CExit(result) =>
      if f.name != "main" then Rejected
      else if result.None? then Accepted(scopes, returned)
      else
        var t := TypeOf(functions, limit, scopes, result.value);
        if t.None? || !(IsNumeric(t.value) || IsTruth(t.value)) then Rejected else Accepted(scopes, returned)
    case CWhile(condition, body) =>
      if !IsCondition(functions, limit, scopes, condition) then Rejected
      else CheckBlock(functions, limit, f, scopes, returned, body)
    case CIf(branches, otherwise) =>
      var r := CheckBranches(functions, limit, f, scopes, returned, branches);
      if r.Rejected? || otherwise.NoElse? then r
      else CheckBlock(functions, limit, f, scopes, r.returned, otherwise.body)
    case CFor(variable, start, stop, step, body) =>
      var inner := scopes + [map[variable := Declaration(LongType, false)]];
      if !IsCount(functions, limit, scopes + [map[]], start) || Mentions(start, variable)
         || !IsCount(functions, limit, inner, stop) || !IsCount(functions, limit, inner, step)
      then Rejected
      else CheckLoop(functions, limit, f, scopes, returned, variable, Declaration(LongType, false), body)
    case CForEach(kind, variable, elements, body) =>
      var types := TypesOf(functions, limit, scopes + [map[]], elements);
      var t := if kind == "bool" then BoolType else StringType;
      if kind !in {"bool", "std::string"} || types.None? || exists k | 0 <= k < |types.value| :: types.value[k] != t
      then Rejected
      else CheckLoop(functions, limit, f, scopes, returned, variable, Declaration(t, true), body)
  }

  predicate IsCondition(functions: seq<CFunction>, limit: nat, scopes: Scopes, e: CExpr)
    requires limit <= |functions|
    decreases limit, 0, e, 1
  {
    var t := TypeOf(functions, limit, scopes, e);
    t.Some? && IsTruth(t.value)
  }

  predicate IsCount(functions: seq<CFunction>, limit: nat, scopes: Scopes, e: CExpr)
    requires limit <= |functions|
    decreases limit, 0, e, 1
  {
    var t := TypeOf(functions, limit, scopes, e);
    t.Some? && IsNumeric(t.value)
  }

  /** A loop variable is in scope in its own initial value, and has no value there yet. */
  predicate Mentions(e: CExpr, name: string) {
    match e
    case CVariable(n) => n == name
    case CParenthesis(inner) => Mentions(inner, name)
    case CUnary(_, operand) => Mentions(operand, name)
    case CBinary(left, _, right) => Mentions(left, name) || Mentions(right, name)
    case CLibrary(_, left, right) => Mentions(left, name) || Mentions(right, name)
    case CCall(_, arguments) => exists i | 0 <= i < |arguments| :: Mentions(arguments[i], name)
    case _ => false
  }

  /** The body of a loop must not declare the loop variable again. */
  function CheckLoop(functions: seq<CFunction>, limit: nat, f: CFunction, scopes: Scopes, returned: Option<CType>,
                     variable: string, d: Declaration, body: seq<CStmt>): (r: Verdict)
    requires limit <= |functions|
    ensures r.Accepted? ==> r.scopes == scopes && IsKept(returned, r.returned)
    decreases limit, 0, body, 2
  {
    if exists i | 0 <= i < |body| :: body[i].CDeclare? && body[i].name == variable then Rejected
    else
      var r := CheckBlock(functions, limit, f, scopes + [map[variable := d]], returned, body);
      if r.Rejected? then r else Accepted(scopes, r.returned)
  }

  function CheckBlock(functions: seq<CFunction>, limit: nat, f: CFunction, scopes: Scopes, returned: Option<CType>,
                      ss: seq<CStmt>): (r: Verdict)
    requires limit <= |functions|
    ensures r.Accepted? ==> r.scopes == scopes && IsKept(returned, r.returned)
    decreases limit, 0, ss, 1
  {
    var r := CheckAll(functions, limit, f, scopes + [map[]], returned, ss);
    if r.Rejected? then r else Accepted(scopes, r.returned)
  }

  function CheckBranches(functions: seq<CFunction>, limit: nat, f: CFunction, scopes: Scopes, returned: Option<CType>,
                         branches: seq<CBranch>): (r: Verdict)
    requires limit <= |functions|
    ensures r.Accepted? ==> r.scopes == scopes && IsKept(returned, r.returned)
    decreases limit, 0, branches, 0
  {
    if branches == [] then Accepted(scopes, returned)
    else if !IsCondition(functions, limit, scopes, branches[0].condition) then Rejected
    else
      var r := CheckBlock(functions, limit, f, scopes, returned, branches[0].body);
      if r.Rejected? then r else CheckBranches(functions, limit, f, scopes, r.returned, branches[1..])
  }

  function CheckAll(functions: seq<CFunction>, limit: nat, f: CFunction, scopes: Scopes, returned: Option<CType>,
                    ss: seq<CStmt>): (r: Verdict)
    requires limit <= |functions|
    ensures r.Accepted? ==> |r.scopes| == |scopes| && IsKept(returned, r.returned)
    decreases limit, 0, ss, 0
  {
    if ss == [] then Accepted(scopes, returned)
    else
      var r := Check(functions, limit, f, scopes, returned, ss[0]);
      if r.Rejected? then r else CheckAll(functions, limit, f, r.scopes, r.returned, ss[1..])
  }

  // ---- Running off the end ----

  /** Control cannot reach the end: some statement leaves the function on all of its paths. */
  predicate NeverEnds(ss: seq<CStmt>)
    decreases ss, 0
  {
    ss != [] && (StatementNeverEnds(ss[0]) || NeverEnds(ss[1..]))
  }

  predicate BranchesNeverEnd(branches: seq<CBranch>)
    decreases branches, 0
  {
    branches != [] ==> NeverEnds(branches[0].body) && BranchesNeverEnd(branches[1..])
  }

  predicate StatementNeverEnds(s: CStmt)
    decreases s, 1
  {
    match s
    case CReturn(_) => true
    case CExit(_) => true
    case CIf(branches, otherwise) => otherwise.Else? && BranchesNeverEnd(branches) && NeverEnds(otherwise.body)
    case CWhile(condition, _) => condition == CLiteral(BoolV(true))
    case _ => false
  }

  /** A function that returns values returns one on all of its paths. */
  predicate ReturnsProperly(body: seq<CStmt>) {
    Returns(body, true) ==> !Returns(body, false) && NeverEnds(body)
  }

  // ---- Programs ----

  /** The types of the arguments before a template is instantiated. */
  function Unknowns(n: nat): seq<CType> { seq(n, i => Dependent) }

  /** C++ accepts these functions, in this order. */
  predicate Compiles(functions: seq<CFunction>) {
    && (forall i, j | 0 <= i < j < |functions| :: functions[i].name != functions[j].name)
    && (forall i | 0 <= i < |functions| :: HasDistinctParameters(functions[i]))
    && (forall i | 0 <= i < |functions| :: InstanceType(functions, i, Unknowns(|functions[i].parameters|)).Some?)
  }

  predicate HasDistinctParameters(f: CFunction) {
    && (forall i, j | 0 <= i < j < |f.parameters| :: f.parameters[i] != f.parameters[j])
    && (f.name == "main" ==> f.parameters == [] && !f.returnsAuto)
  }
}
