/** What running a Separan program means. Values and variables are those of the typed store; a
    list is a plain value here, because nothing that is modelled in this module changes a list
    object in place. A run is indexed by fuel, which bounds the nesting of SEP calls and the
    number of loop iterations; every failure carries its diagnostic code. */
module Semantics {
  import opened Ast
  import opened TypeSpecs
  import opened Trees
  import opened StoreSpec

  type Value = Tree

  // ---- Values of the evaluator ----

  function IntV(i: int): Value { ScalarTree("number", Whole(i)) }

  function BoolV(b: bool): Value { ScalarTree("boolean", Truth(b)) }

  function StringV(s: string): Value { ScalarTree("string", Text(s)) }

  function ErrorV(category: string, message: string): Value { ScalarTree("error", Problem(category, message)) }

  /** A function that is named but not called. */
  function LogicV(name: string): Value { ScalarTree("logic", Other(name)) }

  predicate IsInt(v: Value) { v.ScalarTree? && v.typeName == "number" && v.value.Whole? }

  predicate IsBool(v: Value) { v.ScalarTree? && v.typeName == "boolean" && v.value.Truth? }

  predicate IsText(v: Value) { v.ScalarTree? && v.typeName == "string" && v.value.Text? }

  predicate IsError(v: Value) { v.ScalarTree? && v.typeName == "error" && v.value.Problem? }

  /** The values that operators are modelled for: not decimals, dates, times, or anything that is kept
      as a text only, at any depth. */
  predicate IsKnown(v: Value)
    decreases v, 1
  {
    match v
    case ScalarTree(name, p) => IsBasic(v) || IsError(v) || (name == "logic" && p.Other?)
    case ListTree(items) => AreKnown(items)
    case _ => true
  }

  predicate AreKnown(items: seq<Value>)
    decreases items, 0
  {
    items == [] || (IsKnown(items[0]) && AreKnown(items[1..]))
  }

  /** The values that the firmware knows as well. */
  predicate IsBasic(v: Value) { IsInt(v) || IsBool(v) || IsText(v) }

  type Env = map<string, Variable>

  /** One printed line; `error` tells the error stream from the ordinary one. */
  datatype Printed = Printed(value: Value, error: bool)

  /** The type of an argument, and the element type if it is a list. */
  type Signature = seq<(string, Spec)>

  /** What calls share: the output so far, and the parameter types that each SEP was called with. */
  datatype World = World(output: seq<Printed>, signatures: map<string, Signature>)

  type Logics = map<string, Logic>

  /** What a program runs on: the names of the built-in functions, which error a catch category
      stands for (given the category that was asked for, the diagnostic code, and the category that
      was thrown), and which texts are route paths. */
  datatype Host = Host(library: set<string>, catches: (string, string, string) -> bool, isPath: string -> bool)

  /** A program that has been loaded: its SEPs, its error categories, and the host it runs on. */
  datatype Program = Program(logics: Logics, categories: set<string>, host: Host)

  /** A thrown error has a category of its own; any other failure has a code. */
  datatype EvalResult = Value(value: Value) | Fault(code: string) | Thrown(category: string) | Exhausted

  datatype ArgsResult =
    | Values(values: seq<Value>)
    | ArgsFault(code: string)
    | ArgsThrown(category: string)
    | ArgsExhausted

  /** A bare return gives nothing. */
  datatype Completion =
    | Normal
    | Returned(result: Option<Value>)
    | Failed(code: string)
    | Raised(category: string)
    | OutOfFuel

  datatype ExecResult = ExecResult(completion: Completion, env: Env, world: World)

  /** An internal error of the interpreter. No catch sees it, but finally runs. */
  const CRASH := "RuntimeError"

  /** The diagnostic code of a thrown error. */
  const THROWN := "E760"

  // ---- Environments ----

  /** `globals` is the enclosing environment of a SEP call, and None at top level. */
  function Lookup(globals: Option<Env>, env: Env, name: string): Option<Value> {
    if name in env then Some(env[name].value)
    else if globals.Some? && name in globals.value then Some(globals.value[name].value)
    else None
  }

  /** A constant keeps the value it is given as it is. */
  function DefineConst(env: Env, name: string, value: Value): Result<Env> {
    if value.VoidTree? then Err("E126")
    else if name in env then Err("E210")
    else if value.EmptyTree? || value.EmptysTree? then Err("E130")
    else
      var element := if value.ListTree? then ElementSpec(value.items) else Ok(Unknown);
      if element.Err? then Err(element.code)
      else Ok(env[name := Variable(value, TypeName(value), element.value, true)])
  }

  function IndexOf(v: Value): Index { if IsInt(v) then At(v.value.i) else NotAnInteger }

  function IndexesOf(vs: seq<Value>): seq<Index> {
    seq(|vs|, i requires 0 <= i < |vs| => IndexOf(vs[i]))
  }

  /** An indexed assignment to a variable of the current environment. One that would reach a global
      variable from inside a SEP is not modelled. */
  function AssignAtIn(globals: Option<Env>, env: Env, name: string, indexes: seq<Index>, value: Value): Result<Env> {
    if name in env then
      var v := AssignIndexes(env[name], indexes, value);
      if v.Err? then Err(v.code) else Ok(env[name := v.value])
    else if globals.Some? && name in globals.value then Err(UNMODELLED)
    else Err("E202")
  }

  // ---- Operators ----

  function LiteralValue(literal: Literal): EvalResult {
    match literal
    case IntLit(i) => Value(IntV(i))
    case BoolLit(b) => Value(BoolV(b))
    case StringLit(s) => Value(StringV(s))
    case EmptyLit => Value(EmptyTree(Unknown))
    case EmptysLit => Value(EmptysTree)
    case FloatLit(_) => Fault(UNMODELLED)
  }

  /** Why a value cannot be an operand, if it cannot. */
  function NotPresent(v: Value): Option<string> {
    match v
    case EmptysTree => Some("E133")
    case EmptyTree(_) => Some("E131")
    case VoidTree => Some("E127")
    case _ => None
  }

  /** What a condition must be. */
  function Condition(v: Value): Result<bool> {
    if v.EmptyTree? then Err("E131") else if IsBool(v) then Ok(v.value.b) else Err("E201")
  }

  function UnaryResult(operator: string, v: Value): EvalResult {
    if NotPresent(v).Some? then Fault(NotPresent(v).value)
    else if !IsKnown(v) then Fault(UNMODELLED)
    else if operator == "!" || operator == "not" then
      if IsBool(v) then Value(BoolV(!v.value.b)) else Fault("E201")
    else if IsInt(v) then Value(IntV(-v.value.i))
    else Fault("E201")
  }

  function AsNumber(p: Payload): Option<int> {
    match p
    case Whole(i) => Some(i)
    case Truth(b) => Some(if b then 1 else 0)
    case _ => None
  }

  /** Equality as the host language decides it: true and 1 are equal, inside of lists too. */
  predicate SameValue(l: Value, r: Value)
    decreases l, 1
  {
    match l
    case ScalarTree(_, p) => r.ScalarTree? && (p == r.value || (AsNumber(p).Some? && AsNumber(p) == AsNumber(r.value)))
    case ListTree(items) => r.ListTree? && SameValues(items, r.items)
    case _ => l == r
  }

  predicate SameValues(ls: seq<Value>, rs: seq<Value>)
    decreases ls, 0
  {
    |ls| == |rs| && (ls == [] || (SameValue(ls[0], rs[0]) && SameValues(ls[1..], rs[1..])))
  }

  predicate HasValue(items: seq<Value>, needle: Value)
    decreases |items|
  {
    items != [] && (SameValue(items[0], needle) || HasValue(items[1..], needle))
  }

  predicate HasText(text: string, needle: string)
    decreases |text|
  {
    needle <= text || (text != "" && HasText(text[1..], needle))
  }

  /** Whether `needle` is in `container`. Nothing is found in a list of lists: a value's type name is
      never the name of a list type with its elements. */
  function ContainsResult(needle: Value, container: Value): Result<bool> {
    if IsText(container) then
      if IsText(needle) then Ok(HasText(container.value.s, needle.value.s)) else Err("E201")
    else if container.ListTree? then
      var element := ElementSpec(container.items);
      if element.Err? then Err(element.code)
      else if !element.value.Unknown? && !(needle.ScalarTree? && element.value == Scalar(needle.typeName)) then
        Err("E201")
      else Ok(HasValue(container.items, needle))
    else Err("E201")
  }

  function Concatenation(l: seq<Value>, r: seq<Value>): EvalResult {
    var left, right := ElementSpec(l), ElementSpec(r);
    if left.Err? then Fault(left.code)
    else if right.Err? then Fault(right.code)
    else if !Compatible(left.value, right.value) then Fault("E201")
    else Value(ListTree(l + r))
  }

  /** Division rounds down, and the remainder has the sign of the divisor. */
  function FloorDivide(a: int, b: int): int
    requires b != 0
  {
    if b > 0 then a / b else (-a) / (-b)
  }

  function NumberResult(operator: string, a: int, b: int): EvalResult {
    if operator in {"/", "//", "%"} && b == 0 then Fault("E301")
    else match operator
      case "+" => Value(IntV(a + b))
      case "-" => Value(IntV(a - b))
      case "*" => Value(IntV(a * b))
      case "//" => Value(IntV(FloorDivide(a, b)))
      case "%" => Value(IntV(a - b * FloorDivide(a, b)))
      case "<" => Value(BoolV(a < b))
      case "<=" => Value(BoolV(a <= b))
      case ">" => Value(BoolV(a > b))
      case ">=" => Value(BoolV(a >= b))
      case _ => Fault(UNMODELLED)
  }

  const NUMBER_OPERATORS := {"+", "-", "*", "/", "//", "%", "**", ">", "<", ">=", "<="}

  /** Strict binary operators, once both operands are present. An operator that is none of these, by
      its spelling, is an internal error. */
  function BinaryResult(operator: string, l: Value, r: Value): EvalResult {
    if !IsKnown(l) || !IsKnown(r) then Fault(UNMODELLED)
    else if operator == "in" || operator == "not in" then
      var found := ContainsResult(l, r);
      if found.Err? then Fault(found.code) else Value(BoolV(found.value == (operator == "in")))
    else if operator == "==" || operator == "!=" then
      if TypeName(l) != TypeName(r) then Fault("E201")
      else Value(BoolV(SameValue(l, r) == (operator == "==")))
    else if operator == "+" && IsText(l) && IsText(r) then Value(StringV(l.value.s + r.value.s))
    else if operator == "+" && l.ListTree? && r.ListTree? then Concatenation(l.items, r.items)
    else if operator !in NUMBER_OPERATORS then Fault(CRASH)
    else if !(IsInt(l) && IsInt(r)) then Fault("E201")
    else NumberResult(operator, l.value.i, r.value.i)
  }

  function IndexResult(target: Value, index: Value): EvalResult {
    if target.EmptyTree? || index.EmptyTree? then Fault("E131")
    else if !target.ListTree? || !IsPosition(IndexOf(index)) then Fault("E201")
    else if IndexOf(index).i >= |target.items| then Fault("E302")
    else Value(target.items[IndexOf(index).i])
  }

  function ListResult(values: seq<Value>): EvalResult {
    var element := ElementSpec(values);
    if element.Err? then Fault(element.code) else Value(ListTree(values))
  }

  // ---- Built-in functions ----

  const RANGES := {"range", "number_range"}

  /** Calls of these are evaluated in a way of their own, which is not modelled here. */
  const SHAPE_OPERATIONS := {"list_insert", "list_remove", "list_remove_horizontal", "list_remove_vertical"}

  predicate IsBuiltin(host: Host, name: string) { name in host.library + RANGES + SHAPE_OPERATIONS }

  /** The integers from `start` towards `stop`, excluding it. */
  function Range(start: int, stop: int, step: int): seq<Value>
    requires step != 0
    decreases if step > 0 then stop - start else start - stop
  {
    if (if step > 0 then start < stop else start > stop)
    then [IntV(start)] + Range(start + step, stop, step)
    else []
  }

  /** number_range() takes one, two or three integers. */
  function RangeResult(arguments: seq<Value>): EvalResult {
    if exists i | 0 <= i < |arguments| :: arguments[i].EmptyTree? then Fault("E131")
    else if !(1 <= |arguments| <= 3) then Fault("E207")
    else if exists i | 0 <= i < |arguments| :: !IsInt(arguments[i]) then Fault("E201")
    else
      var start := if |arguments| == 1 then 0 else arguments[0].value.i;
      var stop := if |arguments| == 1 then arguments[0].value.i else arguments[1].value.i;
      var step := if |arguments| == 3 then arguments[2].value.i else 1;
      if step == 0 then Fault("E303") else Value(ListTree(Range(start, stop, step)))
  }

  /** An error category makes an error of its message. */
  function ErrorResult(category: string, arguments: seq<Value>): EvalResult {
    if |arguments| != 1 then Fault("E207")
    else if !IsText(arguments[0]) then Fault("E201")
    else Value(ErrorV(category, arguments[0].value.s))
  }

  /** A call that enters no SEP, if it is one. */
  function BuiltinResult(program: Program, callee: string, arguments: seq<Value>): Option<EvalResult> {
    if VoidTree in arguments then Some(Fault("E127"))
    else if callee != "object_set" && EmptysTree in arguments then Some(Fault("E133"))
    else if callee in program.categories then Some(ErrorResult(callee, arguments))
    else if callee in RANGES then Some(RangeResult(arguments))
    else if IsBuiltin(program.host, callee) then Some(Fault(UNMODELLED))
    else None
  }

  // ---- Calls ----

  function SignatureOf(arguments: seq<Value>): (r: Result<Signature>)
    ensures r.Ok? ==> |r.value| == |arguments|
  {
    if arguments == [] then Ok([])
    else
      var v := arguments[0];
      var element := if v.ListTree? then ElementSpec(v.items) else Ok(Unknown);
      if element.Err? then Err(element.code)
      else
        var rest := SignatureOf(arguments[1..]);
        if rest.Err? then rest else Ok([(TypeName(v), element.value)] + rest.value)
  }

  /** The types fit those of the first call; an element type that was not known yet is adopted. */
  function MergeSignatures(inferred: Signature, actual: Signature): Option<Signature> {
    if inferred == [] || actual == [] then Some(inferred)
    else if inferred[0].0 != actual[0].0 || !Compatible(inferred[0].1, actual[0].1) then None
    else
      var rest := MergeSignatures(inferred[1..], actual[1..]);
      var first := if inferred[0].0 == "list" && inferred[0].1.Unknown? then actual[0] else inferred[0];
      if rest.None? then None else Some([first] + rest.value)
  }

  /** What a SEP was called with, once this call is recorded. */
  function Recorded(world: World, callee: string, actual: Signature): Result<World> {
    if callee !in world.signatures then Ok(world.(signatures := world.signatures[callee := actual]))
    else
      var merged := MergeSignatures(world.signatures[callee], actual);
      if merged.None? then Err("E208") else Ok(world.(signatures := world.signatures[callee := merged.value]))
  }

  /** The checks of a call before its environment is built; the call's parameter types are recorded. */
  function EnterCall(logics: Logics, world: World, callee: string, arguments: seq<Value>):
    (entered: Result<(World, seq<Value>)>)
    ensures entered.Ok? ==> callee in logics && |entered.value.1| == |logics[callee].parameters|
  {
    if callee !in logics then Err("E206")
    else if |arguments| != |logics[callee].parameters| then Err("E207")
    else
      var prepared := PrepareArguments(logics[callee].parameters, arguments);
      if prepared.Err? then Err(prepared.code)
      else
        var signature := SignatureOf(prepared.value);
        if signature.Err? then Err(signature.code)
        else
          var recorded := Recorded(world, callee, signature.value);
          if recorded.Err? then Err(recorded.code) else Ok((recorded.value, prepared.value))
  }

  function CallResult(completion: Completion): EvalResult {
    match completion
    case Normal => Value(VoidTree)
    case Returned(v) => Value(if v.Some? then v.value else VoidTree)
    case Failed(code) => Fault(code)
    case Raised(category) => Thrown(category)
    case OutOfFuel => Exhausted
  }

  function Call(fuel: nat, program: Program, globals: Env, world: World, callee: string, arguments: seq<Value>):
    (EvalResult, World)
    decreases fuel, 0, 0, 0
  {
    var builtin := BuiltinResult(program, callee, arguments);
    if builtin.Some? then (builtin.value, world)
    else
      var entered := EnterCall(program.logics, world, callee, arguments);
      if entered.Err? then (Fault(entered.code), world)
      else
        var bound := BindParameters(map[], program.logics[callee].parameters, entered.value.1);
        if bound.Err? then (Fault(bound.code), entered.value.0)
        else if fuel == 0 then (Exhausted, entered.value.0)
        else
          var r := ExecAll(fuel - 1, program, Some(globals), bound.value, entered.value.0, program.logics[callee].body);
          (CallResult(r.completion), r.world)
  }

  // ---- Expressions ----

  /** The environment a callee sees behind its own. */
  function GlobalsOf(globals: Option<Env>, env: Env): Env {
    if globals.Some? then globals.value else env
  }

  /** A name that no variable has may stand for a function. */
  function NameResult(program: Program, globals: Option<Env>, env: Env, name: string): EvalResult {
    var found := Lookup(globals, env, name);
    if found.Some? then Value(found.value)
    else if name in program.logics || IsBuiltin(program.host, name) then Value(LogicV(name))
    else Fault("E202")
  }

  function Eval(fuel: nat, program: Program, globals: Option<Env>, env: Env, world: World, e: Expr): (EvalResult, World)
    decreases fuel, 1, e, 1
  {
    match e
    case LiteralExpr(literal) => (LiteralValue(literal), world)
    case GroupExpr(inner) => Eval(fuel, program, globals, env, world, inner)
    case VariableExpr(name) => (NameResult(program, globals, env, name), world)
    case PositionSelectorExpr(_) => (Fault("E136"), world)
    case EmptyTestExpr(operand, negated) =>
      var (v, w) := Eval(fuel, program, globals, env, world, operand);
      (if v.Value? then Value(BoolV(v.value.EmptyTree? != negated)) else v, w)
    case EmptysTestExpr(operand, negated) =>
      var (v, w) := Eval(fuel, program, globals, env, world, operand);
      (if v.Value? then Value(BoolV(IsEmptys(v.value) != negated)) else v, w)
    case UnaryExpr(operator, operand) =>
      var (v, w) := Eval(fuel, program, globals, env, world, operand);
      (if v.Value? then UnaryResult(operator, v.value) else v, w)
    case BinaryExpr(_, _, _) => EvalBinary(fuel, program, globals, env, world, e)
    case IndexExpr(target, index) =>
      var (t, w) := Eval(fuel, program, globals, env, world, target);
      if !t.Value? then (t, w)
      else
        var (i, w') := Eval(fuel, program, globals, env, w, index);
        (if i.Value? then IndexResult(t.value, i.value) else i, w')
    case ListExpr(elements) =>
      var (vs, w) := EvalArgs(fuel, program, globals, env, world, elements);
      (if vs.Values? then ListResult(vs.values) else ArgsFailure(vs), w)
    case CallExpr(callee, arguments, named) =>
      if named != [] || callee in SHAPE_OPERATIONS then (Fault(UNMODELLED), world)
      else
        var (vs, w) := EvalArgs(fuel, program, globals, env, world, arguments);
        if vs.Values? then Call(fuel, program, GlobalsOf(globals, env), w, callee, vs.values) else (ArgsFailure(vs), w)
    case _ => (Fault(UNMODELLED), world)
  }

  function EvalBinary(fuel: nat, program: Program, globals: Option<Env>, env: Env, world: World, e: Expr):
    (EvalResult, World)
    requires e.BinaryExpr?
    decreases fuel, 1, e, 0
  {
    var (l, w) := Eval(fuel, program, globals, env, world, e.left);
    if !l.Value? then (l, w)
    else if e.operator == "??" && !l.value.EmptysTree? then
      if l.value.EmptyTree? then Eval(fuel, program, globals, env, w, e.right) else (l, w)
    else if NotPresent(l.value).Some? then (Fault(NotPresent(l.value).value), w)
    else if e.operator == "&&" || e.operator == "||" then
      if !IsBool(l.value) then (Fault("E201"), w)
      else if l.value.value.b == (e.operator == "||") then (l, w)
      else
        var (r, w') := Eval(fuel, program, globals, env, w, e.right);
        if !r.Value? then (r, w')
        else
          var condition := Condition(r.value);
          (if condition.Err? then Fault(condition.code) else r, w')
    else
      var (r, w') := Eval(fuel, program, globals, env, w, e.right);
      if !r.Value? then (r, w')
      else if NotPresent(r.value).Some? then (Fault(NotPresent(r.value).value), w')
      else (BinaryResult(e.operator, l.value, r.value), w')
  }

  function EvalArgs(fuel: nat, program: Program, globals: Option<Env>, env: Env, world: World, es: seq<Expr>):
    (ArgsResult, World)
    decreases fuel, 1, es, 0
  {
    if es == [] then (Values([]), world)
    else
      var (v, w) := Eval(fuel, program, globals, env, world, es[0]);
      match v
      case Fault(code) => (ArgsFault(code), w)
      case Thrown(category) => (ArgsThrown(category), w)
      case Exhausted => (ArgsExhausted, w)
      case Value(head) =>
        var (rest, w') := EvalArgs(fuel, program, globals, env, w, es[1..]);
        (if rest.Values? then Values([head] + rest.values) else rest, w')
  }

  function ArgsFailure(r: ArgsResult): EvalResult
    requires !r.Values?
  {
    match r
    case ArgsFault(code) => Fault(code)
    case ArgsThrown(category) => Thrown(category)
    case ArgsExhausted => Exhausted
  }

  // ---- Statements ----

  function Store(bound: Result<Env>, env: Env, world: World): ExecResult {
    if bound.Ok? then ExecResult(Normal, bound.value, world) else ExecResult(Failed(bound.code), env, world)
  }

  function AbruptCompletion(r: EvalResult): Completion
    requires !r.Value?
  {
    match r
    case Fault(code) => Failed(code)
    case Thrown(category) => Raised(category)
    case Exhausted => OutOfFuel
  }

  function Abrupt(r: EvalResult, env: Env, world: World): ExecResult
    requires !r.Value?
  {
    ExecResult(AbruptCompletion(r), env, world)
  }

  /** What can be caught: a diagnostic, thrown or not, but no internal error. */
  predicate CanBeCaught(c: Completion) {
    c.Raised? || (c.Failed? && c.code != UNMODELLED && c.code != CRASH)
  }

  /** The run ends here, whatever the program would do about it. */
  predicate Ends(c: Completion) { c.OutOfFuel? || c == Failed(UNMODELLED) }

  /** The first catch that takes the error, from number `i` on; the number of catches if none does. */
  function Catcher(host: Host, catches: seq<CatchBranch>, c: Completion, i: nat): (k: nat)
    requires CanBeCaught(c) && i <= |catches|
    ensures i <= k <= |catches|
    decreases |catches| - i
  {
    if i == |catches| then i
    else if host.catches(catches[i].category, if c.Raised? then THROWN else c.code, if c.Raised? then c.category
                         else "")
    then i
    else Catcher(host, catches, c, i + 1)
  }

  function Exec(fuel: nat, program: Program, globals: Option<Env>, env: Env, world: World, s: Stmt): ExecResult
    decreases fuel, 1, s, 2
  {
    match s
    case Assignment(name, e) =>
      var (v, w) := Eval(fuel, program, globals, env, world, e);
      if v.Value? then Store(AssignIn(env, name, v.value), env, w) else Abrupt(v, env, w)
    case IndexAssignment(name, indexes, e) =>
      var (vs, w) := EvalArgs(fuel, program, globals, env, world, indexes);
      if !vs.Values? then Abrupt(ArgsFailure(vs), env, w)
      else
        var (v, w') := Eval(fuel, program, globals, env, w, e);
        if v.Value? then Store(AssignAtIn(globals, env, name, IndexesOf(vs.values), v.value), env, w')
        else Abrupt(v, env, w')
    case ConstDeclaration(name, e) =>
      var (v, w) := Eval(fuel, program, globals, env, world, e);
      if v.Value? then Store(DefineConst(env, name, v.value), env, w) else Abrupt(v, env, w)
    case TypedDeclaration(name, declared, e, constant) =>
      var (v, w) := Eval(fuel, program, globals, env, world, e);
      if v.Value? then Store(DefineIn(env, name, declared, v.value, constant), env, w) else Abrupt(v, env, w)
    case ListBlock(name, elements) =>
      var (vs, w) := EvalArgs(fuel, program, globals, env, world, elements);
      if !vs.Values? then Abrupt(ArgsFailure(vs), env, w)
      else
        var list := ListResult(vs.values);
        if list.Value? then Store(AssignIn(env, name, list.value), env, w) else Abrupt(list, env, w)
    case PrintStmt(e) => ExecPrint(fuel, program, globals, env, world, e, false)
    case PrintErrorStmt(e) => ExecPrint(fuel, program, globals, env, world, e, true)
    case ExpressionStmt(e) =>
      var (v, w) := Eval(fuel, program, globals, env, world, e);
      if v.Value? then ExecResult(Normal, env, w) else Abrupt(v, env, w)
    case ReturnStmt(result) =>
      if result.None? then ExecResult(Returned(None), env, world)
      else
        var (v, w) := Eval(fuel, program, globals, env, world, result.value);
        if v.Value? then ExecResult(Returned(Some(v.value)), env, w) else Abrupt(v, env, w)
    case ThrowStmt(e) =>
      var (v, w) := Eval(fuel, program, globals, env, world, e);
      if !v.Value? then Abrupt(v, env, w)
      else ExecResult(if IsError(v.value) then Raised(v.value.value.category) else Failed("E201"), env, w)
    case IfStmt(_, branches, elseBody) => ExecIf(fuel, program, globals, env, world, s, 0)
    case WhileStmt(_, condition, body) =>
      var (v, w) := Eval(fuel, program, globals, env, world, condition);
      if !v.Value? then Abrupt(v, env, w)
      else
        var holds := Condition(v.value);
        if holds.Err? then ExecResult(Failed(holds.code), env, w)
        else if !holds.value then ExecResult(Normal, env, w)
        else if fuel == 0 then ExecResult(OutOfFuel, env, w)
        else
          var r := ExecAll(fuel, program, globals, env, w, body);
          if r.completion.Normal? then Exec(fuel - 1, program, globals, r.env, r.world, s) else r
    case ForStmt(_, variable, iterable, body) =>
      var (list, w) := Eval(fuel, program, globals, env, world, iterable);
      if !list.Value? then Abrupt(list, env, w)
      else if !list.value.ListTree? then ExecResult(Failed("E201"), env, w)
      else ExecFor(fuel, program, globals, env, w, variable, list.value.items, body)
    case TryStmt(_, body, catches, finallyBody) =>
      var r := ExecAll(fuel, program, globals, env, world, body);
      ExecFinally(fuel, program, globals, ExecCatches(fuel, program, globals, r, s), s)
    case ErrorDecl(_) => ExecResult(Normal, env, world)
    case HttpRouteDecl(_, _, _, _) => ExecResult(Normal, env, world)
    case LogicDecl(_) => ExecResult(Normal, env, world)
    case _ => ExecResult(Failed(UNMODELLED), env, world)
  }

  function ExecPrint(fuel: nat, program: Program, globals: Option<Env>, env: Env, world: World, e: Expr, error: bool):
    ExecResult
    decreases fuel, 1, e, 2
  {
    var (v, w) := Eval(fuel, program, globals, env, world, e);
    if !v.Value? then Abrupt(v, env, w)
    else if NotPresent(v.value).Some? then ExecResult(Failed(NotPresent(v.value).value), env, w)
    else ExecResult(Normal, env, w.(output := w.output + [Printed(v.value, error)]))
  }

  /** Runs the first branch, from number `i` on, whose condition holds. */
  function ExecIf(fuel: nat, program: Program, globals: Option<Env>, env: Env, world: World, s: Stmt, i: nat)
      : ExecResult
    requires s.IfStmt? && i <= |s.branches|
    decreases fuel, 1, s, 1, |s.branches| - i
  {
    if i == |s.branches| then
      if s.elseBody.NoBody? then ExecResult(Normal, env, world)
      else ExecAll(fuel, program, globals, env, world, s.elseBody.statements)
    else
      var (v, w) := Eval(fuel, program, globals, env, world, s.branches[i].condition);
      if !v.Value? then Abrupt(v, env, w)
      else
        var holds := Condition(v.value);
        if holds.Err? then ExecResult(Failed(holds.code), env, w)
        else if holds.value then ExecAll(fuel, program, globals, env, w, s.branches[i].body)
        else ExecIf(fuel, program, globals, env, w, s, i + 1)
  }

  function ExecFor(fuel: nat, program: Program, globals: Option<Env>, env: Env, world: World,
                   variable: string, items: seq<Value>, body: seq<Stmt>): ExecResult
    decreases fuel, 1, body, 1
  {
    if items == [] then ExecResult(Normal, env, world)
    else
      var bound := AssignIn(env, variable, items[0]);
      if bound.Err? then ExecResult(Failed(bound.code), env, world)
      else if fuel == 0 then ExecResult(OutOfFuel, bound.value, world)
      else
        var r := ExecAll(fuel, program, globals, bound.value, world, body);
        if r.completion.Normal?
        then ExecFor(fuel - 1, program, globals, r.env, r.world, variable, items[1..], body)
        else r
  }

  /** What became of the body, or of the first catch that takes its error. */
  function ExecCatches(fuel: nat, program: Program, globals: Option<Env>, r: ExecResult, s: Stmt): ExecResult
    requires s.TryStmt?
    decreases fuel, 1, s, 1
  {
    if !CanBeCaught(r.completion) then r
    else
      var i := Catcher(program.host, s.catches, r.completion, 0);
      if i == |s.catches| then r else ExecAll(fuel, program, globals, r.env, r.world, s.catches[i].body)
  }

  /** The finally body runs on every completion, and has the last word if it does not complete normally. */
  function ExecFinally(fuel: nat, program: Program, globals: Option<Env>, r: ExecResult, s: Stmt): ExecResult
    requires s.TryStmt?
    decreases fuel, 1, s, 1
  {
    if s.finallyBody.NoBody? || Ends(r.completion) then r
    else
      var last := ExecAll(fuel, program, globals, r.env, r.world, s.finallyBody.statements);
      if last.completion.Normal? then last.(completion := r.completion) else last
  }

  function ExecAll(fuel: nat, program: Program, globals: Option<Env>, env: Env, world: World, ss: seq<Stmt>): ExecResult
    decreases fuel, 1, ss, 0
  {
    if ss == [] then ExecResult(Normal, env, world)
    else
      var r := Exec(fuel, program, globals, env, world, ss[0]);
      if r.completion.Normal? then ExecAll(fuel, program, globals, r.env, r.world, ss[1..]) else r
  }

  // ---- Programs ----

  const EMPTY_WORLD := World([], map[])

  /** Top-level statements run in the global environment; then main is called, if there is one. */
  function RunLoaded(fuel: nat, program: Program, topLevel: seq<Stmt>): (EvalResult, World) {
    if "main" in program.logics && program.logics["main"].parameters != [] then (Fault("E205"), EMPTY_WORLD)
    else
      var r := ExecAll(fuel, program, None, map[], EMPTY_WORLD, topLevel);
      match r.completion
      case Normal =>
        if "main" in program.logics then Call(fuel, program, r.env, r.world, "main", [])
        else (EvalResult.Value(VoidTree), r.world)
      case Returned(_) => (Fault(CRASH), r.world)
      case _ => (CallResult(r.completion), r.world)
  }

  /** The routes loaded so far, by method and path. */
  type Routes = set<(string, string)>

  predicate DeclaresLogic(statements: seq<Stmt>, name: string) {
    exists i | 0 <= i < |statements| :: statements[i].LogicDecl? && statements[i].logic.name == name
  }

  /** One declaration: no name is declared twice, or taken from a built-in function. */
  function LoadOne(all: seq<Stmt>, program: Program, routes: Routes, s: Stmt): Result<(Program, Routes)> {
    match s
    case LogicDecl(logic) =>
      if IsBuiltin(program.host, logic.name) then Err("E209")
      else if logic.name in program.logics then Err("E204")
      else Ok((program.(logics := program.logics[logic.name := logic]), routes))
    case ErrorDecl(name) =>
      if IsBuiltin(program.host, name) || name in program.categories || DeclaresLogic(all, name) then Err("E122")
      else Ok((program.(categories := program.categories + {name}), routes))
    case HttpRouteDecl(_, verb, path, _) =>
      if !program.host.isPath(path) then Err("E892")
      else if (verb, path) in routes then Err("E896")
      else Ok((program, routes + {(verb, path)}))
    case _ => Ok((program, routes))
  }

  function LoadFrom(all: seq<Stmt>, program: Program, routes: Routes, i: nat): Result<Program>
    requires i <= |all|
    decreases |all| - i
  {
    if i == |all| then Ok(program)
    else
      var next := LoadOne(all, program, routes, all[i]);
      if next.Err? then Err(next.code) else LoadFrom(all, next.value.0, next.value.1, i + 1)
  }

  function Load(host: Host, statements: seq<Stmt>): Result<Program> {
    LoadFrom(statements, Program(map[], {}, host), {}, 0)
  }

  function Run(fuel: nat, host: Host, statements: seq<Stmt>): (EvalResult, World) {
    var program := Load(host, statements);
    if program.Err? then (Fault(program.code), EMPTY_WORLD) else RunLoaded(fuel, program.value, statements)
  }

  // ---- What is true of every loaded program ----

  /** The name of a SEP stands for that SEP alone, and that of an error category for that category. */
  predicate IsLoaded(program: Program) {
    && (forall name | name in program.logics ::
          program.logics[name].name == name && !IsBuiltin(program.host, name) && name !in program.categories)
    && (forall name | name in program.categories :: !IsBuiltin(program.host, name))
  }

  lemma {:induction false} LoadedFrom(all: seq<Stmt>, program: Program, routes: Routes, i: nat)
    requires i <= |all| && IsLoaded(program) && LoadFrom(all, program, routes, i).Ok?
    requires forall name | name in program.logics :: DeclaresLogic(all, name)
    requires forall name | name in program.categories :: !DeclaresLogic(all, name)
    ensures IsLoaded(LoadFrom(all, program, routes, i).value)
    decreases |all| - i
  {
    if i < |all| {
      var s := all[i];
      var next := LoadOne(all, program, routes, s).value;
      forall name | name in next.0.logics
        ensures DeclaresLogic(all, name)
        ensures next.0.logics[name].name == name && !IsBuiltin(next.0.host, name)
      {
        if s.LogicDecl? && name == s.logic.name {
          assert all[i].LogicDecl?;
        }
      }
      LoadedFrom(all, next.0, next.1, i + 1);
    }
  }

  lemma LoadedNamesAreUnique(host: Host, statements: seq<Stmt>)
    requires Load(host, statements).Ok?
    ensures IsLoaded(Load(host, statements).value)
  {
    LoadedFrom(statements, Program(map[], {}, host), {}, 0);
  }

  // ---- Spelling ----

  lemma {:induction false} ElementCodes(items: seq<Value>)
    ensures ElementSpec(items).Err? ==> ElementSpec(items).code in {"E127", "E133", "E203"}
    decreases items, 1
  {
    FoldCodes(Unknown, items);
  }

  lemma {:induction false} FoldCodes(found: Spec, items: seq<Value>)
    ensures FoldSpecs(found, items).Err? ==> FoldSpecs(found, items).code in {"E127", "E133", "E203"}
    decreases items, 0
  {
    if items != [] {
      if items[0].ListTree? {
        ElementCodes(items[0].items);
      }
      var actual := ValueSpec(items[0]);
      if actual.Ok? {
        FoldCodes(Merge(found, actual.value), items[1..]);
      }
    }
  }

  /** The spellings that are operators. */
  const OPERATORS := NUMBER_OPERATORS + {"==", "!=", "in", "not in", "&&", "||", "??"}

  lemma ResultsAreSpelled(operator: string, l: Value, r: Value)
    requires operator !in {"&&", "||", "??"}
    ensures BinaryResult(operator, l, r) == Fault(CRASH) <==> IsKnown(l) && IsKnown(r) && operator !in OPERATORS
  {
    hide ElementSpec;
    if l.ListTree? {
      ElementCodes(l.items);
    }
    if r.ListTree? {
      ElementCodes(r.items);
    }
  }

  /** Whose operands have these values, one after the other. */
  predicate HasOperands(fuel: nat, program: Program, globals: Option<Env>, env: Env, world: World, e: Expr, l: Value,
                        r: Value)
    requires e.BinaryExpr?
  {
    var left := Eval(fuel, program, globals, env, world, e.left);
    left.0 == Value(l) && Eval(fuel, program, globals, env, left.1, e.right).0 == Value(r)
  }

  /** An operation on two present values ends in an internal error if and only if its operator is none of
      the known spellings; `IN` is such a one. */
  lemma OperatorsAreSpelled(fuel: nat, program: Program, globals: Option<Env>, env: Env, world: World, e: Expr,
                            l: Value, r: Value)
    requires e.BinaryExpr? && HasOperands(fuel, program, globals, env, world, e, l, r)
    requires NotPresent(l).None? && NotPresent(r).None? && IsKnown(l) && IsKnown(r)
    ensures Eval(fuel, program, globals, env, world, e).0 == Fault(CRASH) <==> e.operator !in OPERATORS
  {
    hide Eval, BinaryResult, IsKnown;
    assert Eval(fuel, program, globals, env, world, e) == EvalBinary(fuel, program, globals, env, world, e) by {
      BinaryIsEvaluated(fuel, program, globals, env, world, e);
    }
    if e.operator !in {"&&", "||", "??"} {
      ResultsAreSpelled(e.operator, l, r);
    }
  }

  lemma BinaryIsEvaluated(fuel: nat, program: Program, globals: Option<Env>, env: Env, world: World, e: Expr)
    requires e.BinaryExpr?
    ensures Eval(fuel, program, globals, env, world, e) == EvalBinary(fuel, program, globals, env, world, e)
  {
  }

  /** On a boolean, only the spellings `!` and `not` negate; on any other spelling the operand would
      have to be a number. */
  lemma NegationIsSpelled(operator: string, b: bool)
    ensures UnaryResult(operator, BoolV(b)) == Value(BoolV(!b)) <==> operator == "!" || operator == "not"
    ensures operator != "!" && operator != "not" ==> UnaryResult(operator, BoolV(b)) == Fault("E201")
  {
  }
}
