/** The block-scoped C++ that the firmware emitter produces, and what running it
    prints. Integers are unbounded and operands are evaluated from left to right.
    A run is stuck where it reaches something that C++ would reject or leave undefined:
    an undeclared name, a name declared twice in one block, a call of a function that is
    not declared yet, a value function that runs off its end or mixes both kinds of
    return, and a main function that hands anything but a number or a truth value to the
    system. Library calls and floating-point values are outside the model and stuck as
    well. What a compiler refuses whether it is reached or not, and the types it deduces,
    are in `CppTypes`. */
module Cpp {
  import opened Ast
  import opened Trees
  import opened Semantics

  datatype CExpr =
    | CLiteral(value: Value)
    | CFloat(text: string)
    | CVariable(name: string)
    | CParenthesis(inner: CExpr)
    | CUnary(operator: string, operand: CExpr)
    | CBinary(left: CExpr, operator: string, right: CExpr)
    | CLibrary(routine: string, left: CExpr, right: CExpr)
    | CCall(name: string, arguments: seq<CExpr>)

  datatype CBranch = CBranch(condition: CExpr, body: seq<CStmt>)

  datatype CElse = NoElse | Else(body: seq<CStmt>)

  datatype CStmt =
    | CDeclare(constant: bool, name: string, value: CExpr)
    | CSet(name: string, value: CExpr)
    | CDo(expression: CExpr)
    | CPrint(value: CExpr)
    | CReturn(result: Option<CExpr>)
    | CExit(result: Option<CExpr>)
    | CWhile(condition: CExpr, body: seq<CStmt>)
    | CIf(branches: seq<CBranch>, otherwise: CElse)
    | CFor(variable: string, start: CExpr, stop: CExpr, step: CExpr, body: seq<CStmt>)
    | CForEach(kind: string, variable: string, elements: seq<CExpr>, body: seq<CStmt>)

  /** `returnsAuto` is the `auto` return type; otherwise the function is void, or main. */
  datatype CFunction = CFunction(name: string, parameters: seq<string>, returnsAuto: bool, body: seq<CStmt>)

  datatype Cell = Cell(value: Value, constant: bool)

  /** One map per open block, innermost last. */
  type Frames = seq<map<string, Cell>>

  datatype CResult = Got(value: Value) | Stuck | Spent

  datatype CArgs = GotAll(values: seq<Value>) | StuckArgs | SpentArgs

  datatype CCompletion = Through | Left(value: Value) | Wedged | NoFuel

  datatype CState = CState(completion: CCompletion, frames: Frames, output: seq<Value>)

  // ---- Blocks ----

  function Find(frames: Frames, name: string): Option<Cell> {
    if frames == [] then None
    else
      var inner := frames[|frames| - 1];
      if name in inner then Some(inner[name]) else Find(frames[..|frames| - 1], name)
  }

  /** Assigns to the innermost variable of that name; a constant cannot be assigned. */
  function Update(frames: Frames, name: string, value: Value): Option<Frames> {
    if frames == [] then None
    else
      var last := |frames| - 1;
      var inner := frames[last];
      if name in inner then
        if inner[name].constant then None else Some(frames[last := inner[name := Cell(value, false)]])
      else
        var outer := Update(frames[..last], name, value);
        if outer.None? then None else Some(outer.value + [inner])
  }

  function Declare(frames: Frames, name: string, cell: Cell): Option<Frames> {
    if frames == [] then None
    else
      var last := |frames| - 1;
      if name in frames[last] then None else Some(frames[last := frames[last][name := cell]])
  }

  function Leave(s: CState): CState {
    if s.frames == [] then s else s.(frames := s.frames[..|s.frames| - 1])
  }

  function BindAll(names: seq<string>, values: seq<Value>): map<string, Cell>
    requires |names| == |values|
  {
    if names == [] then map[]
    else BindAll(names[..|names| - 1], values[..|names| - 1])[names[|names| - 1] := Cell(values[|names| - 1], false)]
  }

  // ---- Operators ----

  /** What C++ makes of an operand. Operands that it would convert first are not modelled. */
  function CUnaryValue(operator: string, v: Value): Option<Value> {
    match operator
    case "!" => if IsBool(v) then Some(BoolV(!v.value.b)) else None
    case "-" => if IsInt(v) then Some(IntV(0 - v.value.i)) else None
    case "+" => if IsInt(v) then Some(v) else None
    case _ => None
  }

  /** The comparison of two integers, by their difference. */
  function CComparison(operator: string, difference: int): Option<Value> {
    match operator
    case "<" => Some(BoolV(difference < 0))
    case "<=" => Some(BoolV(!(difference > 0)))
    case ">" => Some(BoolV(difference > 0))
    case ">=" => Some(BoolV(!(difference < 0)))
    case "==" => Some(BoolV(difference == 0))
    case "!=" => Some(BoolV(!(difference == 0)))
    case _ => None
  }

  function CIntegers(operator: string, l: int, r: int): Option<Value> {
    match operator
    case "+" => Some(IntV(l + r))
    case "-" => Some(IntV(l - r))
    case "*" => Some(IntV(l * r))
    case _ => CComparison(operator, l - r)
  }

  function CBinaryValue(operator: string, l: Value, r: Value): Option<Value> {
    if IsInt(l) && IsInt(r) then CIntegers(operator, l.value.i, r.value.i)
    else if IsText(l) && IsText(r) then
      match operator
      case "+" => Some(StringV(l.value.s + r.value.s))
      case "==" => Some(BoolV(l.value.s == r.value.s))
      case "!=" => Some(BoolV(l.value.s != r.value.s))
      case _ => None
    else if IsBool(l) && IsBool(r) then
      match operator
      case "==" => Some(BoolV(l.value.b <==> r.value.b))
      case "!=" => Some(BoolV(!(l.value.b <==> r.value.b)))
      case _ => None
    else None
  }

  /** Integers are divided towards zero. */
  function Truncated(a: int, b: int): int
    requires b != 0
  {
    if a < 0 then (if b < 0 then (-a) / (-b) else -((-a) / b)) else if b < 0 then -(a / (-b)) else a / b
  }

  function Power(a: int, n: nat): int { if n == 0 then 1 else a * Power(a, n - 1) }

  /** A library routine on two integers: std::floor gets their quotient, std::fmod and std::pow the integers
      themselves. They give a double, which is why they are no part of a run. */
  function CRoutine(routine: string, a: int, b: int): Option<int> {
    match routine
    case "floor" => if b == 0 then None else Some(Truncated(a, b))
    case "fmod" => if b == 0 then None else Some(a - b * Truncated(a, b))
    case "pow" => if b < 0 then None else Some(Power(a, b))
    case _ => None
  }

  // ---- Running ----

  /** The function of that name among the first `limit` ones, if any. */
  function Declared(functions: seq<CFunction>, limit: nat, name: string): Option<nat>
    requires limit <= |functions|
    ensures Declared(functions, limit, name).Some? ==>
              Declared(functions, limit, name).value < limit
              && functions[Declared(functions, limit, name).value].name == name
  {
    if limit == 0 then None
    else if functions[limit - 1].name == name then Some(limit - 1)
    else Declared(functions, limit - 1, name)
  }

  function Finish(f: CFunction, c: CCompletion): CResult {
    if Returns(f.body, true) && Returns(f.body, false) then Stuck
    else match c
    case Through => if f.returnsAuto && Returns(f.body, true) then Stuck else Got(VoidTree)
    case Left(v) => Got(v)
    case Wedged => Stuck
    case NoFuel => Spent
  }

  /** Calls function number `i`, whose body sees only the functions before it. */
  function CallFunction(fuel: nat, functions: seq<CFunction>, i: nat, output: seq<Value>, arguments: seq<Value>):
    (CResult, seq<Value>)
    requires i < |functions|
    decreases fuel, 0, 0, 0
  {
    var f := functions[i];
    if |arguments| != |f.parameters| then (Stuck, output)
    else if fuel == 0 then (Spent, output)
    else
      var r := CRunAll(fuel - 1, functions, i, [BindAll(f.parameters, arguments)], output, f.body);
      (Finish(f, r.completion), r.output)
  }

  function CEval(fuel: nat, functions: seq<CFunction>, limit: nat, frames: Frames, output: seq<Value>, e: CExpr):
    (CResult, seq<Value>)
    requires limit <= |functions|
    decreases fuel, 1, e, 0
  {
    match e
    case CLiteral(v) => (Got(v), output)
    case CFloat(_) => (Stuck, output)
    case CVariable(name) =>
      var cell := Find(frames, name);
      (if cell.Some? then Got(cell.value.value) else Stuck, output)
    case CParenthesis(inner) => CEval(fuel, functions, limit, frames, output, inner)
    case CUnary(operator, operand) =>
      var (v, out) := CEval(fuel, functions, limit, frames, output, operand);
      if !v.Got? then (v, out)
      else
        var u := CUnaryValue(operator, v.value);
        (if u.Some? then Got(u.value) else Stuck, out)
    case CBinary(left, operator, right) =>
      var (l, out) := CEval(fuel, functions, limit, frames, output, left);
      if !l.Got? then (l, out)
      else if operator == "&&" || operator == "||" then
        if !IsBool(l.value) then (Stuck, out)
        else if l.value.value.b == (operator == "||") then (l, out)
        else
          var (r, out') := CEval(fuel, functions, limit, frames, out, right);
          (if !r.Got? || IsBool(r.value) then r else Stuck, out')
      else
        var (r, out') := CEval(fuel, functions, limit, frames, out, right);
        if !r.Got? then (r, out')
        else
          var b := CBinaryValue(operator, l.value, r.value);
          (if b.Some? then Got(b.value) else Stuck, out')
    case CLibrary(_, _, _) => (Stuck, output)
    case CCall(name, arguments) =>
      var (vs, out) := CEvalArgs(fuel, functions, limit, frames, output, arguments);
      (match vs
       case StuckArgs => (Stuck, out)
       case SpentArgs => (Spent, out)
       case GotAll(values) =>
         var i := Declared(functions, limit, name);
         if i.None? || VoidTree in values then (Stuck, out) else CallFunction(fuel, functions, i.value, out, values))
  }

  function CEvalArgs(fuel: nat, functions: seq<CFunction>, limit: nat, frames: Frames, output: seq<Value>,
                     es: seq<CExpr>): (CArgs, seq<Value>)
    requires limit <= |functions|
    decreases fuel, 1, es, 0
  {
    if es == [] then (GotAll([]), output)
    else
      var (v, out) := CEval(fuel, functions, limit, frames, output, es[0]);
      match v
      case Stuck => (StuckArgs, out)
      case Spent => (SpentArgs, out)
      case Got(head) =>
        var (rest, out') := CEvalArgs(fuel, functions, limit, frames, out, es[1..]);
        (if rest.GotAll? then GotAll([head] + rest.values) else rest, out')
  }

  function Failure(r: CResult, frames: Frames, output: seq<Value>): CState
    requires !r.Got?
  {
    CState(if r.Stuck? then Wedged else NoFuel, frames, output)
  }

  function CRun(fuel: nat, functions: seq<CFunction>, limit: nat, frames: Frames, output: seq<Value>, s: CStmt): CState
    requires limit <= |functions|
    decreases fuel, 1, s, 2
  {
    match s
    case CDeclare(constant, name, e) =>
      var (v, out) := CEval(fuel, functions, limit, frames, output, e);
      if !v.Got? then Failure(v, frames, out)
      else
        var declared := Declare(frames, name, Cell(v.value, constant));
        if v.value.VoidTree? || declared.None? then CState(Wedged, frames, out)
        else CState(Through, declared.value, out)
    case CSet(name, e) =>
      var (v, out) := CEval(fuel, functions, limit, frames, output, e);
      if !v.Got? then Failure(v, frames, out)
      else
        var current := Find(frames, name);
        var updated := Update(frames, name, v.value);
        if current.None? || TypeName(current.value.value) != TypeName(v.value) || updated.None?
        then CState(Wedged, frames, out)
        else CState(Through, updated.value, out)
    case CDo(e) =>
      var (v, out) := CEval(fuel, functions, limit, frames, output, e);
      if v.Got? then CState(Through, frames, out) else Failure(v, frames, out)
    case CPrint(e) =>
      var (v, out) := CEval(fuel, functions, limit, frames, output, e);
      if !v.Got? then Failure(v, frames, out)
      else if v.value.VoidTree? then CState(Wedged, frames, out)
      else CState(Through, frames, out + [v.value])
    case CReturn(result) => CRunReturn(fuel, functions, limit, frames, output, result)
    case CExit(result) =>
      var r := CRunReturn(fuel, functions, limit, frames, output, result);
      if result.Some? && r.completion.Left? && !IsStatus(r.completion.value) then r.(completion := Wedged) else r
    case CWhile(condition, body) =>
      var (v, out) := CEval(fuel, functions, limit, frames, output, condition);
      if !v.Got? then Failure(v, frames, out)
      else if !IsBool(v.value) then CState(Wedged, frames, out)
      else if !v.value.value.b then CState(Through, frames, out)
      else if fuel == 0 then CState(NoFuel, frames, out)
      else
        var r := CRunBlock(fuel, functions, limit, frames, out, body);
        if r.completion.Through? then CRun(fuel - 1, functions, limit, r.frames, r.output, s) else r
    case CIf(_, _) => CRunIf(fuel, functions, limit, frames, output, s, 0)
    case CFor(variable, start, stop, step, body) =>
      var (v, out) := CEval(fuel, functions, limit, frames + [map[]], output, start);
      if !v.Got? then Failure(v, frames, out)
      else if !IsInt(v.value) then CState(Wedged, frames, out)
      else Leave(CRunFor(fuel, functions, limit, frames + [map[variable := Cell(v.value, false)]], out, s))
    case CForEach(kind, variable, elements, body) =>
      var (vs, out) := CEvalArgs(fuel, functions, limit, frames + [map[]], output, elements);
      (match vs
       case StuckArgs => CState(Wedged, frames, out)
       case SpentArgs => CState(NoFuel, frames, out)
       case GotAll(values) =>
         if kind == "double" then CState(Wedged, frames, out)
         else CRunForEach(fuel, functions, limit, frames, out, variable, values, body))
  }

  /** What main can convert to an exit status. */
  predicate IsStatus(v: Value) { IsInt(v) || IsBool(v) }

  function CRunReturn(fuel: nat, functions: seq<CFunction>, limit: nat, frames: Frames, output: seq<Value>,
                      result: Option<CExpr>): CState
    requires limit <= |functions|
    decreases fuel, 1, result, 1
  {
    if result.None? then CState(Left(VoidTree), frames, output)
    else
      var (v, out) := CEval(fuel, functions, limit, frames, output, result.value);
      if v.Got? then CState(Left(v.value), frames, out) else Failure(v, frames, out)
  }

  function CRunIf(fuel: nat, functions: seq<CFunction>, limit: nat, frames: Frames, output: seq<Value>, s: CStmt,
                  i: nat): CState
    requires limit <= |functions| && s.CIf? && i <= |s.branches|
    decreases fuel, 1, s, 1, |s.branches| - i
  {
    if i == |s.branches| then
      if s.otherwise.NoElse? then CState(Through, frames, output)
      else CRunBlock(fuel, functions, limit, frames, output, s.otherwise.body)
    else
      var (v, out) := CEval(fuel, functions, limit, frames, output, s.branches[i].condition);
      if !v.Got? then Failure(v, frames, out)
      else if !IsBool(v.value) then CState(Wedged, frames, out)
      else if v.value.value.b then CRunBlock(fuel, functions, limit, frames, out, s.branches[i].body)
      else CRunIf(fuel, functions, limit, frames, out, s, i + 1)
  }

  /** One round of a counting loop; its variable lives in the innermost frame. The bound and
      the step are evaluated again in every round. */
  function CRunFor(fuel: nat, functions: seq<CFunction>, limit: nat, frames: Frames, output: seq<Value>, s: CStmt):
    CState
    requires limit <= |functions| && s.CFor?
    decreases fuel, 1, s, 1
  {
    var (step, out) := CEval(fuel, functions, limit, frames, output, s.step);
    if !step.Got? then Failure(step, frames, out)
    else
      var (stop, out') := CEval(fuel, functions, limit, frames, out, s.stop);
      var counter := Find(frames, s.variable);
      if !stop.Got? then Failure(stop, frames, out')
      else if !(IsInt(step.value) && IsInt(stop.value) && counter.Some? && IsInt(counter.value.value))
      then CState(Wedged, frames, out')
      else if !(if step.value.value.i > 0 then counter.value.value.value.i < stop.value.value.i
                else counter.value.value.value.i > stop.value.value.i)
      then CState(Through, frames, out')
      else if fuel == 0 then CState(NoFuel, frames, out')
      else
        var r := CRunBlock(fuel, functions, limit, frames, out', s.body);
        if !r.completion.Through? then r
        else
          var (again, out'') := CEval(fuel, functions, limit, r.frames, r.output, s.step);
          var now := Find(r.frames, s.variable);
          if !again.Got? then Failure(again, r.frames, out'')
          else if !(IsInt(again.value) && now.Some? && IsInt(now.value.value))
          then CState(Wedged, r.frames, out'')
          else
            var next := Update(r.frames, s.variable, IntV(now.value.value.value.i + again.value.value.i));
            if next.None? then CState(Wedged, r.frames, out'')
            else CRunFor(fuel - 1, functions, limit, next.value, out'', s)
  }

  /** Every round has its own constant loop variable. */
  function CRunForEach(fuel: nat, functions: seq<CFunction>, limit: nat, frames: Frames, output: seq<Value>,
                       variable: string, items: seq<Value>, body: seq<CStmt>): CState
    requires limit <= |functions|
    decreases fuel, 1, body, 2
  {
    if items == [] then CState(Through, frames, output)
    else if fuel == 0 then CState(NoFuel, frames, output)
    else
      var r := Leave(CRunBlock(fuel, functions, limit, frames + [map[variable := Cell(items[0], true)]], output, body));
      if r.completion.Through?
      then CRunForEach(fuel - 1, functions, limit, r.frames, r.output, variable, items[1..], body)
      else r
  }

  /** A braced block: what it declares is gone afterwards. */
  function CRunBlock(fuel: nat, functions: seq<CFunction>, limit: nat, frames: Frames, output: seq<Value>,
                     ss: seq<CStmt>): CState
    requires limit <= |functions|
    decreases fuel, 1, ss, 1
  {
    Leave(CRunAll(fuel, functions, limit, frames + [map[]], output, ss))
  }

  function CRunAll(fuel: nat, functions: seq<CFunction>, limit: nat, frames: Frames, output: seq<Value>,
                   ss: seq<CStmt>): CState
    requires limit <= |functions|
    decreases fuel, 1, ss, 0
  {
    if ss == [] then CState(Through, frames, output)
    else
      var r := CRun(fuel, functions, limit, frames, output, ss[0]);
      if r.completion.Through? then CRunAll(fuel, functions, limit, r.frames, r.output, ss[1..]) else r
  }

  /** Some `return` in these statements carries a value (or, when not `valued`, carries none). */
  predicate Returns(ss: seq<CStmt>, valued: bool)
    decreases ss, 0
  {
    ss != [] && (StatementReturns(ss[0], valued) || Returns(ss[1..], valued))
  }

  predicate BranchReturns(branches: seq<CBranch>, valued: bool)
    decreases branches, 0
  {
    branches != [] && (Returns(branches[0].body, valued) || BranchReturns(branches[1..], valued))
  }

  predicate StatementReturns(s: CStmt, valued: bool)
    decreases s, 1
  {
    match s
    case CReturn(result) => result.Some? == valued
    case CWhile(_, body) => Returns(body, valued)
    case CIf(branches, otherwise) =>
      BranchReturns(branches, valued) || (otherwise.Else? && Returns(otherwise.body, valued))
    case CFor(_, _, _, _, body) => Returns(body, valued)
    case CForEach(_, _, _, body) => Returns(body, valued)
    case _ => false
  }

  /** Running the program is calling its main function. */
  function CRunProgram(fuel: nat, functions: seq<CFunction>): (CResult, seq<Value>) {
    var i := Declared(functions, |functions|, "main");
    if i.None? then (Stuck, []) else CallFunction(fuel, functions, i.value, [], [])
  }
}
