/** The interpreter as it runs: an object that switches its current environment
    while a SEP call is active. Every method is proved to do exactly what
    `Semantics` says, to put the caller's environment back on every outcome, and
    to leave the global environment alone while another one is current. */
module Interpreters {
  import opened Ast
  import opened TypeSpecs
  import opened Trees
  import opened StoreSpec
  import opened Semantics

  class Environment {
    const parent: Environment?
    var values: map<string, Variable>

    constructor (parent: Environment?)
      ensures this.parent == parent && values == map[]
    {
      this.parent := parent;
      values := map[];
    }

    method Get(name: string) returns (found: Option<Value>)
      requires parent != null ==> parent.parent == null
      ensures found == Lookup(if parent == null then None else Some(parent.values), values, name)
    {
      if name in values {
        return Some(values[name].value);
      }
      if parent != null && name in parent.values {
        return Some(parent.values[name].value);
      }
      return None;
    }

    /** Returns the code of the failure; a failing assignment changes nothing. */
    method AssignName(name: string, value: Value) returns (failure: Option<string>)
      modifies this`values
      ensures var spec := AssignIn(old(values), name, value);
              if spec.Ok? then failure == None && values == spec.value
              else failure == Some(spec.code) && values == old(values)
    {
      var v: Result<Variable>;
      if name in values {
        v := Reassign(values[name], value);
      } else {
        v := Introduce(value);
      }
      if v.Err? {
        return Some(v.code);
      }
      values := values[name := v.value];
      return None;
    }

    method DefineConstant(name: string, value: Value) returns (failure: Option<string>)
      modifies this`values
      ensures var spec := DefineConst(old(values), name, value);
              if spec.Ok? then failure == None && values == spec.value
              else failure == Some(spec.code) && values == old(values)
    {
      if value.VoidTree? {
        return Some("E126");
      }
      if name in values {
        return Some("E210");
      }
      if value.EmptyTree? || value.EmptysTree? {
        return Some("E130");
      }
      var element := Unknown;
      if value.ListTree? {
        var found := ElementSpec(value.items);
        if found.Err? {
          return Some(found.code);
        }
        element := found.value;
      }
      values := values[name := Variable(value, TypeName(value), element, true)];
      return None;
    }

    method DefineTypedName(name: string, declared: DeclaredType, value: Value, constant: bool)
      returns (failure: Option<string>)
      modifies this`values
      ensures var spec := DefineIn(old(values), name, declared, value, constant);
              if spec.Ok? then failure == None && values == spec.value
              else failure == Some(spec.code) && values == old(values)
    {
      if !IsDeclarable(declared) {
        return Some(UNMODELLED);
      }
      if value.VoidTree? {
        return Some("E126");
      }
      if name in values {
        return Some("E210");
      }
      var v := Define(declared, value, constant);
      if v.Err? {
        return Some(v.code);
      }
      values := values[name := v.value];
      return None;
    }

    /** Indexed assignment to a variable of this environment. */
    method AssignIndexesOf(name: string, indexes: seq<Index>, value: Value) returns (failure: Option<string>)
      requires parent != null ==> parent.parent == null
      modifies this`values
      ensures var spec := AssignAtIn(if parent == null then None
                                     else Some(parent.values), old(values), name, indexes, value);
              if spec.Ok? then failure == None && values == spec.value
              else failure == Some(spec.code) && values == old(values)
    {
      if name !in values {
        return Some(if parent != null && name in parent.values then UNMODELLED else "E202");
      }
      var v := AssignIndexes(values[name], indexes, value);
      if v.Err? {
        return Some(v.code);
      }
      values := values[name := v.value];
      return None;
    }
  }

  /** What a list of already evaluated arguments becomes once the rest is evaluated. */
  ghost function Prepend(values: seq<Value>, rest: ArgsResult): ArgsResult {
    if rest.Values? then Values(values + rest.values) else rest
  }

  lemma PrependNothing(values: seq<Value>, rest: ArgsResult)
    ensures Prepend([], rest) == rest
    ensures Prepend(values, Values([])) == Values(values)
  {
    assert rest.Values? ==> [] + rest.values == rest.values;
    assert values + [] == values;
  }

  lemma PrependAssociative(values: seq<Value>, head: Value, rest: ArgsResult)
    ensures Prepend(values, Prepend([head], rest)) == Prepend(values + [head], rest)
  {
    assert rest.Values? ==> values + ([head] + rest.values) == (values + [head]) + rest.values;
  }

  class Interpreter {
    const globals: Environment
    const program: Program
    var environment: Environment
    var output: seq<Printed>
    var signatures: map<string, Signature>

    ghost predicate Valid()
      reads this, globals, environment
    {
      && globals.parent == null
      && (environment == globals || environment.parent == globals)
    }

    ghost function Shared(): World
      reads this
    {
      World(output, signatures)
    }

    /** The environment behind the current one, as `Semantics` takes it. */
    ghost function Behind(): Option<Env>
      reads this, globals
    {
      if environment == globals then None else Some(globals.values)
    }

    constructor (program: Program)
      ensures Valid() && environment == globals && globals.values == map[]
      ensures this.program == program && output == [] && signatures == map[]
      ensures fresh(globals)
    {
      var top := new Environment(null);
      globals := top;
      environment := top;
      this.program := program;
      output := [];
      signatures := map[];
    }

    /** Evaluating changes no environment at all: the frame is this object alone. */
    method Eval(fuel: nat, e: Expr) returns (r: EvalResult)
      requires Valid()
      modifies this
      ensures Valid() && environment == old(environment)
      ensures (r, Shared()) == Semantics.Eval(fuel, program, old(Behind()), environment.values, old(Shared()), e)
      decreases fuel, 1, e, 1
    {
      match e
      case LiteralExpr(literal) => r := LiteralValue(literal);
      case GroupExpr(inner) => r := Eval(fuel, inner);
      case VariableExpr(name) =>
        var found := environment.Get(name);
        if found.Some? {
          return EvalResult.Value(found.value);
        }
        r := if name in program.logics || IsBuiltin(program.host, name) then EvalResult.Value(LogicV(name))
            else Fault("E202");
      case PositionSelectorExpr(_) => r := Fault("E136");
      case EmptyTestExpr(operand, negated) =>
        r := Eval(fuel, operand);
        if r.Value? {
          r := EvalResult.Value(BoolV(r.value.EmptyTree? != negated));
        }
      case EmptysTestExpr(operand, negated) =>
        r := Eval(fuel, operand);
        if r.Value? {
          r := EvalResult.Value(BoolV(IsEmptys(r.value) != negated));
        }
      case UnaryExpr(operator, operand) =>
        r := Eval(fuel, operand);
        if r.Value? {
          r := UnaryResult(operator, r.value);
        }
      case BinaryExpr(_, _, _) => r := EvalOperator(fuel, e);
      case IndexExpr(target, index) =>
        r := Eval(fuel, target);
        if r.Value? {
          var list := r.value;
          r := Eval(fuel, index);
          if r.Value? {
            r := IndexResult(list, r.value);
          }
        }
      case ListExpr(elements) =>
        var vs := EvalArguments(fuel, elements);
        r := if vs.Values? then ListResult(vs.values) else ArgsFailure(vs);
      case CallExpr(callee, arguments, named) =>
        if named != [] || callee in SHAPE_OPERATIONS {
          return Fault(UNMODELLED);
        }
        var vs := EvalArguments(fuel, arguments);
        if vs.Values? {
          r := CallLogic(fuel, callee, vs.values);
        } else {
          r := ArgsFailure(vs);
        }
      case _ => r := Fault(UNMODELLED);
    }

    /** The right operand is evaluated only if the operator needs it. */
    method EvalOperator(fuel: nat, e: Expr) returns (r: EvalResult)
      requires Valid() && e.BinaryExpr?
      modifies this
      ensures Valid() && environment == old(environment)
      ensures (r, Shared()) == Semantics.EvalBinary(fuel, program, old(Behind()), environment.values, old(Shared()), e)
      decreases fuel, 1, e, 0
    {
      r := Eval(fuel, e.left);
      if !r.Value? {
        return;
      }
      var l := r.value;
      if e.operator == "??" && !l.EmptysTree? {
        if l.EmptyTree? {
          r := Eval(fuel, e.right);
        }
        return;
      }
      if NotPresent(l).Some? {
        return Fault(NotPresent(l).value);
      }
      if e.operator == "&&" || e.operator == "||" {
        if !IsBool(l) {
          return Fault("E201");
        }
        if l.value.b == (e.operator == "||") {
          return;
        }
        r := Eval(fuel, e.right);
        if r.Value? && Condition(r.value).Err? {
          r := Fault(Condition(r.value).code);
        }
        return;
      }
      r := Eval(fuel, e.right);
      if r.Value? {
        r := if NotPresent(r.value).Some? then Fault(NotPresent(r.value).value)
            else BinaryResult(e.operator, l, r.value);
      }
    }

    method EvalArguments(fuel: nat, es: seq<Expr>) returns (r: ArgsResult)
      requires Valid()
      modifies this
      ensures Valid() && environment == old(environment)
      ensures (r, Shared()) == EvalArgs(fuel, program, old(Behind()), environment.values, old(Shared()), es)
      decreases fuel, 1, es, 0
    {
      var values := [];
      var i := 0;
      ghost var env := environment.values;
      ghost var all := EvalArgs(fuel, program, Behind(), env, Shared(), es);
      assert es[0..] == es;
      PrependNothing([], all.0);
      while i < |es|
        invariant 0 <= i <= |es| && Valid() && environment == old(environment) && env == environment.values
        invariant all.0 == Prepend(values, EvalArgs(fuel, program, old(Behind()), env, Shared(), es[i..]).0)
        invariant all.1 == EvalArgs(fuel, program, old(Behind()), env, Shared(), es[i..]).1
      {
        assert es[i..][0] == es[i] && es[i..][1..] == es[i + 1..];
        var v := Eval(fuel, es[i]);
        match v {
          case Fault(code) => return ArgsFault(code);
          case Thrown(category) => return ArgsThrown(category);
          case Exhausted => return ArgsExhausted;
          case Value(head) =>
            PrependAssociative(values, head, EvalArgs(fuel, program, old(Behind()), env, Shared(), es[i + 1..]).0);
            values := values + [head];
        }
        i := i + 1;
      }
      PrependNothing(values, Values([]));
      r := Values(values);
    }

    /** The checks of a call. The types of its arguments are recorded. */
    method Enter(callee: string, arguments: seq<Value>) returns (r: Result<seq<Value>>)
      modifies this`signatures
      ensures var spec := EnterCall(program.logics, old(Shared()), callee, arguments);
              if spec.Err? then r == Err(spec.code) && signatures == old(signatures)
              else r == Ok(spec.value.1) && Shared() == spec.value.0
    {
      if callee !in program.logics {
        return Err("E206");
      }
      var logic := program.logics[callee];
      if |arguments| != |logic.parameters| {
        return Err("E207");
      }
      var prepared := PrepareArguments(logic.parameters, arguments);
      if prepared.Err? {
        return Err(prepared.code);
      }
      var signature := SignatureOf(prepared.value);
      if signature.Err? {
        return Err(signature.code);
      }
      if callee !in signatures {
        signatures := signatures[callee := signature.value];
      } else {
        var merged := MergeSignatures(signatures[callee], signature.value);
        if merged.None? {
          return Err("E208");
        }
        signatures := signatures[callee := merged.value];
      }
      return Ok(prepared.value);
    }

    /** A call runs in an environment of its own and puts the caller's back. */
    method CallLogic(fuel: nat, callee: string, arguments: seq<Value>) returns (r: EvalResult)
      requires Valid()
      modifies this
      ensures Valid() && environment == old(environment)
      ensures globals.values == old(globals.values) && environment.values == old(environment.values)
      ensures (r, Shared()) == Semantics.Call(fuel, program, globals.values, old(Shared()), callee, arguments)
      decreases fuel, 0
    {
      hide BuiltinResult, EnterCall, BindParameters;
      var builtin := BuiltinResult(program, callee, arguments);
      if builtin.Some? {
        return builtin.value;
      }
      var entered := Enter(callee, arguments);
      if entered.Err? {
        return Fault(entered.code);
      }
      var logic := program.logics[callee];
      var previous := environment;
      environment := new Environment(globals);
      var failure := Bind(logic.parameters, entered.value);
      if failure.Some? {
        r := Fault(failure.value);
      } else if fuel == 0 {
        r := Exhausted;
      } else {
        var completion := ExecuteAll(fuel - 1, logic.body);
        r := CallResult(completion);
      }
      environment := previous;
    }

    method Bind(parameters: seq<Parameter>, arguments: seq<Value>) returns (failure: Option<string>)
      requires |parameters| == |arguments|
      requires environment != globals && environment.values == map[]
      modifies environment`values
      ensures var spec := BindParameters(map[], parameters, arguments);
              if spec.Ok? then failure == None && environment.values == spec.value
              else failure == Some(spec.code)
    {
      var i := 0;
      ghost var all := BindParameters(map[], parameters, arguments);
      while i < |parameters|
        invariant 0 <= i <= |parameters|
        invariant all == BindParameters(environment.values, parameters[i..], arguments[i..])
      {
        var p := parameters[i];
        assert parameters[i..][1..] == parameters[i + 1..] && arguments[i..][1..] == arguments[i + 1..];
        if p.declared.None? {
          failure := environment.AssignName(p.name, arguments[i]);
        } else {
          failure := environment.DefineTypedName(p.name, p.declared.value, arguments[i], false);
        }
        if failure.Some? {
          return;
        }
        i := i + 1;
      }
      return None;
    }

    /** Only the current environment can change, so the globals cannot while a call is active. */
    method Execute(fuel: nat, s: Stmt) returns (completion: Completion)
      requires Valid()
      modifies this, environment`values
      ensures Valid() && environment == old(environment)
      ensures environment != globals ==> globals.values == old(globals.values)
      ensures ExecResult(completion, environment.values, Shared())
           == Exec(fuel, program, old(Behind()), old(environment.values), old(Shared()), s)
      decreases fuel, 1, s, 2
    {
      hide Semantics.Eval, Semantics.EvalArgs, Semantics.ExecPrint, Semantics.ExecIf, Semantics.ExecFor, AssignIn,
      DefineIn,
        DefineConst, AssignAtIn, ExecCatches, ExecFinally, Semantics.ExecAll;
      match s
      case Assignment(_, _) => completion := ExecuteDefinition(fuel, s);
      case IndexAssignment(_, _, _) => completion := ExecuteDefinition(fuel, s);
      case ConstDeclaration(_, _) => completion := ExecuteDefinition(fuel, s);
      case TypedDeclaration(_, _, _, _) => completion := ExecuteDefinition(fuel, s);
      case ListBlock(_, _) => completion := ExecuteDefinition(fuel, s);
      case PrintStmt(e) => completion := Print(fuel, e, false);
      case PrintErrorStmt(e) => completion := Print(fuel, e, true);
      case ExpressionStmt(e) =>
        var v := Eval(fuel, e);
        completion := if v.Value? then Normal else AbruptCompletion(v);
      case ReturnStmt(result) =>
        if result.None? {
          return Returned(None);
        }
        var v := Eval(fuel, result.value);
        completion := if v.Value? then Returned(Some(v.value)) else AbruptCompletion(v);
      case ThrowStmt(e) =>
        var v := Eval(fuel, e);
        if !v.Value? {
          return AbruptCompletion(v);
        }
        completion := if IsError(v.value) then Raised(v.value.value.category) else Failed("E201");
      case IfStmt(_, _, _) => completion := ExecuteIf(fuel, s);
      case WhileStmt(_, _, _) => completion := ExecuteWhile(fuel, s);
      case ForStmt(_, variable, iterable, body) =>
        var list := Eval(fuel, iterable);
        if !list.Value? {
          return AbruptCompletion(list);
        }
        if !list.value.ListTree? {
          return Failed("E201");
        }
        completion := ExecuteFor(fuel, variable, list.value.items, body);
      case TryStmt(_, _, _, _) => completion := ExecuteTry(fuel, s);
      case ErrorDecl(_) => completion := Normal;
      case HttpRouteDecl(_, _, _, _) => completion := Normal;
      case LogicDecl(_) => completion := Normal;
      case _ => completion := Failed(UNMODELLED);
    }

    /** A statement that gives a variable of the current environment a value. */
    method ExecuteDefinition(fuel: nat, s: Stmt) returns (completion: Completion)
      requires Valid()
      requires s.Assignment? || s.IndexAssignment? || s.ConstDeclaration? || s.TypedDeclaration? || s.ListBlock?
      modifies this, environment`values
      ensures Valid() && environment == old(environment)
      ensures environment != globals ==> globals.values == old(globals.values)
      ensures ExecResult(completion, environment.values, Shared())
           == Exec(fuel, program, old(Behind()), old(environment.values), old(Shared()), s)
      decreases fuel, 1, s, 1
    {
      hide Semantics.Eval, Semantics.EvalArgs, AssignIn, DefineIn, DefineConst, AssignAtIn, ListResult;
      match s
      case Assignment(name, e) =>
        var v := Eval(fuel, e);
        if !v.Value? {
          return AbruptCompletion(v);
        }
        completion := Assigned(name, v.value);
      case IndexAssignment(name, indexes, e) =>
        var vs := EvalArguments(fuel, indexes);
        if !vs.Values? {
          return AbruptCompletion(ArgsFailure(vs));
        }
        var v := Eval(fuel, e);
        if !v.Value? {
          return AbruptCompletion(v);
        }
        var failure := environment.AssignIndexesOf(name, IndexesOf(vs.values), v.value);
        completion := if failure.Some? then Failed(failure.value) else Normal;
      case ConstDeclaration(name, e) =>
        var v := Eval(fuel, e);
        if !v.Value? {
          return AbruptCompletion(v);
        }
        var failure := environment.DefineConstant(name, v.value);
        completion := if failure.Some? then Failed(failure.value) else Normal;
      case TypedDeclaration(name, declared, e, constant) =>
        var v := Eval(fuel, e);
        if !v.Value? {
          return AbruptCompletion(v);
        }
        var failure := environment.DefineTypedName(name, declared, v.value, constant);
        completion := if failure.Some? then Failed(failure.value) else Normal;
      case ListBlock(name, elements) =>
        var vs := EvalArguments(fuel, elements);
        if !vs.Values? {
          return AbruptCompletion(ArgsFailure(vs));
        }
        var list := ListResult(vs.values);
        if !list.Value? {
          return AbruptCompletion(list);
        }
        completion := Assigned(name, list.value);
    }

    method Assigned(name: string, value: Value) returns (completion: Completion)
      requires Valid()
      modifies environment`values
      ensures environment != globals ==> globals.values == old(globals.values)
      ensures ExecResult(completion, environment.values, Shared())
           == Store(AssignIn(old(environment.values), name, value), old(environment.values), Shared())
    {
      hide AssignIn;
      var failure := environment.AssignName(name, value);
      completion := if failure.Some? then Failed(failure.value) else Normal;
    }

    /** The catch that takes the error runs in its place, and the finally body runs whatever happened. */
    method ExecuteTry(fuel: nat, s: Stmt) returns (completion: Completion)
      requires Valid() && s.TryStmt?
      modifies this, environment`values
      ensures Valid() && environment == old(environment)
      ensures environment != globals ==> globals.values == old(globals.values)
      ensures ExecResult(completion, environment.values, Shared())
           == Exec(fuel, program, old(Behind()), old(environment.values), old(Shared()), s)
      decreases fuel, 1, s, 1
    {
      completion := ExecuteAll(fuel, s.body);
      if CanBeCaught(completion) {
        var i := Catcher(program.host, s.catches, completion, 0);
        if i < |s.catches| {
          completion := ExecuteAll(fuel, s.catches[i].body);
        }
      }
      if s.finallyBody.Body? && !Ends(completion) {
        var last := ExecuteAll(fuel, s.finallyBody.statements);
        if !last.Normal? {
          completion := last;
        }
      }
    }

    method Print(fuel: nat, e: Expr, error: bool) returns (completion: Completion)
      requires Valid()
      modifies this
      ensures Valid() && environment == old(environment)
      ensures ExecResult(completion, environment.values, Shared())
           == ExecPrint(fuel, program, old(Behind()), environment.values, old(Shared()), e, error)
      decreases fuel, 1, e, 2
    {
      var v := Eval(fuel, e);
      if !v.Value? {
        return AbruptCompletion(v);
      }
      if NotPresent(v.value).Some? {
        return Failed(NotPresent(v.value).value);
      }
      output := output + [Printed(v.value, error)];
      completion := Normal;
    }

    method ExecuteIf(fuel: nat, s: Stmt) returns (completion: Completion)
      requires Valid() && s.IfStmt?
      modifies this, environment`values
      ensures Valid() && environment == old(environment)
      ensures environment != globals ==> globals.values == old(globals.values)
      ensures ExecResult(completion, environment.values, Shared())
           == ExecIf(fuel, program, old(Behind()), old(environment.values), old(Shared()), s, 0)
      decreases fuel, 1, s, 1
    {
      var i := 0;
      ghost var all := ExecIf(fuel, program, Behind(), environment.values, Shared(), s, 0);
      while i < |s.branches|
        invariant 0 <= i <= |s.branches| && Valid() && environment == old(environment)
        invariant environment.values == old(environment.values) && globals.values == old(globals.values)
        invariant all == ExecIf(fuel, program, Behind(), environment.values, Shared(), s, i)
      {
        var v := Eval(fuel, s.branches[i].condition);
        if !v.Value? {
          return AbruptCompletion(v);
        }
        var holds := Condition(v.value);
        if holds.Err? {
          return Failed(holds.code);
        }
        if holds.value {
          completion := ExecuteAll(fuel, s.branches[i].body);
          return;
        }
        i := i + 1;
      }
      if s.elseBody.NoBody? {
        return Normal;
      }
      completion := ExecuteAll(fuel, s.elseBody.statements);
    }

    method ExecuteWhile(fuel: nat, s: Stmt) returns (completion: Completion)
      requires Valid() && s.WhileStmt?
      modifies this, environment`values
      ensures Valid() && environment == old(environment)
      ensures environment != globals ==> globals.values == old(globals.values)
      ensures ExecResult(completion, environment.values, Shared())
           == Exec(fuel, program, old(Behind()), old(environment.values), old(Shared()), s)
      decreases fuel, 1, s, 1
    {
      var left: nat := fuel;
      ghost var all := Exec(fuel, program, Behind(), environment.values, Shared(), s);
      while true
        invariant left <= fuel && Valid() && environment == old(environment)
        invariant environment != globals ==> globals.values == old(globals.values)
        invariant all == Exec(left, program, Behind(), environment.values, Shared(), s)
        decreases left
      {
        var v := Eval(left, s.condition);
        if !v.Value? {
          return AbruptCompletion(v);
        }
        var holds := Condition(v.value);
        if holds.Err? {
          return Failed(holds.code);
        }
        if !holds.value {
          return Normal;
        }
        if left == 0 {
          return OutOfFuel;
        }
        completion := ExecuteAll(left, s.body);
        if !completion.Normal? {
          return;
        }
        left := left - 1;
      }
    }

    method ExecuteFor(fuel: nat, variable: string, items: seq<Value>, body: seq<Stmt>) returns (completion: Completion)
      requires Valid()
      modifies this, environment`values
      ensures Valid() && environment == old(environment)
      ensures environment != globals ==> globals.values == old(globals.values)
      ensures ExecResult(completion, environment.values, Shared())
           == ExecFor(fuel, program, old(Behind()), old(environment.values), old(Shared()), variable, items, body)
      decreases fuel, 1, body, 1
    {
      var left: nat := fuel;
      var i := 0;
      ghost var all := ExecFor(fuel, program, Behind(), environment.values, Shared(), variable, items, body);
      while i < |items|
        invariant 0 <= i <= |items| && left <= fuel && Valid() && environment == old(environment)
        invariant environment != globals ==> globals.values == old(globals.values)
        invariant all == ExecFor(left, program, Behind(), environment.values, Shared(), variable, items[i..], body)
      {
        assert items[i..][0] == items[i] && items[i..][1..] == items[i + 1..];
        var failure := environment.AssignName(variable, items[i]);
        if failure.Some? {
          return Failed(failure.value);
        }
        if left == 0 {
          return OutOfFuel;
        }
        completion := ExecuteAll(left, body);
        if !completion.Normal? {
          return;
        }
        left := left - 1;
        i := i + 1;
      }
      completion := Normal;
    }

    method ExecuteAll(fuel: nat, ss: seq<Stmt>) returns (completion: Completion)
      requires Valid()
      modifies this, environment`values
      ensures Valid() && environment == old(environment)
      ensures environment != globals ==> globals.values == old(globals.values)
      ensures ExecResult(completion, environment.values, Shared())
           == ExecAll(fuel, program, old(Behind()), old(environment.values), old(Shared()), ss)
      decreases fuel, 1, ss, 0
    {
      var i := 0;
      ghost var all := ExecAll(fuel, program, Behind(), environment.values, Shared(), ss);
      while i < |ss|
        invariant 0 <= i <= |ss| && Valid() && environment == old(environment)
        invariant environment != globals ==> globals.values == old(globals.values)
        invariant all == ExecAll(fuel, program, Behind(), environment.values, Shared(), ss[i..])
      {
        assert ss[i..][0] == ss[i] && ss[i..][1..] == ss[i + 1..];
        completion := Execute(fuel, ss[i]);
        if !completion.Normal? {
          return;
        }
        i := i + 1;
      }
      completion := Normal;
    }
  }

  /** Loads the declarations of a program in order. */
  method LoadProgram(host: Host, statements: seq<Stmt>) returns (r: Result<Program>)
    ensures r == Load(host, statements)
  {
    var program := Program(map[], {}, host);
    var routes := {};
    for i := 0 to |statements|
      invariant Load(host, statements) == LoadFrom(statements, program, routes, i)
    {
      var next := LoadOne(statements, program, routes, statements[i]);
      if next.Err? {
        return Err(next.code);
      }
      program, routes := next.value.0, next.value.1;
    }
    return Ok(program);
  }

  method RunProgram(fuel: nat, host: Host, statements: seq<Stmt>) returns (r: EvalResult, output: seq<Printed>)
    ensures var (spec, world) := Run(fuel, host, statements); r == spec && output == world.output
  {
    var program := LoadProgram(host, statements);
    if program.Err? {
      return Fault(program.code), [];
    }
    var interpreter := new Interpreter(program.value);
    if "main" in program.value.logics && program.value.logics["main"].parameters != [] {
      return Fault("E205"), [];
    }
    var completion := interpreter.ExecuteAll(fuel, statements);
    match completion {
      case Normal =>
        if "main" in program.value.logics {
          r := interpreter.CallLogic(fuel, "main", []);
        } else {
          r := EvalResult.Value(VoidTree);
        }
      case Returned(_) => r := Fault(CRASH);
      case _ => r := CallResult(completion);
    }
    output := interpreter.output;
  }
}
