/** A recursive big-step evaluator for the syntax of `Syntax`: the reference semantics the byte
    machine is compared with. It knows nothing of stacks, program counters or package lengths.
    The one trace of the machine is `pending`: whether some caller holds unfinished operands,
    on which the interpreter's implicit return depends. */
module Evaluator {
  import opened Bits
  import opened Outcomes
  import opened Names
  import opened Namespace
  import opened Opcodes
  import opened Operators
  import opened Syntax

  /** The bodies of the methods that may be called. */
  type Program = map<nat, seq<Stmt>>

  /** The evaluator's verdict: a value, a fault of the interpreter, or no verdict because the fuel
      is used up, a name does not mean what the syntax tree says, or a string, a buffer, a package, a
      reference or a field is to be computed with. */
  datatype Verdict<+T> = Done(value: T) | Fault(fault: Outcomes.Fault) | OutOfFuel | Misread {
    predicate IsFailure() {
      !Done?
    }

    function PropagateFailure<U>(): Verdict<U>
      requires !Done?
    {
      match this
      case Fault(f) => Fault(f)
      case OutOfFuel => OutOfFuel
      case Misread => Misread
    }

    function Extract(): T
      requires Done?
    {
      value
    }
  }

  function Lift<T>(r: Res<T>): Verdict<T> {
    match r
    case Ok(v) => Done(v)
    case Fail(Unknown) => Misread
    case Fail(f) => Fault(f)
  }

  datatype Flow = Normal | Broke | Continued | Returned(v: Object)

  function ConstantValue(c: Constant): nat {
    match c
    case Zero => 0
    case One => 1
    case AllOnes => TWO64 - 1
    case Byte(n) => n
    case Word(n) => n
    case DWord(n) => n
    case QWord(n) => n
  }

  function AsInteger(v: Object): Res<u64> {
    match v
    case Integer(n) => Ok(n)
    case Uninit => Fail(Api(ExecutionFailure))
    case _ => Fail(Panic)
  }

  // ------------------------------------------------------------------------------------
  // Operators: inputs to a result and one stored value per target.
  // ------------------------------------------------------------------------------------

  function Compared(op: nat, a: u64, b: u64): bool {
    || (op == LEQUAL_OP && a == b)
    || (op == LLESS_OP && a < b)
    || (op == LGREATER_OP && b < a)
  }

  /** The result of an operator and the values it stores, from its input values. */
  function Meaning(op: Operator, inputs: seq<Object>): Res<(Object, seq<Object>)>
    requires |inputs| == if op in {INCREMENT_OP, DECREMENT_OP} then 1 else ValueCount(op)
  {
    if op in {STORE_OP, COPYOBJECT_OP} then Ok((inputs[0], [inputs[0]]))
    else if op in {INCREMENT_OP, DECREMENT_OP} then
      if !inputs[0].Integer? then Fail(Panic)
      else
        var r := Integer(Wrap(inputs[0].n + if op == INCREMENT_OP then 1 else -1));
        Ok((r, [r]))
    else if op in {LEQUAL_OP, LLESS_OP, LGREATER_OP} then
      if inputs[0].Integer? && inputs[1].Integer?
      then Ok((Integer(Truth(Compared(op, inputs[0].n, inputs[1].n))), []))
      else if inputs[0].Opaque? || inputs[1].Opaque? then Fail(Unknown)
      else Fail(Api(IllegalArguments))
    else
      var a :- AsInteger(inputs[0]);
      if |inputs| == 1 then
        var r := Integer(Unary(op, a));
        Ok((r, if op == LNOT_OP then [] else [r]))
      else
        var b :- AsInteger(inputs[1]);
        if op == DIVIDE_OP then
          if b == 0 then Fail(Undefined)
          else Ok((Uninit, [Integer(Remainder(a, b)), Integer(a / b)]))
        else
          var n :- Binary(op, a, b);
          Ok((Integer(n), if op in {LAND_OP, LOR_OP} then [] else [Integer(n)]))
  }

  function StoreAll(env: Env, targets: seq<Operand>, vs: seq<Object>, keepType: bool): Res<Env>
    requires |targets| == |vs|
    decreases |vs|
  {
    if vs == [] then Ok(env)
    else
      var env' :- StoreTo(env, targets[0], vs[0], keepType);
      StoreAll(env', targets[1..], vs[1..], keepType)
  }

  function ApplyOperator(op: Operator, vs: seq<Object>, targets: seq<Operand>, env: Env): Res<(Object, Env)>
    requires |vs| == ValueCount(op) && |targets| == TargetCount(op)
  {
    var inputs :- if op in {INCREMENT_OP, DECREMENT_OP}
                  then (var v :- Load(env, targets[0]); Ok([v])) else Ok(vs);
    var m :- if |inputs| == (if op in {INCREMENT_OP, DECREMENT_OP} then 1 else ValueCount(op))
             then Meaning(op, inputs) else Fail(Panic);
    if |m.1| != |targets| then Fail(Panic)
    else
      var env' :- StoreAll(env, targets, m.1, op != COPYOBJECT_OP);
      Ok((m.0, env'))
  }

  function EvalTarget(t: Target, handle: nat, ns: Space): Res<Operand> {
    match t
    case NoTarget => Ok(NullName)
    case ArgTarget(i) => Ok(ArgName(i))
    case LocalTarget(i) => Ok(LocalName(i))
    case NameTarget(name) =>
      var target :- DoResolve(ns, handle, name);
      if target.None? then Fail(Api(UnexpectedResult)) else Ok(ResolvedName(target.value))
  }

  function EvalTargets(ts: seq<Target>, handle: nat, ns: Space): Res<seq<Operand>>
    decreases |ts|
  {
    if ts == [] then Ok([])
    else
      var o :- EvalTarget(ts[0], handle, ns);
      var rest :- EvalTargets(ts[1..], handle, ns);
      Ok([o] + rest)
  }

  /** Name(): a second declaration of the same name is ignored. */
  function DeclareName(env: Env, handle: nat, name: AmlName, v: Object): Res<Env> {
    var place :- DoResolveNew(env.ns, handle, name);
    match Install(env.ns, place.0, place.1, NameObject(v))
    case Fail(_) => Ok(env)
    case Ok(ns) =>
      var invocation := match env.invocation
        case None => None
        case Some(inv) => Some(inv.(created := inv.created + [env.ns.next]));
      Ok(Env(invocation, ns))
  }

  // ------------------------------------------------------------------------------------
  // Expressions and statements. Fuel bounds loop iterations and call depth.
  // ------------------------------------------------------------------------------------

  function EvalExpr(p: Program, fuel: nat, e: Expr, handle: nat, env: Env, pending: bool): Verdict<(Object, Env)>
    decreases fuel, e, 0
  {
    match e
    case Const(c) => Done((Integer(Wrap(ConstantValue(c))), env))
    case Arg(i) => var v :- Lift(Load(env, ArgName(i))); Done((v, env))
    case Local(i) => var v :- Lift(Load(env, LocalName(i))); Done((v, env))
    case Var(name) =>
      var target :- Lift(DoResolve(env.ns, handle, name));
      if target.None? then Fault(Api(UnexpectedResult))
      else if IsMethod(env.ns, target.value) then Misread
      else var v :- Lift(Access(env.ns, target.value)); Done((v, env))
    case Apply(op, es, ts) =>
      var vs :- EvalExprs(p, fuel, es, handle, env, pending);
      var targets :- Lift(EvalTargets(ts, handle, vs.1.ns));
      if |vs.0| != ValueCount(op) || |targets| != TargetCount(op) then Misread
      else Lift(ApplyOperator(op, vs.0, targets, vs.1))
    case Call(name, args) =>
      var target :- Lift(DoResolve(env.ns, handle, name));
      if target.None? then Fault(Api(UnexpectedResult))
      else if target.value !in p || ArgumentCount(env.ns, target.value) != |args| then Misread
      else
        var vs :- EvalExprs(p, fuel, args, handle, env, true);
        if fuel == 0 then OutOfFuel
        else
          var r :- CallMethod(p, fuel - 1, target.value, vs.0, vs.1.ns, pending);
          Done((r.0, vs.1.(ns := r.1)))
  }

  /** Evaluates from left to right; from the second operand on, the first one is pending. */
  function EvalExprs(p: Program, fuel: nat, es: seq<Expr>, handle: nat, env: Env, pending: bool)
    : Verdict<(seq<Object>, Env)>
    decreases fuel, es, 0
  {
    if es == [] then Done(([], env))
    else
      var first :- EvalExpr(p, fuel, es[0], handle, env, pending);
      var rest :- EvalExprs(p, fuel, es[1..], handle, first.1, true);
      Done(([first.0] + rest.0, rest.1))
  }

  predicate IsMethod(ns: Space, n: nat) {
    KindOf(ns, n).Some? && KindOf(ns, n).value.Method?
  }

  function ArgumentCount(ns: Space, n: nat): int {
    if IsMethod(ns, n) then KindOf(ns, n).value.flags % 8 else -1
  }

  function FreshVariables(args: seq<Object>): Invocation {
    Invocation(args + seq(if |args| <= 7 then 7 - |args| else 0, i => Uninit), seq(8, i => Uninit), [])
  }

  /** A call: the result and the namespace without the names the method created. */
  function CallMethod(p: Program, fuel: nat, n: nat, args: seq<Object>, ns: Space, pending: bool)
    : Verdict<(Object, Space)>
    requires n in p
    decreases fuel
  {
    var r :- ExecStmts(p, fuel, p[n], n, Env(Some(FreshVariables(args)), ns), pending);
    var v :-
      match r.0
      case Returned(v) => Done(v)
      case Normal => if pending then Fault(Panic) else Done(Integer(0))
      case _ => Fault(Panic);
    if r.1.invocation.None? then Fault(Internal)
    else
      var ns' :- Lift(UninstallAll(r.1.ns, r.1.invocation.value.created));
      Done((v, ns'))
  }

  function ExecStmt(p: Program, fuel: nat, st: Stmt, handle: nat, env: Env, pending: bool): Verdict<(Flow, Env)>
    decreases fuel, st, 0
  {
    match st
    case Nop => Done((Normal, env))
    case Do(e) =>
      if e.Arg? || e.Local? then Fault(Panic)
      else var r :- EvalExpr(p, fuel, e, handle, env, pending); Done((Normal, r.1))
    case If(c, thn) =>
      var r :- EvalExpr(p, fuel, c, handle, env, pending);
      var n :- Lift(AsInteger(r.0));
      if n != 0 then ExecStmts(p, fuel, thn, handle, r.1, pending) else Done((Normal, r.1))
    case IfElse(c, thn, els) =>
      var r :- EvalExpr(p, fuel, c, handle, env, pending);
      var n :- Lift(AsInteger(r.0));
      if n != 0 then ExecStmts(p, fuel, thn, handle, r.1, pending)
      else ExecStmts(p, fuel, els, handle, r.1, pending)
    case While(c, body) => ExecLoop(p, fuel, c, body, handle, env, pending)
    case Break => Done((Broke, env))
    case Continue => Done((Continued, env))
    case Return(e) => var r :- EvalExpr(p, fuel, e, handle, env, pending); Done((Returned(r.0), r.1))
    case Declare(name, e) =>
      var r :- EvalExpr(p, fuel, e, handle, env, true);
      var env' :- Lift(DeclareName(r.1, handle, name, r.0));
      Done((Normal, env'))
  }

  function ExecStmts(p: Program, fuel: nat, ss: seq<Stmt>, handle: nat, env: Env, pending: bool): Verdict<(Flow, Env)>
    decreases fuel, ss, 0
  {
    if ss == [] then Done((Normal, env))
    else
      var r :- ExecStmt(p, fuel, ss[0], handle, env, pending);
      if r.0.Normal? then ExecStmts(p, fuel, ss[1..], handle, r.1, pending) else Done(r)
  }

  function ExecLoop(p: Program, fuel: nat, c: Expr, body: seq<Stmt>, handle: nat, env: Env, pending: bool)
    : Verdict<(Flow, Env)>
    decreases fuel, c, 1, body
  {
    var r :- EvalExpr(p, fuel, c, handle, env, pending);
    var n :- Lift(AsInteger(r.0));
    if n == 0 then Done((Normal, r.1))
    else if fuel == 0 then OutOfFuel
    else
      var b :- ExecStmts(p, fuel - 1, body, handle, r.1, pending);
      match b.0
      case Returned(_) => Done(b)
      case Broke => Done((Normal, b.1))
      case _ => ExecLoop(p, fuel - 1, c, body, handle, b.1, pending)
  }
}
