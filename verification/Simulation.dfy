/** The byte machine refines the big-step evaluator: running it on encoded code gives the result,
    the variables and the namespace the evaluator computes, or the same error; and when the
    evaluator runs out of fuel, the machine has made at least that many steps and is still going. */
module Simulation {
  import opened Bits
  import opened Outcomes
  import opened Names
  import opened Namespace
  import opened Opcodes
  import opened Operators
  import opened Syntax
  import opened Machine
  import opened Decoding
  import opened OperatorRefinement
  import E = Evaluator

  // ------------------------------------------------------------------------------------
  // Runs.
  // ------------------------------------------------------------------------------------

  lemma {:induction false} RunAdd(r: Res<State>, m: nat, n: nat)
    ensures Run(Run(r, m), n) == Run(r, m + n)
    decreases m
  {
    hide Process;
    if m > 0 && !Halted(r) { RunAdd(Process(r.value), m - 1, n); }
  }

  lemma RunOne(s: State)
    requires s.items.Cons?
    ensures Run(Ok(s), 1) == Process(s)
  {
    hide Process;
  }

  /** Appends the step after a run that reached `s`. */
  lemma RunNext(start: Res<State>, n: nat, s: State)
    requires Run(start, n) == Ok(s) && s.items.Cons?
    ensures Run(start, n + 1) == Process(s)
  {
    hide Run, Process;
    RunAdd(start, n, 1);
    RunOne(s);
  }

  /** What the evaluator's verdict says about `n` steps from `start`. */
  ghost predicate Matches(start: Res<State>, n: nat, fuel: nat, target: E.Verdict<State>) {
    match target
    case Done(s) => Run(start, n) == Ok(s)
    case Fault(f) => Run(start, n) == Fail(f)
    case OutOfFuel => n >= fuel && !Halted(Run(start, n))
    case Misread => true
  }

  lemma Compose(start: Res<State>, m: nat, middle: Res<State>, n: nat, fuel: nat, target: E.Verdict<State>)
    requires Run(start, m) == middle && Matches(middle, n, fuel, target)
    ensures Matches(start, m + n, m + fuel, target) && Matches(start, m + n, fuel, target)
  {
    hide Process, Run;
    RunAdd(start, m, n);
  }

  lemma MatchesLess(start: Res<State>, n: nat, more: nat, fuel: nat, target: E.Verdict<State>)
    requires Matches(start, n, more, target) && fuel <= more
    ensures Matches(start, n, fuel, target)
  {
    hide Run;
  }

  lemma ComposeStep(s: State, n: nat, fuel: nat, target: E.Verdict<State>)
    requires s.items.Cons? && Matches(Process(s), n, fuel, target)
    ensures Matches(Ok(s), 1 + n, fuel + 1, target) && Matches(Ok(s), 1 + n, fuel, target)
  {
    hide Matches;
    RunOne(s);
    Compose(Ok(s), 1, Process(s), n, fuel, target);
  }

  // ------------------------------------------------------------------------------------
  // Programs in memory; evaluation never touches them.
  // ------------------------------------------------------------------------------------

  predicate MethodLoaded(body: seq<Stmt>, ns: Space, n: nat) {
    && n < ns.next && E.IsMethod(ns, n) && WfStmts(body)
    && KindOf(ns, n).value.size == |EncodeStmts(body)|
    && Holds(KindOf(ns, n).value.code, 0, EncodeStmts(body))
  }

  predicate Loaded(p: E.Program, ns: Space) {
    forall n :: n in p ==> MethodLoaded(p[n], ns, n)
  }

  ghost predicate SameMethods(ns: Space, ns': Space) {
    && ns.next <= ns'.next
    && forall n: nat :: n < ns.next && E.IsMethod(ns, n) ==> KindOf(ns', n) == KindOf(ns, n)
  }

  lemma StoreAllKeepsMethods(env: Env, targets: seq<Operand>, vs: seq<Object>, keepType: bool)
    requires |targets| == |vs|
    ensures var r := E.StoreAll(env, targets, vs, keepType); r.Ok? ==> SameMethods(env.ns, r.value.ns)
    decreases |vs|
  {
    if vs != [] {
      var r := StoreTo(env, targets[0], vs[0], keepType);
      if r.Ok? { StoreAllKeepsMethods(r.value, targets[1..], vs[1..], keepType); }
    }
  }

  lemma {:induction false} UninstallAllKeepsMethods(ns: Space, created: seq<nat>)
    ensures var r := UninstallAll(ns, created); r.Ok? ==> SameMethods(ns, r.value)
    decreases |created|
  {
    if created != [] {
      var r := Uninstall(ns, created[0]);
      if r.Ok? { UninstallAllKeepsMethods(r.value, created[1..]); }
    }
  }

  lemma ApplyKeepsLoaded(p: E.Program, op: Operator, vs: seq<Object>, targets: seq<Operand>, env: Env)
    requires |vs| == ValueCount(op) && |targets| == TargetCount(op) && Loaded(p, env.ns)
    ensures var r := E.ApplyOperator(op, vs, targets, env); r.Ok? ==> Loaded(p, r.value.1.ns)
  {
    var r := E.ApplyOperator(op, vs, targets, env);
    if r.Ok? {
      var inputs := if op in {INCREMENT_OP, DECREMENT_OP} then [Load(env, targets[0]).value] else vs;
      var m := E.Meaning(op, inputs).value;
      StoreAllKeepsMethods(env, targets, m.1, op != COPYOBJECT_OP);
    }
  }

  lemma DeclareKeepsLoaded(p: E.Program, env: Env, handle: nat, name: AmlName, v: Object)
    requires Loaded(p, env.ns)
    ensures var r := E.DeclareName(env, handle, name, v); r.Ok? ==> Loaded(p, r.value.ns)
  {
    var r := E.DeclareName(env, handle, name, v);
    if r.Ok? {
      assert SameMethods(env.ns, r.value.ns);
    }
  }

  // ------------------------------------------------------------------------------------
  // The states the evaluator's verdicts stand for.
  // ------------------------------------------------------------------------------------

  /** `k` code bytes further, with new variables. */
  function Post(s: State, k: nat, env: Env): State
    requires Ready(s)
  {
    WithEnv(Skip(s, k), env)
  }

  function Pending(s: State): bool {
    s.operands != []
  }

  function ExprTarget(s: State, k: nat, want: bool, r: E.Verdict<(Object, Env)>): E.Verdict<State>
    requires Ready(s)
  {
    var (v, env) :- r;
    E.Done(if want then PushOperand(Post(s, k, env), Value(v)) else Post(s, k, env))
  }

  function ArgsTarget(s: State, k: nat, r: E.Verdict<(seq<Object>, Env)>): E.Verdict<State>
    requires Ready(s)
  {
    var (vs, env) :- r;
    E.Done(Post(s, k, env).(operands := s.operands + AsOperands(vs)))
  }

  function StmtTarget(s: State, k: nat, r: E.Verdict<(E.Flow, Env)>): E.Verdict<State>
    requires Ready(s)
  {
    var (flow, env) :- r;
    match flow
    case Normal => E.Done(Post(s, k, env))
    case Broke => E.Lift(BreakLoop(WithEnv(s, env)))
    case Continued => E.Lift(ContinueLoop(WithEnv(s, env)))
    case Returned(v) => E.Lift(ReturnFrom(WithEnv(s, env), v))
  }

  function ModeFor(want: bool): Mode {
    if want then ObjectMode else ExecMode
  }

  /** The item waits for a value while this many operands are on the stack. */
  predicate ObjectSlot(item: Item, height: nat) {
    match item
    case OpItem(frame, opcode, _) => IsOperator(opcode) && frame <= height < frame + ValueCount(opcode)
    case InvokeItem(frame, argc, _) => height < frame + argc + 1
    case ReturnItem(frame) => height < frame + 1
    case LoopItem(frame, iterating, _) => !iterating && height < frame + 1
    case CondItem(frame, inBranch, _, _, _) => !inBranch && height < frame + 1
    case NodeItem(frame, opcode) => opcode == NAME_OP && height == frame + 1
    case _ => false
  }

  predicate BodyItem(item: Item) {
    item.Populate? || item.MethodItem? || (item.LoopItem? && item.iterating) || (item.CondItem? && item.inBranch)
  }

  lemma PostOfSame(s: State, k: nat)
    requires Ready(s)
    ensures Post(s, k, EnvOf(s)) == Skip(s, k)
  {
  }

  lemma SlotStep(s: State)
    requires Ready(s) && s.items.Cons? && ObjectSlot(s.items.head, |s.operands|)
    requires s.blocks.head.pc <= s.blocks.head.limit
    ensures Process(s) == Parse(s, ObjectMode)
  {
  }

  lemma TargetStep(s: State)
    requires Ready(s) && s.items.Cons? && s.items.head.OpItem? && IsOperator(s.items.head.opcode)
    requires s.blocks.head.pc <= s.blocks.head.limit
    requires ValueCount(s.items.head.opcode) <= |s.operands| - s.items.head.frame < Arity(s.items.head.opcode)
    ensures Process(s) == Parse(s, ReferenceMode)
  {
    hide Parse;
  }

  lemma BodyStep(s: State)
    requires Ready(s) && s.items.Cons? && BodyItem(s.items.head)
    requires s.blocks.head.pc < s.blocks.head.limit
    ensures Process(s) == Parse(s, ExecMode)
  {
  }

  // ------------------------------------------------------------------------------------
  // Expressions.
  // ------------------------------------------------------------------------------------

  lemma {:induction false} ExprSim(p: E.Program, fuel: nat, e: Expr, s: State, want: bool) returns (n: nat)
    requires Ready(s) && Loaded(p, s.ns) && WfExpr(e) && CodeAt(s, EncodeExpr(e))
    requires want || !(e.Arg? || e.Local?)
    ensures var r := E.EvalExpr(p, fuel, e, s.contexts.head.handle, EnvOf(s), Pending(s));
            && Matches(Parse(s, ModeFor(want)), n, fuel, ExprTarget(s, |EncodeExpr(e)|, want, r))
            && (r.Done? ==> Loaded(p, r.value.1.ns))
    decreases fuel, e, 0
  {
    hide Process, Parse, CodeAt, Loaded, ParseReference, E.EvalExprs, E.EvalTargets, E.ApplyOperator, E.CallMethod;
    n := 0;
    match e
    case Const(c) => ParseEncodedConstant(s, ModeFor(want), c);
    case Arg(i) => ParseVariableTerm(s, ObjectMode, ARG0_OP + i);
    case Local(i) => ParseVariableTerm(s, ObjectMode, LOCAL0_OP + i);
    case Var(_) => VarSim(p, fuel, e, s, want);
    case Apply(op, es, ts) => n := ApplySim(p, fuel, e, s, want);
    case Call(name, args) => n := CallSim(p, fuel, e, s, want);
  }

  /** Reading a name takes no step of its own. */
  lemma VarSim(p: E.Program, fuel: nat, e: Expr, s: State, want: bool)
    requires e.Var? && Ready(s) && Loaded(p, s.ns) && WfExpr(e) && CodeAt(s, EncodeExpr(e))
    ensures var r := E.EvalExpr(p, fuel, e, s.contexts.head.handle, EnvOf(s), Pending(s));
            && Matches(Parse(s, ModeFor(want)), 0, fuel, ExprTarget(s, |EncodeExpr(e)|, want, r))
            && (r.Done? ==> Loaded(p, r.value.1.ns))
  {
    hide Parse, Process, Loaded, DoResolve, EncodeName;
    ParseNamed(s, ModeFor(want), e.name);
  }

  function Prepend(v: Object, r: E.Verdict<(seq<Object>, Env)>): E.Verdict<(seq<Object>, Env)> {
    var (vs, env) :- r;
    E.Done(([v] + vs, env))
  }

  lemma ArgsTargetJoin(s: State, k1: nat, v: Object, env: Env, k2: nat, rest: E.Verdict<(seq<Object>, Env)>)
    requires Ready(s)
    ensures ArgsTarget(PushOperand(Post(s, k1, env), Value(v)), k2, rest) == ArgsTarget(s, k1 + k2, Prepend(v, rest))
  {
    if rest.Done? {
      assert s.operands + [Value(v)] + AsOperands(rest.value.0) == s.operands + AsOperands([v] + rest.value.0);
    }
  }

  lemma {:induction false} ArgsSim(p: E.Program, fuel: nat, es: seq<Expr>, s: State) returns (n: nat)
    requires Ready(s) && s.items.Cons? && Loaded(p, s.ns) && WfExprs(es) && CodeAt(s, EncodeExprs(es))
    requires forall h :: |s.operands| <= h < |s.operands| + |es| ==> ObjectSlot(s.items.head, h)
    ensures var r := E.EvalExprs(p, fuel, es, s.contexts.head.handle, EnvOf(s), Pending(s));
            && Matches(Ok(s), n, fuel, ArgsTarget(s, |EncodeExprs(es)|, r))
            && (r.Done? ==> |r.value.0| == |es| && Loaded(p, r.value.1.ns))
    decreases fuel, es, 0
  {
    hide Process, Parse, E.EvalExpr, Loaded, EncodeExpr;
    n := 0;
    var handle := s.contexts.head.handle;
    if es == [] {
      PostOfSame(s, 0);
      assert s.operands + AsOperands([]) == s.operands;
    } else {
      var k, k' := |EncodeExpr(es[0])|, |EncodeExprs(es[1..])|;
      CodeSplit(s, EncodeExpr(es[0]), EncodeExprs(es[1..]));
      var first := E.EvalExpr(p, fuel, es[0], handle, EnvOf(s), Pending(s));
      n := ValueSim(p, fuel, es[0], s);
      if first.Done? {
        var (v, env) := first.value;
        var s1 := PushOperand(Post(s, k, env), Value(v));
        var n2 := ArgsSim(p, fuel, es[1..], s1);
        var rest := E.EvalExprs(p, fuel, es[1..], handle, env, true);
        ArgsTargetJoin(s, k, v, env, k', rest);
        assert EnvOf(s1) == env;
        Compose(Ok(s), n, Ok(s1), n2, fuel, ArgsTarget(s1, k', rest));
        n := n + n2;
      }
    }
  }

  lemma {:induction false} TargetsSim(ts: seq<Target>, s: State)
    requires Ready(s) && s.items.Cons? && s.items.head.OpItem? && IsOperator(s.items.head.opcode)
    requires |s.operands| + |ts| == s.items.head.frame + Arity(s.items.head.opcode)
    requires |s.operands| >= s.items.head.frame + ValueCount(s.items.head.opcode)
    requires CodeAt(s, EncodeTargets(ts))
    ensures var r := E.EvalTargets(ts, s.contexts.head.handle, s.ns);
            && Run(Ok(s), |ts|)
               == (if r.Fail? then Fail(r.fault)
                   else Ok(Skip(s, |EncodeTargets(ts)|).(operands := s.operands + r.value)))
            && (r.Ok? ==> |r.value| == |ts|)
    decreases |ts|
  {
    hide Process, Parse, E.EvalTarget, EncodeTarget;
    if ts == [] {
      assert s.operands + [] == s.operands;
    } else {
      CodeSplit(s, EncodeTarget(ts[0]), EncodeTargets(ts[1..]));
      TargetSim(ts[0], s);
      TargetStep(s);
      var first := E.EvalTarget(ts[0], s.contexts.head.handle, s.ns);
      if first.Ok? {
        var s1 := PushOperand(Skip(s, |EncodeTarget(ts[0])|), first.value);
        TargetsSim(ts[1..], s1);
        var rest := E.EvalTargets(ts[1..], s.contexts.head.handle, s.ns);
        if rest.Ok? {
          assert s1.operands + rest.value == s.operands + ([first.value] + rest.value);
        }
      }
    }
  }

  lemma TargetSim(t: Target, s: State)
    requires CodeAt(s, EncodeTarget(t))
    ensures Parse(s, ReferenceMode)
         == match E.EvalTarget(t, s.contexts.head.handle, s.ns)
            case Fail(f) => Fail(f)
            case Ok(o) => Ok(PushOperand(Skip(s, |EncodeTarget(t)|), o))
  {
    hide Parse;
    match t
    case NoTarget => ParseNullTarget(s);
    case ArgTarget(i) => ParseVariableTerm(s, ReferenceMode, ARG0_OP + i);
    case LocalTarget(i) => ParseVariableTerm(s, ReferenceMode, LOCAL0_OP + i);
    case NameTarget(name) => ParseNamed(s, ReferenceMode, name);
  }

  /** The evaluator's continuation once the values of an operator are known. */
  function AfterValues(op: Operator, ts: seq<Target>, handle: nat, vs: seq<Object>, env: Env): E.Verdict<(Object, Env)>
    requires |vs| == ValueCount(op)
  {
    var targets :- E.Lift(E.EvalTargets(ts, handle, env.ns));
    if |targets| != TargetCount(op) then E.Misread else E.Lift(E.ApplyOperator(op, vs, targets, env))
  }

  lemma ApplyUnfold(p: E.Program, fuel: nat, op: Operator, es: seq<Expr>, ts: seq<Target>, handle: nat, env: Env,
                    pending: bool)
    requires var vs := E.EvalExprs(p, fuel, es, handle, env, pending); vs.Done? ==> |vs.value.0| == ValueCount(op)
    ensures E.EvalExpr(p, fuel, Apply(op, es, ts), handle, env, pending)
         == var vs :- E.EvalExprs(p, fuel, es, handle, env, pending);
            AfterValues(op, ts, handle, vs.0, vs.1)
  {
    hide E.EvalExprs, E.EvalTargets, E.ApplyOperator;
  }

  lemma {:induction false} ApplySim(p: E.Program, fuel: nat, e: Expr, s: State, want: bool) returns (n: nat)
    requires e.Apply? && Ready(s) && Loaded(p, s.ns) && WfExpr(e) && CodeAt(s, EncodeExpr(e))
    ensures var r := E.EvalExpr(p, fuel, e, s.contexts.head.handle, EnvOf(s), Pending(s));
            && Matches(Parse(s, ModeFor(want)), n, fuel, ExprTarget(s, |EncodeExpr(e)|, want, r))
            && (r.Done? ==> Loaded(p, r.value.1.ns))
    decreases fuel, e.values, 2
  {
    hide Process, Parse, Run, Loaded, E.EvalExprs, E.EvalTargets, E.ApplyOperator, EncodeExprs, EncodeTargets;
    var Apply(op, es, ts) := e;
    ParseItemTerm(s, ModeFor(want), op, EncodeExprs(es) + EncodeTargets(ts));
    var s0 := PushItem(Skip(s, 1), OpItem(|s.operands|, op, want));
    CodeSplit(s0, EncodeExprs(es), EncodeTargets(ts));
    n := ValuesSim(p, fuel, s, s0, want, op, es, ts);
  }

  /** The item of the operator is on the stack: its values are parsed, then all the rest. */
  lemma {:induction false} ValuesSim(p: E.Program, fuel: nat, s: State, s0: State, want: bool, op: Operator,
                                     es: seq<Expr>, ts: seq<Target>)
    returns (n: nat)
    requires Ready(s) && Loaded(p, s.ns) && WfExprs(es) && |es| == ValueCount(op) && |ts| == TargetCount(op)
    requires s0 == PushItem(Skip(s, 1), OpItem(|s.operands|, op, want))
    requires CodeAt(s0, EncodeExprs(es)) && CodeAt(Skip(s0, |EncodeExprs(es)|), EncodeTargets(ts))
    ensures var k, handle := 1 + |EncodeExprs(es)| + |EncodeTargets(ts)|, s.contexts.head.handle;
            var r := E.EvalExpr(p, fuel, Apply(op, es, ts), handle, EnvOf(s), Pending(s));
            && Matches(Ok(s0), n, fuel, ExprTarget(s, k, want, r))
            && (r.Done? ==> Loaded(p, r.value.1.ns))
    decreases fuel, es, 1
  {
    hide Process, Parse, Run, Loaded, E.EvalExpr, E.EvalExprs, EncodeExprs, EncodeTargets, AfterValues;
    n := ArgsSim(p, fuel, es, s0);
    var vs := E.EvalExprs(p, fuel, es, s.contexts.head.handle, EnvOf(s), Pending(s));
    ApplyUnfold(p, fuel, op, es, ts, s.contexts.head.handle, EnvOf(s), Pending(s));
    if vs.Done? {
      var s1 := ArgsTarget(s0, |EncodeExprs(es)|, vs).value;
      var k := 1 + |EncodeExprs(es)| + |EncodeTargets(ts)|;
      n := OperatorSim(p, fuel, s, k, want, s0, n, s1, op, vs.value.0, ts);
    }
  }

  /** The values are on the stack: the targets are parsed, then the operator is reduced. */
  lemma OperatorSim(p: E.Program, fuel: nat, s: State, k: nat, want: bool, s0: State, m: nat, s1: State, op: Operator,
                    vs: seq<Object>, ts: seq<Target>)
    returns (n: nat)
    requires Ready(s) && Ready(s1) && Loaded(p, s1.ns) && Run(Ok(s0), m) == Ok(s1)
    requires CodeAt(s1, EncodeTargets(ts)) && Skip(s1, |EncodeTargets(ts)|).blocks == Skip(s, k).blocks
    requires s1.contexts == WithEnv(s, EnvOf(s1)).contexts && s1.replies == s.replies
    requires s1.items == Cons(OpItem(|s.operands|, op, want), s.items)
    requires |vs| == ValueCount(op) && |ts| == TargetCount(op) && s1.operands == s.operands + AsOperands(vs)
    ensures var r := AfterValues(op, ts, s.contexts.head.handle, vs, EnvOf(s1));
            && Matches(Ok(s0), n, fuel, ExprTarget(s, k, want, r))
            && (r.Done? ==> Loaded(p, r.value.1.ns))
  {
    hide Process, Run, Loaded, E.EvalTargets, E.ApplyOperator, EncodeTargets;
    TargetsSim(ts, s1);
    RunAdd(Ok(s0), m, |ts|);
    n := m + |ts|;
    var targets := E.EvalTargets(ts, s.contexts.head.handle, s1.ns);
    if targets.Ok? {
      var s2 := Skip(s1, |EncodeTargets(ts)|).(operands := s1.operands + targets.value);
      ReduceSim(p, fuel, s, k, want, s0, n, s2, op, vs, targets.value);
      n := n + 1;
    }
  }

  /** The operands are complete: one more step gives the result. */
  lemma ReduceSim(p: E.Program, fuel: nat, s: State, k: nat, want: bool, s0: State, n: nat, s2: State, op: Operator,
                  vs: seq<Object>, targets: seq<Operand>)
    requires Ready(s) && Ready(s2) && Loaded(p, s2.ns) && Run(Ok(s0), n) == Ok(s2)
    requires s2.blocks.head.pc <= s2.blocks.head.limit && s2.blocks == Skip(s, k).blocks && s2.replies == s.replies
    requires s2.contexts == WithEnv(s, EnvOf(s2)).contexts
    requires s2.items == Cons(OpItem(|s.operands|, op, want), s.items)
    requires |vs| == ValueCount(op) && |targets| == TargetCount(op)
    requires s2.operands == s.operands + AsOperands(vs) + targets
    ensures var r := E.Lift(E.ApplyOperator(op, vs, targets, EnvOf(s2)));
            && Matches(Ok(s0), n + 1, fuel, ExprTarget(s, k, want, r))
            && (r.Done? ==> Loaded(p, r.value.1.ns))
  {
    hide Process, Run, Loaded, E.ApplyOperator;
    ReduceStep(s, s2, op, want, vs, targets);
    ApplyKeepsLoaded(p, op, vs, targets, EnvOf(s2));
    RunNext(Ok(s0), n, s2);
    assert s.operands + [] == s.operands;
  }

  /** The reduction step of an operator whose operands are complete. */
  lemma ReduceStep(s: State, s2: State, op: Operator, want: bool, vs: seq<Object>, targets: seq<Operand>)
    requires Ready(s2) && s2.blocks.head.pc <= s2.blocks.head.limit
    requires s2.items == Cons(OpItem(|s.operands|, op, want), s.items)
    requires |vs| == ValueCount(op) && |targets| == TargetCount(op)
    requires s2.operands == s.operands + AsOperands(vs) + targets
    ensures var r := E.ApplyOperator(op, vs, targets, EnvOf(s2));
            r == Fail(Unknown) ||
            Process(s2)
            == if r.Fail? then Fail(r.fault)
               else Ok(WithEnv(s2, r.value.1).(items := s.items,
                       operands := s.operands + if want then [Value(r.value.0)] else []))
  {
    hide Parse, ReduceOp, E.ApplyOperator;
    assert s2.operands[|s.operands|..] == AsOperands(vs) + targets;
    assert s2.operands[..|s.operands|] == s.operands;
    ReductionMeaning(op, vs, targets, EnvOf(s2));
  }

  lemma {:induction false} GetObjectsOf(vs: seq<Object>)
    ensures GetObjects(AsOperands(vs)) == Ok(vs)
    decreases |vs|
  {
    if vs != [] {
      GetObjectsOf(vs[1..]);
      assert AsOperands(vs)[1..] == AsOperands(vs[1..]);
      assert [vs[0]] + vs[1..] == vs;
    }
  }

  /** The step that enters a method whose arguments are complete. */
  lemma EnterStep(p: E.Program, s: State, s1: State, m: nat, want: bool, vs: seq<Object>)
    requires Ready(s1) && s1.blocks.head.pc <= s1.blocks.head.limit && |vs| <= 7
    requires s1.items == Cons(InvokeItem(|s.operands|, |vs|, want), s.items)
    requires s1.operands == s.operands + [ResolvedName(m)] + AsOperands(vs)
    requires Loaded(p, s1.ns) && m in p
    ensures E.IsMethod(s1.ns, m)
    ensures var kind := KindOf(s1.ns, m).value;
            Process(s1)
            == Ok(EnterMethod(s1.(operands := s.operands, items := s.items), m, kind.code, kind.size, vs, want))
  {
    hide Parse;
    assert MethodLoaded(p[m], s1.ns, m);
    assert s1.operands[|s.operands| + 1..] == AsOperands(vs);
    assert s1.operands[..|s.operands|] == s.operands;
    GetObjectsOf(vs);
  }

  /** Parsing the name of a loaded method pushes its invocation. */
  lemma ParseCall(s: State, want: bool, name: NameString, m: nat)
    requires Ready(s) && CodeAt(s, EncodeName(name))
    requires DoResolve(s.ns, s.contexts.head.handle, name) == Ok(Some(m)) && E.IsMethod(s.ns, m)
    ensures Parse(s, ModeFor(want))
         == Ok(PushOperand(PushItem(Skip(s, |EncodeName(name)|),
                                    InvokeItem(|s.operands|, E.ArgumentCount(s.ns, m), want)),
                           ResolvedName(m)))
  {
    hide Parse;
    ParseNamed(s, ModeFor(want), name);
  }

  lemma {:induction false} CallSim(p: E.Program, fuel: nat, e: Expr, s: State, want: bool) returns (n: nat)
    requires e.Call? && Ready(s) && Loaded(p, s.ns) && WfExpr(e) && CodeAt(s, EncodeExpr(e))
    ensures var r := E.EvalExpr(p, fuel, e, s.contexts.head.handle, EnvOf(s), Pending(s));
            && Matches(Parse(s, ModeFor(want)), n, fuel, ExprTarget(s, |EncodeExpr(e)|, want, r))
            && (r.Done? ==> Loaded(p, r.value.1.ns))
    decreases fuel, e.args, 2
  {
    hide Process, Parse, Loaded, E.EvalExprs, E.CallMethod, EncodeExprs, EncodeName, DoResolve;
    var Call(name, args) := e;
    CodeSplit(s, EncodeName(name), EncodeExprs(args));
    n := 0;
    var target := DoResolve(s.ns, s.contexts.head.handle, name);
    if target.Fail? || target.value.None? {
      ParseNamed(s, ModeFor(want), name);
    } else if target.value.value in p && E.ArgumentCount(s.ns, target.value.value) == |args| {
      n := InvokeSim(p, fuel, name, args, s, want, target.value.value);
    }
  }

  /** The evaluator's continuation once a call has its method. */
  function AfterName(p: E.Program, fuel: nat, m: nat, args: seq<Expr>, handle: nat, env: Env, pending: bool)
    : E.Verdict<(Object, Env)>
    requires m in p
  {
    var vs :- E.EvalExprs(p, fuel, args, handle, env, true);
    if fuel == 0 then E.OutOfFuel
    else
      var r :- E.CallMethod(p, fuel - 1, m, vs.0, vs.1.ns, pending);
      E.Done((r.0, vs.1.(ns := r.1)))
  }

  /** The name is that of a method of the program: its arguments are evaluated, and it is called. */
  lemma {:induction false} InvokeSim(p: E.Program, fuel: nat, name: NameString, args: seq<Expr>, s: State, want: bool,
                                     m: nat)
    returns (n: nat)
    requires Ready(s) && Loaded(p, s.ns) && LegalName(name) && WfExprs(args) && m in p
    requires CodeAt(s, EncodeName(name)) && CodeAt(Skip(s, |EncodeName(name)|), EncodeExprs(args))
    requires DoResolve(s.ns, s.contexts.head.handle, name) == Ok(Some(m)) && E.IsMethod(s.ns, m)
    requires E.ArgumentCount(s.ns, m) == |args| <= 7
    ensures var k, handle := |EncodeName(name)| + |EncodeExprs(args)|, s.contexts.head.handle;
            var r := AfterName(p, fuel, m, args, handle, EnvOf(s), Pending(s));
            && Matches(Parse(s, ModeFor(want)), n, fuel, ExprTarget(s, k, want, r))
            && (r.Done? ==> Loaded(p, r.value.1.ns))
    decreases fuel, args, 1
  {
    hide Process, Parse, Loaded, E.EvalExprs, E.CallMethod, EncodeExprs, EncodeName, DoResolve;
    ParseCall(s, want, name, m);
    var s0 := Parse(s, ModeFor(want)).value;
    n := ArgsSim(p, fuel, args, s0);
    var vs := E.EvalExprs(p, fuel, args, s.contexts.head.handle, EnvOf(s), true);
    if vs.Done? && fuel > 0 {
      var s1 := ArgsTarget(s0, |EncodeExprs(args)|, vs).value;
      n := EnterSim(p, fuel, s, s0, n, s1, m, want, vs.value.0);
    }
  }

  /** The arguments are complete: the method is entered and runs. */
  lemma {:induction false} EnterSim(p: E.Program, fuel: nat, s: State, s0: State, k: nat, s1: State, m: nat, want: bool,
                                    vs: seq<Object>)
    returns (n: nat)
    requires fuel > 0 && Ready(s1) && s1.blocks.head.pc <= s1.blocks.head.limit && |vs| <= 7
    requires s1.items == Cons(InvokeItem(|s.operands|, |vs|, want), s.items)
    requires s1.operands == s.operands + [ResolvedName(m)] + AsOperands(vs)
    requires Loaded(p, s1.ns) && m in p && Run(Ok(s0), k) == Ok(s1)
    ensures var r := E.CallMethod(p, fuel - 1, m, vs, s1.ns, Pending(s));
            && Matches(Ok(s0), n, fuel, MethodTarget(s1.(operands := s.operands, items := s.items), want, r))
            && (r.Done? ==> Loaded(p, r.value.1))
    decreases fuel - 1, p[m], 2
  {
    hide Process, Run, Matches, Loaded, E.CallMethod, EnterMethod, MethodTarget;
    EnterStep(p, s, s1, m, want, vs);
    RunNext(Ok(s0), k, s1);
    var caller := s1.(operands := s.operands, items := s.items);
    var n2 := MethodSim(p, fuel - 1, m, vs, caller, want);
    var r := E.CallMethod(p, fuel - 1, m, vs, s1.ns, Pending(s));
    Compose(Ok(s0), k + 1, Process(s1), n2, fuel - 1, MethodTarget(caller, want, r));
    n := k + 1 + n2;
    MatchesLess(Ok(s0), n, k + 1 + (fuel - 1), fuel, MethodTarget(caller, want, r));
  }

  /** The caller's state after a call: its operands, plus the result if it is wanted. */
  function MethodTarget(caller: State, want: bool, r: E.Verdict<(Object, Space)>): E.Verdict<State> {
    var (v, ns) :- r;
    E.Done((if want then PushOperand(caller, Value(v)) else caller).(ns := ns))
  }

  /** A method body, from the step after its context was pushed to its return. */
  lemma {:induction false} MethodSim(p: E.Program, fuel: nat, m: nat, args: seq<Object>, caller: State, want: bool)
    returns (n: nat)
    requires Loaded(p, caller.ns) && m in p && |args| <= 7 && E.IsMethod(caller.ns, m)
    ensures var r := E.CallMethod(p, fuel, m, args, caller.ns, Pending(caller));
            var kind := KindOf(caller.ns, m).value;
            && Matches(Ok(EnterMethod(caller, m, kind.code, kind.size, args, want)), n, fuel,
                       MethodTarget(caller, want, r))
            && (r.Done? ==> Loaded(p, r.value.1))
    decreases fuel, p[m], 1
  {
    hide Process, Run, Parse, E.ExecStmts, EncodeStmts, WfStmts, UninstallAll;
    assert MethodLoaded(p[m], caller.ns, m);
    var kind := KindOf(caller.ns, m).value;
    var s := EnterMethod(caller, m, kind.code, kind.size, args, want);
    assert NewInvocation(args) == E.FreshVariables(args);
    n := StmtsSim(p, fuel, p[m], s);
    var r := E.ExecStmts(p, fuel, p[m], m, EnvOf(s), Pending(caller));
    if r.Done? {
      var env := r.value.1;
      if env.invocation.Some? { UninstallAllKeepsMethods(env.ns, env.invocation.value.created); }
      if r.value.0.Normal? {
        var s1 := Post(s, |EncodeStmts(p[m])|, env);
        ImplicitReturnStep(s1);
        RunNext(Ok(s), n, s1);
        n := n + 1;
      }
    }
  }

  lemma ImplicitReturnStep(s: State)
    requires Ready(s) && s.items.Cons? && s.items.head.MethodItem? && s.blocks.head.pc == s.blocks.head.limit
    ensures Process(s) == ImplicitReturn(s)
  {
  }

  // ------------------------------------------------------------------------------------
  // Statements.
  // ------------------------------------------------------------------------------------

  lemma {:induction false} StmtsSim(p: E.Program, fuel: nat, ss: seq<Stmt>, s: State) returns (n: nat)
    requires Ready(s) && s.items.Cons? && BodyItem(s.items.head) && Loaded(p, s.ns) && WfStmts(ss)
    requires CodeAt(s, EncodeStmts(ss))
    requires s.blocks.head.limit == s.blocks.head.pc + |EncodeStmts(ss)|
    ensures var r := E.ExecStmts(p, fuel, ss, s.contexts.head.handle, EnvOf(s), Pending(s));
            && Matches(Ok(s), n, fuel, StmtTarget(s, |EncodeStmts(ss)|, r))
            && (r.Done? ==> Loaded(p, r.value.1.ns))
    decreases fuel, ss, 0
  {
    hide Process, Parse, E.ExecStmt, EncodeStmt, WfStmt, Loaded, NoElse, BodyItem, BreakLoop, ContinueLoop,
      ReturnFrom;
    n := 0;
    if ss == [] {
      PostOfSame(s, 0);
    } else {
      var bytes, rest := EncodeStmt(ss[0]), EncodeStmts(ss[1..]);
      var handle := s.contexts.head.handle;
      CodeSplit(s, bytes, rest);
      FirstByteOfStatement(ss[0]);
      NoElseAfter(s, bytes, ss[1..]);
      BodyStep(s);
      n := StmtSim(p, fuel, ss[0], s);
      var first := E.ExecStmt(p, fuel, ss[0], handle, EnvOf(s), Pending(s));
      ComposeStep(s, n, fuel, StmtTarget(s, |bytes|, first));
      n := 1 + n;
      if first.Done? && first.value.0.Normal? {
        n := RestSim(p, fuel, ss[1..], s, |bytes|, n, first.value.1);
      }
    }
  }

  /** The statement at the pc has ended normally: the others follow. */
  lemma {:induction false} RestSim(p: E.Program, fuel: nat, ss: seq<Stmt>, s: State, k: nat, m: nat, env: Env)
    returns (n: nat)
    requires Ready(s) && s.items.Cons? && BodyItem(s.items.head) && Loaded(p, env.ns) && WfStmts(ss)
    requires CodeAt(Skip(s, k), EncodeStmts(ss)) && Run(Ok(s), m) == Ok(Post(s, k, env))
    requires s.blocks.head.limit == s.blocks.head.pc + k + |EncodeStmts(ss)|
    ensures var r := E.ExecStmts(p, fuel, ss, s.contexts.head.handle, env, Pending(s));
            && Matches(Ok(s), n, fuel, StmtTarget(s, k + |EncodeStmts(ss)|, r))
            && (r.Done? ==> Loaded(p, r.value.1.ns))
    decreases fuel, ss, 1
  {
    hide Process, Run, Parse, Matches, E.ExecStmts, EncodeStmts, WfStmts, Loaded, BodyItem, StmtTarget;
    var s1 := Post(s, k, env);
    var n2 := StmtsSim(p, fuel, ss, s1);
    var r := E.ExecStmts(p, fuel, ss, s.contexts.head.handle, env, Pending(s));
    StmtTargetJoin(s, k, env, |EncodeStmts(ss)|, r);
    Compose(Ok(s), m, Ok(s1), n2, fuel, StmtTarget(s1, |EncodeStmts(ss)|, r));
    n := m + n2;
  }

  lemma StmtTargetJoin(s: State, k1: nat, env: Env, k2: nat, r: E.Verdict<(E.Flow, Env)>)
    requires Ready(s)
    ensures StmtTarget(Post(s, k1, env), k2, r) == StmtTarget(s, k1 + k2, r)
  {
    hide BreakLoop, ContinueLoop, ReturnFrom;
    if r.Done? {
      var env' := r.value.1;
      UnwindIgnoresPc(WithEnv(s, env'), s.blocks.head.pc + k1);
      assert WithEnv(Post(s, k1, env), env') == CommitPc(WithEnv(s, env'), s.blocks.head.pc + k1);
    }
  }

  /** Break, Continue and Return do not look at the pc of the block they leave. */
  lemma UnwindIgnoresPc(s: State, pc: nat)
    requires Ready(s)
    ensures BreakLoop(CommitPc(s, pc)) == BreakLoop(s)
    ensures ContinueLoop(CommitPc(s, pc)) == ContinueLoop(s)
    ensures forall v :: ReturnFrom(CommitPc(s, pc), v) == ReturnFrom(s, v)
  {
  }

  /** Whatever follows a statement in the same block is not an Else. */
  ghost predicate NoElse(s: State, bytes: seq<byte>)
    requires Ready(s)
  {
    var end := s.blocks.head.pc + |bytes|;
    end < s.blocks.head.limit ==> end < |s.contexts.head.code| && s.contexts.head.code[end] != ELSE_OP
  }

  lemma NoElseAfter(s: State, bytes: seq<byte>, rest: seq<Stmt>)
    requires Ready(s) && CodeAt(Skip(s, |bytes|), EncodeStmts(rest))
    requires s.blocks.head.limit == s.blocks.head.pc + |bytes| + |EncodeStmts(rest)|
    ensures NoElse(s, bytes)
  {
    if rest != [] {
      FirstByteOfStatement(rest[0]);
      HoldsAt(s.contexts.head.code, s.blocks.head.pc + |bytes|, EncodeStmts(rest), 0);
    }
  }

  lemma {:induction false} StmtSim(p: E.Program, fuel: nat, st: Stmt, s: State) returns (n: nat)
    requires Ready(s) && s.items.Cons? && BodyItem(s.items.head) && Loaded(p, s.ns) && WfStmt(st)
    requires CodeAt(s, EncodeStmt(st)) && NoElse(s, EncodeStmt(st))
    ensures var r := E.ExecStmt(p, fuel, st, s.contexts.head.handle, EnvOf(s), Pending(s));
            && Matches(Parse(s, ExecMode), n, fuel, StmtTarget(s, |EncodeStmt(st)|, r))
            && (r.Done? ==> Loaded(p, r.value.1.ns))
    decreases fuel, st, 2
  {
    hide Process, Parse, E.EvalExpr, EncodeExpr, WfExpr, Loaded, BreakLoop, ContinueLoop, ReturnFrom, CodeAt;
    n := 0;
    PostOfSame(s, 0);
    PostOfSame(s, 1);
    match st
    case Do(e) => if !e.Arg? && !e.Local? { n := ExprSim(p, fuel, e, s, false); } else { VariableStatement(s, e); }
    case If(_, _) => n := IfSim(p, fuel, st, s);
    case IfElse(_, _, _) => n := IfSim(p, fuel, st, s);
    case While(_, _) => n := WhileSim(p, fuel, st, s);
    case Return(_) => n := ReturnSim(p, fuel, st, s);
    case Declare(_, _) => n := DeclareSim(p, fuel, st, s);
    case Nop => ParseControlTerm(s, NOP_OP);
    case Break => ParseControlTerm(s, BREAK_OP);
    case Continue => ParseControlTerm(s, CONTINUE_OP);
  }

  lemma VariableStatement(s: State, e: Expr)
    requires (e.Arg? || e.Local?) && CodeAt(s, EncodeExpr(e))
    ensures Parse(s, ExecMode) == Fail(Panic)
  {
    hide Parse;
    ParseVariableTerm(s, ExecMode, EncodeExpr(e)[0]);
  }

  /** An item that waits for one value gets it from the expression at the pc. */
  lemma {:induction false} ValueSim(p: E.Program, fuel: nat, e: Expr, s: State) returns (n: nat)
    requires Ready(s) && s.items.Cons? && ObjectSlot(s.items.head, |s.operands|)
    requires Loaded(p, s.ns) && WfExpr(e) && CodeAt(s, EncodeExpr(e))
    ensures var r := E.EvalExpr(p, fuel, e, s.contexts.head.handle, EnvOf(s), Pending(s));
            && Matches(Ok(s), n, fuel, ExprTarget(s, |EncodeExpr(e)|, true, r))
            && (r.Done? ==> Loaded(p, r.value.1.ns))
    decreases fuel, e, 1
  {
    hide Process, Parse, E.EvalExpr, EncodeExpr, WfExpr, Loaded;
    SlotStep(s);
    var n1 := ExprSim(p, fuel, e, s, true);
    var r := E.EvalExpr(p, fuel, e, s.contexts.head.handle, EnvOf(s), Pending(s));
    ComposeStep(s, n1, fuel, ExprTarget(s, |EncodeExpr(e)|, true, r));
    n := 1 + n1;
  }

  lemma {:induction false} ReturnSim(p: E.Program, fuel: nat, st: Stmt, s: State) returns (n: nat)
    requires st.Return? && Ready(s) && Loaded(p, s.ns) && WfStmt(st) && CodeAt(s, EncodeStmt(st))
    ensures var r := E.ExecStmt(p, fuel, st, s.contexts.head.handle, EnvOf(s), Pending(s));
            && Matches(Parse(s, ExecMode), n, fuel, StmtTarget(s, |EncodeStmt(st)|, r))
            && (r.Done? ==> Loaded(p, r.value.1.ns))
    decreases fuel, st, 0
  {
    hide Process, Run, Parse, E.EvalExpr, EncodeExpr, WfExpr, Loaded, BreakLoop, ContinueLoop, ReturnFrom;
    ParseItemTerm(s, ExecMode, RETURN_OP, EncodeExpr(st.e));
    var s0 := PushItem(Skip(s, 1), ReturnItem(|s.operands|));
    n := ValueSim(p, fuel, st.e, s0);
    RunOne(s0);
    var r := E.EvalExpr(p, fuel, st.e, s.contexts.head.handle, EnvOf(s), Pending(s));
    if r.Done? {
      var (v, env) := r.value;
      var s1 := ExprTarget(s0, |EncodeExpr(st.e)|, true, r).value;
      ReturnStep(s, s1, v);
      RunNext(Ok(s0), n, s1);
      UnwindIgnoresPc(WithEnv(s, env), s1.blocks.head.pc);
      assert s1.(operands := s.operands, items := s.items) == CommitPc(WithEnv(s, env), s1.blocks.head.pc);
      n := n + 1;
    }
  }

  lemma ReturnStep(s: State, s1: State, v: Object)
    requires Ready(s1) && s1.items == Cons(ReturnItem(|s.operands|), s.items)
    requires s1.operands == s.operands + [Value(v)] && s1.blocks.head.pc <= s1.blocks.head.limit
    ensures Process(s1) == ReturnFrom(s1.(operands := s.operands, items := s.items), v)
  {
    hide Parse, ReturnFrom;
    assert s1.operands[..|s.operands|] == s.operands;
  }

  lemma {:induction false} DeclareSim(p: E.Program, fuel: nat, st: Stmt, s: State) returns (n: nat)
    requires st.Declare? && Ready(s) && Loaded(p, s.ns) && WfStmt(st) && CodeAt(s, EncodeStmt(st))
    ensures var r := E.ExecStmt(p, fuel, st, s.contexts.head.handle, EnvOf(s), Pending(s));
            && Matches(Parse(s, ExecMode), n, fuel, StmtTarget(s, |EncodeStmt(st)|, r))
            && (r.Done? ==> Loaded(p, r.value.1.ns))
    decreases fuel, st, 0
  {
    hide Process, Run, Parse, E.EvalExpr, EncodeExpr, WfExpr, Loaded, EncodeName, E.DeclareName;
    var Declare(name, e) := st;
    ParseItemTerm(s, ExecMode, NAME_OP, EncodeName(name) + EncodeExpr(e));
    var s0 := PushItem(Skip(s, 1), NodeItem(|s.operands|, NAME_OP));
    CodeSplit(s0, EncodeName(name), EncodeExpr(e));
    var s1 := PushOperand(Skip(s0, |EncodeName(name)|), UnresolvedName(name));
    NameStep(s0, name);
    RunOne(s0);
    n := ValueSim(p, fuel, e, s1);
    var r := E.EvalExpr(p, fuel, e, s.contexts.head.handle, EnvOf(s), true);
    Compose(Ok(s0), 1, Ok(s1), n, fuel, ExprTarget(s1, |EncodeExpr(e)|, true, r));
    n := 1 + n;
    if r.Done? {
      var s2 := ExprTarget(s1, |EncodeExpr(e)|, true, r).value;
      DeclareStep(s, s2, name, r.value.0);
      RunNext(Ok(s0), n, s2);
      DeclareKeepsLoaded(p, r.value.1, s.contexts.head.handle, name, r.value.0);
      n := n + 1;
    }
  }

  lemma NameStep(s0: State, name: NameString)
    requires Ready(s0) && s0.items.Cons? && s0.items.head == NodeItem(|s0.operands|, NAME_OP)
    requires CodeAt(s0, EncodeName(name))
    ensures Process(s0) == Ok(PushOperand(Skip(s0, |EncodeName(name)|), UnresolvedName(name)))
  {
    hide Parse;
    ParseNamed(s0, UnresolvedMode, name);
  }

  lemma DeclareStep(s: State, s2: State, name: NameString, v: Object)
    requires Ready(s2) && s2.blocks.head.pc <= s2.blocks.head.limit
    requires s2.items == Cons(NodeItem(|s.operands|, NAME_OP), s.items)
    requires s2.operands == s.operands + [UnresolvedName(name)] + [Value(v)]
    ensures var r := E.DeclareName(EnvOf(s2), s2.contexts.head.handle, name, v);
            Process(s2)
            == if r.Fail? then Fail(r.fault)
               else Ok(WithEnv(s2, r.value).(items := s.items, operands := s.operands))
  {
    hide Parse, DoResolveNew;
    assert s2.operands[..|s.operands|] == s.operands;
    assert s2.operands[|s.operands|..] == [UnresolvedName(name), Value(v)];
  }

  // ------------------------------------------------------------------------------------
  // Conditions.
  // ------------------------------------------------------------------------------------

  /** The condition item and its block, as `ParseIf` pushes them for an encoded statement. */
  function CondState(s: State, st: Stmt): State
    requires Ready(s) && (st.If? || st.IfElse?)
  {
    var contents := EncodeExpr(st.cond) + EncodeStmts(st.thn);
    var branchPc := s.blocks.head.pc + 1 + |PackageLength(|contents|)|;
    var branchEnd := branchPc + |contents|;
    var end := s.blocks.head.pc + |EncodeStmt(st)|;
    PushItem(PushBlock(CommitPc(s, end), branchPc, branchEnd),
             if st.If? then CondItem(|s.operands|, false, false, 0, branchEnd + 1)
             else CondItem(|s.operands|, false, true, branchEnd + 1 + |PackageLength(|EncodeStmts(st.els)|)|, end))
  }

  /** The bytes of a branch: the length and the contents follow one opcode byte. */
  lemma PackageAt(code: seq<byte>, pc: nat, contents: seq<byte>, limit: int)
    requires Holds(code, pc, Package(contents)) && Fits(contents) && pc + |Package(contents)| <= limit
    ensures ReadPackageLength(code, pc, limit) == Ok((|Package(contents)|, pc + |PackageLength(|contents|)|))
    ensures Holds(code, pc + |PackageLength(|contents|)|, contents)
  {
    hide ReadPackageLength, PackageLength;
    HoldsSplit(code, pc, PackageLength(|contents|), contents);
    ReadEncodedLength(code, pc, |contents|, limit);
  }

  lemma ParsePlainIf(s: State, contents: seq<byte>)
    requires Ready(s) && Fits(contents) && CodeAt(s, [IF_OP] + Package(contents))
    requires NoElse(s, [IF_OP] + Package(contents))
    ensures var branchEnd := s.blocks.head.pc + 1 + |Package(contents)|;
            ParseIf(s, s.blocks.head.pc)
            == Ok(PushItem(PushBlock(CommitPc(s, branchEnd), branchEnd - |contents|, branchEnd),
                           CondItem(|s.operands|, false, false, 0, branchEnd + 1)))
    ensures Holds(s.contexts.head.code, s.blocks.head.pc + 1 + |PackageLength(|contents|)|, contents)
  {
    hide ReadPackageLength, PackageLength;
    HoldsSplit(s.contexts.head.code, s.blocks.head.pc, [IF_OP], Package(contents));
    PackageAt(s.contexts.head.code, s.blocks.head.pc + 1, contents, s.blocks.head.limit);
  }

  lemma ParseFullIf(s: State, contents: seq<byte>, elseContents: seq<byte>)
    requires Ready(s) && Fits(contents) && Fits(elseContents)
    requires CodeAt(s, [IF_OP] + (Package(contents) + ([ELSE_OP] + Package(elseContents))))
    ensures var branchEnd := s.blocks.head.pc + 1 + |Package(contents)|;
            var end := branchEnd + 1 + |Package(elseContents)|;
            ParseIf(s, s.blocks.head.pc)
            == Ok(PushItem(PushBlock(CommitPc(s, end), branchEnd - |contents|, branchEnd),
                           CondItem(|s.operands|, false, true, end - |elseContents|, end)))
    ensures var code, pc := s.contexts.head.code, s.blocks.head.pc + 1;
            && Holds(code, pc + |PackageLength(|contents|)|, contents)
            && Holds(code, pc + |Package(contents)| + 1 + |PackageLength(|elseContents|)|, elseContents)
  {
    hide ReadPackageLength, PackageLength;
    var code, pc, limit := s.contexts.head.code, s.blocks.head.pc + 1, s.blocks.head.limit;
    var branch, elseBranch := Package(contents), Package(elseContents);
    HoldsSplit(code, pc - 1, [IF_OP], branch + ([ELSE_OP] + elseBranch));
    HoldsSplit(code, pc, branch, [ELSE_OP] + elseBranch);
    HoldsSplit(code, pc + |branch|, [ELSE_OP], elseBranch);
    HoldsAt(code, pc + |branch|, [ELSE_OP], 0);
    PackageAt(code, pc, contents, limit);
    PackageAt(code, pc + |branch| + 1, elseContents, limit);
  }

  lemma ParseEncodedIf(s: State, st: Stmt)
    requires (st.If? || st.IfElse?) && Ready(s) && WfStmt(st)
    requires CodeAt(s, EncodeStmt(st)) && NoElse(s, EncodeStmt(st))
    ensures Parse(s, ExecMode) == Ok(CondState(s, st))
    ensures CodeAt(CondState(s, st), EncodeExpr(st.cond) + EncodeStmts(st.thn))
    ensures st.IfElse? ==>
      Holds(s.contexts.head.code, CondState(s, st).items.head.elsePc, EncodeStmts(st.els))
  {
    hide Parse, ParseIf, PackageLength, EncodeExpr, EncodeStmts, WfExpr, WfStmts;
    var contents := EncodeExpr(st.cond) + EncodeStmts(st.thn);
    if st.If? {
      ParseBlockTerm(s, IF_OP, Package(contents));
      ParsePlainIf(s, contents);
    } else {
      ParseBlockTerm(s, IF_OP, Package(contents) + ([ELSE_OP] + Package(EncodeStmts(st.els))));
      ParseFullIf(s, contents, EncodeStmts(st.els));
    }
  }

  /** `inner` runs in a block of its own on top of `s`, whose block continues at `end`. */
  predicate Nested(s: State, end: nat, inner: State)
    requires Ready(s)
  {
    && Ready(inner) && inner.items.Cons? && inner.items.tail == s.items
    && inner.operands == s.operands && inner.replies == s.replies
    && inner.blocks.tail == CommitPc(s, end).blocks
    && inner.contexts == WithEnv(s, EnvOf(inner)).contexts
    && end >= s.blocks.head.pc
  }

  lemma NestedOuter(s: State, end: nat, inner: State, env: Env)
    requires Ready(s) && Nested(s, end, inner)
    ensures WithEnv(inner, env).(blocks := inner.blocks.tail, items := inner.items.tail)
         == CommitPc(WithEnv(s, env), end) == Post(s, end - s.blocks.head.pc, env)
  {
  }

  lemma LeaveStep(s: State)
    requires Ready(s) && s.items.Cons? && s.items.head.CondItem? && s.items.head.inBranch
    requires s.blocks.head.pc == s.blocks.head.limit
    ensures Process(s) == Ok(s.(blocks := s.blocks.tail, items := s.items.tail))
  {
    hide Parse;
  }

  /** A branch of a condition: when it ends, the condition is popped; jumps pass through it. */
  lemma {:induction false} BranchSim(p: E.Program, fuel: nat, ss: seq<Stmt>, s: State, end: nat, inner: State)
    returns (n: nat)
    requires Ready(s) && Nested(s, end, inner) && inner.items.head.CondItem? && inner.items.head.inBranch
    requires Loaded(p, inner.ns) && WfStmts(ss) && CodeAt(inner, EncodeStmts(ss))
    requires inner.blocks.head.limit == inner.blocks.head.pc + |EncodeStmts(ss)|
    ensures var r := E.ExecStmts(p, fuel, ss, s.contexts.head.handle, EnvOf(inner), Pending(s));
            && Matches(Ok(inner), n, fuel, StmtTarget(s, end - s.blocks.head.pc, r))
            && (r.Done? ==> Loaded(p, r.value.1.ns))
    decreases fuel, ss, 1
  {
    hide Process, Run, Parse, E.ExecStmts, EncodeStmts, WfStmts, Loaded, CodeAt;
    n := StmtsSim(p, fuel, ss, inner);
    var r := E.ExecStmts(p, fuel, ss, s.contexts.head.handle, EnvOf(inner), Pending(s));
    if r.Done? {
      var env := r.value.1;
      UnwindIgnoresPc(WithEnv(s, env), end);
      NestedOuter(s, end, inner, env);
      if r.value.0.Normal? {
        var s1 := Post(inner, |EncodeStmts(ss)|, env);
        LeaveStep(s1);
        RunNext(Ok(inner), n, s1);
        n := n + 1;
      }
    }
  }

  /** The step that looks at the predicate of a condition. */
  lemma CondStep(s: State, v: Object)
    requires Ready(s) && s.items.Cons? && s.items.head.CondItem? && !s.items.head.inBranch
    requires s.blocks.head.pc <= s.blocks.head.limit
    requires s.operands != [] && |s.operands| == s.items.head.frame + 1 && s.operands[|s.operands| - 1] == Value(v)
    ensures var item := s.items.head;
            var s' := s.(operands := s.operands[..item.frame]);
            Process(s)
            == match E.AsInteger(v)
               case Fail(f) => Fail(f)
               case Ok(n) =>
                 if n != 0 then Ok(SetTop(s', item.(inBranch := true)))
                 else if item.hasElse then
                   Ok(SetTop(s'.(blocks := s.blocks.(head := Block(item.elsePc, item.elseLimit))),
                             item.(inBranch := true)))
                 else Ok(s'.(blocks := s.blocks.tail, items := s.items.tail))
  {
    hide Parse;
  }

  lemma {:induction false} IfSim(p: E.Program, fuel: nat, st: Stmt, s: State) returns (n: nat)
    requires (st.If? || st.IfElse?) && Ready(s) && Loaded(p, s.ns) && WfStmt(st)
    requires CodeAt(s, EncodeStmt(st)) && NoElse(s, EncodeStmt(st))
    ensures var r := E.ExecStmt(p, fuel, st, s.contexts.head.handle, EnvOf(s), Pending(s));
            && Matches(Parse(s, ExecMode), n, fuel, StmtTarget(s, |EncodeStmt(st)|, r))
            && (r.Done? ==> Loaded(p, r.value.1.ns))
    decreases fuel, st, 1
  {
    hide Process, Run, Parse, E.EvalExpr, E.ExecStmts, EncodeExpr, EncodeStmts, WfExpr, WfStmts, Loaded, PackageLength,
      BreakLoop, ContinueLoop, ReturnFrom, ReadPackageLength;
    ParseEncodedIf(s, st);
    var s0 := CondState(s, st);
    CodeSplit(s0, EncodeExpr(st.cond), EncodeStmts(st.thn));
    n := ValueSim(p, fuel, st.cond, s0);
    var r := E.EvalExpr(p, fuel, st.cond, s.contexts.head.handle, EnvOf(s), Pending(s));
    if r.Done? {
      n := DecideSim(p, fuel, st, s, n, r.value.0, r.value.1);
    }
  }

  /** What follows the predicate of a condition. */
  function AfterPredicate(p: E.Program, fuel: nat, st: Stmt, handle: nat, v: Object, env: Env, pending: bool)
    : E.Verdict<(E.Flow, Env)>
    requires st.If? || st.IfElse?
  {
    var n :- E.Lift(E.AsInteger(v));
    if n != 0 then E.ExecStmts(p, fuel, st.thn, handle, env, pending)
    else if st.IfElse? then E.ExecStmts(p, fuel, st.els, handle, env, pending)
    else E.Done((E.Normal, env))
  }

  /** The predicate has its value: a branch runs, or the condition ends. */
  lemma {:induction false} DecideSim(p: E.Program, fuel: nat, st: Stmt, s: State, m: nat, v: Object, env: Env)
    returns (n: nat)
    requires (st.If? || st.IfElse?) && Ready(s) && Loaded(p, env.ns) && WfStmt(st) && CodeAt(s, EncodeStmt(st))
    requires CodeAt(CondState(s, st), EncodeExpr(st.cond) + EncodeStmts(st.thn))
    requires st.IfElse? ==> Holds(s.contexts.head.code, CondState(s, st).items.head.elsePc, EncodeStmts(st.els))
    requires Run(Ok(CondState(s, st)), m)
          == Ok(PushOperand(Post(CondState(s, st), |EncodeExpr(st.cond)|, env), Value(v)))
    ensures var r := AfterPredicate(p, fuel, st, s.contexts.head.handle, v, env, Pending(s));
            && Matches(Ok(CondState(s, st)), n, fuel, StmtTarget(s, |EncodeStmt(st)|, r))
            && (r.Done? ==> Loaded(p, r.value.1.ns))
    decreases fuel, st, 0
  {
    hide Process, Run, Parse, E.ExecStmts, EncodeExpr, EncodeStmts, WfExpr, WfStmts, Loaded, PackageLength,
      BreakLoop, ContinueLoop, ReturnFrom, ReadPackageLength;
    var s0 := CondState(s, st);
    var s1 := PushOperand(Post(s0, |EncodeExpr(st.cond)|, env), Value(v));
    var end := s.blocks.head.pc + |EncodeStmt(st)|;
    CodeSplit(s0, EncodeExpr(st.cond), EncodeStmts(st.thn));
    assert s1.operands[..|s.operands|] == s.operands;
    CondStep(s1, v);
    RunNext(Ok(s0), m, s1);
    n := m + 1;
    var test := E.AsInteger(v);
    if test.Ok? {
      if test.value == 0 && st.If? {
        assert Process(s1) == Ok(Post(s, |EncodeStmt(st)|, env));
      } else {
        var branch := if test.value != 0 then st.thn else st.els;
        n := ChosenSim(p, fuel, branch, s, end, s0, n, Process(s1).value);
      }
    }
  }

  /** The predicate has chosen a branch: the steps so far, then the branch. */
  lemma {:induction false} ChosenSim(p: E.Program, fuel: nat, ss: seq<Stmt>, s: State, end: nat, s0: State, m: nat,
                                     inner: State)
    returns (n: nat)
    requires Ready(s) && Nested(s, end, inner) && inner.items.head.CondItem? && inner.items.head.inBranch
    requires Loaded(p, inner.ns) && WfStmts(ss) && CodeAt(inner, EncodeStmts(ss)) && Run(Ok(s0), m) == Ok(inner)
    requires inner.blocks.head.limit == inner.blocks.head.pc + |EncodeStmts(ss)|
    ensures var r := E.ExecStmts(p, fuel, ss, s.contexts.head.handle, EnvOf(inner), Pending(s));
            && Matches(Ok(s0), n, fuel, StmtTarget(s, end - s.blocks.head.pc, r))
            && (r.Done? ==> Loaded(p, r.value.1.ns))
    decreases fuel, ss, 2
  {
    hide Process, Run, Parse, Matches, E.ExecStmts, EncodeStmts, WfStmts, Loaded, CodeAt, StmtTarget;
    var n2 := BranchSim(p, fuel, ss, s, end, inner);
    var r := E.ExecStmts(p, fuel, ss, s.contexts.head.handle, EnvOf(inner), Pending(s));
    Compose(Ok(s0), m, Ok(inner), n2, fuel, StmtTarget(s, end - s.blocks.head.pc, r));
    n := m + n2;
  }

  // ------------------------------------------------------------------------------------
  // Loops.
  // ------------------------------------------------------------------------------------

  lemma ParseEncodedWhile(s: State, contents: seq<byte>)
    requires Ready(s) && Fits(contents) && CodeAt(s, [WHILE_OP] + Package(contents))
    ensures var end := s.blocks.head.pc + 1 + |Package(contents)|;
            var predicatePc := end - |contents|;
            Parse(s, ExecMode)
            == Ok(PushItem(PushBlock(CommitPc(s, end), predicatePc, end),
                           LoopItem(|s.operands|, false, predicatePc)))
    ensures Holds(s.contexts.head.code, s.blocks.head.pc + 1 + |PackageLength(|contents|)|, contents)
  {
    hide Parse, ReadPackageLength, PackageLength;
    ParseBlockTerm(s, WHILE_OP, Package(contents));
    PackageAt(s.contexts.head.code, s.blocks.head.pc + 1, contents, s.blocks.head.limit);
  }

  lemma {:induction false} WhileSim(p: E.Program, fuel: nat, st: Stmt, s: State) returns (n: nat)
    requires st.While? && Ready(s) && Loaded(p, s.ns) && WfStmt(st) && CodeAt(s, EncodeStmt(st))
    ensures var r := E.ExecStmt(p, fuel, st, s.contexts.head.handle, EnvOf(s), Pending(s));
            && Matches(Parse(s, ExecMode), n, fuel, StmtTarget(s, |EncodeStmt(st)|, r))
            && (r.Done? ==> Loaded(p, r.value.1.ns))
    decreases fuel, st, 0
  {
    hide Process, Parse, E.ExecLoop, EncodeExpr, EncodeStmts, WfExpr, WfStmts, Loaded, PackageLength, Matches;
    var contents := EncodeExpr(st.cond) + EncodeStmts(st.body);
    ParseEncodedWhile(s, contents);
    var end := s.blocks.head.pc + |EncodeStmt(st)|;
    n := LoopSim(p, fuel, st.cond, st.body, s, end, Parse(s, ExecMode).value);
  }

  /** The step that looks at the predicate of a loop. */
  lemma LoopStep(s: State, v: Object)
    requires Ready(s) && s.items.Cons? && s.items.head.LoopItem? && !s.items.head.iterating
    requires s.blocks.head.pc <= s.blocks.head.limit
    requires s.operands != [] && |s.operands| == s.items.head.frame + 1 && s.operands[|s.operands| - 1] == Value(v)
    ensures var item := s.items.head;
            var s' := s.(operands := s.operands[..item.frame]);
            Process(s)
            == match E.AsInteger(v)
               case Fail(f) => Fail(f)
               case Ok(n) =>
                 if n != 0 then Ok(SetTop(s', item.(iterating := true)))
                 else Ok(s'.(blocks := s.blocks.tail, items := s.items.tail))
  {
    hide Parse;
  }

  /** At the end of the body the loop goes back to its predicate. */
  lemma RepeatStep(s: State)
    requires Ready(s) && s.items.Cons? && s.items.head.LoopItem? && s.items.head.iterating
    requires s.blocks.head.pc == s.blocks.head.limit
    ensures Process(s)
         == Ok(SetTop(CommitPc(s, s.items.head.predicatePc), s.items.head.(iterating := false)))
  {
    hide Parse;
  }

  lemma NestedShape(s: State, end: nat, inner: State)
    requires Ready(s) && Nested(s, end, inner)
    ensures Ready(inner) && inner.items.Cons? && inner.operands == s.operands
    ensures inner.contexts.head.handle == s.contexts.head.handle
  {
  }

  /** The state in which the body of a loop starts. */
  lemma IterationStart(s: State, end: nat, s0: State, c: Expr, body: seq<Stmt>, env: Env)
    requires Ready(s) && Nested(s, end, s0)
    requires s0.items.head == LoopItem(|s.operands|, false, s0.blocks.head.pc)
    requires CodeAt(s0, EncodeExpr(c) + EncodeStmts(body))
    requires s0.blocks.head.limit == s0.blocks.head.pc + |EncodeExpr(c) + EncodeStmts(body)|
    ensures var pc := s0.blocks.head.pc;
            var inner := SetTop(Post(s0, |EncodeExpr(c)|, env), LoopItem(|s.operands|, true, pc));
            && Nested(s, end, inner) && EnvOf(inner) == env
            && CodeAt(CommitPc(inner, pc), EncodeExpr(c) + EncodeStmts(body))
            && inner.blocks.head.pc == pc + |EncodeExpr(c)|
            && inner.blocks.head.limit == inner.blocks.head.pc + |EncodeStmts(body)|
  {
    hide EncodeExpr, EncodeStmts;
  }

  lemma LoopUnfold(p: E.Program, fuel: nat, c: Expr, body: seq<Stmt>, handle: nat, env: Env, pending: bool)
    ensures E.ExecLoop(p, fuel, c, body, handle, env, pending)
         == var r :- E.EvalExpr(p, fuel, c, handle, env, pending);
            var n :- E.Lift(E.AsInteger(r.0));
            if n == 0 then E.Done((E.Normal, r.1))
            else if fuel == 0 then E.OutOfFuel
            else AfterIteration(p, fuel, c, body, handle, r.1, pending)
  {
    hide E.EvalExpr, E.ExecStmts;
  }

  /** From the point where a loop checks its predicate to the end of the loop. */
  lemma {:induction false} LoopSim(p: E.Program, fuel: nat, c: Expr, body: seq<Stmt>, s: State, end: nat, s0: State)
    returns (n: nat)
    requires Ready(s) && Nested(s, end, s0)
    requires s0.items.head == LoopItem(|s.operands|, false, s0.blocks.head.pc)
    requires Loaded(p, s0.ns) && WfExpr(c) && WfStmts(body)
    requires CodeAt(s0, EncodeExpr(c) + EncodeStmts(body))
    requires s0.blocks.head.limit == s0.blocks.head.pc + |EncodeExpr(c) + EncodeStmts(body)|
    ensures var r := E.ExecLoop(p, fuel, c, body, s.contexts.head.handle, EnvOf(s0), Pending(s));
            && Matches(Ok(s0), n, fuel, StmtTarget(s, end - s.blocks.head.pc, r))
            && (r.Done? ==> Loaded(p, r.value.1.ns))
    decreases fuel, c, 3
  {
    hide Process, Run, Parse, E.EvalExpr, E.ExecStmts, EncodeExpr, EncodeStmts, WfExpr, WfStmts, Loaded,
      BreakLoop, ContinueLoop, ReturnFrom, Nested, E.ExecLoop, AfterIteration, CodeAt;
    CodeSplit(s0, EncodeExpr(c), EncodeStmts(body));
    NestedShape(s, end, s0);
    n := ValueSim(p, fuel, c, s0);
    LoopUnfold(p, fuel, c, body, s.contexts.head.handle, EnvOf(s0), Pending(s));
    var r := E.EvalExpr(p, fuel, c, s.contexts.head.handle, EnvOf(s0), Pending(s));
    if r.Done? {
      var (v, env) := r.value;
      var s1 := ExprTarget(s0, |EncodeExpr(c)|, true, r).value;
      assert s1.operands[..|s.operands|] == s.operands;
      LoopStep(s1, v);
      RunNext(Ok(s0), n, s1);
      NestedOuter(s, end, s0, env);
      n := n + 1;
      var test := E.AsInteger(v);
      if test.Ok? && test.value != 0 && fuel > 0 {
        IterationStart(s, end, s0, c, body, env);
        n := EnterBodySim(p, fuel, c, body, s, end, s0, n, Process(s1).value);
      }
    }
  }

  /** The predicate was true: the steps so far, then an iteration. */
  lemma {:induction false} EnterBodySim(p: E.Program, fuel: nat, c: Expr, body: seq<Stmt>, s: State, end: nat,
                                        s0: State, m: nat, inner: State)
    returns (n: nat)
    requires fuel > 0 && Ready(s) && Ready(s0) && Nested(s, end, inner) && m > 0 && Run(Ok(s0), m) == Ok(inner)
    requires inner.items.head == LoopItem(|s.operands|, true, s0.blocks.head.pc)
    requires Loaded(p, inner.ns) && WfExpr(c) && WfStmts(body)
    requires CodeAt(CommitPc(inner, s0.blocks.head.pc), EncodeExpr(c) + EncodeStmts(body))
    requires inner.blocks.head.pc == s0.blocks.head.pc + |EncodeExpr(c)|
    requires inner.blocks.head.limit == inner.blocks.head.pc + |EncodeStmts(body)|
    ensures var r := AfterIteration(p, fuel, c, body, s.contexts.head.handle, EnvOf(inner), Pending(s));
            && Matches(Ok(s0), n, fuel, StmtTarget(s, end - s.blocks.head.pc, r))
            && (r.Done? ==> Loaded(p, r.value.1.ns))
    decreases fuel, c, 2
  {
    hide Process, Run, Parse, Matches, E.ExecLoop, EncodeExpr, EncodeStmts, WfExpr, WfStmts, Loaded, StmtTarget,
      AfterIteration, CodeAt;
    var n2 := IterationSim(p, fuel, c, body, s, end, s0.blocks.head.pc, inner);
    var rest := AfterIteration(p, fuel, c, body, s.contexts.head.handle, EnvOf(inner), Pending(s));
    Compose(Ok(s0), m, Ok(inner), n2, fuel - 1, StmtTarget(s, end - s.blocks.head.pc, rest));
    n := m + n2;
    MatchesLess(Ok(s0), n, m + (fuel - 1), fuel, StmtTarget(s, end - s.blocks.head.pc, rest));
  }

  /** The evaluator's continuation once the predicate of a loop was true. */
  function AfterIteration(p: E.Program, fuel: nat, c: Expr, body: seq<Stmt>, handle: nat, env: Env, pending: bool)
    : E.Verdict<(E.Flow, Env)>
    requires fuel > 0
  {
    var b :- E.ExecStmts(p, fuel - 1, body, handle, env, pending);
    match b.0
    case Returned(_) => E.Done(b)
    case Broke => E.Done((E.Normal, b.1))
    case _ => E.ExecLoop(p, fuel - 1, c, body, handle, b.1, pending)
  }

  /** One iteration of a loop body, and whatever follows it. */
  lemma {:induction false} IterationSim(p: E.Program, fuel: nat, c: Expr, body: seq<Stmt>, s: State, end: nat,
                                        predicatePc: nat, inner: State)
    returns (n: nat)
    requires fuel > 0 && Ready(s) && Nested(s, end, inner)
    requires inner.items.head == LoopItem(|s.operands|, true, predicatePc)
    requires Loaded(p, inner.ns) && WfExpr(c) && WfStmts(body)
    requires CodeAt(CommitPc(inner, predicatePc), EncodeExpr(c) + EncodeStmts(body))
    requires inner.blocks.head.pc == predicatePc + |EncodeExpr(c)|
    requires inner.blocks.head.limit == inner.blocks.head.pc + |EncodeStmts(body)|
    ensures var r := AfterIteration(p, fuel, c, body, s.contexts.head.handle, EnvOf(inner), Pending(s));
            && Matches(Ok(inner), n, fuel - 1, StmtTarget(s, end - s.blocks.head.pc, r))
            && (r.Done? ==> Loaded(p, r.value.1.ns))
    decreases fuel, c, 1
  {
    hide Process, Run, Parse, E.ExecStmts, E.ExecLoop, EncodeExpr, EncodeStmts, WfExpr, WfStmts, Loaded, CodeAt;
    CodeSplit(CommitPc(inner, predicatePc), EncodeExpr(c), EncodeStmts(body));
    n := StmtsSim(p, fuel - 1, body, inner);
    var handle := s.contexts.head.handle;
    var b := E.ExecStmts(p, fuel - 1, body, handle, EnvOf(inner), Pending(s));
    if b.Done? {
      var env := b.value.1;
      UnwindIgnoresPc(WithEnv(s, env), end);
      NestedOuter(s, end, inner, env);
      if b.value.0.Normal? || b.value.0.Continued? {
        n := AgainSim(p, fuel, c, body, s, end, predicatePc, inner, n, env);
      }
    }
  }

  /** The body has ended normally or by Continue(): the loop checks its predicate again. */
  lemma {:induction false} AgainSim(p: E.Program, fuel: nat, c: Expr, body: seq<Stmt>, s: State, end: nat,
                                    predicatePc: nat, inner: State, m: nat, env: Env)
    returns (n: nat)
    requires fuel > 0 && Ready(s) && Nested(s, end, inner)
    requires inner.items.head == LoopItem(|s.operands|, true, predicatePc)
    requires Loaded(p, env.ns) && WfExpr(c) && WfStmts(body)
    requires CodeAt(CommitPc(inner, predicatePc), EncodeExpr(c) + EncodeStmts(body))
    requires inner.blocks.head.pc == predicatePc + |EncodeExpr(c)|
    requires inner.blocks.head.limit == inner.blocks.head.pc + |EncodeStmts(body)|
    requires Run(Ok(inner), m) == Ok(Post(inner, |EncodeStmts(body)|, env))
    ensures var r := E.ExecLoop(p, fuel - 1, c, body, s.contexts.head.handle, env, Pending(s));
            && Matches(Ok(inner), n, fuel - 1, StmtTarget(s, end - s.blocks.head.pc, r))
            && (r.Done? ==> Loaded(p, r.value.1.ns))
    decreases fuel, c, 0
  {
    hide Process, Run, Parse, Matches, E.ExecLoop, EncodeExpr, EncodeStmts, WfExpr, WfStmts, Loaded, StmtTarget;
    NestedOuter(s, end, inner, env);
    var s1 := Post(inner, |EncodeStmts(body)|, env);
    RepeatStep(s1);
    RunNext(Ok(inner), m, s1);
    var s2 := Process(s1).value;
    var n2 := LoopSim(p, fuel - 1, c, body, s, end, s2);
    var rest := E.ExecLoop(p, fuel - 1, c, body, s.contexts.head.handle, env, Pending(s));
    Compose(Ok(inner), m + 1, Ok(s2), n2, fuel - 1, StmtTarget(s, end - s.blocks.head.pc, rest));
    n := m + 1 + n2;
  }

  // ------------------------------------------------------------------------------------
  // Whole methods, as lai_eval_args runs them.
  // ------------------------------------------------------------------------------------

  /** The machine's final state for the evaluator's verdict on a whole method. */
  function Outcome(ns: Space, replies: seq<Reply>, r: E.Verdict<(Object, Space)>): E.Verdict<State> {
    MethodTarget(State(Nil, Nil, Nil, [], ns, replies), true, r)
  }

  /** `lai_eval_args` on encoded bytes agrees with the evaluator at every fuel at which the
      evaluator gives a verdict; otherwise the machine takes at least `fuel` steps. */
  lemma MachineRefinesEvaluator(p: E.Program, fuel: nat, m: nat, args: seq<Object>, ns: Space, replies: seq<Reply>)
    returns (n: nat)
    requires Loaded(p, ns) && m in p && |args| <= 7
    ensures var kind := KindOf(ns, m).value;
            Matches(Ok(Start(ns, m, kind.code, kind.size, args, replies)), n, fuel,
                    Outcome(ns, replies, E.CallMethod(p, fuel, m, args, ns, false)))
  {
    n := MethodSim(p, fuel, m, args, State(Nil, Nil, Nil, [], ns, replies), true);
  }
}
