/** Consequences of the simulation: the machine halts exactly when the evaluator gives a verdict,
    verdicts do not depend on the fuel, and the interpreter's implicit return is harmless exactly
    when no caller holds pending operands. */
module Adequacy {
  import opened Outcomes
  import opened Namespace
  import opened Operators
  import opened Syntax
  import opened Machine
  import opened Simulation
  import E = Evaluator

  lemma {:induction false} HaltedStays(r: Res<State>, m: nat, n: nat)
    requires m <= n && Halted(Run(r, m))
    ensures Run(r, n) == Run(r, m)
    decreases m
  {
    hide Process;
    if m > 0 && !Halted(r) { HaltedStays(Process(r.value), m - 1, n - 1); }
  }

  /** The initial state of `lai_eval_args` for a method of the program. */
  function StartOf(ns: Space, m: nat, args: seq<Object>, replies: seq<Reply>): Res<State>
    requires E.IsMethod(ns, m) && |args| <= 7
  {
    var kind := KindOf(ns, m).value;
    Ok(Start(ns, m, kind.code, kind.size, args, replies))
  }

  ghost predicate Decided(p: E.Program, fuel: nat, m: nat, args: seq<Object>, ns: Space)
    requires m in p
  {
    E.CallMethod(p, fuel, m, args, ns, false) != E.OutOfFuel
  }

  ghost predicate NeverMisread(p: E.Program, m: nat, args: seq<Object>, ns: Space)
    requires m in p
  {
    forall fuel: nat :: E.CallMethod(p, fuel, m, args, ns, false) != E.Misread
  }

  lemma LoadedMethod(p: E.Program, m: nat, ns: Space)
    requires Loaded(p, ns) && m in p
    ensures E.IsMethod(ns, m)
  {
    assert MethodLoaded(p[m], ns, m);
  }

  /** A machine run that halts within `n` steps has a verdict of the evaluator at fuel `n + 1`. */
  lemma HaltingRunIsDecided(p: E.Program, m: nat, args: seq<Object>, ns: Space, replies: seq<Reply>, n: nat)
    requires Loaded(p, ns) && m in p && |args| <= 7 && E.IsMethod(ns, m)
    requires Halted(Run(StartOf(ns, m, args, replies), n))
    ensures Decided(p, n + 1, m, args, ns)
  {
    hide Run, E.CallMethod;
    var k := MachineRefinesEvaluator(p, n + 1, m, args, ns, replies);
    if !Decided(p, n + 1, m, args, ns) { HaltedStays(StartOf(ns, m, args, replies), n, k); }
  }

  /** As long as names mean what the syntax tree says, and only integers and handles are computed with,
      running the bytes halts if and only if the evaluator reaches a verdict at some fuel. */
  lemma HaltsIffDecided(p: E.Program, m: nat, args: seq<Object>, ns: Space, replies: seq<Reply>)
    requires Loaded(p, ns) && m in p && |args| <= 7 && E.IsMethod(ns, m) && NeverMisread(p, m, args, ns)
    ensures (exists n: nat :: Halted(Run(StartOf(ns, m, args, replies), n))) <==>
            (exists fuel: nat :: Decided(p, fuel, m, args, ns))
  {
    hide Run, E.CallMethod;
    if n: nat :| Halted(Run(StartOf(ns, m, args, replies), n)) {
      HaltingRunIsDecided(p, m, args, ns, replies, n);
    }
    if fuel: nat :| Decided(p, fuel, m, args, ns) {
      var n := MachineRefinesEvaluator(p, fuel, m, args, ns, replies);
      assert Halted(Run(StartOf(ns, m, args, replies), n));
    }
  }

  /** The final state determines the verdict, and the verdict determines the final state. */
  lemma VerdictIsTheResult(p: E.Program, fuel: nat, m: nat, args: seq<Object>, ns: Space, replies: seq<Reply>, n: nat)
    requires Loaded(p, ns) && m in p && |args| <= 7 && E.IsMethod(ns, m)
    requires Halted(Run(StartOf(ns, m, args, replies), n))
    ensures var end := Run(StartOf(ns, m, args, replies), n);
            match E.CallMethod(p, fuel, m, args, ns, false)
            case Done((v, ns')) => end == Ok(State(Nil, Nil, Nil, [Value(v)], ns', replies))
            case Fault(f) => end == Fail(f)
            case _ => true
  {
    hide Run, E.CallMethod;
    var k := MachineRefinesEvaluator(p, fuel, m, args, ns, replies);
    var r := E.CallMethod(p, fuel, m, args, ns, false);
    if r.Done? || r.Fault? {
      HaltedStays(StartOf(ns, m, args, replies), if n <= k then n else k, if n <= k then k else n);
    }
    if r.Done? { assert [] + [Value(r.value.0)] == [Value(r.value.0)]; }
  }

  /** Two fuels at which the evaluator answers give the same answer. */
  lemma VerdictIsUnique(p: E.Program, f1: nat, f2: nat, m: nat, args: seq<Object>, ns: Space)
    requires Loaded(p, ns) && m in p && |args| <= 7
    requires var r1, r2 := E.CallMethod(p, f1, m, args, ns, false), E.CallMethod(p, f2, m, args, ns, false);
             (r1.Done? || r1.Fault?) && (r2.Done? || r2.Fault?)
    ensures E.CallMethod(p, f1, m, args, ns, false) == E.CallMethod(p, f2, m, args, ns, false)
  {
    hide Run, E.CallMethod;
    LoadedMethod(p, m, ns);
    var n := MachineRefinesEvaluator(p, f1, m, args, ns, []);
    VerdictIsTheResult(p, f1, m, args, ns, [], n);
    VerdictIsTheResult(p, f2, m, args, ns, [], n);
  }

  // ------------------------------------------------------------------------------------
  // The implicit return.
  // ------------------------------------------------------------------------------------

  lemma {:induction false} UninstallFaults(ns: Space, created: seq<nat>)
    ensures UninstallAll(ns, created).Fail? ==> UninstallAll(ns, created) == Fail(Internal)
    decreases |created|
  {
    if created != [] && Uninstall(ns, created[0]).Ok? {
      UninstallFaults(Uninstall(ns, created[0]).value, created[1..]);
    }
  }

  /** A method that falls off its end: the interpreter panics exactly when a caller holds operands;
      otherwise the caller gets zero if it wants a result. */
  lemma ImplicitReturnVerdict(p: E.Program, fuel: nat, m: nat, args: seq<Object>, caller: State, want: bool)
    returns (n: nat)
    requires Loaded(p, caller.ns) && m in p && |args| <= 7 && E.IsMethod(caller.ns, m)
    requires var r := E.ExecStmts(p, fuel, p[m], m, Env(Some(E.FreshVariables(args)), caller.ns), Pending(caller));
             r.Done? && r.value.0.Normal?
    ensures var kind := KindOf(caller.ns, m).value;
            var r := Run(Ok(EnterMethod(caller, m, kind.code, kind.size, args, want)), n);
            && (r == Fail(Panic) <==> caller.operands != [])
            && (r.Ok? ==> r.value.operands == if want then [Value(Integer(0))] else [])
  {
    hide Run, E.ExecStmts;
    n := MethodSim(p, fuel, m, args, caller, want);
    var r := E.ExecStmts(p, fuel, p[m], m, Env(Some(E.FreshVariables(args)), caller.ns), Pending(caller));
    if r.value.1.invocation.Some? { UninstallFaults(r.value.1.ns, r.value.1.invocation.value.created); }
  }

  /** The body ends in Return on every path that reaches its end. */
  predicate EndsInReturn(ss: seq<Stmt>) {
    ss != [] &&
    match ss[|ss| - 1]
    case Return(_) => true
    case IfElse(_, thn, els) => EndsInReturn(thn) && EndsInReturn(els)
    case _ => false
  }

  predicate AllReturn(p: E.Program) {
    forall n :: n in p ==> EndsInReturn(p[n])
  }

  lemma {:induction false} NeverFallsOff(p: E.Program, fuel: nat, ss: seq<Stmt>, handle: nat, env: Env, pending: bool)
    requires EndsInReturn(ss)
    ensures var r := E.ExecStmts(p, fuel, ss, handle, env, pending); r.Done? ==> !r.value.0.Normal?
    decreases ss
  {
    hide E.EvalExpr;
    var first := E.ExecStmt(p, fuel, ss[0], handle, env, pending);
    if |ss| == 1 {
      if ss[0].IfElse? {
        var c := E.EvalExpr(p, fuel, ss[0].cond, handle, env, pending);
        if c.Done? {
          NeverFallsOff(p, fuel, ss[0].thn, handle, c.value.1, pending);
          NeverFallsOff(p, fuel, ss[0].els, handle, c.value.1, pending);
        }
      }
    } else if first.Done? && first.value.0.Normal? {
      assert ss[1..][|ss[1..]| - 1] == ss[|ss| - 1];
      NeverFallsOff(p, fuel, ss[1..], handle, first.value.1, pending);
    }
  }

  // When every method ends in Return, nothing depends on pending operands.

  lemma {:induction false} ExprIgnoresPending(p: E.Program, fuel: nat, e: Expr, handle: nat, env: Env)
    requires AllReturn(p)
    ensures E.EvalExpr(p, fuel, e, handle, env, true) == E.EvalExpr(p, fuel, e, handle, env, false)
    decreases fuel, e, 0
  {
    match e
    case Apply(_, es, _) => ExprsIgnorePending(p, fuel, es, handle, env);
    case Call(name, args) =>
      var vs := E.EvalExprs(p, fuel, args, handle, env, true);
      var target := DoResolve(env.ns, handle, name);
      if target.Ok? && target.value.Some? && target.value.value in p && vs.Done? && fuel > 0 {
        CallIgnoresPending(p, fuel - 1, target.value.value, vs.value.0, vs.value.1.ns);
      }
    case _ =>
  }

  lemma {:induction false} ExprsIgnorePending(p: E.Program, fuel: nat, es: seq<Expr>, handle: nat, env: Env)
    requires AllReturn(p)
    ensures E.EvalExprs(p, fuel, es, handle, env, true) == E.EvalExprs(p, fuel, es, handle, env, false)
    decreases fuel, es, 0
  {
    hide E.EvalExpr;
    if es != [] { ExprIgnoresPending(p, fuel, es[0], handle, env); }
  }

  lemma {:induction false} CallIgnoresPending(p: E.Program, fuel: nat, m: nat, args: seq<Object>, ns: Space)
    requires AllReturn(p) && m in p
    ensures E.CallMethod(p, fuel, m, args, ns, true) == E.CallMethod(p, fuel, m, args, ns, false)
    decreases fuel
  {
    hide E.ExecStmts;
    var env := Env(Some(E.FreshVariables(args)), ns);
    StmtsIgnorePending(p, fuel, p[m], m, env);
    NeverFallsOff(p, fuel, p[m], m, env, true);
  }

  lemma {:induction false} StmtIgnoresPending(p: E.Program, fuel: nat, st: Stmt, handle: nat, env: Env)
    requires AllReturn(p)
    ensures E.ExecStmt(p, fuel, st, handle, env, true) == E.ExecStmt(p, fuel, st, handle, env, false)
    decreases fuel, st, 0
  {
    hide E.EvalExpr, E.ExecStmts, E.ExecLoop;
    match st
    case Do(e) => ExprIgnoresPending(p, fuel, e, handle, env);
    case Return(e) => ExprIgnoresPending(p, fuel, e, handle, env);
    case If(c, thn) =>
      ExprIgnoresPending(p, fuel, c, handle, env);
      var r := E.EvalExpr(p, fuel, c, handle, env, true);
      if r.Done? { StmtsIgnorePending(p, fuel, thn, handle, r.value.1); }
    case IfElse(c, thn, els) =>
      ExprIgnoresPending(p, fuel, c, handle, env);
      var r := E.EvalExpr(p, fuel, c, handle, env, true);
      if r.Done? {
        StmtsIgnorePending(p, fuel, thn, handle, r.value.1);
        StmtsIgnorePending(p, fuel, els, handle, r.value.1);
      }
    case While(c, body) => LoopIgnoresPending(p, fuel, c, body, handle, env);
    case _ =>
  }

  lemma {:induction false} StmtsIgnorePending(p: E.Program, fuel: nat, ss: seq<Stmt>, handle: nat, env: Env)
    requires AllReturn(p)
    ensures E.ExecStmts(p, fuel, ss, handle, env, true) == E.ExecStmts(p, fuel, ss, handle, env, false)
    decreases fuel, ss, 0
  {
    hide E.ExecStmt;
    if ss != [] {
      StmtIgnoresPending(p, fuel, ss[0], handle, env);
      var r := E.ExecStmt(p, fuel, ss[0], handle, env, true);
      if r.Done? { StmtsIgnorePending(p, fuel, ss[1..], handle, r.value.1); }
    }
  }

  lemma {:induction false} LoopIgnoresPending(p: E.Program, fuel: nat, c: Expr, body: seq<Stmt>, handle: nat, env: Env)
    requires AllReturn(p)
    ensures E.ExecLoop(p, fuel, c, body, handle, env, true) == E.ExecLoop(p, fuel, c, body, handle, env, false)
    decreases fuel, c, 1, body
  {
    hide E.EvalExpr, E.ExecStmts;
    ExprIgnoresPending(p, fuel, c, handle, env);
    var r := E.EvalExpr(p, fuel, c, handle, env, true);
    if r.Done? && fuel > 0 {
      StmtsIgnorePending(p, fuel - 1, body, handle, r.value.1);
      var b := E.ExecStmts(p, fuel - 1, body, handle, r.value.1, true);
      if b.Done? { LoopIgnoresPending(p, fuel - 1, c, body, handle, b.value.1); }
    }
  }
}
