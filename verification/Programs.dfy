/** Programs whose names mean what their syntax says: every call resolves to a method of the program
    with as many parameters as there are arguments, every other name resolves to an object that is an
    integer, a handle or empty, and no name that a method declares occurs in any other name. All of
    this can be checked before the program is run. For such programs the interpreter and the evaluator
    agree without any further condition. */
module Programs {
  import opened Outcomes
  import opened Names
  import opened Namespace
  import opened Opcodes
  import opened Operators
  import opened Syntax
  import opened Machine
  import opened Simulation
  import opened Adequacy
  import opened Interpreters
  import SI = StackInvariant
  import L = Locality
  import E = Evaluator

  predicate Plain(v: Object) {
    !v.Opaque?
  }

  // ------------------------------------------------------------------------------------
  // What evaluation may do to a namespace: plain objects stay plain, and names come and go only among
  // the declared ones, `d`.
  // ------------------------------------------------------------------------------------

  predicate SameKind(a: Kind, b: Kind) {
    a == b || (a.NameObject? && b.NameObject? && (Plain(a.content) ==> Plain(b.content)))
  }

  ghost predicate Grown(ns: Space, ns': Space, d: set<Segment>) {
    && ns.next <= ns'.next
    && (forall n :: n in ns.nodes ==>
          && n < ns.next && n in ns'.nodes
          && ns'.nodes[n].name == ns.nodes[n].name && ns'.nodes[n].parent == ns.nodes[n].parent
          && SameKind(ns.nodes[n].kind, ns'.nodes[n].kind))
    && (forall n :: n in ns'.nodes && n !in ns.nodes ==> ns'.nodes[n].name in d)
    && (forall parent: nat, name :: name !in d ==> GetChild(ns', parent, name) == GetChild(ns, parent, name))
  }

  /** Parents, children and targets of aliases are nodes. */
  ghost predicate Closed(ns: Space) {
    && (forall n :: n in ns.nodes ==>
          && n < ns.next
          && (ns.nodes[n].parent.Some? ==> ns.nodes[n].parent.value in ns.nodes)
          && (ns.nodes[n].kind.Alias? ==> ns.nodes[n].kind.target in ns.nodes))
    && (forall key :: key in ns.kids ==> ns.kids[key] in ns.nodes)
  }

  /** The name has no declared segment. */
  predicate Clear(segments: seq<Segment>, d: set<Segment>) {
    forall i :: 0 <= i < |segments| ==> segments[i] !in d
  }

  lemma SameParent(ns: Space, ns': Space, d: set<Segment>, n: nat)
    requires Grown(ns, ns', d) && Closed(ns) && n in ns.nodes
    ensures ParentOf(ns', n) == ParentOf(ns, n) && (ParentOf(ns, n).Some? ==> ParentOf(ns, n).value in ns.nodes)
  {
  }

  lemma {:induction false} SameRoot(ns: Space, ns': Space, d: set<Segment>, n: nat)
    requires Grown(ns, ns', d) && Closed(ns) && n in ns.nodes
    ensures RootOf(ns', n) == RootOf(ns, n) && RootOf(ns, n) in ns.nodes
  {
    hide Grown, Closed;
    SameParent(ns, ns', d, n);
    if ParentOf(ns, n).Some? { SameRoot(ns, ns', d, ParentOf(ns, n).value); }
  }

  lemma SameRootKind(ns: Space, ns': Space, d: set<Segment>, n: nat)
    requires Grown(ns, ns', d) && n in ns.nodes
    ensures KindOf(ns', n).Some? && SameKind(ns.nodes[n].kind, KindOf(ns', n).value)
  {
  }

  lemma {:induction false} SameAscent(ns: Space, ns': Space, d: set<Segment>, n: nat, height: nat)
    requires Grown(ns, ns', d) && Closed(ns) && n in ns.nodes
    ensures Ascend(ns', n, height) == Ascend(ns, n, height)
    ensures Ascend(ns, n, height).Ok? ==> Ascend(ns, n, height).value in ns.nodes
    decreases height
  {
    hide Grown, Closed;
    SameParent(ns, ns', d, n);
    SameRootKind(ns, ns', d, n);
    if height > 0 && ParentOf(ns, n).Some? { SameAscent(ns, ns', d, ParentOf(ns, n).value, height - 1); }
  }

  lemma {:induction false} SameDescent(ns: Space, ns': Space, d: set<Segment>, n: nat, segments: seq<Segment>)
    requires Grown(ns, ns', d) && Closed(ns) && n in ns.nodes && Clear(segments, d)
    ensures Descend(ns', n, segments) == Descend(ns, n, segments)
    ensures Descend(ns, n, segments).Some? ==> Descend(ns, n, segments).value in ns.nodes
    decreases |segments|
  {
    if segments != [] && GetChild(ns, n, segments[0]).Some? {
      SameDescent(ns, ns', d, GetChild(ns, n, segments[0]).value, segments[1..]);
    }
  }

  lemma SameAlias(ns: Space, ns': Space, d: set<Segment>, n: nat)
    requires Grown(ns, ns', d) && Closed(ns) && n in ns.nodes
    ensures FollowAlias(ns', n) == FollowAlias(ns, n)
    ensures FollowAlias(ns, n).Ok? ==> FollowAlias(ns, n).value in ns.nodes
  {
    SameRootKind(ns, ns', d, n);
    if ns.nodes[n].kind.Alias? { SameRootKind(ns, ns', d, ns.nodes[n].kind.target); }
  }

  lemma {:induction false} SameSearch(ns: Space, ns': Space, d: set<Segment>, n: nat, segment: Segment)
    requires Grown(ns, ns', d) && Closed(ns) && n in ns.nodes && segment !in d
    ensures SearchUp(ns', n, segment) == SearchUp(ns, n, segment)
    ensures var r := SearchUp(ns, n, segment); r.Ok? && r.value.Some? ==> r.value.value in ns.nodes
  {
    hide FollowAlias;
    SameParent(ns, ns', d, n);
    if GetChild(ns, n, segment).Some? {
      SameAlias(ns, ns', d, GetChild(ns, n, segment).value);
    } else if ParentOf(ns, n).Some? {
      SameSearch(ns, ns', d, ParentOf(ns, n).value, segment);
    }
  }

  /** Neither stores nor declarations change what a name without declared segments resolves to. */
  lemma SameResolution(ns: Space, ns': Space, d: set<Segment>, ctx: nat, name: AmlName)
    requires Grown(ns, ns', d) && Closed(ns) && ctx in ns.nodes && Clear(name.segments, d)
    ensures DoResolve(ns', ctx, name) == DoResolve(ns, ctx, name)
    ensures var r := DoResolve(ns, ctx, name); r.Ok? && r.value.Some? ==> r.value.value in ns.nodes
  {
    hide Grown, Closed, FollowAlias;
    SameRootKind(ns, ns', d, ctx);
    if name.SearchScopes() {
      SameSearch(ns, ns', d, ctx, name.segments[0]);
    } else {
      SameRoot(ns, ns', d, ctx);
      SameRootKind(ns, ns', d, RootOf(ns, ctx));
      SameAscent(ns, ns', d, if name.isAbsolute then RootOf(ns, ctx) else ctx, name.height);
      var start := Namespace.StartOf(ns, ctx, name);
      if start.Ok? {
        SameDescent(ns, ns', d, start.value, name.segments);
        var target := Descend(ns, start.value, name.segments);
        if target.Some? { SameAlias(ns, ns', d, target.value); }
      }
    }
  }

  lemma SameMethod(ns: Space, ns': Space, d: set<Segment>, n: nat)
    requires Grown(ns, ns', d) && n in ns.nodes
    ensures E.IsMethod(ns', n) == E.IsMethod(ns, n) && E.ArgumentCount(ns', n) == E.ArgumentCount(ns, n)
  {
  }

  // ------------------------------------------------------------------------------------
  // Loads and stores of scoped programs.
  // ------------------------------------------------------------------------------------

  predicate PlainVariables(inv: Invocation) {
    && (forall i :: 0 <= i < |inv.args| ==> Plain(inv.args[i]))
    && (forall i :: 0 <= i < |inv.locals| ==> Plain(inv.locals[i]))
  }

  /** What evaluation keeps: the namespace has only grown, variables are plain, and the method has created
      only nodes that were not there before. */
  ghost predicate Steady(ns: Space, d: set<Segment>, env: Env) {
    && Grown(ns, env.ns, d)
    && (env.invocation.Some? ==>
          && PlainVariables(env.invocation.value)
          && forall i :: 0 <= i < |env.invocation.value.created| ==> env.invocation.value.created[i] !in ns.nodes)
  }

  /** Loads and stores of such a node need nothing but its integer, handle or empty object. */
  predicate PlainNode(ns: Space, n: nat) {
    && n in ns.nodes && !ns.nodes[n].kind.FieldUnit? && !ns.nodes[n].kind.BufferField?
    && (ns.nodes[n].kind.NameObject? ==> Plain(ns.nodes[n].kind.content))
  }

  predicate PlainTarget(ns: Space, o: Operand) {
    o.NullName? || o.ArgName? || o.LocalName? || (o.ResolvedName? && PlainNode(ns, o.node))
  }

  lemma StaysPlain(ns: Space, ns': Space, d: set<Segment>, n: nat)
    requires Grown(ns, ns', d) && PlainNode(ns, n)
    ensures PlainNode(ns', n)
  {
  }

  lemma LoadIsPlain(ns: Space, d: set<Segment>, env: Env, o: Operand)
    requires Steady(ns, d, env) && PlainTarget(ns, o)
    ensures Load(env, o) != Fail(Unknown) && (Load(env, o).Ok? ==> Plain(Load(env, o).value))
  {
    if o.ResolvedName? { StaysPlain(ns, env.ns, d, o.node); }
  }

  lemma SetObjectIsGrown(ns: Space, ns': Space, d: set<Segment>, n: nat, v: Object)
    requires Grown(ns, ns', d) && n in ns'.nodes && ns'.nodes[n].kind.NameObject? && Plain(v)
    ensures Grown(ns, SetObject(ns', n, v), d)
  {
    forall parent: nat, name | name !in d
      ensures GetChild(SetObject(ns', n, v), parent, name) == GetChild(ns, parent, name)
    {
      assert GetChild(ns', parent, name) == GetChild(ns, parent, name);
    }
  }

  lemma StoreNodeIsSteady(ns: Space, d: set<Segment>, ns': Space, n: nat, v: Object)
    requires Grown(ns, ns', d) && PlainNode(ns', n) && Plain(v)
    ensures MutateNode(ns', n, v) != Fail(Unknown) && StoreNode(ns', n, v) != Fail(Unknown)
    ensures MutateNode(ns', n, v).Ok? ==> Grown(ns, MutateNode(ns', n, v).value, d)
    ensures StoreNode(ns', n, v).Ok? ==> Grown(ns, StoreNode(ns', n, v).value, d)
  {
    hide Grown;
    if ns'.nodes[n].kind.NameObject? { SetObjectIsGrown(ns, ns', d, n, v); }
  }

  lemma StoreIsSteady(ns: Space, d: set<Segment>, env: Env, o: Operand, v: Object, keepType: bool)
    requires Steady(ns, d, env) && PlainTarget(ns, o) && Plain(v)
    ensures StoreTo(env, o, v, keepType) != Fail(Unknown)
    ensures StoreTo(env, o, v, keepType).Ok? ==> Steady(ns, d, StoreTo(env, o, v, keepType).value)
  {
    hide Grown, MutateNode, StoreNode;
    if o.ResolvedName? {
      StaysPlain(ns, env.ns, d, o.node);
      StoreNodeIsSteady(ns, d, env.ns, o.node, v);
    }
  }

  predicate AllPlain(vs: seq<Object>) {
    forall i :: 0 <= i < |vs| ==> Plain(vs[i])
  }

  predicate PlainTargets(ns: Space, targets: seq<Operand>) {
    forall i :: 0 <= i < |targets| ==> PlainTarget(ns, targets[i])
  }

  lemma {:induction false} StoreAllIsSteady(ns: Space, d: set<Segment>, env: Env, targets: seq<Operand>,
                                            vs: seq<Object>, keepType: bool)
    requires |targets| == |vs| && Steady(ns, d, env) && PlainTargets(ns, targets) && AllPlain(vs)
    ensures E.StoreAll(env, targets, vs, keepType) != Fail(Unknown)
    ensures E.StoreAll(env, targets, vs, keepType).Ok? ==> Steady(ns, d, E.StoreAll(env, targets, vs, keepType).value)
    decreases |vs|
  {
    hide Steady, StoreTo;
    if vs != [] {
      StoreIsSteady(ns, d, env, targets[0], vs[0], keepType);
      var first := StoreTo(env, targets[0], vs[0], keepType);
      if first.Ok? { StoreAllIsSteady(ns, d, first.value, targets[1..], vs[1..], keepType); }
    }
  }

  lemma MeaningIsPlain(op: Operator, inputs: seq<Object>)
    requires |inputs| == if op in {INCREMENT_OP, DECREMENT_OP} then 1 else ValueCount(op)
    requires AllPlain(inputs)
    ensures var r := E.Meaning(op, inputs);
            r != Fail(Unknown) && (r.Ok? ==> Plain(r.value.0) && AllPlain(r.value.1))
  {
    hide Unary, Bitwise, ShiftRight, Remainder;
  }

  lemma OperatorIsSteady(ns: Space, d: set<Segment>, op: Operator, vs: seq<Object>, targets: seq<Operand>, env: Env)
    requires |vs| == ValueCount(op) && |targets| == TargetCount(op) && Steady(ns, d, env)
    requires AllPlain(vs) && PlainTargets(ns, targets)
    ensures var r := E.ApplyOperator(op, vs, targets, env);
            r != Fail(Unknown) && (r.Ok? ==> Steady(ns, d, r.value.1) && Plain(r.value.0))
  {
    hide Steady, E.Meaning, E.StoreAll, Load;
    if op in {INCREMENT_OP, DECREMENT_OP} {
      LoadIsPlain(ns, d, env, targets[0]);
      var v := Load(env, targets[0]);
      if v.Ok? { MeaningIsSteady(ns, d, op, [v.value], targets, env); }
    } else {
      MeaningIsSteady(ns, d, op, vs, targets, env);
    }
  }

  lemma MeaningIsSteady(ns: Space, d: set<Segment>, op: Operator, inputs: seq<Object>, targets: seq<Operand>, env: Env)
    requires |inputs| == if op in {INCREMENT_OP, DECREMENT_OP} then 1 else ValueCount(op)
    requires AllPlain(inputs) && PlainTargets(ns, targets) && Steady(ns, d, env)
    ensures var m := E.Meaning(op, inputs);
            && m != Fail(Unknown)
            && (m.Ok? ==> Plain(m.value.0))
            && (m.Ok? && |m.value.1| == |targets| ==>
                  var r := E.StoreAll(env, targets, m.value.1, op != COPYOBJECT_OP);
                  r != Fail(Unknown) && (r.Ok? ==> Steady(ns, d, r.value)))
  {
    hide Steady, E.Meaning, E.StoreAll;
    MeaningIsPlain(op, inputs);
    var m := E.Meaning(op, inputs);
    if m.Ok? && |m.value.1| == |targets| {
      StoreAllIsSteady(ns, d, env, targets, m.value.1, op != COPYOBJECT_OP);
    }
  }

  // ------------------------------------------------------------------------------------
  // Scoped programs.
  // ------------------------------------------------------------------------------------

  predicate ScopedTarget(ns: Space, d: set<Segment>, handle: nat, t: Target) {
    match t
    case NameTarget(name) =>
      var target := DoResolve(ns, handle, name);
      Clear(name.segments, d) && (target.Ok? && target.value.Some? ==> PlainNode(ns, target.value.value))
    case _ => true
  }

  predicate ScopedTargets(ns: Space, d: set<Segment>, handle: nat, ts: seq<Target>) {
    ts == [] || (ScopedTarget(ns, d, handle, ts[0]) && ScopedTargets(ns, d, handle, ts[1..]))
  }

  predicate ScopedExpr(p: E.Program, ns: Space, d: set<Segment>, handle: nat, e: Expr) {
    match e
    case Var(name) =>
      var target := DoResolve(ns, handle, name);
      && Clear(name.segments, d)
      && (target.Ok? && target.value.Some? ==>
            !E.IsMethod(ns, target.value.value) && PlainNode(ns, target.value.value))
    case Apply(op, es, ts) =>
      && |es| == ValueCount(op) && |ts| == TargetCount(op)
      && ScopedExprs(p, ns, d, handle, es) && ScopedTargets(ns, d, handle, ts)
    case Call(name, args) =>
      var target := DoResolve(ns, handle, name);
      && Clear(name.segments, d)
      && (target.Ok? && target.value.Some? ==>
            target.value.value in p && E.ArgumentCount(ns, target.value.value) == |args|)
      && ScopedExprs(p, ns, d, handle, args)
    case _ => true
  }

  predicate ScopedExprs(p: E.Program, ns: Space, d: set<Segment>, handle: nat, es: seq<Expr>) {
    es == [] || (ScopedExpr(p, ns, d, handle, es[0]) && ScopedExprs(p, ns, d, handle, es[1..]))
  }

  predicate ScopedStmt(p: E.Program, ns: Space, d: set<Segment>, handle: nat, st: Stmt) {
    match st
    case Do(e) => ScopedExpr(p, ns, d, handle, e)
    case If(c, thn) => ScopedExpr(p, ns, d, handle, c) && ScopedStmts(p, ns, d, handle, thn)
    case IfElse(c, thn, els) =>
      && ScopedExpr(p, ns, d, handle, c)
      && ScopedStmts(p, ns, d, handle, thn) && ScopedStmts(p, ns, d, handle, els)
    case While(c, body) => ScopedExpr(p, ns, d, handle, c) && ScopedStmts(p, ns, d, handle, body)
    case Return(e) => ScopedExpr(p, ns, d, handle, e)
    case Declare(name, e) =>
      (name.segments != [] ==> name.segments[|name.segments| - 1] in d) && ScopedExpr(p, ns, d, handle, e)
    case _ => true
  }

  predicate ScopedStmts(p: E.Program, ns: Space, d: set<Segment>, handle: nat, ss: seq<Stmt>) {
    ss == [] || (ScopedStmt(p, ns, d, handle, ss[0]) && ScopedStmts(p, ns, d, handle, ss[1..]))
  }

  ghost predicate Scoped(p: E.Program, ns: Space, d: set<Segment>) {
    Closed(ns) && forall n :: n in p ==> n in ns.nodes && ScopedStmts(p, ns, d, n, p[n])
  }

  // ------------------------------------------------------------------------------------
  // Scoped programs are never misread.
  // ------------------------------------------------------------------------------------

  ghost predicate Read<T>(ns: Space, d: set<Segment>, r: E.Verdict<(T, Env)>) {
    r != E.Misread && (r.Done? ==> Steady(ns, d, r.value.1))
  }

  ghost predicate ReadPlain(ns: Space, d: set<Segment>, r: E.Verdict<(Object, Env)>) {
    Read(ns, d, r) && (r.Done? ==> Plain(r.value.0))
  }

  lemma VarIsRead(p: E.Program, ns: Space, d: set<Segment>, fuel: nat, e: Expr, handle: nat, env: Env, pending: bool)
    requires Scoped(p, ns, d) && Steady(ns, d, env) && handle in ns.nodes && e.Var? && ScopedExpr(p, ns, d, handle, e)
    ensures ReadPlain(ns, d, E.EvalExpr(p, fuel, e, handle, env, pending))
  {
    hide DoResolve, Grown, Closed, Clear, ScopedStmts, PlainVariables;
    SameResolution(ns, env.ns, d, handle, e.name);
    SI.ResolveFaults(ns, handle, e.name);
    var target := DoResolve(env.ns, handle, e.name);
    if target.Ok? && target.value.Some? {
      SameMethod(ns, env.ns, d, target.value.value);
      StaysPlain(ns, env.ns, d, target.value.value);
    }
  }

  lemma {:induction false} ExprIsRead(p: E.Program, ns: Space, d: set<Segment>, fuel: nat, e: Expr, handle: nat,
                                      env: Env, pending: bool)
    requires Scoped(p, ns, d) && Steady(ns, d, env) && handle in ns.nodes && ScopedExpr(p, ns, d, handle, e)
    ensures ReadPlain(ns, d, E.EvalExpr(p, fuel, e, handle, env, pending))
    decreases fuel, e, 0
  {
    hide E.EvalExprs, E.CallMethod, Grown, DoResolve, Closed;
    match e
    case Var(name) => VarIsRead(p, ns, d, fuel, e, handle, env, pending);
    case Apply(op, es, ts) =>
      ExprsAreRead(p, ns, d, fuel, es, handle, env, pending);
      ApplyIsRead(p, ns, d, fuel, e, handle, env, pending);
    case Call(name, args) =>
      SameResolution(ns, env.ns, d, handle, name);
      SI.ResolveFaults(ns, handle, name);
      var target := DoResolve(env.ns, handle, name);
      if target.Ok? && target.value.Some? {
        SameMethod(ns, env.ns, d, target.value.value);
        ExprsAreRead(p, ns, d, fuel, args, handle, env, true);
        var vs := E.EvalExprs(p, fuel, args, handle, env, true);
        if vs.Done? && fuel > 0 {
          CallIsRead(p, ns, d, fuel - 1, target.value.value, vs.value.0, vs.value.1.ns, pending);
        }
      }
    case Arg(i) => LoadIsPlain(ns, d, env, ArgName(i));
    case Local(i) => LoadIsPlain(ns, d, env, LocalName(i));
    case _ =>
  }

  lemma ApplyIsRead(p: E.Program, ns: Space, d: set<Segment>, fuel: nat, e: Expr, handle: nat, env: Env, pending: bool)
    requires e.Apply? && |e.values| == ValueCount(e.op) && |e.targets| == TargetCount(e.op)
    requires Closed(ns) && handle in ns.nodes && ScopedTargets(ns, d, handle, e.targets)
    requires var vs := E.EvalExprs(p, fuel, e.values, handle, env, pending);
             Read(ns, d, vs) && (vs.Done? ==> AllPlain(vs.value.0))
    ensures ReadPlain(ns, d, E.EvalExpr(p, fuel, e, handle, env, pending))
  {
    hide E.EvalExprs, Steady, E.ApplyOperator, E.EvalTargets, PlainTargets, AllPlain, Closed, ScopedTargets;
    var vs := E.EvalExprs(p, fuel, e.values, handle, env, pending);
    EvalLength(p, fuel, e.values, handle, env, pending);
    if vs.Done? {
      var targets := E.EvalTargets(e.targets, handle, vs.value.1.ns);
      TargetsArePlain(ns, d, e.targets, handle, vs.value.1);
      if targets.Ok? { OperatorIsSteady(ns, d, e.op, vs.value.0, targets.value, vs.value.1); }
    }
  }

  lemma {:induction false} EvalLength(p: E.Program, fuel: nat, es: seq<Expr>, handle: nat, env: Env, pending: bool)
    ensures var r := E.EvalExprs(p, fuel, es, handle, env, pending); r.Done? ==> |r.value.0| == |es|
    decreases |es|
  {
    hide E.EvalExpr;
    if es != [] {
      var first := E.EvalExpr(p, fuel, es[0], handle, env, pending);
      if first.Done? { EvalLength(p, fuel, es[1..], handle, first.value.1, true); }
    }
  }

  lemma {:induction false} TargetsArePlain(ns: Space, d: set<Segment>, ts: seq<Target>, handle: nat, env: Env)
    requires Closed(ns) && handle in ns.nodes && ScopedTargets(ns, d, handle, ts) && Steady(ns, d, env)
    ensures var r := E.EvalTargets(ts, handle, env.ns);
            r != Fail(Unknown) && (r.Ok? ==> |r.value| == |ts| && PlainTargets(ns, r.value))
    decreases |ts|
  {
    hide DoResolve, Grown, Closed;
    if ts != [] {
      TargetsArePlain(ns, d, ts[1..], handle, env);
      if ts[0].NameTarget? {
        SameResolution(ns, env.ns, d, handle, ts[0].name);
        SI.ResolveFaults(ns, handle, ts[0].name);
      }
    }
  }

  lemma {:induction false} ExprsAreRead(p: E.Program, ns: Space, d: set<Segment>, fuel: nat, es: seq<Expr>, handle: nat,
                                        env: Env, pending: bool)
    requires Scoped(p, ns, d) && Steady(ns, d, env) && handle in ns.nodes && ScopedExprs(p, ns, d, handle, es)
    ensures var r := E.EvalExprs(p, fuel, es, handle, env, pending);
            Read(ns, d, r) && (r.Done? ==> AllPlain(r.value.0))
    decreases fuel, es, 0
  {
    hide E.EvalExpr, Steady, ScopedExpr, Scoped;
    if es != [] {
      ExprIsRead(p, ns, d, fuel, es[0], handle, env, pending);
      var first := E.EvalExpr(p, fuel, es[0], handle, env, pending);
      if first.Done? { ExprsAreRead(p, ns, d, fuel, es[1..], handle, first.value.1, true); }
    }
  }

  /** The names a method has created come from the declared ones, so that removing them changes nothing
      else. */
  lemma {:induction false} UninstallKeepsGrown(ns: Space, ns': Space, d: set<Segment>, created: seq<nat>)
    requires Grown(ns, ns', d) && forall i :: 0 <= i < |created| ==> created[i] !in ns.nodes
    ensures var r := UninstallAll(ns', created); r != Fail(Unknown) && (r.Ok? ==> Grown(ns, r.value, d))
    decreases |created|
  {
    if created != [] {
      var r := Uninstall(ns', created[0]);
      if r.Ok? {
        forall parent: nat, name | name !in d ensures GetChild(r.value, parent, name) == GetChild(ns, parent, name) {
          assert GetChild(ns', parent, name) == GetChild(ns, parent, name);
        }
        UninstallKeepsGrown(ns, r.value, d, created[1..]);
      }
    }
  }

  lemma {:induction false} CallIsRead(p: E.Program, ns: Space, d: set<Segment>, fuel: nat, m: nat, args: seq<Object>,
                                      ns': Space, pending: bool)
    requires Scoped(p, ns, d) && Grown(ns, ns', d) && m in p && AllPlain(args)
    ensures var r := E.CallMethod(p, fuel, m, args, ns', pending);
            r != E.Misread && (r.Done? ==> Grown(ns, r.value.1, d) && Plain(r.value.0))
    decreases fuel
  {
    hide E.ExecStmts, Grown, Closed;
    var env := Env(Some(E.FreshVariables(args)), ns');
    StmtsAreRead(p, ns, d, fuel, p[m], m, env, pending);
    var r := E.ExecStmts(p, fuel, p[m], m, env, pending);
    if r.Done? && r.value.1.invocation.Some? {
      UninstallKeepsGrown(ns, r.value.1.ns, d, r.value.1.invocation.value.created);
    }
  }

  ghost predicate ReadFlow(ns: Space, d: set<Segment>, r: E.Verdict<(E.Flow, Env)>) {
    Read(ns, d, r) && (r.Done? && r.value.0.Returned? ==> Plain(r.value.0.v))
  }

  lemma DeclareIsRead(ns: Space, d: set<Segment>, env: Env, handle: nat, name: AmlName, v: Object)
    requires Steady(ns, d, env) && Plain(v) && (name.segments != [] ==> name.segments[|name.segments| - 1] in d)
    ensures var r := E.DeclareName(env, handle, name, v); r != Fail(Unknown) && (r.Ok? ==> Steady(ns, d, r.value))
  {
    hide DescendToParent, Namespace.StartOf;
    SI.ResolveNewFaults(env.ns, handle, name);
    var place := DoResolveNew(env.ns, handle, name);
    var r := E.DeclareName(env, handle, name, v);
    if place.Ok? && r.Ok? {
      assert place.value.1 in d;
      forall parent: nat, other | other !in d
        ensures GetChild(r.value.ns, parent, other) == GetChild(ns, parent, other)
      {
        assert GetChild(env.ns, parent, other) == GetChild(ns, parent, other);
      }
    }
  }

  lemma {:induction false} StmtIsRead(p: E.Program, ns: Space, d: set<Segment>, fuel: nat, st: Stmt, handle: nat,
                                      env: Env, pending: bool)
    requires Scoped(p, ns, d) && Steady(ns, d, env) && handle in ns.nodes && ScopedStmt(p, ns, d, handle, st)
    ensures ReadFlow(ns, d, E.ExecStmt(p, fuel, st, handle, env, pending))
    decreases fuel, st, 0
  {
    hide E.EvalExpr, E.ExecStmts, E.ExecLoop, Steady, ScopedExpr, Scoped, E.DeclareName;
    match st
    case Do(e) => ExprIsRead(p, ns, d, fuel, e, handle, env, pending);
    case Return(e) => ExprIsRead(p, ns, d, fuel, e, handle, env, pending);
    case If(c, thn) =>
      ExprIsRead(p, ns, d, fuel, c, handle, env, pending);
      var r := E.EvalExpr(p, fuel, c, handle, env, pending);
      if r.Done? { StmtsAreRead(p, ns, d, fuel, thn, handle, r.value.1, pending); }
    case IfElse(c, thn, els) =>
      ExprIsRead(p, ns, d, fuel, c, handle, env, pending);
      var r := E.EvalExpr(p, fuel, c, handle, env, pending);
      if r.Done? {
        StmtsAreRead(p, ns, d, fuel, thn, handle, r.value.1, pending);
        StmtsAreRead(p, ns, d, fuel, els, handle, r.value.1, pending);
      }
    case While(c, body) => LoopIsRead(p, ns, d, fuel, c, body, handle, env, pending);
    case Declare(name, e) =>
      ExprIsRead(p, ns, d, fuel, e, handle, env, true);
      var r := E.EvalExpr(p, fuel, e, handle, env, true);
      if r.Done? { DeclareIsRead(ns, d, r.value.1, handle, name, r.value.0); }
    case _ =>
  }

  lemma {:induction false} StmtsAreRead(p: E.Program, ns: Space, d: set<Segment>, fuel: nat, ss: seq<Stmt>, handle: nat,
                                        env: Env, pending: bool)
    requires Scoped(p, ns, d) && Steady(ns, d, env) && handle in ns.nodes && ScopedStmts(p, ns, d, handle, ss)
    ensures ReadFlow(ns, d, E.ExecStmts(p, fuel, ss, handle, env, pending))
    decreases fuel, ss, 0
  {
    hide E.ExecStmt, Steady, ScopedStmt, Scoped;
    if ss != [] {
      StmtIsRead(p, ns, d, fuel, ss[0], handle, env, pending);
      var r := E.ExecStmt(p, fuel, ss[0], handle, env, pending);
      if r.Done? { StmtsAreRead(p, ns, d, fuel, ss[1..], handle, r.value.1, pending); }
    }
  }

  lemma {:induction false} LoopIsRead(p: E.Program, ns: Space, d: set<Segment>, fuel: nat, c: Expr, body: seq<Stmt>,
                                      handle: nat, env: Env, pending: bool)
    requires Scoped(p, ns, d) && Steady(ns, d, env) && handle in ns.nodes
    requires ScopedExpr(p, ns, d, handle, c) && ScopedStmts(p, ns, d, handle, body)
    ensures ReadFlow(ns, d, E.ExecLoop(p, fuel, c, body, handle, env, pending))
    decreases fuel, c, 1, body
  {
    hide E.EvalExpr, E.ExecStmts, Steady, ScopedExpr, ScopedStmts, Scoped;
    ExprIsRead(p, ns, d, fuel, c, handle, env, pending);
    var r := E.EvalExpr(p, fuel, c, handle, env, pending);
    if r.Done? && fuel > 0 {
      StmtsAreRead(p, ns, d, fuel - 1, body, handle, r.value.1, pending);
      var b := E.ExecStmts(p, fuel - 1, body, handle, r.value.1, pending);
      if b.Done? { LoopIsRead(p, ns, d, fuel - 1, c, body, handle, b.value.1, pending); }
    }
  }

  lemma NothingGrown(ns: Space, d: set<Segment>)
    requires Closed(ns)
    ensures Grown(ns, ns, d)
  {
  }

  lemma ScopedIsNeverMisread(p: E.Program, m: nat, args: seq<Object>, ns: Space, d: set<Segment>)
    requires Scoped(p, ns, d) && m in p && AllPlain(args)
    ensures NeverMisread(p, m, args, ns)
  {
    hide E.CallMethod, Grown;
    NothingGrown(ns, d);
    forall fuel: nat ensures E.CallMethod(p, fuel, m, args, ns, false) != E.Misread {
      CallIsRead(p, ns, d, fuel, m, args, ns, false);
    }
  }

  // ------------------------------------------------------------------------------------
  // The interpreter computes what the program means.
  // ------------------------------------------------------------------------------------

  /** A scoped program halts on the machine if and only if the evaluator finds a verdict at some fuel. */
  lemma ScopedHaltsIffDecided(p: E.Program, m: nat, args: seq<Object>, ns: Space, d: set<Segment>, replies: seq<Reply>)
    requires Loaded(p, ns) && Scoped(p, ns, d) && m in p && |args| <= 7 && AllPlain(args) && E.IsMethod(ns, m)
    ensures (exists n: nat :: Halted(Run(Adequacy.StartOf(ns, m, args, replies), n))) <==>
            (exists fuel: nat :: Decided(p, fuel, m, args, ns))
  {
    hide Run, E.CallMethod;
    ScopedIsNeverMisread(p, m, args, ns, d);
    HaltsIffDecided(p, m, args, ns, replies);
  }

  /** The interpreter, run on the bytes of a scoped program, returns the evaluator's result, leaves the
      evaluator's namespace, or stops with the evaluator's fault. `fuel` only witnesses that the
      program has a verdict. */
  method EvaluateProgram(interpreter: Interpreter, p: E.Program, m: nat, args: seq<Object>, d: set<Segment>,
                         ghost fuel: nat)
    returns (r: Res<Object>)
    requires interpreter.Valid()
    requires interpreter.Current() == State(Nil, Nil, Nil, [], interpreter.ns, interpreter.replies)
    requires Loaded(p, interpreter.ns) && Scoped(p, interpreter.ns, d) && m in p
    requires |args| <= 7 && AllPlain(args) && Decided(p, fuel, m, args, interpreter.ns)
    modifies interpreter.Repr
    ensures interpreter.Valid() && fresh(interpreter.Repr - old(interpreter.Repr))
    ensures match E.CallMethod(p, fuel, m, args, old(interpreter.ns), false)
            case Done((v, ns')) =>
              r == Ok(v) && interpreter.Current() == State(Nil, Nil, Nil, [], ns', old(interpreter.replies))
            case Fault(f) => r == Fail(f)
            case _ => false
  {
    hide Run, E.CallMethod, Loaded, Scoped;
    ghost var ns, replies := interpreter.ns, interpreter.replies;
    LoadedMethod(p, m, ns);
    ScopedIsNeverMisread(p, m, args, ns, d);
    ghost var steps := MachineRefinesEvaluator(p, fuel, m, args, ns, replies);
    VerdictIsTheResult(p, fuel, m, args, ns, replies, steps);
    r := interpreter.Evaluate(m, args, steps);
  }

  /** On any bytes whatsoever the interpreter returns an object, an error code, panics or runs into
      undefined behaviour; none of its own assertions fails. Only a method that comes to a VarPackage or
      a BankField has no outcome. */
  method EvaluateAnything(interpreter: Interpreter, n: nat, args: seq<Object>, ghost steps: nat)
    returns (r: Res<Object>)
    requires interpreter.Valid() && n in interpreter.ns.nodes && |args| <= 7 && Numbered(interpreter.ns)
    requires interpreter.Current() == State(Nil, Nil, Nil, [], interpreter.ns, interpreter.replies)
    requires var kind := interpreter.ns.nodes[n].kind;
             kind.Method? ==>
               Halted(Run(Ok(Start(interpreter.ns, n, kind.code, kind.size, args, interpreter.replies)), steps))
    modifies interpreter.Repr
    ensures interpreter.Valid() && fresh(interpreter.Repr - old(interpreter.Repr))
    ensures SI.Tame(r) || (r == Fail(Unmodelled) &&
              var kind := old(interpreter.ns).nodes[n].kind;
              kind.Method? && SI.MeetsLeftOut(
                Start(old(interpreter.ns), n, kind.code, kind.size, args, old(interpreter.replies)), steps))
    ensures r.Ok? ==> interpreter.Current() == State(Nil, Nil, Nil, [], interpreter.ns, interpreter.replies)
  {
    hide Run, SI.MeetsLeftOut, SI.Inv;
    ghost var kind := interpreter.ns.nodes[n].kind;
    if kind.Method? {
      SI.EvaluationIsSafe(interpreter.ns, n, kind.code, kind.size, args, interpreter.replies, steps);
      ghost var end := Run(Ok(Start(interpreter.ns, n, kind.code, kind.size, args, interpreter.replies)), steps);
      if end.Ok? { L.ResultIsObject(interpreter.ns, n, kind.code, kind.size, args, interpreter.replies, steps); }
    }
    r := interpreter.Evaluate(n, args, steps);
  }
}
