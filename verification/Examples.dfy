/** Complete instances: a method, its bytes, and its result for every argument; and a method that leaves a
    node behind in the namespace. */
module Examples {
  import opened Bits
  import opened Outcomes
  import opened Names
  import opened Namespace
  import opened Opcodes
  import opened Operators
  import opened Syntax
  import opened Machine
  import opened Simulation
  import opened Programs
  import opened Interpreters
  import Calls
  import E = Evaluator

  /** `If (Arg0) { Return (Arg0 + 1) }  Return (0)` */
  function Body(): seq<Stmt> {
    [If(Arg(0), [Return(Apply(ADD_OP, [Arg(0), Const(One)], [NoTarget]))]), Return(Const(Zero))]
  }

  const METHOD_NAME: Segment := [0x54, 0x45, 0x53, 0x54]

  /** A namespace with the root and the method. */
  function Sample(): Space {
    var code := EncodeStmts(Body());
    Space(map[0 := Node(METHOD_NAME, None, Root), 1 := Node(METHOD_NAME, Some(0), Method(1, code, |code|))],
          map[(0, METHOD_NAME) := 1], 2)
  }

  /** The bytes of the body, as a compiler writes them. */
  lemma BodyBytes()
    ensures EncodeStmts(Body())
         == [IF_OP, 0x07, ARG0_OP, RETURN_OP, ADD_OP, ARG0_OP, ONE_OP, ZERO_OP, RETURN_OP, ZERO_OP]
  {
    var sum := Apply(ADD_OP, [Arg(0), Const(One)], [NoTarget]);
    assert [Arg(0), Const(One)][1..] == [Const(One)] && [Const(One)][1..] == [] && [NoTarget][1..] == [];
    assert EncodeExprs([Const(One)]) == [ONE_OP] + [];
    assert EncodeExpr(sum) == [ADD_OP, ARG0_OP, ONE_OP, ZERO_OP];
    var inner := [Return(sum)];
    assert inner[1..] == [];
    assert EncodeStmts(inner) == [RETURN_OP, ADD_OP, ARG0_OP, ONE_OP, ZERO_OP] + [];
    var last := [Return(Const(Zero))];
    assert last[1..] == [] && Body()[1..] == last;
    assert EncodeStmts(last) == [RETURN_OP, ZERO_OP] + [];
    var contents := EncodeExpr(Arg(0)) + EncodeStmts(inner);
    assert contents == [ARG0_OP, RETURN_OP, ADD_OP, ARG0_OP, ONE_OP, ZERO_OP];
    assert PackageLength(|contents|) == [0x07];
  }

  function Program(): E.Program {
    map[1 := Body()]
  }

  /** What the syntax tree means. */
  lemma BodyMeaning(n: u64)
    ensures E.CallMethod(Program(), 0, 1, [Integer(n)], Sample(), false)
         == E.Done((Integer(if n != 0 then Wrap(n + 1) else 0), Sample()))
  {
    var p, ns, env := Program(), Sample(), Env(Some(E.FreshVariables([Integer(n)])), Sample());
    assert Load(env, ArgName(0)) == Ok(Integer(n));
    var zero := Return(Const(Zero));
    assert E.ExecStmts(p, 0, [zero], 1, env, false) == E.Done((E.Returned(Integer(0)), env)) by {
      assert [zero][1..] == [];
    }
    var sum := Apply(ADD_OP, [Arg(0), Const(One)], [NoTarget]);
    SumMeaning(n, env);
    assert E.ExecStmts(p, 0, [Return(sum)], 1, env, false) == E.Done((E.Returned(Integer(Wrap(n + 1))), env)) by {
      assert [Return(sum)][1..] == [];
    }
    assert Body()[1..] == [zero];
    assert UninstallAll(ns, []) == Ok(ns);
  }

  lemma SumMeaning(n: u64, env: Env)
    requires Load(env, ArgName(0)) == Ok(Integer(n))
    ensures E.EvalExpr(Program(), 0, Apply(ADD_OP, [Arg(0), Const(One)], [NoTarget]), 1, env, false)
         == E.Done((Integer(Wrap(n + 1)), env))
  {
    var p := Program();
    assert [Arg(0), Const(One)][1..] == [Const(One)] && [Const(One)][1..] == [];
    assert E.EvalExprs(p, 0, [Const(One)], 1, env, true) == E.Done(([Integer(1)], env)) by {
      assert E.EvalExprs(p, 0, [], 1, env, true) == E.Done(([], env));
      assert [Integer(1)] + [] == [Integer(1)];
    }
    assert [Integer(n)] + [Integer(1)] == [Integer(n), Integer(1)];
    assert E.EvalTargets([NoTarget], 1, env.ns) == Ok([NullName]) by {
      assert [NoTarget][1..] == [] && [NullName] + [] == [NullName];
    }
    assert E.StoreAll(env, [NullName], [Integer(Wrap(n + 1))], true) == Ok(env) by {
      assert [NullName][1..] == [] && [Integer(Wrap(n + 1))][1..] == [];
    }
  }

  lemma SampleIsLoaded()
    ensures Loaded(Program(), Sample())
  {
    BodyBytes();
    var code := EncodeStmts(Body());
    assert code[..|code|] == code;
    assert WfStmts(Body()) by { BodyIsWellFormed(); }
    assert MethodLoaded(Body(), Sample(), 1);
  }

  lemma BodyIsWellFormed()
    ensures WfStmts(Body())
  {
    var inner := [Return(Apply(ADD_OP, [Arg(0), Const(One)], [NoTarget]))];
    assert [Arg(0), Const(One)][1..] == [Const(One)] && [Const(One)][1..] == [];
    assert WfExprs([Const(One)]);
    assert inner[1..] == [] && WfStmts(inner);
    BodyBytes();
    assert Fits(EncodeExpr(Arg(0)) + EncodeStmts(inner)) by { BranchFits(); }
    assert [Return(Const(Zero))][1..] == [] && Body()[1..] == [Return(Const(Zero))];
  }

  lemma BranchFits()
    ensures Fits(EncodeExpr(Arg(0)) + EncodeStmts([Return(Apply(ADD_OP, [Arg(0), Const(One)], [NoTarget]))]))
  {
    var sum := Apply(ADD_OP, [Arg(0), Const(One)], [NoTarget]);
    assert [Arg(0), Const(One)][1..] == [Const(One)] && [Const(One)][1..] == [] && [NoTarget][1..] == [];
    assert EncodeExprs([Const(One)]) == [ONE_OP] + [];
    assert EncodeExpr(sum) == [ADD_OP, ARG0_OP, ONE_OP, ZERO_OP];
    assert [Return(sum)][1..] == [];
    assert EncodeStmts([Return(sum)]) == [RETURN_OP, ADD_OP, ARG0_OP, ONE_OP, ZERO_OP] + [];
  }

  /** Running the ten bytes computes the successor of every argument but zero. */
  lemma SuccessorRuns(n: u64, replies: seq<Reply>)
    ensures exists steps: nat ::
              Run(Ok(Start(Sample(), 1, EncodeStmts(Body()), |EncodeStmts(Body())|, [Integer(n)], replies)), steps)
              == Ok(State(Nil, Nil, Nil, [Value(Integer(if n != 0 then Wrap(n + 1) else 0))], Sample(), replies))
  {
    hide Run, E.CallMethod, Loaded, EncodeStmts;
    SampleIsLoaded();
    BodyMeaning(n);
    var result := Value(Integer(if n != 0 then Wrap(n + 1) else 0));
    var steps := MachineRefinesEvaluator(Program(), 0, 1, [Integer(n)], Sample(), replies);
    assert [] + [result] == [result];
  }

  lemma SampleIsScoped()
    ensures Scoped(Program(), Sample(), {})
  {
    hide ScopedStmts, Closed, Sample, Body;
    SampleIsClosed();
    BodyIsScoped(Program(), Sample());
    SampleNodes();
  }

  lemma SampleNodes()
    ensures Sample().nodes.Keys == {0, 1}
  {
  }

  lemma SampleIsClosed()
    ensures Closed(Sample())
  {
    hide EncodeStmts;
  }

  lemma BodyIsScoped(p: E.Program, ns: Space)
    ensures ScopedStmts(p, ns, {}, 1, Body())
  {
    var sum := Apply(ADD_OP, [Arg(0), Const(One)], [NoTarget]);
    var inner, last := [Return(sum)], [Return(Const(Zero))];
    SumIsScoped(p, ns);
    assert inner[1..] == [] && ScopedStmts(p, ns, {}, 1, inner);
    assert last[1..] == [] && ScopedStmts(p, ns, {}, 1, last);
    assert Body()[0] == If(Arg(0), inner) && Body()[1..] == last;
  }

  lemma SumIsScoped(p: E.Program, ns: Space)
    ensures ScopedExpr(p, ns, {}, 1, Apply(ADD_OP, [Arg(0), Const(One)], [NoTarget]))
  {
    assert [Arg(0), Const(One)][1..] == [Const(One)] && [Const(One)][1..] == [] && [NoTarget][1..] == [];
    assert ScopedExprs(p, ns, {}, 1, [Const(One)]);
  }

  /** The same on a fresh interpreter. */
  method Successor(n: u64) returns (r: Res<Object>)
    ensures r == Ok(Integer(if n != 0 then Wrap(n + 1) else 0))
  {
    hide E.CallMethod, Loaded, Scoped, EncodeStmts;
    SampleIsLoaded();
    SampleIsScoped();
    BodyMeaning(n);
    var interpreter := new Interpreter(Sample(), []);
    r := EvaluateProgram(interpreter, Program(), 1, [Integer(n)], {}, 0);
  }

  // ------------------------------------------------------------------------------------
  // A method that leaks.
  // ------------------------------------------------------------------------------------

  /** `Scope (\) { Name (ABCD, Zero) }  Return (Zero)` */
  const LEAKING: seq<byte> :=
    [SCOPE_OP, 0x09, ROOT_CHAR, 0x00, NAME_OP, 0x41, 0x42, 0x43, 0x44, ZERO_OP, RETURN_OP, ZERO_OP]

  const LEFT_BEHIND: Segment := [0x41, 0x42, 0x43, 0x44]

  /** A namespace with the root and that method. */
  function LeakingSpace(): Space {
    Space(map[0 := Node(METHOD_NAME, None, Root), 1 := Node(METHOD_NAME, Some(0), Method(0, LEAKING, 12))],
          map[(0, METHOD_NAME) := 1], 2)
  }

  /** The state in which the body of Scope() is at byte `pc`. */
  function InScope(pc: nat, items: List<Item>, operands: seq<Operand>, ns: Space): State {
    var frame := Context(LEAKING, 1, Some(NewInvocation([])));
    State(Cons(Context(LEAKING, 0, None), Cons(frame, Nil)), Cons(Block(pc, 10), Cons(Block(10, 12), Nil)),
          items, operands, ns, [])
  }

  function AfterScope(pc: nat, items: List<Item>, operands: seq<Operand>, ns: Space): State {
    State(Cons(Context(LEAKING, 1, Some(NewInvocation([]))), Nil), Cons(Block(pc, 12), Nil), items, operands, ns, [])
  }

  function LeakedSpace(): Space {
    Install(LeakingSpace(), 0, LEFT_BEHIND, NameObject(Integer(0))).value
  }

  lemma ScopeHeader()
    ensures ReadPackageLength(LEAKING, 1, 12) == Ok((9, 2)) && ParseName(LEAKING, 2) == Ok((AmlName(true, 0, []), 4))
    ensures DoResolve(LeakingSpace(), 1, AmlName(true, 0, [])) == Ok(Some(0))
  {
    assert RootOf(LeakingSpace(), 0) == 0;
  }

  lemma EnterScope()
    ensures Process(Start(LeakingSpace(), 1, LEAKING, 12, [], []))
         == Ok(InScope(4, Cons(Populate, Cons(MethodItem(true), Nil)), [], LeakingSpace()))
  {
    hide ReadPackageLength, ParseName, DoResolve, LeakingSpace;
    ScopeHeader();
  }

  lemma ReadLeftBehind()
    ensures ParseName(LEAKING, 5) == Ok((AmlName(false, 0, [LEFT_BEHIND]), 9))
  {
    assert LEAKING[5..9] == LEFT_BEHIND;
    assert ReadSegments(LEAKING, 9, 0) == Ok([]);
    assert [LEFT_BEHIND] + [] == [LEFT_BEHIND];
  }

  lemma BeginName()
    ensures var items := Cons(Populate, Cons(MethodItem(true), Nil));
            Process(InScope(4, items, [], LeakingSpace()))
            == Ok(InScope(5, Cons(NodeItem(0, NAME_OP), items), [], LeakingSpace()))
  {
    hide ParseName, DoResolve, LeakingSpace;
  }

  lemma ReadName()
    ensures var items := Cons(NodeItem(0, NAME_OP), Cons(Populate, Cons(MethodItem(true), Nil)));
            Process(InScope(5, items, [], LeakingSpace()))
            == Ok(InScope(9, items, [UnresolvedName(AmlName(false, 0, [LEFT_BEHIND]))], LeakingSpace()))
  {
    ReadLeftBehind();
    var name := UnresolvedName(AmlName(false, 0, [LEFT_BEHIND]));
    assert [] + [name] == [name];
  }

  lemma ReadZero()
    ensures var items := Cons(NodeItem(0, NAME_OP), Cons(Populate, Cons(MethodItem(true), Nil)));
            var name := UnresolvedName(AmlName(false, 0, [LEFT_BEHIND]));
            Process(InScope(9, items, [name], LeakingSpace()))
            == Ok(InScope(10, items, [name, Value(Integer(0))], LeakingSpace()))
  {
    var name := UnresolvedName(AmlName(false, 0, [LEFT_BEHIND]));
    assert [name] + [Value(Integer(0))] == [name, Value(Integer(0))];
  }

  lemma InstallLeft()
    ensures var items := Cons(Populate, Cons(MethodItem(true), Nil));
            var operands := [UnresolvedName(AmlName(false, 0, [LEFT_BEHIND])), Value(Integer(0))];
            Process(InScope(10, Cons(NodeItem(0, NAME_OP), items), operands, LeakingSpace()))
            == Ok(InScope(10, items, [], LeakedSpace()))
  {
    hide Parse;
    assert DoResolveNew(LeakingSpace(), 0, AmlName(false, 0, [LEFT_BEHIND])) == Ok((0, LEFT_BEHIND));
  }

  lemma LeaveScope()
    ensures var items := Cons(MethodItem(true), Nil);
            Process(InScope(10, Cons(Populate, items), [], LeakedSpace()))
            == Ok(AfterScope(10, items, [], LeakedSpace()))
  {
    hide Parse;
  }

  lemma BeginReturn()
    ensures var items := Cons(MethodItem(true), Nil);
            Process(AfterScope(10, items, [], LeakedSpace()))
            == Ok(AfterScope(11, Cons(ReturnItem(0), items), [], LeakedSpace()))
  {
  }

  lemma ReadResult()
    ensures var items := Cons(ReturnItem(0), Cons(MethodItem(true), Nil));
            Process(AfterScope(11, items, [], LeakedSpace()))
            == Ok(AfterScope(12, items, [Value(Integer(0))], LeakedSpace()))
  {
    assert [] + [Value(Integer(0))] == [Value(Integer(0))];
  }

  lemma EndReturn()
    ensures var items := Cons(ReturnItem(0), Cons(MethodItem(true), Nil));
            Process(AfterScope(12, items, [Value(Integer(0))], LeakedSpace()))
            == Ok(State(Nil, Nil, Nil, [Value(Integer(0))], LeakedSpace(), []))
  {
    hide Parse;
    assert UninstallAll(LeakedSpace(), []) == Ok(LeakedSpace());
    var result := Value(Integer(0));
    assert [result][..0] == [] && [] + [result] == [result];
  }

  /** The first four steps: the operands of Name() are complete. */
  lemma ReachesName()
    ensures var items := Cons(NodeItem(0, NAME_OP), Cons(Populate, Cons(MethodItem(true), Nil)));
            var operands := [UnresolvedName(AmlName(false, 0, [LEFT_BEHIND])), Value(Integer(0))];
            Run(Ok(Start(LeakingSpace(), 1, LEAKING, 12, [], [])), 4)
            == Ok(InScope(10, items, operands, LeakingSpace()))
  {
    hide Process, Run;
    var s, items := Start(LeakingSpace(), 1, LEAKING, 12, [], []), Cons(Populate, Cons(MethodItem(true), Nil));
    RunOne(s);
    EnterScope();
    RunNext(Ok(s), 1, InScope(4, items, [], LeakingSpace()));
    BeginName();
    items := Cons(NodeItem(0, NAME_OP), items);
    RunNext(Ok(s), 2, InScope(5, items, [], LeakingSpace()));
    ReadName();
    var name := UnresolvedName(AmlName(false, 0, [LEFT_BEHIND]));
    RunNext(Ok(s), 3, InScope(9, items, [name], LeakingSpace()));
    ReadZero();
  }

  /** The call returns zero, as it should, but the name it has declared in the scope of the root stays. */
  lemma LeakingMethod()
    ensures Run(Ok(Start(LeakingSpace(), 1, LEAKING, 12, [], [])), 9)
         == Ok(State(Nil, Nil, Nil, [Value(Integer(0))], LeakedSpace(), []))
    ensures GetChild(LeakingSpace(), 0, LEFT_BEHIND) == None && GetChild(LeakedSpace(), 0, LEFT_BEHIND) == Some(2)
    ensures Calls.LeaksWithin(Start(LeakingSpace(), 1, LEAKING, 12, [], []), 9)
  {
    hide Process, Run;
    var s, items := Start(LeakingSpace(), 1, LEAKING, 12, [], []), Cons(MethodItem(true), Nil);
    ReachesName();
    var declaring := Run(Ok(s), 4).value;
    InstallLeft();
    assert Calls.Leaks(declaring);
    RunNext(Ok(s), 4, declaring);
    LeaveScope();
    RunNext(Ok(s), 5, InScope(10, Cons(Populate, items), [], LeakedSpace()));
    BeginReturn();
    RunNext(Ok(s), 6, AfterScope(10, items, [], LeakedSpace()));
    ReadResult();
    RunNext(Ok(s), 7, AfterScope(11, Cons(ReturnItem(0), items), [], LeakedSpace()));
    EndReturn();
    RunNext(Ok(s), 8, AfterScope(12, Cons(ReturnItem(0), items), [Value(Integer(0))], LeakedSpace()));
  }
}
