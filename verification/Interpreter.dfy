/** The interpreter of `core/exec.c` as it is written: an object with four growable stacks that its
    methods push, pop and update in place. Every method is proved to do what the transition function of
    `Machine` says, so that all results about `Process` and `Run` are results about this object; and
    every push is proved to find the room that the code asserts. */
module Interpreters {
  import opened Bits
  import opened Outcomes
  import opened Names
  import opened Namespace
  import opened Opcodes
  import opened Operators
  import opened Machine
  import opened Stacks
  import Resolution

  /** A stack as the transition function sees it, its last item first. */
  ghost function ToList<T>(s: seq<T>): List<T> {
    if s == [] then Nil else Cons(s[|s| - 1], ToList(s[..|s| - 1]))
  }

  lemma ToListPush<T>(s: seq<T>, x: T)
    ensures ToList(s + [x]) == Cons(x, ToList(s))
  {
    assert (s + [x])[..|s|] == s;
  }

  lemma StepsRemain(s: State, left: nat)
    requires s.items.Cons? && Halted(Run(Ok(s), left))
    ensures left > 0 && Run(Ok(s), left) == Run(Process(s), left - 1)
  {
    hide Process;
  }

  /** Context `i` once the first `done` of the variables, counted from the top, are in place. */
  ghost predicate BoundAt(was: seq<Context>, now: seq<Context>, variables: seq<Variables>, done: nat, i: nat)
    requires |now| == |was| && i < |was|
  {
    var j := |was| - 1 - i;
    now[i] == if j < done && j < |variables| then RebindOne(was[i], variables[j]) else was[i]
  }

  ghost predicate Bound(was: seq<Context>, now: seq<Context>, variables: seq<Variables>, done: nat) {
    |now| == |was| && forall i: nat :: i < |was| ==> BoundAt(was, now, variables, done, i)
  }

  /** Rebinding one context after the other, from the top down. */
  lemma {:induction false} RebindInPlace(was: seq<Context>, now: seq<Context>, variables: seq<Variables>, done: nat)
    requires Bound(was, now, variables, done) && (done >= |was| || done >= |variables|)
    ensures ToList(now) == Rebind(ToList(was), variables)
    decreases |was|
  {
    if was != [] {
      var n := |was| - 1;
      assert BoundAt(was, now, variables, done, n);
      if variables == [] {
        forall i: nat | i < |was| ensures now[i] == was[i] { assert BoundAt(was, now, variables, done, i); }
        assert now == was;
      } else {
        var left: nat, was', now', variables' := done - 1, was[..n], now[..n], variables[1..];
        forall i: nat | i < n ensures BoundAt(was', now', variables', left, i) {
          assert BoundAt(was, now, variables, done, i);
        }
        RebindInPlace(was', now', variables', left);
      }
    }
  }

  lemma NothingBound(was: seq<Context>, variables: seq<Variables>)
    ensures Bound(was, was, variables, 0)
  {
  }

  lemma NextBound(was: seq<Context>, now: seq<Context>, variables: seq<Variables>, done: nat)
    requires Bound(was, now, variables, done) && done < |was| && done < |variables|
    ensures var k := |was| - 1 - done; Bound(was, now[k := RebindOne(now[k], variables[done])], variables, done + 1)
  {
    var k := |was| - 1 - done;
    var after, next := now[k := RebindOne(now[k], variables[done])], done + 1;
    assert BoundAt(was, now, variables, done, k);
    forall i: nat | i < |was| ensures BoundAt(was, after, variables, next, i) {
      assert BoundAt(was, now, variables, done, i);
    }
  }

  lemma InitializerKeeps(s: State)
    requires s.items.Cons? && s.items.head.PackageItem?
    ensures var r := StoreInitializer(s);
            r.Ok? ==> r.value.contexts == s.contexts && r.value.blocks == s.blocks && r.value.items.Cons?
  {
  }

  const SMALL_CTXSTACK := 8
  const SMALL_BLKSTACK := 8
  const SMALL_STACK := 16
  const SMALL_OPSTACK := 16

  /** How many pushes each stack has room for. */
  datatype Room = Room(contexts: nat, blocks: nat, items: nat, operands: nat)

  /** `lai_state_t`, with the namespace it works on and the replies to come. */
  class Interpreter {
    const contexts: Stack<Context>
    const blocks: Stack<Block>
    const items: Stack<Item>
    const operands: OperandStack<Operand>
    var ns: Space
    var replies: seq<Reply>
    ghost var Repr: set<object>

    ghost function Footprint(): set<object>
      reads this, contexts, blocks, items, operands
    {
      {this, contexts, contexts.base, blocks, blocks.base, items, items.base, operands, operands.base}
    }

    ghost predicate Valid()
      reads this, Repr, contexts, blocks, items, operands
      ensures Valid() ==> {this, contexts, blocks, items, operands} <= Repr
    {
      && Repr == Footprint()
      && contexts.Valid() && blocks.Valid() && items.Valid() && operands.Valid()
    }

    ghost function Current(): State
      requires Valid()
      reads this, Repr
    {
      State(ToList(contexts.Contents()), ToList(blocks.Contents()), ToList(items.Contents()), operands.Contents(),
            ns, replies)
    }

    ghost function Free(): Room
      requires Valid()
      reads this, Repr
    {
      Room(contexts.base.Length - contexts.top - 1, blocks.base.Length - blocks.top - 1,
           items.base.Length - items.top - 1, operands.base.Length - operands.count)
    }

    /** The object is where the specification wants it; after a fault its state means nothing. */
    ghost predicate Reached(want: Res<State>, r: Res<()>)
      requires Valid()
      reads this, Repr
    {
      match want
      case Ok(s) => r == Ok(()) && Current() == s
      case Fail(f) => r == Fail(f)
    }

    /** `lai_init_state`. */
    constructor (space: Space, answers: seq<Reply>)
      ensures Valid() && fresh(Repr) && Current() == State(Nil, Nil, Nil, [], space, answers)
    {
      var c := new Stack(SMALL_CTXSTACK, Context([], 0, None));
      var b := new Stack(SMALL_BLKSTACK, Block(0, 0));
      var i := new Stack(SMALL_STACK, Populate);
      var o := new OperandStack(SMALL_OPSTACK, NullName);
      contexts, blocks, items, operands := c, b, i, o;
      ns, replies := space, answers;
      Repr := {this, c, c.base, b, b.base, i, i.base, o, o.base};
    }

    // ------------------------------------------------------------------------------------
    // Looking at the stacks.
    // ------------------------------------------------------------------------------------

    predicate HasContext()
      requires Valid()
      reads this, Repr
      ensures HasContext() == Current().contexts.Cons?
    {
      contexts.top >= 0
    }

    predicate HasBlock()
      requires Valid()
      reads this, Repr
      ensures HasBlock() == Current().blocks.Cons?
    {
      blocks.top >= 0
    }

    predicate HasItem()
      requires Valid()
      reads this, Repr
      ensures HasItem() == Current().items.Cons?
    {
      items.top >= 0
    }

    function TopContext(): (c: Context)
      requires Valid() && Current().contexts.Cons?
      reads this, Repr
      ensures c == Current().contexts.head
    {
      contexts.base[contexts.top]
    }

    function TopBlock(): (b: Block)
      requires Valid() && Current().blocks.Cons?
      reads this, Repr
      ensures b == Current().blocks.head
    {
      blocks.base[blocks.top]
    }

    function TopItem(): (item: Item)
      requires Valid() && Current().items.Cons?
      reads this, Repr
      ensures item == Current().items.head
    {
      items.base[items.top]
    }

    function Height(): (h: nat)
      requires Valid()
      reads this, Repr
      ensures h == |Current().operands|
    {
      operands.count
    }

    function OperandAt(n: nat): (o: Operand)
      requires Valid() && n < |Current().operands|
      reads this, Repr
      ensures o == Current().operands[n]
    {
      operands.base[n]
    }

    function OperandsFrom(n: nat): (os: seq<Operand>)
      requires Valid() && n <= |Current().operands|
      reads this, Repr
      ensures os == Current().operands[n..]
    {
      operands.base[n..operands.count]
    }

    function Names(): (space: Space)
      requires Valid()
      reads this, Repr
      ensures space == Current().ns
    {
      ns
    }

    function Answers(): (answers: seq<Reply>)
      requires Valid()
      reads this, Repr
      ensures answers == Current().replies
    {
      replies
    }

    // ------------------------------------------------------------------------------------
    // Pushing and popping. What the code asserts about the capacity is required here.
    // ------------------------------------------------------------------------------------

    method ReserveContext()
      requires Valid()
      modifies Repr
      ensures Valid() && fresh(Repr - old(Repr)) && Current() == old(Current())
      ensures Free() == old(Free()).(contexts := Free().contexts) && Free().contexts > 0
    {
      contexts.Reserve();
      Repr := Footprint();
    }

    method ReserveBlock()
      requires Valid()
      modifies Repr
      ensures Valid() && fresh(Repr - old(Repr)) && Current() == old(Current())
      ensures Free() == old(Free()).(blocks := Free().blocks) && Free().blocks > 0
    {
      blocks.Reserve();
      Repr := Footprint();
    }

    method ReserveItem()
      requires Valid()
      modifies Repr
      ensures Valid() && fresh(Repr - old(Repr)) && Current() == old(Current())
      ensures Free() == old(Free()).(items := Free().items) && Free().items > 0
    {
      items.Reserve();
      Repr := Footprint();
    }

    method ReserveOperand()
      requires Valid()
      modifies Repr
      ensures Valid() && fresh(Repr - old(Repr)) && Current() == old(Current())
      ensures Free() == old(Free()).(operands := Free().operands) && Free().operands > 0
    {
      operands.Reserve();
      Repr := Footprint();
    }

    /** Room for something with a block of its own. */
    method ReserveBranch()
      requires Valid()
      modifies Repr
      ensures Valid() && fresh(Repr - old(Repr)) && Current() == old(Current())
      ensures Free().blocks > 0 && Free().items > 0
      ensures Free() == old(Free()).(blocks := Free().blocks, items := Free().items)
    {
      hide Valid, Current, Free;
      ReserveBlock();
      ReserveItem();
    }

    /** Room for something with a context and a block of its own. */
    method ReserveBody()
      requires Valid()
      modifies Repr
      ensures Valid() && fresh(Repr - old(Repr)) && Current() == old(Current())
      ensures Free().contexts > 0 && Free().blocks > 0 && Free().items > 0
    {
      hide Valid, Current, Free;
      ReserveContext();
      ReserveBranch();
    }

    method EnterContext(c: Context)
      requires Valid() && Free().contexts > 0
      modifies Repr
      ensures Valid() && fresh(Repr - old(Repr)) && Current() == PushContext(old(Current()), c)
      ensures Free() == old(Free()).(contexts := old(Free()).contexts - 1)
    {
      ToListPush(contexts.Contents(), c);
      contexts.Push(c);
    }

    method EnterBlock(b: Block)
      requires Valid() && Free().blocks > 0
      modifies Repr
      ensures Valid() && fresh(Repr - old(Repr)) && Current() == PushBlock(old(Current()), b.pc, b.limit)
      ensures Free() == old(Free()).(blocks := old(Free()).blocks - 1)
    {
      ToListPush(blocks.Contents(), b);
      blocks.Push(b);
    }

    method Push(item: Item)
      requires Valid() && Free().items > 0
      modifies Repr
      ensures Valid() && fresh(Repr - old(Repr)) && Current() == PushItem(old(Current()), item)
      ensures Free() == old(Free()).(items := old(Free()).items - 1)
    {
      ToListPush(items.Contents(), item);
      items.Push(item);
    }

    method PushResult(o: Operand)
      requires Valid() && Free().operands > 0
      modifies Repr
      ensures Valid() && fresh(Repr - old(Repr)) && Current() == PushOperand(old(Current()), o)
      ensures Free() == old(Free()).(operands := old(Free()).operands - 1)
    {
      operands.Push(o);
    }

    method CutContext()
      requires Valid() && Current().contexts.Cons?
      modifies Repr
      ensures Valid() && fresh(Repr - old(Repr))
      ensures Current() == old(Current()).(contexts := old(Current()).contexts.tail)
      ensures Free() == old(Free()).(contexts := old(Free()).contexts + 1)
    {
      contexts.Pop();
    }

    method DropBlock() returns (r: Res<()>)
      requires Valid()
      modifies Repr
      ensures Valid() && fresh(Repr - old(Repr)) && Reached(PopBlock(old(Current())), r)
      ensures r.Ok? ==> Free() == old(Free()).(blocks := old(Free()).blocks + 1)
    {
      if blocks.top < 0 { return Fail(Internal); }
      CutBlock();
      return Ok(());
    }

    method CutBlock()
      requires Valid() && Current().blocks.Cons?
      modifies Repr
      ensures Valid() && fresh(Repr - old(Repr)) && Current() == old(Current()).(blocks := old(Current()).blocks.tail)
      ensures Free() == old(Free()).(blocks := old(Free()).blocks + 1)
    {
      blocks.Pop();
    }

    method DropItem() returns (r: Res<()>)
      requires Valid()
      modifies Repr
      ensures Valid() && fresh(Repr - old(Repr)) && Reached(PopItem(old(Current())), r)
      ensures r.Ok? ==> Free() == old(Free()).(items := old(Free()).items + 1)
    {
      if items.top < 0 { return Fail(Internal); }
      CutItem();
      return Ok(());
    }

    method CutItem()
      requires Valid() && Current().items.Cons?
      modifies Repr
      ensures Valid() && fresh(Repr - old(Repr)) && Current() == old(Current()).(items := old(Current()).items.tail)
      ensures Free() == old(Free()).(items := old(Free()).items + 1)
    {
      items.Pop();
    }

    /** The operands from `n` on are dropped. */
    method DropOperands(n: nat)
      requires Valid() && n <= |Current().operands|
      modifies Repr
      ensures Valid() && fresh(Repr - old(Repr))
      ensures Current() == old(Current()).(operands := old(Current()).operands[..n])
      ensures Free() == old(Free()).(operands := old(Free()).operands + |old(Current()).operands| - n)
    {
      operands.Pop(operands.count - n);
    }

    /** `lai_exec_commit_pc`. */
    method Commit(pc: nat)
      requires Valid() && Current().blocks.Cons?
      modifies Repr
      ensures Valid() && fresh(Repr - old(Repr)) && Current() == CommitPc(old(Current()), pc) && Free() == old(Free())
    {
      SetBlock(TopBlock().(pc := pc));
    }

    method SetBlock(b: Block)
      requires Valid() && Current().blocks.Cons?
      modifies Repr
      ensures Valid() && fresh(Repr - old(Repr)) && Free() == old(Free())
      ensures Current() == old(Current()).(blocks := Cons(b, old(Current()).blocks.tail))
    {
      ghost var below := blocks.Contents()[..|blocks.Contents()| - 1];
      ToListPush(below, b);
      blocks.Update(b);
    }

    method SetItem(item: Item)
      requires Valid() && Current().items.Cons?
      modifies Repr
      ensures Valid() && fresh(Repr - old(Repr)) && Free() == old(Free())
      ensures Current() == SetTop(old(Current()), item)
    {
      ghost var below := items.Contents()[..|items.Contents()| - 1];
      ToListPush(below, item);
      items.Update(item);
    }

    method SetInvocation(invocation: Option<Invocation>)
      requires Valid() && Current().contexts.Cons?
      modifies Repr
      ensures Valid() && fresh(Repr - old(Repr)) && Free() == old(Free())
      ensures Current() == WithEnv(old(Current()), Env(invocation, old(Current()).ns))
    {
      ghost var below := contexts.Contents()[..|contexts.Contents()| - 1];
      var c := contexts.base[contexts.top].(invocation := invocation);
      ToListPush(below, c);
      contexts.Update(c);
    }

    method SetSpace(space: Space)
      requires Valid()
      modifies Repr
      ensures Valid() && fresh(Repr - old(Repr)) && Free() == old(Free())
      ensures Current() == old(Current()).(ns := space)
    {
      ns := space;
    }

    // ------------------------------------------------------------------------------------
    // Replies, reductions and nodes.
    // ------------------------------------------------------------------------------------

    /** The new values of the variables of all calls in progress. */
    method RebindAll(variables: seq<Variables>)
      requires Valid()
      modifies Repr
      ensures Valid() && fresh(Repr - old(Repr)) && Free() == old(Free())
      ensures Current() == old(Current()).(contexts := Rebind(old(Current()).contexts, variables))
    {
      hide ToList, BoundAt, Rebind, RebindOne;
      ghost var was := contexts.Contents();
      var i := 0;
      NothingBound(was, variables);
      while i < |variables| && i <= contexts.top
        invariant i <= |variables| && Valid() && Repr == old(Repr)
        invariant contexts.top == |was| - 1 && contexts.base == old(contexts.base)
        invariant Bound(was, contexts.Contents(), variables, i)
        invariant blocks.Contents() == old(blocks.Contents()) && items.Contents() == old(items.Contents())
        invariant operands.Contents() == old(operands.Contents()) && ns == old(ns) && replies == old(replies)
        invariant Free() == old(Free())
      {
        ghost var now := contexts.Contents();
        var k := contexts.top - i;
        NextBound(was, now, variables, i);
        contexts.base[k] := RebindOne(contexts.base[k], variables[i]);
        assert contexts.Contents() == now[k := RebindOne(now[k], variables[i])];
        i := i + 1;
      }
      RebindInPlace(was, contexts.Contents(), variables, i);
    }

    /** What the model does not compute: the next reply. */
    method Ask() returns (r: Res<Object>)
      requires Valid()
      modifies Repr
      ensures Valid() && fresh(Repr - old(Repr)) && Answer(Answered(old(Current())), r)
      ensures r.Ok? ==> Free() == old(Free())
    {
      hide Valid, Current, Free, Rebind;
      var answers := Answers();
      if answers == [] { return Fail(Panic); }
      if answers[0].Refused? { return Fail(answers[0].fault); }
      RebindAll(answers[0].variables);
      SetSpace(Refill(Names(), answers[0].contents));
      SetAnswers(answers[1..]);
      return Ok(answers[0].result);
    }

    method SetAnswers(answers: seq<Reply>)
      requires Valid()
      modifies Repr
      ensures Valid() && fresh(Repr - old(Repr)) && Free() == old(Free())
      ensures Current() == old(Current()).(replies := answers)
    {
      replies := answers;
    }

    /** The same for a step that has a result. */
    ghost predicate Answer(want: Res<(Object, State)>, r: Res<Object>)
      requires Valid()
      reads this, Repr
    {
      match want
      case Ok((v, s)) => r == Ok(v) && Current() == s
      case Fail(f) => r == Fail(f)
    }

    method AskUnless(known: Res<Object>) returns (r: Res<Object>)
      requires Valid()
      modifies Repr
      ensures Valid() && fresh(Repr - old(Repr)) && Answer(OrAnswered(old(Current()), known), r)
      ensures r.Ok? ==> Free() == old(Free())
    {
      hide Valid, Current, Free, Answered;
      if known == Fail(Unknown) { r := Ask(); } else { r := known; }
    }

    /** `lai_exec_reduce_op`. */
    method Reduce(opcode: nat, args: seq<Operand>) returns (r: Res<Object>)
      requires Valid() && Ready(Current()) && HasOperands(opcode) && |args| == OperandCount(opcode)
      modifies Repr
      ensures Valid() && fresh(Repr - old(Repr)) && Answer(Reduction(old(Current()), opcode, args), r)
      ensures r.Ok? ==> Free() == old(Free())
    {
      hide Valid, Current, Free, Answered, ReduceOp;
      if !IsOperator(opcode) { r := Ask(); return; }
      match ReduceOp(opcode, Env(TopContext().invocation, Names()), args) {
        case Ok((v, env)) =>
          SetInvocation(env.invocation);
          SetSpace(env.ns);
          r := Ok(v);
        case Fail(fault) =>
          if fault == Unknown { r := Ask(); } else { r := Fail(fault); }
      }
    }

    /** Installs a new node and links it to the per-method list. */
    method AddNode(parent: nat, name: Segment, kind: Kind) returns (r: Res<()>)
      requires Valid() && Current().contexts.Cons?
      modifies Repr
      ensures Valid() && fresh(Repr - old(Repr)) && Free() == old(Free())
      ensures Reached(InstallNode(old(Current()), (parent, name), kind), r)
      ensures r.Fail? ==> Current() == old(Current())
    {
      hide Valid, Current, Free;
      var node, invocation := Names().next, TopContext().invocation;
      var space :- Install(Names(), parent, name, kind);
      SetSpace(space);
      SetInvocation(RecordCreated(invocation, node));
      return Ok(());
    }

    method NewNode(name: AmlName, kind: Kind) returns (r: Res<()>)
      requires Valid() && Current().contexts.Cons?
      modifies Repr
      ensures Valid() && fresh(Repr - old(Repr)) && Free() == old(Free())
      ensures Reached(CreateNode(old(Current()), name, kind), r)
    {
      hide Valid, Current, Free, DoResolveNew, InstallNode;
      var place :- Resolution.ResolveNew(Names(), TopContext().handle, name);
      r := AddNode(place.0, place.1, kind);
    }

    // ------------------------------------------------------------------------------------
    // Leaving loops and methods.
    // ------------------------------------------------------------------------------------

    method Break() returns (r: Res<()>)
      requires Valid()
      modifies Repr
      ensures Valid() && fresh(Repr - old(Repr)) && Reached(BreakLoop(old(Current())), r)
    {
      hide Valid, Current, Free;
      while HasItem() && TopItem().CondItem?
        invariant Valid() && fresh(Repr - old(Repr)) && BreakLoop(Current()) == BreakLoop(old(Current()))
        decreases Current().items
      {
        var _ :- DropBlock();
        CutItem();
      }
      if !HasItem() || !TopItem().LoopItem? { return Fail(Panic); }
      var _ :- DropBlock();
      r := DropItem();
    }

    method Continue() returns (r: Res<()>)
      requires Valid()
      modifies Repr
      ensures Valid() && fresh(Repr - old(Repr)) && Reached(ContinueLoop(old(Current())), r)
    {
      hide Valid, Current, Free;
      while HasItem() && TopItem().CondItem?
        invariant Valid() && fresh(Repr - old(Repr)) && ContinueLoop(Current()) == ContinueLoop(old(Current()))
        decreases Current().items
      {
        var _ :- DropBlock();
        CutItem();
      }
      if !HasItem() || !TopItem().LoopItem? { return Fail(Panic); }
      if !HasBlock() || TopBlock().limit < 0 { return Fail(Internal); }
      Commit(TopBlock().limit);
      return Ok(());
    }

    /** The end of a method: its nodes are uninstalled, its context, block and item are popped. */
    method Leave() returns (r: Res<()>)
      requires Valid()
      modifies Repr
      ensures Valid() && fresh(Repr - old(Repr)) && Reached(LeaveMethod(old(Current())), r)
    {
      hide Valid, Current, Free, UninstallAll;
      if !HasContext() || TopContext().invocation.None? { return Fail(Internal); }
      var space :- Resolution.RemoveAll(Names(), TopContext().invocation.value.created);
      SetSpace(space);
      CutContext();
      var _ :- DropBlock();
      r := DropItem();
    }

    /** The operand that Return() has consumed leaves room for the result. */
    method Return(v: Object) returns (r: Res<()>)
      requires Valid() && Free().operands > 0
      modifies Repr
      ensures Valid() && fresh(Repr - old(Repr)) && Reached(ReturnFrom(old(Current()), v), r)
    {
      hide Valid, Current, Free, LeaveMethod;
      while HasItem() && (TopItem().CondItem? || TopItem().LoopItem?)
        invariant Valid() && fresh(Repr - old(Repr)) && Free().operands > 0
        invariant ReturnFrom(Current(), v) == ReturnFrom(old(Current()), v)
        decreases Current().items
      {
        var _ :- DropBlock();
        CutItem();
      }
      if !HasItem() || !TopItem().MethodItem? { return Fail(Panic); }
      if TopItem().wantResult { PushResult(Value(v)); }
      r := Leave();
    }

    // ------------------------------------------------------------------------------------
    // lai_exec_parse.
    // ------------------------------------------------------------------------------------

    /** An item for what begins here. */
    method PushAt(pc: nat, item: Item)
      requires Valid() && Current().blocks.Cons?
      modifies Repr
      ensures Valid() && fresh(Repr - old(Repr)) && Current() == PushItem(CommitPc(old(Current()), pc), item)
    {
      hide Valid, Current, Free;
      ReserveItem();
      Commit(pc);
      Push(item);
    }

    /** An operand that ends here. */
    method PushResultAt(pc: nat, o: Operand)
      requires Valid() && Current().blocks.Cons?
      modifies Repr
      ensures Valid() && fresh(Repr - old(Repr)) && Current() == PushOperand(CommitPc(old(Current()), pc), o)
    {
      hide Valid, Current, Free;
      ReserveOperand();
      Commit(pc);
      PushResult(o);
    }

    /** Data that end here. */
    method ParseDatumAt(pc: nat, mode: Mode, v: Object) returns (r: Res<()>)
      requires Valid() && Current().blocks.Cons?
      modifies Repr
      ensures Valid() && fresh(Repr - old(Repr)) && Reached(ParseData(CommitPc(old(Current()), pc), mode, v), r)
    {
      hide Valid, Current, Free, ParseData;
      ReserveOperand();
      Commit(pc);
      r := ParseDatum(mode, v);
    }

    method ParseDatum(mode: Mode, v: Object) returns (r: Res<()>)
      requires Valid() && Free().operands > 0
      modifies Repr
      ensures Valid() && fresh(Repr - old(Repr)) && Reached(ParseData(old(Current()), mode, v), r)
    {
      hide Valid, Current, Free;
      if mode == ObjectMode || mode == DataMode {
        PushResult(Value(v));
      } else if mode != ExecMode {
        return Fail(Panic);
      }
      return Ok(());
    }

    method ParseSlot(mode: Mode, variable: Operand) returns (r: Res<()>)
      requires Valid() && Ready(Current()) && Free().operands > 0
      modifies Repr
      ensures Valid() && fresh(Repr - old(Repr)) && Reached(ParseVariable(old(Current()), mode, variable), r)
    {
      hide Valid, Current, Free, Load;
      if IsTargetMode(mode) {
        PushResult(variable);
      } else if mode == ObjectMode {
        var v :- Load(Env(TopContext().invocation, Names()), variable);
        PushResult(Value(v));
      } else {
        return Fail(Panic);
      }
      return Ok(());
    }

    method ParseNamed(mode: Mode, name: AmlName) returns (r: Res<()>)
      requires Valid() && Ready(Current()) && Free().operands > 0 && Free().items > 0
      modifies Repr
      ensures Valid() && fresh(Repr - old(Repr)) && Reached(ParseReference(old(Current()), mode, name), r)
    {
      hide Valid, Current, Free, DoResolve, Access, OrAnswered;
      if mode == UnresolvedMode {
        PushResult(UnresolvedName(name));
        return Ok(());
      }
      if mode == DataMode {
        PushResult(Value(Opaque(LazyForm, 0)));
        return Ok(());
      }
      var target :- Resolution.Resolve(Names(), TopContext().handle, name);
      if target.None? {
        if mode != OptionalReferenceMode { return Fail(Api(UnexpectedResult)); }
        PushResult(MissingName);
        return Ok(());
      }
      var n := target.value;
      if IsTargetMode(mode) {
        PushResult(ResolvedName(n));
        return Ok(());
      }
      var kind := KindOf(Names(), n);
      if kind.Some? && kind.value.Method? {
        Push(InvokeItem(Height(), kind.value.flags % 8, WantsResult(mode)));
        PushResult(ResolvedName(n));
      } else {
        var v :- AskUnless(Access(Names(), n));
        if WantsResult(mode) { PushResult(Value(v)); }
      }
      return Ok(());
    }

    method ParseConditional(opcodePc: nat) returns (r: Res<()>)
      requires Valid() && Ready(Current())
      modifies Repr
      ensures Valid() && fresh(Repr - old(Repr)) && Reached(ParseIf(old(Current()), opcodePc), r)
    {
      hide Valid, Current, Free, ReadPackageLength;
      var code, limit := TopContext().code, TopBlock().limit;
      var size :- ReadPackageLength(code, opcodePc + 1, limit);
      var ifLimit := opcodePc + 1 + size.0;
      var item := CondItem(Height(), false, false, 0, ifLimit + 1);
      var end := ifLimit;
      if ifLimit < limit {
        var lead :- ByteAt(code, ifLimit);
        if lead == ELSE_OP {
          var elseSize :- ReadPackageLength(code, ifLimit + 1, limit);
          end := ifLimit + 1 + elseSize.0;
          item := CondItem(Height(), false, true, elseSize.1, end);
        }
      }
      ReserveBranch();
      Commit(end);
      EnterBlock(Block(size.1, ifLimit));
      Push(item);
      return Ok(());
    }

    method ParseLoop(opcodePc: nat) returns (r: Res<()>)
      requires Valid() && Ready(Current())
      modifies Repr
      ensures Valid() && fresh(Repr - old(Repr)) && Reached(ParseWhile(old(Current()), opcodePc), r)
    {
      hide Valid, Current, Free, ReadPackageLength;
      var size :- ReadPackageLength(TopContext().code, opcodePc + 1, TopBlock().limit);
      var end := opcodePc + 1 + size.0;
      ReserveBranch();
      Commit(end);
      EnterBlock(Block(size.1, end));
      Push(LoopItem(Height(), false, size.1));
      return Ok(());
    }

    /** Pushes the context, block and item of a body that runs outside of any method. */
    method EnterBody(code: seq<byte>, n: nat, pc: nat, end: int)
      requires Valid() && Free().contexts > 0 && Free().blocks > 0 && Free().items > 0
      modifies Repr
      ensures Valid() && fresh(Repr - old(Repr))
      ensures Current() == PushItem(PushBlock(PushContext(old(Current()), Context(code, n, None)), pc, end), Populate)
    {
      hide Valid, Current, Free;
      EnterContext(Context(code, n, None));
      EnterBlock(Block(pc, end));
      Push(Populate);
    }

    method ParseScopeBody(opcodePc: nat) returns (r: Res<()>)
      requires Valid() && Ready(Current())
      modifies Repr
      ensures Valid() && fresh(Repr - old(Repr)) && Reached(ParseScope(old(Current()), opcodePc), r)
    {
      hide Valid, Current, Free, ReadPackageLength, ParseName, DoResolve;
      var code := TopContext().code;
      var size :- ReadPackageLength(code, opcodePc + 1, TopBlock().limit);
      var name :- Resolution.Parse(code, size.1);
      ReserveBody();
      var end := opcodePc + 1 + size.0;
      Commit(end);
      var target :- Resolution.Resolve(Names(), TopContext().handle, name.0);
      if target.None? { return Fail(Api(UnexpectedResult)); }
      EnterBody(code, target.value, name.1, end);
      return Ok(());
    }

    /** Device and its likes. */
    method ParseDeviceBody(opcode: nat, opcodePc: nat) returns (r: Res<()>)
      requires Valid() && Ready(Current())
      modifies Repr
      ensures Valid() && fresh(Repr - old(Repr)) && Reached(ParseDevice(old(Current()), opcode, opcodePc), r)
    {
      hide Valid, Current, Free, ReadPackageLength, ParseName, CreateNode, ReadHeader;
      var code, node := TopContext().code, Names().next;
      var size :- ReadPackageLength(code, opcodePc + 2, TopBlock().limit);
      var name :- Resolution.Parse(code, size.1);
      var header :- ReadHeader(code, opcode, name.1, TopBlock().limit);
      ReserveBody();
      var end := opcodePc + 2 + size.0;
      Commit(end);
      var _ :- NewNode(name.0, header.0);
      EnterBody(code, node, header.1, end);
      return Ok(());
    }

    method ParseMethodNode(opcodePc: nat) returns (r: Res<()>)
      requires Valid() && Ready(Current())
      modifies Repr
      ensures Valid() && fresh(Repr - old(Repr)) && Reached(ParseMethod(old(Current()), opcodePc), r)
    {
      hide Valid, Current, Free, ReadPackageLength, ParseName, CreateNode, ReadInteger;
      var code, limit := TopContext().code, TopBlock().limit;
      var size :- ReadPackageLength(code, opcodePc + 1, limit);
      var name :- Resolution.Parse(code, size.1);
      var flags :- ReadInteger(code, name.1, 1, limit);
      var end := opcodePc + 1 + size.0;
      Commit(end);
      r := NewNode(name.0, Method(flags.0 % 256, if flags.1 <= |code| then code[flags.1..] else [], end - flags.1));
    }

    method ParseAliasNode(opcodePc: nat) returns (r: Res<()>)
      requires Valid() && Ready(Current())
      modifies Repr
      ensures Valid() && fresh(Repr - old(Repr)) && Reached(ParseAlias(old(Current()), opcodePc), r)
    {
      hide Valid, Current, Free, ParseName, CreateNode, DoResolve;
      var target :- Resolution.Parse(TopContext().code, opcodePc + 1);
      var name :- Resolution.Parse(TopContext().code, target.1);
      var node :- Resolution.Resolve(Names(), TopContext().handle, target.0);
      if node.None? { return Fail(Panic); }
      Commit(name.1);
      r := NewNode(name.0, Alias(node.value));
    }

    /** Mutex and Event. */
    method ParseSyncNode(opcode: nat, pc: nat) returns (r: Res<()>)
      requires Valid() && Ready(Current())
      modifies Repr
      ensures Valid() && fresh(Repr - old(Repr)) && Reached(ParseSync(old(Current()), opcode, pc), r)
    {
      hide Valid, Current, Free, ParseName, CreateNode;
      var name :- Resolution.Parse(TopContext().code, pc);
      Commit(if opcode == MUTEX_OP then name.1 + 1 else name.1);
      r := NewNode(name.0, Other(if opcode == MUTEX_OP then Mutex else Event));
    }

    method ParseExternalName(pc: nat) returns (r: Res<()>)
      requires Valid() && Ready(Current())
      modifies Repr
      ensures Valid() && fresh(Repr - old(Repr)) && Reached(ParseExternal(old(Current()), pc), r)
    {
      hide Valid, Current, Free, ParseName, ReadInteger;
      var code, limit := TopContext().code, TopBlock().limit;
      var name :- Resolution.Parse(code, pc);
      var kind :- ReadInteger(code, name.1, 1, limit);
      var count :- ReadInteger(code, kind.1, 1, limit);
      Commit(count.1);
      return Ok(());
    }

    /** The region of a Field, or the index and the data field of an IndexField. */
    method ParseRegister(opcode: nat, pc: nat) returns (r: Res<(Register, nat)>)
      requires Valid() && Ready(Current())
      ensures r == ReadRegister(Current(), opcode, pc)
    {
      hide Valid, Current, Free, ParseName, DoResolve;
      var code, handle := TopContext().code, TopContext().handle;
      var name :- Resolution.Parse(code, pc);
      if opcode == FIELD_OP {
        var region :- Resolution.Resolve(Names(), handle, name.0);
        if region.None? { return Fail(Panic); }
        return Ok((InRegion(region.value), name.1));
      }
      var other :- Resolution.Parse(code, name.1);
      var index :- Resolution.Resolve(Names(), handle, name.0);
      var data :- Resolution.Resolve(Names(), handle, other.0);
      if index.None? || data.None? { return Fail(Panic); }
      return Ok((Indexed(index.value, data.value), other.1));
    }

    /** The loop over the FieldList of Field and IndexField. */
    method ParseFieldList(opcode: nat, opcodePc: nat) returns (r: Res<()>)
      requires Valid() && Ready(Current())
      modifies Repr
      ensures Valid() && fresh(Repr - old(Repr)) && Reached(ParseFields(old(Current()), opcode, opcodePc), r)
    {
      hide Valid, Current, Free, ReadPackageLength, ParseName, CreateNode, ReadRegister;
      var code, limit := TopContext().code, TopBlock().limit;
      var size :- ReadPackageLength(code, opcodePc + 2, limit);
      var register :- ParseRegister(opcode, size.1);
      var flags :- ByteAt(code, register.1);
      var offset, pc, end := 0, register.1 + 1, opcodePc + 2 + size.0;
      while pc < end
        invariant Valid() && fresh(Repr - old(Repr)) && Ready(Current())
        invariant InstallFields(Current(), code, register.0, flags, offset, pc, end, limit)
               == InstallFields(old(Current()), code, register.0, old(Current()).contexts.head.code[register.1], 0,
                                register.1 + 1, end, limit)
        decreases end - pc
      {
        var lead :- ByteAt(code, pc);
        if lead == 0 {
          var bits :- ReadPackageLength(code, pc + 1, limit);
          offset, pc := offset + bits.0, bits.1;
        } else if lead == 1 {
          flags :- ByteAt(code, pc + 1);
          pc := pc + 3;
        } else if lead == 2 {
          return Fail(Panic);
        } else {
          var name :- Resolution.Parse(code, pc);
          var bits :- ReadPackageLength(code, name.1, limit);
          var _ :- NewNode(name.0, FieldUnit(register.0, flags, offset, bits.0));
          offset, pc := offset + bits.0, bits.1;
        }
      }
      Commit(pc);
      return Ok(());
    }

    /** The search for the end of a string. */
    method ParseText(mode: Mode, begin: nat) returns (r: Res<()>)
      requires Valid() && Ready(Current())
      modifies Repr
      ensures Valid() && fresh(Repr - old(Repr)) && Reached(ParseString(old(Current()), mode, begin), r)
    {
      hide Valid, Current, Free, ParseData;
      var code, limit := TopContext().code, TopBlock().limit;
      var pc := begin;
      while pc < limit && (pc >= |code| || code[pc] != 0)
        invariant begin <= pc && StringEnd(code, pc, limit) == StringEnd(code, begin, limit)
        decreases limit - pc
      {
        if pc >= |code| { return Fail(Undefined); }
        pc := pc + 1;
      }
      if pc >= limit { return Fail(Panic); }
      r := ParseDatumAt(pc + 1, mode, Opaque(TextForm, pc - begin));
    }

    /** BufferOp and PackageOp. */
    method ParseInitializers(mode: Mode, opcode: nat, opcodePc: nat) returns (r: Res<()>)
      requires Valid() && Ready(Current())
      modifies Repr
      ensures Valid() && fresh(Repr - old(Repr))
      ensures Reached(ParseInitialized(old(Current()), mode, opcode, opcodePc), r)
    {
      hide Valid, Current, Free, ReadPackageLength;
      var size :- ReadPackageLength(TopContext().code, opcodePc + 1, TopBlock().limit);
      var end := opcodePc + 1 + size.0;
      if opcode == BUFFER_OP {
        ReserveBranch();
        Commit(end);
        EnterBlock(Block(size.1, end));
        Push(BufferItem(Height(), WantsResult(mode)));
      } else {
        EnterPackage(Block(size.1, end), WantsResult(mode));
      }
      return Ok(());
    }

    /** The block, the item and the package under construction. */
    method EnterPackage(block: Block, want: bool)
      requires Valid() && Ready(Current()) && block.limit >= 0
      modifies Repr
      ensures Valid() && fresh(Repr - old(Repr))
      ensures var next := PushBlock(CommitPc(old(Current()), block.limit), block.pc, block.limit);
              Current() == PushOperand(PushItem(next, PackageItem(|next.operands|, 0, 0, want)), Value(Uninit))
    {
      hide Valid, Current, Free;
      ReserveOperand();
      ReserveBranch();
      Commit(block.limit);
      EnterBlock(block);
      Push(PackageItem(Height(), 0, 0, want));
      PushResult(Value(Uninit));
    }

    method ParseClock(mode: Mode) returns (r: Res<()>)
      requires Valid() && Free().operands > 0
      modifies Repr
      ensures Valid() && fresh(Repr - old(Repr)) && Reached(ParseTimer(old(Current()), mode), r)
    {
      hide Valid, Current, Free, Answered;
      if mode == ObjectMode || mode == DataMode {
        var v :- Ask();
        PushResult(Value(v));
      } else if mode != ExecMode {
        return Fail(Panic);
      }
      return Ok(());
    }

    /** The opcodes of objects that are not integers. */
    method ParseObject(mode: Mode, opcode: nat, opcodePc: nat, pc: nat) returns (r: Res<()>)
      requires Valid() && Ready(Current())
      modifies Repr
      ensures Valid() && fresh(Repr - old(Repr))
      ensures Reached(ParseObjectOpcode(old(Current()), mode, opcode, opcodePc, pc), r)
    {
      hide Valid, Current, Free, ParseData, ParseTimer, ParseString, ParseInitialized;
      if opcode == REVISION_OP {
        r := ParseDatumAt(pc, mode, Integer(REVISION));
      } else if opcode == TIMER_OP {
        ReserveOperand();
        Commit(pc);
        r := ParseClock(mode);
      } else if opcode == DEBUG_OP {
        if !IsTargetMode(mode) { return Fail(Panic); }
        PushResultAt(pc, DebugName);
        r := Ok(());
      } else if opcode == STRINGPREFIX {
        r := ParseText(mode, pc);
      } else if opcode in {BUFFER_OP, PACKAGE_OP} {
        r := ParseInitializers(mode, opcode, opcodePc);
      } else if IsObjectOperator(opcode) {
        PushAt(pc, OpItem(Height(), opcode, WantsResult(mode)));
        r := Ok(());
      } else if IsNodeOpcode(opcode) {
        PushAt(pc, NodeItem(Height(), opcode));
        r := Ok(());
      } else {
        r := Fail(if opcode in {VARPACKAGE_OP, BANKFIELD_OP} then Unmodelled else Panic);
      }
    }

    /** What is neither a constant, a variable nor an operator on integers. */
    method ParseControl(mode: Mode, opcode: nat, opcodePc: nat, pc: nat) returns (r: Res<()>)
      requires Valid() && Ready(Current())
      requires !IsOperator(opcode) && opcode !in {NOP_OP, BREAKPOINT_OP, RETURN_OP, NAME_OP}
      requires opcode !in {ZERO_OP, ONE_OP, ONES_OP, BYTEPREFIX, WORDPREFIX, DWORDPREFIX, QWORDPREFIX}
      requires !(ARG0_OP <= opcode <= ARG6_OP) && !(LOCAL0_OP <= opcode <= LOCAL7_OP)
      modifies Repr
      ensures Valid() && fresh(Repr - old(Repr))
      ensures Reached(ParseOpcode(old(Current()), mode, opcode, opcodePc, pc), r)
    {
      hide Valid, Current, Free, ParseIf, ParseWhile, ParseScope, ParseDevice, ParseMethod, ParseAlias, BreakLoop,
        ContinueLoop, ParseSync, ParseExternal, ParseFields, ParseObjectOpcode, Reached;
      if opcode == IF_OP { r := ParseConditional(opcodePc); }
      else if opcode == ELSE_OP { r := Fail(Panic); NowhereReached(r); }
      else if opcode == WHILE_OP { r := ParseLoop(opcodePc); }
      else if opcode == BREAK_OP { r := Break(); }
      else if opcode == CONTINUE_OP { r := Continue(); }
      else if opcode == SCOPE_OP { r := ParseScopeBody(opcodePc); }
      else if HasBody(opcode) { r := ParseDeviceBody(opcode, opcodePc); }
      else if opcode == METHOD_OP { r := ParseMethodNode(opcodePc); }
      else if opcode == ALIAS_OP { r := ParseAliasNode(opcodePc); }
      else if opcode in {MUTEX_OP, EVENT_OP} { r := ParseSyncNode(opcode, pc); }
      else if opcode == EXTERNAL_OP { r := ParseExternalName(pc); }
      else if opcode in {FIELD_OP, INDEXFIELD_OP} { r := ParseFieldList(opcode, opcodePc); }
      else { r := ParseObject(mode, opcode, opcodePc, pc); }
    }

    lemma NowhereReached(r: Res<()>)
      requires Valid() && r.Fail?
      ensures Reached(Fail(r.fault), r)
    {
    }

    /** The big switch over opcodes. */
    method ParseTerm(mode: Mode, opcode: nat, opcodePc: nat, pc: nat) returns (r: Res<()>)
      requires Valid() && Ready(Current())
      modifies Repr
      ensures Valid() && fresh(Repr - old(Repr)) && Reached(ParseOpcode(old(Current()), mode, opcode, opcodePc, pc), r)
    {
      hide Valid, Current, Free, ReadInteger, ParseVariable, ParseData, ParseIf, ParseWhile, ParseScope, ParseDevice,
        ParseMethod, ParseAlias, BreakLoop, ContinueLoop, ParseSync, ParseExternal, ParseFields, ParseObjectOpcode;
      if opcode in {NOP_OP, BREAKPOINT_OP} {
        Commit(pc);
      } else if IsOperator(opcode) || opcode in {RETURN_OP, NAME_OP} {
        PushAt(pc, if opcode == RETURN_OP then ReturnItem(Height())
                   else if opcode == NAME_OP then NodeItem(Height(), NAME_OP)
                   else OpItem(Height(), opcode, WantsResult(mode)));
      } else if opcode in {ZERO_OP, ONE_OP, ONES_OP, BYTEPREFIX, WORDPREFIX, DWORDPREFIX, QWORDPREFIX} ||
                ARG0_OP <= opcode <= ARG6_OP || LOCAL0_OP <= opcode <= LOCAL7_OP {
        r := ParseAtom(mode, opcode, opcodePc, pc);
        return;
      } else {
        r := ParseControl(mode, opcode, opcodePc, pc);
        return;
      }
      return Ok(());
    }

    /** Constants and variables. */
    method ParseAtom(mode: Mode, opcode: nat, opcodePc: nat, pc: nat) returns (r: Res<()>)
      requires Valid() && Ready(Current())
      requires opcode in {ZERO_OP, ONE_OP, ONES_OP, BYTEPREFIX, WORDPREFIX, DWORDPREFIX, QWORDPREFIX} ||
               ARG0_OP <= opcode <= ARG6_OP || LOCAL0_OP <= opcode <= LOCAL7_OP
      modifies Repr
      ensures Valid() && fresh(Repr - old(Repr))
      ensures Reached(ParseOpcode(old(Current()), mode, opcode, opcodePc, pc), r)
    {
      hide Valid, Current, Free, ReadInteger, ParseVariable, ParseData;
      if opcode == ZERO_OP && IsTargetMode(mode) {
        PushResultAt(pc, NullName);
        r := Ok(());
      } else if opcode in {ZERO_OP, ONE_OP, ONES_OP} {
        var n := if opcode == ZERO_OP then 0 else if opcode == ONE_OP then 1 else TWO64 - 1;
        r := ParseDatumAt(pc, mode, Integer(n));
      } else if opcode in {BYTEPREFIX, WORDPREFIX, DWORDPREFIX, QWORDPREFIX} {
        var value :- ReadInteger(TopContext().code, pc, PrefixWidth(opcode), TopBlock().limit);
        r := ParseDatumAt(value.1, mode, Integer(Wrap(value.0)));
      } else {
        ReserveOperand();
        Commit(pc);
        r := ParseSlot(mode, if opcode >= ARG0_OP then ArgName(opcode - ARG0_OP) else LocalName(opcode - LOCAL0_OP));
      }
    }

    method ParseNumber(width: nat) returns (r: Res<()>)
      requires Valid() && Ready(Current())
      modifies Repr
      ensures Valid() && fresh(Repr - old(Repr)) && Reached(ParseImmediate(old(Current()), width), r)
    {
      hide Valid, Current, Free, ReadInteger;
      var value :- ReadInteger(TopContext().code, TopBlock().pc, width, TopBlock().limit);
      ReserveOperand();
      Commit(value.1);
      PushResult(Value(Integer(Wrap(value.0))));
      return Ok(());
    }

    /** `lai_exec_parse`. */
    method ParseNext(mode: Mode) returns (r: Res<()>)
      requires Valid()
      modifies Repr
      ensures Valid() && fresh(Repr - old(Repr)) && Reached(Parse(old(Current()), mode), r)
    {
      hide Valid, Current, Free, ParseOpcode, ParseReference, ParseName, ParseImmediate;
      if !HasContext() || !HasBlock() { return Fail(Internal); }
      var code, pc, limit := TopContext().code, TopBlock().pc, TopBlock().limit;
      if pc >= limit { return Fail(Panic); }
      if mode.ImmediateMode? { r := ParseNumber(mode.width); return; }
      var lead :- ByteAt(code, pc);
      if IsName(lead) {
        var name :- Resolution.Parse(code, pc);
        ReserveOperand();
        ReserveItem();
        Commit(name.1);
        r := ParseNamed(mode, name.0);
      } else if lead == EXTOP_PREFIX {
        if pc + 1 == limit { return Fail(Panic); }
        var second :- ByteAt(code, pc + 1);
        r := ParseTerm(mode, 256 * EXTOP_PREFIX + second, pc, pc + 2);
      } else {
        r := ParseTerm(mode, lead, pc, pc + 1);
      }
    }

    // ------------------------------------------------------------------------------------
    // lai_exec_process, one item kind at a time.
    // ------------------------------------------------------------------------------------

    /** Pops the block and the item of something that has ended. */
    method LeaveBranch() returns (r: Res<()>)
      requires Valid()
      modifies Repr
      ensures Valid() && fresh(Repr - old(Repr)) && Reached(LeaveBlock(old(Current())), r)
    {
      hide Valid, Current, Free;
      var _ :- DropBlock();
      r := DropItem();
    }

    method StepPopulate() returns (r: Res<()>)
      requires Valid() && Ready(Current()) && Current().items.Cons? && Current().items.head.Populate?
      requires Current().blocks.head.pc <= Current().blocks.head.limit
      modifies Repr
      ensures Valid() && fresh(Repr - old(Repr)) && Reached(Process(old(Current())), r)
    {
      hide Valid, Current, Free, Parse;
      if TopBlock().pc == TopBlock().limit {
        CutBlock();
        CutContext();
        CutItem();
        r := Ok(());
      } else {
        r := ParseNext(ExecMode);
      }
    }

    method StepMethod() returns (r: Res<()>)
      requires Valid() && Ready(Current()) && Current().items.Cons? && Current().items.head.MethodItem?
      requires Current().blocks.head.pc <= Current().blocks.head.limit
      modifies Repr
      ensures Valid() && fresh(Repr - old(Repr)) && Reached(Process(old(Current())), r)
    {
      hide Valid, Current, Free, Parse, LeaveMethod;
      if TopBlock().pc == TopBlock().limit {
        ReserveOperand();
        if Height() > 0 { return Fail(Panic); }
        if TopItem().wantResult { PushResult(Value(Integer(0))); }
        r := Leave();
      } else {
        r := ParseNext(ExecMode);
      }
    }

    method StepLoop() returns (r: Res<()>)
      requires Valid() && Ready(Current()) && Current().items.Cons? && Current().items.head.LoopItem?
      modifies Repr
      ensures Valid() && fresh(Repr - old(Repr)) && Reached(ProcessLoop(old(Current())), r)
    {
      hide Valid, Current, Free, Parse;
      var LoopItem(frame, iterating, predicatePc) := TopItem();
      if iterating {
        if TopBlock().pc != TopBlock().limit { r := ParseNext(ExecMode); return; }
        Commit(predicatePc);
        SetItem(LoopItem(frame, false, predicatePc));
      } else {
        if Height() > frame + 1 { return Fail(Internal); }
        if Height() < frame + 1 { r := ParseNext(ObjectMode); return; }
        var n :- GetInteger(OperandAt(frame));
        DropOperands(frame);
        if n == 0 { r := LeaveBranch(); return; }
        SetItem(LoopItem(frame, true, predicatePc));
      }
      return Ok(());
    }

    method StepCond() returns (r: Res<()>)
      requires Valid() && Ready(Current()) && Current().items.Cons? && Current().items.head.CondItem?
      modifies Repr
      ensures Valid() && fresh(Repr - old(Repr)) && Reached(ProcessCond(old(Current())), r)
    {
      hide Valid, Current, Free, Parse;
      var item := TopItem();
      if item.inBranch {
        if TopBlock().pc == TopBlock().limit { r := LeaveBranch(); } else { r := ParseNext(ExecMode); }
        return;
      }
      if Height() > item.frame + 1 { return Fail(Internal); }
      if Height() < item.frame + 1 { r := ParseNext(ObjectMode); return; }
      var n :- GetInteger(OperandAt(item.frame));
      DropOperands(item.frame);
      if n == 0 {
        if !item.hasElse { r := LeaveBranch(); return; }
        SetBlock(Block(item.elsePc, item.elseLimit));
      }
      SetItem(item.(inBranch := true));
      return Ok(());
    }

    /** `lai_exec_reduce_node`; a duplicate name is ignored. */
    method ReduceNodeItem(opcode: nat, args: seq<Operand>) returns (r: Res<()>)
      requires Valid() && Ready(Current()) && IsNodeOpcode(opcode) && |args| == |NodeModes(opcode)|
      modifies Repr
      ensures Valid() && fresh(Repr - old(Repr)) && Reached(ReduceNode(old(Current()), opcode, args), r)
    {
      hide Valid, Current, Free, DoResolveNew, InstallNode, Load, OrAnswered, FieldPlace, RegionPlace;
      if opcode == NAME_OP {
        var v :- GetObject(args[1]);
        if !args[0].UnresolvedName? { return Fail(Panic); }
        var place :- Resolution.ResolveNew(Names(), TopContext().handle, args[0].name);
        var _ := AddNode(place.0, place.1, NameObject(v));
      } else if opcode == OPREGION_OP {
        var extent := RegionPlace(args);
        if extent.Fail? { return if extent.fault.Api? then Ok(()) else Fail(extent.fault); }
        if !args[0].UnresolvedName? || !(args[1].Value? && args[1].v.Integer?) { return Fail(Panic); }
        var place :- Resolution.ResolveNew(Names(), TopContext().handle, args[0].name);
        var _ := AddNode(place.0, place.1, Other(OpRegion));
      } else {
        r := ReduceBufferFieldItem(opcode, args);
        return;
      }
      return Ok(());
    }

    /** CreateField() and its short forms. */
    method ReduceBufferFieldItem(opcode: nat, args: seq<Operand>) returns (r: Res<()>)
      requires Valid() && Ready(Current()) && opcode != NAME_OP && IsNodeOpcode(opcode) && |args| == |NodeModes(opcode)|
      modifies Repr
      ensures Valid() && fresh(Repr - old(Repr)) && Reached(ReduceBufferField(old(Current()), opcode, args), r)
    {
      hide Valid, Current, Free, DoResolveNew, InstallNode, Load, OrAnswered, FieldPlace;
      var extent := FieldPlace(opcode, args);
      if extent.Fail? { return if extent.fault.Api? then Ok(()) else Fail(extent.fault); }
      var target := args[|args| - 1];
      if !target.UnresolvedName? { return Fail(Panic); }
      var place :- Resolution.ResolveNew(Names(), TopContext().handle, target.name);
      var buffer :- AskUnless(Load(Env(TopContext().invocation, Names()), args[0]));
      if !(buffer.Opaque? && buffer.form == BufferForm) { return Fail(Undefined); }
      var _ := AddNode(place.0, place.1, BufferField(extent.value.0, extent.value.1));
      return Ok(());
    }

    method StepNode() returns (r: Res<()>)
      requires Valid() && Ready(Current()) && Current().items.Cons? && Current().items.head.NodeItem?
      modifies Repr
      ensures Valid() && fresh(Repr - old(Repr)) && Reached(ProcessNode(old(Current())), r)
    {
      hide Valid, Current, Free, Parse, ReduceNode;
      var NodeItem(frame, opcode) := TopItem();
      if frame > Height() || !IsNodeOpcode(opcode) { return Fail(Internal); }
      var k := Height() - frame;
      if k > |NodeModes(opcode)| { return Fail(Internal); }
      if k < |NodeModes(opcode)| { r := ParseNext(NodeModes(opcode)[k]); return; }
      var _ :- ReduceNodeItem(opcode, OperandsFrom(frame));
      DropOperands(frame);
      r := DropItem();
    }

    /** The operands are dropped; the result takes their place if it is wanted. */
    method Finish(frame: nat, want: bool, v: Object)
      requires Valid() && frame <= |Current().operands| && (Free().operands > 0 || frame < |Current().operands|)
      modifies Repr
      ensures Valid() && fresh(Repr - old(Repr)) && Current() == FinishOperands(old(Current()), frame, want, v)
    {
      hide Valid, Current, Free;
      DropOperands(frame);
      if want { PushResult(Value(v)); }
    }

    method StepOp() returns (r: Res<()>)
      requires Valid() && Ready(Current()) && Current().items.Cons? && Current().items.head.OpItem?
      modifies Repr
      ensures Valid() && fresh(Repr - old(Repr)) && Reached(ProcessOp(old(Current())), r)
    {
      hide Valid, Current, Free, Parse, Reduction;
      var OpItem(frame, opcode, want) := TopItem();
      if frame > Height() || !HasOperands(opcode) { return Fail(Internal); }
      var k := Height() - frame;
      if k > OperandCount(opcode) { return Fail(Internal); }
      if k < OperandCount(opcode) { r := ParseNext(ModeOf(opcode, k)); return; }
      ReserveOperand();
      var v :- Reduce(opcode, OperandsFrom(frame));
      Finish(frame, want, v);
      r := DropItem();
    }

    /** Pushes the context, block and item of a method. */
    method Enter(n: nat, code: seq<byte>, size: int, args: seq<Object>, want: bool)
      requires Valid() && |args| <= 7 && Free().contexts > 0 && Free().blocks > 0 && Free().items > 0
      modifies Repr
      ensures Valid() && fresh(Repr - old(Repr)) && Current() == EnterMethod(old(Current()), n, code, size, args, want)
    {
      hide Valid, Current, Free;
      EnterContext(Context(code, n, Some(NewInvocation(args))));
      EnterBlock(Block(0, size));
      Push(MethodItem(want));
    }

    method StepInvoke() returns (r: Res<()>)
      requires Valid() && Ready(Current()) && Current().items.Cons? && Current().items.head.InvokeItem?
      modifies Repr
      ensures Valid() && fresh(Repr - old(Repr)) && Reached(ProcessInvoke(old(Current())), r)
    {
      hide Valid, Current, Free, Parse, Call;
      var InvokeItem(frame, argc, want) := TopItem();
      if Height() > frame + argc + 1 { return Fail(Internal); }
      if Height() < frame + argc + 1 { r := ParseNext(ObjectMode); return; }
      r := CallMethod(frame, want);
    }

    /** The item of the call leaves room for the item of the method. */
    method CallMethod(frame: nat, want: bool) returns (r: Res<()>)
      requires Valid() && Ready(Current()) && Current().items.Cons? && Current().items.head.InvokeItem?
      requires frame == Current().items.head.frame && want == Current().items.head.wantResult
      requires |Current().operands| == frame + 1 + Current().items.head.argc
      modifies Repr
      ensures Valid() && fresh(Repr - old(Repr)) && Reached(Call(old(Current())), r)
    {
      hide Valid, Current, Free, GetObjects, EnterMethod;
      ReserveContext();
      ReserveBlock();
      if !OperandAt(frame).ResolvedName? { return Fail(Internal); }
      var n := OperandAt(frame).node;
      var kind := KindOf(Names(), n);
      if kind.None? || !kind.value.Method? { return Fail(Internal); }
      var args :- Resolution.CollectObjects(OperandsFrom(frame + 1));
      if |args| > 7 { return Fail(Internal); }
      EnterCall(frame, n, kind.value.code, kind.value.size, args, want);
      return Ok(());
    }

    method EnterCall(frame: nat, n: nat, code: seq<byte>, size: int, args: seq<Object>, want: bool)
      requires Valid() && |args| <= 7 && Free().contexts > 0 && Free().blocks > 0
      requires frame <= |Current().operands| && Current().items.Cons?
      modifies Repr
      ensures Valid() && fresh(Repr - old(Repr))
      ensures var popped := old(Current()).(operands := old(Current()).operands[..frame],
                                            items := old(Current()).items.tail);
              Current() == EnterMethod(popped, n, code, size, args, want)
    {
      hide Valid, Current, Free, EnterMethod;
      DropOperands(frame);
      CutItem();
      Enter(n, code, size, args, want);
    }

    method StepReturn() returns (r: Res<()>)
      requires Valid() && Ready(Current()) && Current().items.Cons? && Current().items.head.ReturnItem?
      modifies Repr
      ensures Valid() && fresh(Repr - old(Repr)) && Reached(ProcessReturn(old(Current())), r)
    {
      hide Valid, Current, Free, Parse, ReturnFrom;
      var frame := TopItem().frame;
      if Height() > frame + 1 { return Fail(Internal); }
      if Height() < frame + 1 { r := ParseNext(ObjectMode); return; }
      var v :- GetObject(OperandAt(frame));
      DropOperands(frame);
      CutItem();
      r := Return(v);
    }

    method Fill(size: nat) returns (r: Res<Object>)
      requires Valid() && Ready(Current())
      ensures r == FillBuffer(Current(), size)
    {
      var initial := TopBlock().limit - TopBlock().pc;
      if initial < 0 || initial > SignedInt(size) { return Fail(Panic); }
      if initial > 0 && TopBlock().limit > |TopContext().code| { return Fail(Undefined); }
      return Ok(Opaque(BufferForm, size));
    }

    /** The size operand leaves room for the buffer. */
    method StepBuffer() returns (r: Res<()>)
      requires Valid() && Ready(Current()) && Current().items.Cons? && Current().items.head.BufferItem?
      modifies Repr
      ensures Valid() && fresh(Repr - old(Repr)) && Reached(ProcessBuffer(old(Current())), r)
    {
      hide Valid, Current, Free, Parse, OrAnswered, Answered, FillBuffer;
      var BufferItem(frame, want) := TopItem();
      if Height() > frame + 1 { return Fail(Internal); }
      if Height() < frame + 1 { r := ParseNext(ObjectMode); return; }
      var size :- GetObject(OperandAt(frame));
      var buffer;
      if size.Opaque? {
        buffer :- Ask();
      } else {
        var filled := Fill(if size.Integer? then size.n else 0);
        buffer :- AskUnless(filled);
      }
      Finish(frame, want, buffer);
      r := LeaveBranch();
    }

    /** An initializer goes into the next element of the package under construction. */
    method PutInitializer() returns (r: Res<()>)
      requires Valid() && Current().items.Cons? && Current().items.head.PackageItem?
      modifies Repr
      ensures Valid() && fresh(Repr - old(Repr)) && Reached(StoreInitializer(old(Current())), r)
    {
      hide Valid, Current, Free;
      var PackageItem(frame, phase, index, want) := TopItem();
      if Height() != frame + 2 { return Ok(()); }
      var package := OperandAt(frame);
      if !(package.Value? && package.v.Opaque?) { return Fail(Internal); }
      var v :- GetObject(OperandAt(frame + 1));
      if index == package.v.size { return Fail(Panic); }
      if index > package.v.size { return Fail(Internal); }
      SetItem(PackageItem(frame, phase, index + 1, want));
      DropOperands(frame + 1);
      return Ok(());
    }

    method StepPackage() returns (r: Res<()>)
      requires Valid() && Ready(Current()) && Current().items.Cons? && Current().items.head.PackageItem?
      modifies Repr
      ensures Valid() && fresh(Repr - old(Repr)) && Reached(ProcessPackage(old(Current())), r)
    {
      hide Valid, Current, Free, Parse, StoreInitializer;
      var PackageItem(frame, phase, index, want) := TopItem();
      if phase == 0 {
        var _ :- ParseNext(ImmediateMode(1));
        if !HasItem() { return Fail(Internal); }
        SetItem(PackageItem(frame, 1, index, want));
        return Ok(());
      }
      if phase == 1 {
        if Height() != frame + 2 { return Fail(Internal); }
        var size :- GetInteger(OperandAt(frame + 1));
        DropOperands(frame);
        PushResult(Value(Opaque(PackageForm, size)));
        SetItem(PackageItem(frame, 2, index, want));
        return Ok(());
      }
      InitializerKeeps(Current());
      var _ :- PutInitializer();
      if Height() != frame + 1 { return Fail(Internal); }
      if TopBlock().pc == TopBlock().limit {
        if !want { DropOperands(frame); }
        r := LeaveBranch();
      } else {
        r := ParseNext(DataMode);
      }
    }

    /** `lai_exec_process`. */
    method Step() returns (r: Res<()>)
      requires Valid() && Current().items.Cons?
      modifies Repr
      ensures Valid() && fresh(Repr - old(Repr)) && Reached(Process(old(Current())), r)
    {
      hide Valid, Current, Free, ProcessLoop, ProcessCond, ProcessNode, ProcessOp, ProcessInvoke, ProcessReturn, Parse,
        ImplicitReturn, ProcessBuffer, ProcessPackage, Reached;
      if !HasContext() || !HasBlock() { r := Fail(Internal); NowhereReached(r); return; }
      if TopBlock().pc > TopBlock().limit { r := Fail(Panic); NowhereReached(r); return; }
      match TopItem() {
        case Populate => r := StepPopulate();
        case MethodItem(_) => r := StepMethod();
        case LoopItem(_, _, _) => r := StepLoop();
        case CondItem(_, _, _, _, _) => r := StepCond();
        case NodeItem(_, _) => r := StepNode();
        case OpItem(_, _, _) => r := StepOp();
        case InvokeItem(_, _, _) => r := StepInvoke();
        case ReturnItem(_) => r := StepReturn();
        case BufferItem(_, _) => r := StepBuffer();
        case PackageItem(_, _, _, _) => r := StepPackage();
      }
    }

    // ------------------------------------------------------------------------------------
    // lai_exec_run and lai_eval_args.
    // ------------------------------------------------------------------------------------

    /** `lai_exec_run`, for code that halts: `steps` only witnesses that it does. */
    method Execute(ghost steps: nat) returns (r: Res<()>)
      requires Valid() && Halted(Run(Ok(Current()), steps))
      modifies Repr
      ensures Valid() && fresh(Repr - old(Repr)) && Reached(Run(Ok(old(Current())), steps), r)
    {
      hide Valid, Current, Free, Process;
      ghost var left: nat := steps;
      while HasItem()
        invariant Valid() && fresh(Repr - old(Repr))
        invariant left <= steps && Run(Ok(Current()), left) == Run(Ok(old(Current())), steps)
        decreases left
      {
        StepsRemain(Current(), left);
        r := Step();
        if r.Fail? { return; }
        left := left - 1;
      }
      return Ok(());
    }

    /** `lai_finalize_state` and `lai_init_state`: after an error the stacks are emptied. */
    method Reset()
      requires Valid()
      modifies Repr
      ensures Valid() && fresh(Repr - old(Repr))
      ensures Current() == State(Nil, Nil, Nil, [], old(Current()).ns, old(Current()).replies)
    {
      hide Valid, Current, Free;
      while HasContext()
        invariant Valid() && fresh(Repr - old(Repr))
        invariant Current() == old(Current()).(contexts := Current().contexts)
        decreases Current().contexts
      {
        CutContext();
      }
      while HasBlock()
        invariant Valid() && fresh(Repr - old(Repr))
        invariant Current() == old(Current()).(contexts := Nil, blocks := Current().blocks)
        decreases Current().blocks
      {
        CutBlock();
      }
      while HasItem()
        invariant Valid() && fresh(Repr - old(Repr))
        invariant Current() == old(Current()).(contexts := Nil, blocks := Nil, items := Current().items)
        decreases Current().items
      {
        CutItem();
      }
      DropOperands(0);
    }

    /** The outcome of `lai_eval_args`: an object for a Name(), the result of a method if the exit
        assertions hold, an error for anything else. An alias is not to be passed. */
    static ghost function Outcome(s: State, node: Kind, n: nat, args: seq<Object>, steps: nat): Res<Object>
      requires |args| <= 7
    {
      match node
      case Alias(_) => Fail(Panic)
      case NameObject(v) => if args != [] then Fail(Api(TypeMismatch)) else Ok(v)
      case Method(_, code, size) =>
        var end :- Run(Ok(EnterMethod(s, n, code, size, args, true)), steps);
        if end.contexts.Cons? || end.items.Cons? || |end.operands| != 1 then Fail(Internal)
        else GetObject(end.operands[0])
      case _ => Fail(Api(TypeMismatch))
    }

    /** `lai_eval_args` on an interpreter at rest. For a method that halts within `steps` steps; after an
        error code the interpreter is at rest again. */
    method Evaluate(n: nat, args: seq<Object>, ghost steps: nat) returns (r: Res<Object>)
      requires Valid() && |args| <= 7 && n in Current().ns.nodes
      requires Current() == State(Nil, Nil, Nil, [], Current().ns, Current().replies)
      requires var kind := Current().ns.nodes[n].kind;
               kind.Method? ==> Halted(Run(Ok(EnterMethod(Current(), n, kind.code, kind.size, args, true)), steps))
      modifies Repr
      ensures Valid() && fresh(Repr - old(Repr))
      ensures r == Outcome(old(Current()), old(Current()).ns.nodes[n].kind, n, args, steps)
      ensures !old(Current()).ns.nodes[n].kind.Method? ==> Current() == old(Current())
      ensures r.Fail? && r.fault.Api? ==> Current() == State(Nil, Nil, Nil, [], Current().ns, Current().replies)
      ensures var kind := old(Current()).ns.nodes[n].kind;
              r.Ok? && kind.Method? ==>
                var end := Run(Ok(EnterMethod(old(Current()), n, kind.code, kind.size, args, true)), steps);
                end.Ok? && Current() == State(Nil, end.value.blocks, Nil, [], end.value.ns, end.value.replies)
    {
      hide Valid, Current, Free, Run;
      var kind := Names().nodes[n].kind;
      match kind {
        case Alias(_) => r := Fail(Panic);
        case NameObject(v) => r := if args != [] then Fail(Api(TypeMismatch)) else Ok(v);
        case Method(_, code, size) =>
          ReserveBody();
          Enter(n, code, size, args, true);
          var status := Execute(steps);
          if status.Fail? {
            if status.fault.Api? { Reset(); }
            return Fail(status.fault);
          }
          if HasContext() || HasItem() || Height() != 1 { return Fail(Internal); }
          r := GetObject(OperandAt(0));
          DropOperands(0);
        case _ => r := Fail(Api(TypeMismatch));
      }
    }
  }
}
