/** What holds in every state the machine reaches on arbitrary bytes without VarPackage and BankField:
    the four stacks stay aligned, every pending item holds at most its arity of operands, every node a
    running method created is still in its parent's table. No internal assertion of the interpreter can
    fail; that every push finds room on its stack is proved with the `Stacks`. */
module StackInvariant {
  import opened Bits
  import opened Outcomes
  import opened Names
  import opened Namespace
  import opened Opcodes
  import opened Operators
  import opened Machine

  // ------------------------------------------------------------------------------------
  // Alignment of the item, context and block stacks.
  // ------------------------------------------------------------------------------------

  predicate OwnsBlock(item: Item) {
    item.LoopItem? || item.CondItem? || item.BufferItem? || item.PackageItem?
  }

  /** POPULATE and METHOD own a context and a block, LOOP, COND, BUFFER and PACKAGE a block; nothing else
      owns any. */
  predicate Stacked(items: List<Item>, contexts: List<Context>, blocks: List<Block>) {
    match items
    case Nil => contexts.Nil? && blocks.Nil?
    case Cons(item, rest) =>
      match item
      case Populate =>
        contexts.Cons? && blocks.Cons? && contexts.head.invocation.None? && Stacked(rest, contexts.tail, blocks.tail)
      case MethodItem(_) =>
        contexts.Cons? && blocks.Cons? && contexts.head.invocation.Some? && Stacked(rest, contexts.tail, blocks.tail)
      case _ =>
        rest.Cons? &&
        if OwnsBlock(item)
        then blocks.Cons? && (item.LoopItem? ==> blocks.head.limit >= 0) && Stacked(rest, contexts, blocks.tail)
        else Stacked(rest, contexts, blocks)
  }

  lemma {:induction false} StackedReady(items: List<Item>, contexts: List<Context>, blocks: List<Block>)
    requires Stacked(items, contexts, blocks) && items.Cons?
    ensures contexts.Cons? && blocks.Cons?
  {
    if OwnsBlock(items.head) {
      StackedReady(items.tail, contexts, blocks.tail);
    } else if Framed(items.head) {
      StackedReady(items.tail, contexts, blocks);
    }
  }

  // ------------------------------------------------------------------------------------
  // Operands held by each item.
  // ------------------------------------------------------------------------------------

  predicate Framed(item: Item) {
    !item.Populate? && !item.MethodItem?
  }

  /** Operands an item can hold above its frame. */
  function Capacity(item: Item): nat {
    match item
    case LoopItem(_, iterating, _) => if iterating then 0 else 1
    case CondItem(_, inBranch, _, _, _) => if inBranch then 0 else 1
    case NodeItem(_, opcode) => |NodeModes(opcode)|
    case OpItem(_, opcode, _) => OperandCount(opcode)
    case InvokeItem(_, argc, _) => argc + 1
    case ReturnItem(_) => 1
    case BufferItem(_, _) => 1
    case PackageItem(_, _, _, _) => 2
    case _ => 0
  }

  /** Operands the item adds to those of the item below when it is finished. */
  function Gain(item: Item): nat {
    match item
    case MethodItem(want) => if want then 1 else 0
    case OpItem(_, _, want) => if want then 1 else 0
    case InvokeItem(_, _, want) => if want then 1 else 0
    case BufferItem(_, want) => if want then 1 else 0
    case PackageItem(_, _, _, want) => if want then 1 else 0
    case _ => 0
  }

  predicate WellFormedItem(item: Item) {
    match item
    case OpItem(_, opcode, _) => HasOperands(opcode)
    case NodeItem(_, opcode) => IsNodeOpcode(opcode)
    case InvokeItem(_, argc, _) => argc <= 7
    case PackageItem(_, phase, index, _) => phase <= 2 && (phase < 2 ==> index == 0)
    case _ => true
  }

  predicate Held(item: Item, h: nat) {
    && WellFormedItem(item)
    && (Framed(item) ==> item.frame <= h <= item.frame + Capacity(item))
    && (item.InvokeItem? || item.PackageItem? ==> item.frame < h)
    && (item.PackageItem? && item.phase < 2 ==> h == item.frame + 1 + item.phase)
  }

  /** Statements run above an item only while it is a body or still waits for an operand. */
  predicate HasRoom(item: Item, h: nat, gain: nat) {
    && Held(item, h) && (item.PackageItem? ==> item.phase == 2)
    && (gain > 0 || (Framed(item) && Capacity(item) > 0) ==> Framed(item) && h + 1 <= item.frame + Capacity(item))
    && gain <= 1
  }

  function FrameOf(item: Item, h: nat): nat {
    if Framed(item) then item.frame else h
  }

  /** The stack `items` waits below something that started with `h` operands and will add `gain`. */
  predicate Below(items: List<Item>, h: nat, gain: nat, final: nat) {
    match items
    case Nil => h + gain == final
    case Cons(item, rest) => HasRoom(item, h, gain) && Below(rest, FrameOf(item, h), Gain(item), final)
  }

  /** The stack `items` with `h` operands, `final` of which remain when it is empty. */
  predicate Fit(items: List<Item>, h: nat, final: nat) {
    match items
    case Nil => h == final
    case Cons(item, rest) => Held(item, h) && Below(rest, FrameOf(item, h), Gain(item), final)
  }

  lemma BelowFits(items: List<Item>, h: nat, gain: nat, final: nat)
    requires Below(items, h, gain, final)
    ensures Fit(items, h + gain, final)
  {
  }

  lemma BelowWithoutResult(items: List<Item>, h: nat, final: nat)
    requires items.Cons? && Below(items, h, 1, final)
    ensures Below(items, h, 0, final)
  {
  }

  // ------------------------------------------------------------------------------------
  // Calls in progress name a method.
  // ------------------------------------------------------------------------------------

  predicate IsMethod(ns: Space, o: Operand) {
    o.ResolvedName? && KindOf(ns, o.node).Some? && KindOf(ns, o.node).value.Method?
  }

  /** The package under construction is the first operand of its item; no element is beyond its end. */
  predicate IsPackage(item: Item, o: Operand)
    requires item.PackageItem?
  {
    o.Value? && (item.phase == 2 ==> o.v.Opaque? && item.index <= o.v.size)
  }

  /** What is parsed in this mode is an object. */
  predicate GivesValue(mode: Mode) {
    mode.ObjectMode? || mode.DataMode? || mode.ImmediateMode?
  }

  /** The code asserts that operand `k` of the item is an object. */
  predicate TakesValue(item: Item, k: nat) {
    match item
    case OpItem(_, opcode, _) => k < OperandCount(opcode) && GivesValue(ModeOf(opcode, k))
    case NodeItem(_, opcode) => k < |NodeModes(opcode)| && GivesValue(NodeModes(opcode)[k])
    case InvokeItem(_, _, _) => k > 0
    case _ => Framed(item)
  }

  predicate Tagged(item: Item, held: seq<Operand>) {
    forall k: nat :: k < |held| && TakesValue(item, k) ==> held[k].Value?
  }

  predicate AllValues(operands: seq<Operand>) {
    forall k :: 0 <= k < |operands| ==> operands[k].Value?
  }

  /** Below every frame there are enough operands, those above it are what the item takes, and every
      invocation holds its method first. */
  predicate Called(items: List<Item>, operands: seq<Operand>, ns: Space) {
    match items
    case Nil => true
    case Cons(item, rest) =>
      if !Framed(item) then Called(rest, operands, ns)
      else
        && item.frame <= |operands| && Tagged(item, operands[item.frame..])
        && (item.InvokeItem? ==> item.frame < |operands| && IsMethod(ns, operands[item.frame]))
        && (item.PackageItem? ==> item.frame < |operands| && IsPackage(item, operands[item.frame]))
        && Called(rest, operands[..item.frame], ns)
  }

  ghost predicate MethodsKept(ns: Space, ns': Space) {
    forall n: nat :: KindOf(ns, n).Some? && KindOf(ns, n).value.Method? ==> KindOf(ns', n) == KindOf(ns, n)
  }

  lemma {:induction false} CalledGrows(items: List<Item>, operands: seq<Operand>, more: seq<Operand>, ns: Space,
                                       ns': Space)
    requires Called(items, operands, ns) && MethodsKept(ns, ns') && AllValues(more)
    ensures Called(items, operands + more, ns')
  {
    if items.Cons? {
      if Framed(items.head) {
        var frame := items.head.frame;
        assert (operands + more)[..frame] == operands[..frame] + [];
        assert (operands + more)[frame..] == operands[frame..] + more;
        CalledGrows(items.tail, operands[..frame], [], ns, ns');
      } else {
        CalledGrows(items.tail, operands, more, ns, ns');
      }
    }
  }

  /** The item on top gets an operand that fits it. */
  lemma CalledTakes(items: List<Item>, operands: seq<Operand>, o: Operand, ns: Space)
    requires Called(items, operands, ns) && items.Cons? && Framed(items.head)
    requires TakesValue(items.head, |operands| - items.head.frame) ==> o.Value?
    ensures Called(items, operands + [o], ns)
  {
    var frame := items.head.frame;
    assert (operands + [o])[..frame] == operands[..frame];
    assert (operands + [o])[frame..] == operands[frame..] + [o];
  }

  // ------------------------------------------------------------------------------------
  // Nodes created by running methods.
  // ------------------------------------------------------------------------------------

  function AllCreated(contexts: List<Context>): seq<nat> {
    match contexts
    case Nil => []
    case Cons(c, rest) => AllCreated(rest) + CreatedBy(c.invocation)
  }

  function KeyOf(ns: Space, n: nat): Option<(nat, Segment)> {
    if n in ns.nodes && ns.nodes[n].parent.Some? then Some((ns.nodes[n].parent.value, ns.nodes[n].name)) else None
  }

  /** The entries of these nodes in their parents' tables. */
  function KeysOf(nodes: map<nat, Node>, created: seq<nat>): set<(nat, Segment)>
  {
    if created == [] then {}
    else
      (if created[0] in nodes && nodes[created[0]].parent.Some?
       then {(nodes[created[0]].parent.value, nodes[created[0]].name)} else {})
      + KeysOf(nodes, created[1..])
  }

  /** The node is where its parent and its name say. */
  predicate Installed(ns: Space, n: nat) {
    KeyOf(ns, n).Some? && KeyOf(ns, n).value in ns.kids && ns.kids[KeyOf(ns, n).value] == n
  }

  ghost predicate Owned(created: seq<nat>, ns: Space) {
    && (forall i :: 0 <= i < |created| ==> Installed(ns, created[i]))
    && (forall i, j :: 0 <= i < j < |created| ==> created[i] != created[j])
    && (forall n :: n in ns.nodes ==> n < ns.next)
  }

  // ------------------------------------------------------------------------------------
  // The invariant.
  // ------------------------------------------------------------------------------------

  ghost predicate Inv(s: State, final: nat) {
    && Stacked(s.items, s.contexts, s.blocks)
    && Fit(s.items, |s.operands|, final)
    && Called(s.items, s.operands, s.ns)
    && Owned(AllCreated(s.contexts), s.ns)
  }

  /** A state in which the top item lets `lai_exec_parse` work and gain that many operands. */
  ghost predicate Parsing(s: State, mode: Mode, final: nat) {
    && s.items.Cons?
    && Stacked(s.items, s.contexts, s.blocks)
    && Below(s.items, |s.operands|, if WantsResult(mode) then 1 else 0, final)
    && Called(s.items, s.operands, s.ns)
    && Owned(AllCreated(s.contexts), s.ns)
    && Fits(s.items.head, |s.operands|, mode)
  }

  /** What is parsed in this mode is what the item takes next. */
  predicate Fits(item: Item, h: nat, mode: Mode) {
    WantsResult(mode) && Framed(item) && item.frame <= h && TakesValue(item, h - item.frame) ==> GivesValue(mode)
  }

  /** No failed internal assertion, and no question left open. */
  predicate Tame<T>(r: Res<T>) {
    r.Fail? ==> r.fault.Api? || r.fault.Panic? || r.fault.Undefined?
  }

  ghost predicate Safe(r: Res<State>, final: nat) {
    Tame(r) && (r.Ok? ==> Inv(r.value, final))
  }

  /** The next opcode is VarPackage or BankField. */
  predicate LeftOut(s: State) {
    && Ready(s)
    && var code, pc := s.contexts.head.code, s.blocks.head.pc;
    && pc < |code|
    && (code[pc] == VARPACKAGE_OP ||
        (code[pc] == EXTOP_PREFIX && pc + 1 < |code| && 256 * EXTOP_PREFIX + code[pc + 1] as int == BANKFIELD_OP))
  }

  ghost predicate SafeFrom(s: State, r: Res<State>, final: nat) {
    Safe(r, final) || (r == Fail(Unmodelled) && LeftOut(s))
  }

  // ------------------------------------------------------------------------------------
  // Small steps: program counters, variables, nodes.
  // ------------------------------------------------------------------------------------

  lemma {:induction false} StackedPc(items: List<Item>, contexts: List<Context>, blocks: List<Block>, pc: nat)
    requires Stacked(items, contexts, blocks) && blocks.Cons?
    ensures Stacked(items, contexts, blocks.(head := blocks.head.(pc := pc)))
  {
    if items.Cons? && Framed(items.head) && !OwnsBlock(items.head) {
      StackedPc(items.tail, contexts, blocks, pc);
    }
  }

  /** The same calls are in progress; their variables may differ. */
  predicate SameCalls(contexts: List<Context>, contexts': List<Context>) {
    match contexts
    case Nil => contexts'.Nil?
    case Cons(c, rest) =>
      && contexts'.Cons?
      && contexts'.head.code == c.code && contexts'.head.handle == c.handle
      && contexts'.head.invocation.Some? == c.invocation.Some?
      && CreatedBy(contexts'.head.invocation) == CreatedBy(c.invocation)
      && SameCalls(rest, contexts'.tail)
  }

  lemma {:induction false} SameCallsReflexive(contexts: List<Context>)
    ensures SameCalls(contexts, contexts)
  {
    if contexts.Cons? { SameCallsReflexive(contexts.tail); }
  }

  lemma {:induction false} RebindKeepsCalls(contexts: List<Context>, variables: seq<Variables>)
    ensures SameCalls(contexts, Rebind(contexts, variables))
    decreases contexts
  {
    if contexts.Nil? || variables == [] {
      SameCallsReflexive(contexts);
    } else {
      RebindKeepsCalls(contexts.tail, variables[1..]);
    }
  }

  lemma {:induction false} StackedCalls(items: List<Item>, contexts: List<Context>, blocks: List<Block>,
                                        contexts': List<Context>)
    requires Stacked(items, contexts, blocks) && SameCalls(contexts, contexts')
    ensures Stacked(items, contexts', blocks)
    decreases items
  {
    if items.Cons? {
      if OwnsBlock(items.head) {
        StackedCalls(items.tail, contexts, blocks.tail, contexts');
      } else if Framed(items.head) {
        StackedCalls(items.tail, contexts, blocks, contexts');
      } else {
        StackedCalls(items.tail, contexts.tail, blocks.tail, contexts'.tail);
      }
    }
  }

  lemma {:induction false} CreatedCalls(contexts: List<Context>, contexts': List<Context>)
    requires SameCalls(contexts, contexts')
    ensures AllCreated(contexts') == AllCreated(contexts)
  {
    if contexts.Cons? { CreatedCalls(contexts.tail, contexts'.tail); }
  }

  lemma {:induction false} StackedEnv(items: List<Item>, contexts: List<Context>, blocks: List<Block>,
                                      invocation: Option<Invocation>)
    requires Stacked(items, contexts, blocks) && contexts.Cons?
    requires invocation.Some? == contexts.head.invocation.Some?
    ensures Stacked(items, contexts.(head := contexts.head.(invocation := invocation)), blocks)
  {
    if items.Cons? && Framed(items.head) {
      StackedEnv(items.tail, contexts, if OwnsBlock(items.head) then blocks.tail else blocks, invocation);
    }
  }

  /** What loads and stores may do to an environment. */
  ghost predicate Harmless(env: Env, env': Env) {
    && env'.invocation.Some? == env.invocation.Some?
    && (env.invocation.Some? ==> env'.invocation.value.created == env.invocation.value.created)
    && SameTree(env.ns, env'.ns) && MethodsKept(env.ns, env'.ns)
  }

  lemma StoreIsHarmless(env: Env, o: Operand, v: Object, keepType: bool)
    ensures var r := StoreTo(env, o, v, keepType);
            if r.Ok? then Harmless(env, r.value) else r.fault == Unknown || Tame(r)
  {
    hide SameTree, MethodsKept, SetObject;
    TreeAsItself(env.ns);
    if o.ResolvedName? && KindOf(env.ns, o.node).Some? && KindOf(env.ns, o.node).value.NameObject? {
      ObjectIsHarmless(env.ns, o.node, v);
    }
  }

  lemma TreeAsItself(ns: Space)
    ensures SameTree(ns, ns) && MethodsKept(ns, ns)
  {
  }

  lemma ObjectIsHarmless(ns: Space, n: nat, v: Object)
    requires n in ns.nodes && ns.nodes[n].kind.NameObject?
    ensures SameTree(ns, SetObject(ns, n, v)) && MethodsKept(ns, SetObject(ns, n, v))
  {
  }

  lemma ReduceIsHarmless(opcode: nat, env: Env, operands: seq<Operand>)
    requires IsOperator(opcode) && |operands| == Arity(opcode)
    ensures var r := ReduceOp(opcode, env, operands);
            && (r.Ok? ==> Harmless(env, r.value.1))
            && (r.Fail? && (forall k: nat :: k < ValueCount(opcode) ==> operands[k].Value?) ==>
                  r.fault == Unknown || Tame(r))
  {
    hide StoreTo, Unary, Bitwise, Remainder, ShiftRight;
    forall v, k: nat, keepType | k < |operands|
      ensures var r := StoreTo(env, operands[k], v, keepType);
              if r.Ok? then Harmless(env, r.value) else r.fault == Unknown || Tame(r)
    {
      StoreIsHarmless(env, operands[k], v, keepType);
    }
    if opcode == DIVIDE_OP && GetInteger(operands[0]).Ok? && GetInteger(operands[1]).Ok? {
      var a, b := GetInteger(operands[0]).value, GetInteger(operands[1]).value;
      if b != 0 {
        var first := Mutate(env, operands[2], Integer(Remainder(a, b)));
        if first.Ok? { StoreIsHarmless(first.value, operands[3], Integer(a / b), true); }
      }
    }
  }

  lemma {:induction false} UninstallAllSafe(ns: Space, keep: seq<nat>, created: seq<nat>)
    requires Owned(keep + created, ns)
    ensures var r := UninstallAll(ns, created);
            && r.Ok? && Owned(keep, r.value) && r.value.nodes == ns.nodes && r.value.next == ns.next
            && r.value.kids == ns.kids - KeysOf(ns.nodes, created)
    decreases |created|
  {
    if created == [] {
      assert keep + created == keep;
      assert ns.kids - {} == ns.kids;
    } else {
      var n, rest := created[0], created[1..];
      assert (keep + created)[|keep|] == n;
      var ns' := Uninstall(ns, n).value;
      forall i | 0 <= i < |keep + rest| ensures Installed(ns', (keep + rest)[i]) && (keep + rest)[i] != n {
        var j := if i < |keep| then i else i + 1;
        assert (keep + created)[j] == (keep + rest)[i];
      }
      forall i, j | 0 <= i < j < |keep + rest| ensures (keep + rest)[i] != (keep + rest)[j] {
        assert (keep + rest)[i] == (keep + created)[if i < |keep| then i else i + 1];
        assert (keep + rest)[j] == (keep + created)[if j < |keep| then j else j + 1];
      }
      UninstallAllSafe(ns', keep, rest);
      assert ns.kids - {KeyOf(ns, n).value} - KeysOf(ns.nodes, rest) == ns.kids - KeysOf(ns.nodes, created);
    }
  }

  lemma InstallKeepsOwned(ns: Space, created: seq<nat>, parent: nat, name: Segment, kind: Kind)
    requires Owned(created, ns) && (parent, name) !in ns.kids
    ensures var ns' := Install(ns, parent, name, kind).value;
            Owned(created, ns') && Owned(created + [ns.next], ns') && MethodsKept(ns, ns')
  {
    var ns' := Install(ns, parent, name, kind).value;
    forall i | 0 <= i < |created| ensures Installed(ns', created[i]) && created[i] != ns.next {
      assert Installed(ns, created[i]);
    }
  }

  // ------------------------------------------------------------------------------------
  // Break, Continue and Return never underflow a stack.
  // ------------------------------------------------------------------------------------

  lemma {:induction false} BreakSafe(s: State, final: nat)
    requires Parsing(s, ExecMode, final)
    ensures Safe(BreakLoop(s), final)
    decreases s.items
  {
    if s.items.head.LoopItem? || s.items.head.CondItem? {
      assert s.operands[..|s.operands|] == s.operands;
      BelowFits(s.items.tail, |s.operands|, 0, final);
      if s.items.head.CondItem? { BreakSafe(s.(blocks := s.blocks.tail, items := s.items.tail), final); }
    }
  }

  lemma {:induction false} ContinueSafe(s: State, final: nat)
    requires Parsing(s, ExecMode, final)
    ensures Safe(ContinueLoop(s), final)
    decreases s.items
  {
    if s.items.head.LoopItem? {
      BelowFits(s.items, |s.operands|, 0, final);
      StackedPc(s.items, s.contexts, s.blocks, s.blocks.head.limit);
    } else if s.items.head.CondItem? {
      assert s.operands[..|s.operands|] == s.operands;
      ContinueSafe(s.(blocks := s.blocks.tail, items := s.items.tail), final);
    }
  }

  lemma LeaveSafe(s: State, final: nat)
    requires s.items.Cons? && s.items.head.MethodItem? && Stacked(s.items, s.contexts, s.blocks)
    requires Fit(s.items.tail, |s.operands|, final)
    requires Called(s.items.tail, s.operands, s.ns) && Owned(AllCreated(s.contexts), s.ns)
    ensures Safe(LeaveMethod(s), final)
  {
    var created := s.contexts.head.invocation.value.created;
    UninstallAllSafe(s.ns, AllCreated(s.contexts.tail), created);
    var ns := UninstallAll(s.ns, created).value;
    CalledGrows(s.items.tail, s.operands, [], s.ns, ns);
    assert s.operands + [] == s.operands;
  }

  lemma {:induction false} ReturnSafe(s: State, v: Object, final: nat)
    requires Parsing(s, ExecMode, final)
    ensures Safe(ReturnFrom(s, v), final)
    decreases s.items
  {
    if s.items.head.MethodItem? {
      var s' := if s.items.head.wantResult then PushOperand(s, Value(v)) else s;
      BelowFits(s.items.tail, |s.operands|, Gain(s.items.head), final);
      CalledGrows(s.items.tail, s.operands, [Value(v)], s.ns, s.ns);
      LeaveSafe(s', final);
    } else if s.items.head.LoopItem? || s.items.head.CondItem? {
      assert s.operands[..|s.operands|] == s.operands;
      ReturnSafe(s.(blocks := s.blocks.tail, items := s.items.tail), v, final);
    }
  }

  // ------------------------------------------------------------------------------------
  // lai_exec_parse.
  // ------------------------------------------------------------------------------------

  lemma ParsingReady(s: State, mode: Mode, final: nat)
    requires Parsing(s, mode, final)
    ensures Ready(s)
  {
    StackedReady(s.items, s.contexts, s.blocks);
  }

  lemma CommitParsing(s: State, mode: Mode, pc: nat, final: nat)
    requires Parsing(s, mode, final)
    ensures s.blocks.Cons? && s.contexts.Cons? && Parsing(CommitPc(s, pc), mode, final)
  {
    StackedReady(s.items, s.contexts, s.blocks);
    StackedPc(s.items, s.contexts, s.blocks, pc);
  }

  lemma ParsingIsStatement(s: State, mode: Mode, final: nat)
    requires Parsing(s, mode, final)
    ensures Parsing(s, ExecMode, final) && Inv(s, final)
  {
    if WantsResult(mode) { BelowWithoutResult(s.items, |s.operands|, final); }
    BelowFits(s.items, |s.operands|, 0, final);
  }

  lemma PushOperandSafe(s: State, mode: Mode, o: Operand, final: nat)
    requires Parsing(s, mode, final) && WantsResult(mode) && (GivesValue(mode) ==> o.Value?)
    ensures Inv(PushOperand(s, o), final)
  {
    BelowFits(s.items, |s.operands|, 1, final);
    CalledTakes(s.items, s.operands, o, s.ns);
  }

  /** Pushing an item that will add no more operands than the parse mode asks for. */
  lemma PushItemSafe(s: State, mode: Mode, item: Item, final: nat)
    requires Parsing(s, mode, final) && Framed(item) && !item.InvokeItem? && !OwnsBlock(item)
    requires WellFormedItem(item) && item.frame == |s.operands|
    requires Gain(item) == 0 || (Gain(item) == 1 && WantsResult(mode))
    ensures Inv(PushItem(s, item), final)
  {
    ParsingIsStatement(s, mode, final);
    assert s.operands[..|s.operands|] == s.operands;
  }

  lemma PushBlockItemSafe(s: State, item: Item, pc: nat, limit: nat, final: nat)
    requires Parsing(s, ExecMode, final) && (item.LoopItem? || item.CondItem?) && item.frame == |s.operands|
    ensures Inv(PushItem(PushBlock(s, pc, limit), item), final)
  {
    assert s.operands[..|s.operands|] == s.operands;
  }

  lemma PushPopulateSafe(s: State, code: seq<byte>, n: nat, pc: nat, limit: nat, final: nat)
    requires Parsing(s, ExecMode, final)
    ensures Inv(PushItem(PushBlock(PushContext(s, Context(code, n, None)), pc, limit), Populate), final)
  {
    assert AllCreated(s.contexts) + [] == AllCreated(s.contexts);
  }

  lemma PushInvokeSafe(s: State, mode: Mode, n: nat, argc: nat, final: nat)
    requires Parsing(s, mode, final) && IsMethod(s.ns, ResolvedName(n)) && argc <= 7
    ensures Inv(PushOperand(PushItem(s, InvokeItem(|s.operands|, argc, WantsResult(mode))), ResolvedName(n)), final)
  {
    assert (s.operands + [ResolvedName(n)])[..|s.operands|] == s.operands;
  }

  lemma InstallSafe(s: State, place: (nat, Segment), kind: Kind, final: nat)
    requires Parsing(s, ExecMode, final)
    ensures s.contexts.Cons?
    ensures var r := InstallNode(s, place, kind);
            Tame(r) && (r.Ok? ==> Parsing(r.value, ExecMode, final))
  {
    StackedReady(s.items, s.contexts, s.blocks);
    if place !in s.ns.kids {
      var ns := Install(s.ns, place.0, place.1, kind).value;
      var invocation := s.contexts.head.invocation;
      InstallKeepsOwned(s.ns, AllCreated(s.contexts), place.0, place.1, kind);
      StackedEnv(s.items, s.contexts, s.blocks, RecordCreated(invocation, s.ns.next));
      CalledGrows(s.items, s.operands, [], s.ns, ns);
      assert s.operands + [] == s.operands;
      if invocation.Some? {
        assert AllCreated(s.contexts.tail) + (invocation.value.created + [s.ns.next])
            == AllCreated(s.contexts) + [s.ns.next];
      }
    }
  }

  // Name resolution and byte readers fail, but not internally.

  lemma {:induction false} AscendFaults(ns: Space, n: nat, height: nat)
    ensures Tame(Ascend(ns, n, height))
    decreases height
  {
    if height > 0 && ParentOf(ns, n).Some? { AscendFaults(ns, ParentOf(ns, n).value, height - 1); }
  }

  lemma {:induction false} SearchFaults(ns: Space, n: nat, segment: Segment)
    ensures Tame(SearchUp(ns, n, segment))
  {
    if GetChild(ns, n, segment).None? && ParentOf(ns, n).Some? { SearchFaults(ns, ParentOf(ns, n).value, segment); }
  }

  lemma ResolveFaults(ns: Space, ctx: nat, name: AmlName)
    ensures Tame(DoResolve(ns, ctx, name))
  {
    hide RootOf, Descend;
    if name.SearchScopes() { SearchFaults(ns, ctx, name.segments[0]); }
    AscendFaults(ns, if name.isAbsolute then RootOf(ns, ctx) else ctx, name.height);
  }

  lemma {:induction false} ParentFaults(ns: Space, n: nat, segments: seq<Segment>)
    requires segments != []
    ensures Tame(DescendToParent(ns, n, segments))
    decreases |segments|
  {
    if |segments| > 1 && GetChild(ns, n, segments[0]).Some? {
      var r := FollowAlias(ns, GetChild(ns, n, segments[0]).value);
      if r.Ok? { ParentFaults(ns, r.value, segments[1..]); }
    }
  }

  lemma ResolveNewFaults(ns: Space, ctx: nat, name: AmlName)
    ensures Tame(DoResolveNew(ns, ctx, name))
  {
    hide RootOf, DescendToParent;
    AscendFaults(ns, if name.isAbsolute then RootOf(ns, ctx) else ctx, name.height);
    var start := StartOf(ns, ctx, name);
    if start.Ok? && name.segments != [] { ParentFaults(ns, start.value, name.segments); }
  }

  lemma {:induction false} ReadSegmentsFaults(code: seq<byte>, pc: nat, n: nat)
    ensures Tame(ReadSegments(code, pc, n))
    decreases n
  {
    if n > 0 && pc + 4 <= |code| { ReadSegmentsFaults(code, pc + 4, n - 1); }
  }

  lemma ParseNameFaults(code: seq<byte>, pc: nat)
    ensures Tame(ParseName(code, pc))
  {
    if pc < |code| {
      var start := if code[pc] == ROOT_CHAR then pc + 1 else pc + CountCarets(code, pc);
      var count := ReadCount(code, start);
      if count.Ok? { ReadSegmentsFaults(code, start + count.value.1, count.value.0); }
    }
  }

  lemma {:induction false} GetObjectsFaults(operands: seq<Operand>)
    requires AllValues(operands)
    ensures var r := GetObjects(operands); Tame(r) && (r.Ok? ==> |r.value| == |operands|)
    decreases |operands|
  {
    if operands != [] { GetObjectsFaults(operands[1..]); }
  }

  lemma CreateSafe(s: State, name: AmlName, kind: Kind, final: nat)
    requires Parsing(s, ExecMode, final)
    ensures s.contexts.Cons?
    ensures var r := CreateNode(s, name, kind);
            Tame(r) && (r.Ok? ==> Parsing(r.value, ExecMode, final))
  {
    hide DoResolveNew, InstallNode, Parsing;
    ParsingReady(s, ExecMode, final);
    var place := DoResolveNew(s.ns, s.contexts.head.handle, name);
    ResolveNewFaults(s.ns, s.contexts.head.handle, name);
    if place.Ok? { InstallSafe(s, place.value, kind, final); }
  }

  /** A reply changes variables and objects, and nothing the invariant speaks of. */
  lemma AnsweredSafe(s: State, mode: Mode, final: nat)
    requires Parsing(s, mode, final)
    ensures var r := Answered(s); Tame(r) && (r.Ok? ==> Parsing(r.value.1, mode, final))
  {
    if s.replies != [] && s.replies[0].Replied? {
      var s' := Answered(s).value.1;
      RebindKeepsCalls(s.contexts, s.replies[0].variables);
      StackedCalls(s.items, s.contexts, s.blocks, s'.contexts);
      CreatedCalls(s.contexts, s'.contexts);
      RefillKeepsOwned(s.ns, s.replies[0].contents, AllCreated(s.contexts));
      CalledGrows(s.items, s.operands, [], s.ns, s'.ns);
      assert s.operands + [] == s.operands;
    }
  }

  lemma RefillKeepsOwned(ns: Space, contents: map<nat, Object>, created: seq<nat>)
    ensures MethodsKept(ns, Refill(ns, contents))
    ensures Owned(created, ns) ==> Owned(created, Refill(ns, contents))
  {
    forall n | n in ns.nodes ensures KeyOf(Refill(ns, contents), n) == KeyOf(ns, n) {}
    if Owned(created, ns) {
      forall i | 0 <= i < |created| ensures Installed(Refill(ns, contents), created[i]) {
        assert Installed(ns, created[i]);
      }
    }
  }

  lemma OrAnsweredSafe(s: State, r: Res<Object>, mode: Mode, final: nat)
    requires Parsing(s, mode, final) && (r.Fail? && r.fault != Unknown ==> Tame(r))
    ensures var answer := OrAnswered(s, r); Tame(answer) && (answer.Ok? ==> Parsing(answer.value.1, mode, final))
  {
    hide Parsing;
    AnsweredSafe(s, mode, final);
  }

  lemma ParseReferenceSafe(s: State, mode: Mode, name: AmlName, final: nat)
    requires Ready(s) && Parsing(s, mode, final)
    ensures Safe(ParseReference(s, mode, name), final)
  {
    hide DoResolve, Parsing, Inv;
    ParsingIsStatement(s, mode, final);
    if mode == UnresolvedMode {
      PushOperandSafe(s, mode, UnresolvedName(name), final);
    } else if mode == DataMode {
      PushOperandSafe(s, mode, Value(Opaque(LazyForm, 0)), final);
    } else {
      ResolveFaults(s.ns, s.contexts.head.handle, name);
      var target := DoResolve(s.ns, s.contexts.head.handle, name);
      if target.Ok? && target.value.Some? {
        var n := target.value.value;
        var kind := KindOf(s.ns, n);
        if IsTargetMode(mode) {
          PushOperandSafe(s, mode, ResolvedName(n), final);
        } else if kind.Some? && kind.value.Method? {
          PushInvokeSafe(s, mode, n, kind.value.flags % 8, final);
        } else {
          OrAnsweredSafe(s, Access(s.ns, n), mode, final);
          var answer := OrAnswered(s, Access(s.ns, n));
          if answer.Ok? {
            ParsingIsStatement(answer.value.1, mode, final);
            if WantsResult(mode) { PushOperandSafe(answer.value.1, mode, Value(answer.value.0), final); }
          }
        }
      }
      if mode == OptionalReferenceMode { PushOperandSafe(s, mode, MissingName, final); }
    }
  }

  lemma ParseDataSafe(s: State, mode: Mode, v: Object, final: nat)
    requires Parsing(s, mode, final)
    ensures Safe(ParseData(s, mode, v), final)
  {
    hide Parsing, Inv;
    ParsingIsStatement(s, mode, final);
    if WantsResult(mode) { PushOperandSafe(s, mode, Value(v), final); }
  }

  lemma ParseVariableSafe(s: State, mode: Mode, variable: Operand, final: nat)
    requires Ready(s) && Parsing(s, mode, final) && (variable.ArgName? || variable.LocalName?)
    ensures Safe(ParseVariable(s, mode, variable), final)
  {
    hide Parsing, Inv;
    if IsTargetMode(mode) { PushOperandSafe(s, mode, variable, final); }
    if mode == ObjectMode && Load(EnvOf(s), variable).Ok? {
      PushOperandSafe(s, mode, Value(Load(EnvOf(s), variable).value), final);
    }
  }

  lemma ParseIfSafe(s: State, pc: nat, final: nat)
    requires Ready(s) && Parsing(s, ExecMode, final)
    ensures Safe(ParseIf(s, pc), final)
  {
    hide Parsing, Inv, ReadPackageLength;
    ReadPackageLengthFaults(s.contexts.head.code, pc + 1, s.blocks.head.limit);
    var r := ParseIf(s, pc);
    var size := ReadPackageLength(s.contexts.head.code, pc + 1, s.blocks.head.limit);
    if size.Ok? {
      var ifLimit := pc + 1 + size.value.0;
      ReadPackageLengthFaults(s.contexts.head.code, ifLimit + 1, s.blocks.head.limit);
      if r.Ok? {
        var next := CommitPc(s, r.value.blocks.tail.head.pc);
        CommitParsing(s, ExecMode, r.value.blocks.tail.head.pc, final);
        PushBlockItemSafe(next, r.value.items.head, size.value.1, ifLimit, final);
      }
    }
  }

  lemma ReadPackageLengthFaults(code: seq<byte>, pc: nat, limit: int)
    ensures Tame(ReadPackageLength(code, pc, limit))
  {
  }

  lemma ParseWhileSafe(s: State, pc: nat, final: nat)
    requires Ready(s) && Parsing(s, ExecMode, final)
    ensures Safe(ParseWhile(s, pc), final)
  {
    hide Parsing, Inv, ReadPackageLength;
    ReadPackageLengthFaults(s.contexts.head.code, pc + 1, s.blocks.head.limit);
    var size := ReadPackageLength(s.contexts.head.code, pc + 1, s.blocks.head.limit);
    if size.Ok? {
      var end := pc + 1 + size.value.0;
      CommitParsing(s, ExecMode, end, final);
      PushBlockItemSafe(CommitPc(s, end), LoopItem(|s.operands|, false, size.value.1), size.value.1, end, final);
    }
  }

  lemma ParseScopeSafe(s: State, pc: nat, final: nat)
    requires Ready(s) && Parsing(s, ExecMode, final)
    ensures Safe(ParseScope(s, pc), final)
  {
    hide Parsing, Inv, ReadPackageLength, ParseName, DoResolve;
    var code := s.contexts.head.code;
    ReadPackageLengthFaults(code, pc + 1, s.blocks.head.limit);
    var size := ReadPackageLength(code, pc + 1, s.blocks.head.limit);
    if size.Ok? {
      ParseNameFaults(code, size.value.1);
      var name := ParseName(code, size.value.1);
      var end := pc + 1 + size.value.0;
      CommitParsing(s, ExecMode, end, final);
      if name.Ok? {
        ResolveFaults(s.ns, s.contexts.head.handle, name.value.0);
        var target := DoResolve(s.ns, s.contexts.head.handle, name.value.0);
        if target.Ok? && target.value.Some? {
          PushPopulateSafe(CommitPc(s, end), code, target.value.value, name.value.1, end, final);
        }
      }
    }
  }

  lemma HeaderFaults(code: seq<byte>, opcode: nat, pc: nat, limit: int)
    ensures Tame(ReadHeader(code, opcode, pc, limit))
  {
  }

  lemma ParseDeviceSafe(s: State, opcode: nat, pc: nat, final: nat)
    requires Ready(s) && Parsing(s, ExecMode, final)
    ensures Safe(ParseDevice(s, opcode, pc), final)
  {
    hide Parsing, Inv, ReadPackageLength, ParseName, CreateNode, ReadHeader;
    var code := s.contexts.head.code;
    ReadPackageLengthFaults(code, pc + 2, s.blocks.head.limit);
    var size := ReadPackageLength(code, pc + 2, s.blocks.head.limit);
    if size.Ok? {
      ParseNameFaults(code, size.value.1);
      var name := ParseName(code, size.value.1);
      var end := pc + 2 + size.value.0;
      CommitParsing(s, ExecMode, end, final);
      if name.Ok? {
        HeaderFaults(code, opcode, name.value.1, s.blocks.head.limit);
        var header := ReadHeader(code, opcode, name.value.1, s.blocks.head.limit);
        if header.Ok? {
          CreateSafe(CommitPc(s, end), name.value.0, header.value.0, final);
          var r := CreateNode(CommitPc(s, end), name.value.0, header.value.0);
          if r.Ok? { PushPopulateSafe(r.value, code, s.ns.next, header.value.1, end, final); }
        }
      }
    }
  }

  lemma CreateLeafSafe(s: State, pc: nat, name: AmlName, kind: Kind, final: nat)
    requires Ready(s) && Parsing(s, ExecMode, final)
    ensures Safe(CreateNode(CommitPc(s, pc), name, kind), final)
  {
    hide Parsing, Inv, CreateNode;
    CommitParsing(s, ExecMode, pc, final);
    CreateSafe(CommitPc(s, pc), name, kind, final);
    var r := CreateNode(CommitPc(s, pc), name, kind);
    if r.Ok? { ParsingIsStatement(r.value, ExecMode, final); }
  }

  lemma ParseSyncSafe(s: State, opcode: nat, pc: nat, final: nat)
    requires Ready(s) && Parsing(s, ExecMode, final)
    ensures Safe(ParseSync(s, opcode, pc), final)
  {
    hide Parsing, Inv, ParseName, CreateNode;
    var code := s.contexts.head.code;
    ParseNameFaults(code, pc);
    var name := ParseName(code, pc);
    if name.Ok? {
      CreateLeafSafe(s, name.value.1 + 1, name.value.0, Other(Mutex), final);
      CreateLeafSafe(s, name.value.1, name.value.0, Other(Event), final);
    }
  }

  lemma ParseExternalSafe(s: State, pc: nat, final: nat)
    requires Ready(s) && Parsing(s, ExecMode, final)
    ensures Safe(ParseExternal(s, pc), final)
  {
    hide Parsing, Inv, ParseName;
    ParseNameFaults(s.contexts.head.code, pc);
    var r := ParseExternal(s, pc);
    if r.Ok? {
      CommitParsing(s, ExecMode, r.value.blocks.head.pc, final);
      ParsingIsStatement(r.value, ExecMode, final);
    }
  }

  lemma {:induction false} InstallFieldsSafe(s: State, code: seq<byte>, register: Register, flags: byte, offset: nat,
                                             pc: nat, end: int, limit: int, final: nat)
    requires Ready(s) && Parsing(s, ExecMode, final)
    ensures var r := InstallFields(s, code, register, flags, offset, pc, end, limit);
            Tame(r) && (r.Ok? ==> Parsing(r.value.0, ExecMode, final))
    decreases end - pc
  {
    hide Parsing, ReadPackageLength, ParseName, CreateNode;
    if pc < end && pc < |code| {
      if code[pc] == 0 {
        ReadPackageLengthFaults(code, pc + 1, limit);
        var bits := ReadPackageLength(code, pc + 1, limit);
        if bits.Ok? {
          InstallFieldsSafe(s, code, register, flags, offset + bits.value.0, bits.value.1, end, limit, final);
        }
      } else if code[pc] == 1 {
        if pc + 1 < |code| {
          InstallFieldsSafe(s, code, register, code[pc + 1], offset, pc + 3, end, limit, final);
        }
      } else if code[pc] != 2 {
        ParseNameFaults(code, pc);
        var name := ParseName(code, pc);
        if name.Ok? {
          ReadPackageLengthFaults(code, name.value.1, limit);
          var bits := ReadPackageLength(code, name.value.1, limit);
          if bits.Ok? {
            var kind := FieldUnit(register, flags, offset, bits.value.0);
            CreateSafe(s, name.value.0, kind, final);
            var s' := CreateNode(s, name.value.0, kind);
            if s'.Ok? {
              ParsingReady(s'.value, ExecMode, final);
              var after := offset + bits.value.0;
              InstallFieldsSafe(s'.value, code, register, flags, after, bits.value.1, end, limit, final);
            }
          }
        }
      }
    }
  }

  lemma RegisterFaults(s: State, opcode: nat, pc: nat)
    requires Ready(s)
    ensures Tame(ReadRegister(s, opcode, pc))
  {
    hide ParseName, DoResolve;
    var code, handle := s.contexts.head.code, s.contexts.head.handle;
    ParseNameFaults(code, pc);
    var name := ParseName(code, pc);
    if name.Ok? {
      ResolveFaults(s.ns, handle, name.value.0);
      ParseNameFaults(code, name.value.1);
      var other := ParseName(code, name.value.1);
      if other.Ok? { ResolveFaults(s.ns, handle, other.value.0); }
    }
  }

  lemma ParseFieldsSafe(s: State, opcode: nat, pc: nat, final: nat)
    requires Ready(s) && Parsing(s, ExecMode, final)
    ensures Safe(ParseFields(s, opcode, pc), final)
  {
    hide Parsing, Inv, ReadPackageLength, ReadRegister, InstallFields;
    var code, limit := s.contexts.head.code, s.blocks.head.limit;
    ReadPackageLengthFaults(code, pc + 2, limit);
    var size := ReadPackageLength(code, pc + 2, limit);
    if size.Ok? {
      RegisterFaults(s, opcode, size.value.1);
      var register := ReadRegister(s, opcode, size.value.1);
      if register.Ok? && register.value.1 < |code| {
        var start, end := register.value.1 + 1, pc + 2 + size.value.0;
        InstallFieldsSafe(s, code, register.value.0, code[start - 1], 0, start, end, limit, final);
        var r := InstallFields(s, code, register.value.0, code[start - 1], 0, start, end, limit);
        if r.Ok? {
          CommitParsing(r.value.0, ExecMode, r.value.1, final);
          ParsingIsStatement(CommitPc(r.value.0, r.value.1), ExecMode, final);
        }
      }
    }
  }

  lemma ParseStringSafe(s: State, mode: Mode, pc: nat, final: nat)
    requires Ready(s) && Parsing(s, mode, final)
    ensures Safe(ParseString(s, mode, pc), final)
  {
    hide Parsing, Inv, StringEnd, ParseData;
    var end := StringEnd(s.contexts.head.code, pc, s.blocks.head.limit);
    if end.Ok? {
      CommitParsing(s, mode, end.value + 1, final);
      ParseDataSafe(CommitPc(s, end.value + 1), mode, Opaque(TextForm, end.value - pc), final);
    }
  }

  lemma ParseTimerSafe(s: State, mode: Mode, final: nat)
    requires Parsing(s, mode, final)
    ensures Safe(ParseTimer(s, mode), final)
  {
    hide Parsing, Inv;
    AnsweredSafe(s, mode, final);
    ParsingIsStatement(s, mode, final);
    var r := Answered(s);
    if WantsResult(mode) && r.Ok? { PushOperandSafe(r.value.1, mode, Value(r.value.0), final); }
  }

  lemma PushInitializedSafe(s: State, mode: Mode, opcode: nat, pc: nat, limit: nat, final: nat)
    requires Parsing(s, mode, final)
    ensures var next, frame := PushBlock(s, pc, limit), |s.operands|;
            && Inv(PushItem(next, BufferItem(frame, WantsResult(mode))), final)
            && Inv(PushOperand(PushItem(next, PackageItem(frame, 0, 0, WantsResult(mode))), Value(Uninit)), final)
  {
    ParsingIsStatement(s, mode, final);
    assert s.operands[..|s.operands|] == s.operands;
    assert (s.operands + [Value(Uninit)])[..|s.operands|] == s.operands;
  }

  lemma ParseInitializedSafe(s: State, mode: Mode, opcode: nat, pc: nat, final: nat)
    requires Ready(s) && Parsing(s, mode, final)
    ensures Safe(ParseInitialized(s, mode, opcode, pc), final)
  {
    hide Parsing, Inv, ReadPackageLength;
    ReadPackageLengthFaults(s.contexts.head.code, pc + 1, s.blocks.head.limit);
    var size := ReadPackageLength(s.contexts.head.code, pc + 1, s.blocks.head.limit);
    if size.Ok? {
      var end := pc + 1 + size.value.0;
      CommitParsing(s, mode, end, final);
      PushInitializedSafe(CommitPc(s, end), mode, opcode, size.value.1, end, final);
    }
  }

  lemma ParseObjectOpcodeSafe(s: State, mode: Mode, opcode: nat, opcodePc: nat, pc: nat, final: nat)
    requires Ready(s) && Parsing(s, mode, final)
    ensures var r := ParseObjectOpcode(s, mode, opcode, opcodePc, pc);
            Safe(r, final) || (r == Fail(Unmodelled) && opcode in {VARPACKAGE_OP, BANKFIELD_OP})
  {
    hide Parsing, Inv, ParseString, ParseTimer, ParseInitialized, CommitPc, ParseData;
    var next := CommitPc(s, pc);
    CommitParsing(s, mode, pc, final);
    CommitReady(s, pc);
    if opcode == REVISION_OP {
      ParseDataSafe(next, mode, Integer(REVISION), final);
    } else if opcode == TIMER_OP {
      ParseTimerSafe(next, mode, final);
    } else if opcode == DEBUG_OP {
      if IsTargetMode(mode) { PushOperandSafe(next, mode, DebugName, final); }
    } else if opcode == STRINGPREFIX {
      ParseStringSafe(s, mode, pc, final);
    } else if opcode in {BUFFER_OP, PACKAGE_OP} {
      ParseInitializedSafe(s, mode, opcode, opcodePc, final);
    } else if IsObjectOperator(opcode) {
      PushItemSafe(next, mode, OpItem(|s.operands|, opcode, WantsResult(mode)), final);
    } else if IsNodeOpcode(opcode) {
      PushItemSafe(next, mode, NodeItem(|s.operands|, opcode), final);
    }
  }

  lemma ParseMethodSafe(s: State, pc: nat, final: nat)
    requires Ready(s) && Parsing(s, ExecMode, final)
    ensures Safe(ParseMethod(s, pc), final)
  {
    hide Parsing, Inv, ReadPackageLength, ParseName, CreateNode;
    var code := s.contexts.head.code;
    ReadPackageLengthFaults(code, pc + 1, s.blocks.head.limit);
    var size := ReadPackageLength(code, pc + 1, s.blocks.head.limit);
    if size.Ok? {
      ParseNameFaults(code, size.value.1);
      var name := ParseName(code, size.value.1);
      var end := pc + 1 + size.value.0;
      CommitParsing(s, ExecMode, end, final);
      if name.Ok? {
        var flags := ReadInteger(code, name.value.1, 1, s.blocks.head.limit);
        if flags.Ok? {
          var kind := Method(flags.value.0 % 256,
                             if flags.value.1 <= |code| then code[flags.value.1..] else [], end - flags.value.1);
          CreateSafe(CommitPc(s, end), name.value.0, kind, final);
          var r := CreateNode(CommitPc(s, end), name.value.0, kind);
          if r.Ok? { ParsingIsStatement(r.value, ExecMode, final); }
        }
      }
    }
  }

  lemma ParseAliasSafe(s: State, pc: nat, final: nat)
    requires Ready(s) && Parsing(s, ExecMode, final)
    ensures Safe(ParseAlias(s, pc), final)
  {
    hide Parsing, Inv, ParseName, CreateNode, DoResolve;
    var code := s.contexts.head.code;
    ParseNameFaults(code, pc + 1);
    var target := ParseName(code, pc + 1);
    if target.Ok? {
      ParseNameFaults(code, target.value.1);
      var name := ParseName(code, target.value.1);
      if name.Ok? {
        ResolveFaults(s.ns, s.contexts.head.handle, target.value.0);
        var node := DoResolve(s.ns, s.contexts.head.handle, target.value.0);
        if node.Ok? && node.value.Some? {
          CommitParsing(s, ExecMode, name.value.1, final);
          var next := CommitPc(s, name.value.1);
          CreateSafe(next, name.value.0, Alias(node.value.value), final);
          var r := CreateNode(next, name.value.0, Alias(node.value.value));
          if r.Ok? { ParsingIsStatement(r.value, ExecMode, final); }
        }
      }
    }
  }

  lemma ParseOpcodeSafe(s: State, mode: Mode, opcode: nat, opcodePc: nat, pc: nat, final: nat)
    requires Ready(s) && Parsing(s, mode, final)
    ensures var r := ParseOpcode(s, mode, opcode, opcodePc, pc);
            Safe(r, final) || (r == Fail(Unmodelled) && opcode in {VARPACKAGE_OP, BANKFIELD_OP})
  {
    hide Parsing, Inv, ParseData, ParseVariable, ParseIf, ParseWhile, ParseScope, ParseDevice, ParseMethod,
      ParseAlias, BreakLoop, ContinueLoop, ReadInteger, CommitPc, ParseSync, ParseExternal, ParseFields,
      ParseObjectOpcode;
    var next := CommitPc(s, pc);
    CommitParsing(s, mode, pc, final);
    ParsingIsStatement(s, mode, final);
    ParsingIsStatement(next, mode, final);
    CommitReady(s, pc);
    if opcode == ZERO_OP && IsTargetMode(mode) {
      PushOperandSafe(next, mode, NullName, final);
    } else if opcode in {ZERO_OP, ONE_OP, ONES_OP} {
      ParseDataSafe(next, mode, Integer(if opcode == ZERO_OP then 0 else if opcode == ONE_OP then 1 else TWO64 - 1),
                    final);
    } else if opcode in {BYTEPREFIX, WORDPREFIX, DWORDPREFIX, QWORDPREFIX} {
      var value := ReadInteger(s.contexts.head.code, pc, PrefixWidth(opcode), s.blocks.head.limit);
      IntegerFaults(s.contexts.head.code, pc, PrefixWidth(opcode), s.blocks.head.limit);
      if value.Ok? {
        CommitParsing(s, mode, value.value.1, final);
        ParseDataSafe(CommitPc(s, value.value.1), mode, Integer(Wrap(value.value.0)), final);
      }
    } else if ARG0_OP <= opcode <= ARG6_OP {
      ParseVariableSafe(next, mode, ArgName(opcode - ARG0_OP), final);
    } else if LOCAL0_OP <= opcode <= LOCAL7_OP {
      ParseVariableSafe(next, mode, LocalName(opcode - LOCAL0_OP), final);
    } else if IsOperator(opcode) {
      PushItemSafe(next, mode, OpItem(|s.operands|, opcode, WantsResult(mode)), final);
    } else if opcode == RETURN_OP {
      PushItemSafe(next, mode, ReturnItem(|s.operands|), final);
    } else if opcode == NAME_OP {
      PushItemSafe(next, mode, NodeItem(|s.operands|, NAME_OP), final);
    } else {
      ParseStatementSafe(s, opcode, opcodePc, pc, final);
      ParseObjectOpcodeSafe(s, mode, opcode, opcodePc, pc, final);
    }
  }

  /** Everything that is a statement in any mode. */
  lemma ParseStatementSafe(s: State, opcode: nat, opcodePc: nat, pc: nat, final: nat)
    requires Ready(s) && Parsing(s, ExecMode, final)
    ensures Safe(ParseIf(s, opcodePc), final) && Safe(ParseWhile(s, opcodePc), final)
    ensures Safe(ParseScope(s, opcodePc), final) && Safe(ParseDevice(s, opcode, opcodePc), final)
    ensures Safe(ParseMethod(s, opcodePc), final) && Safe(ParseAlias(s, opcodePc), final)
    ensures Safe(BreakLoop(s), final) && Safe(ContinueLoop(s), final)
    ensures Safe(ParseSync(s, opcode, pc), final) && Safe(ParseExternal(s, pc), final)
    ensures Safe(ParseFields(s, opcode, opcodePc), final)
  {
    hide Safe;
    ParseIfSafe(s, opcodePc, final);
    ParseWhileSafe(s, opcodePc, final);
    ParseScopeSafe(s, opcodePc, final);
    ParseDeviceSafe(s, opcode, opcodePc, final);
    ParseMethodSafe(s, opcodePc, final);
    ParseAliasSafe(s, opcodePc, final);
    BreakSafe(s, final);
    ContinueSafe(s, final);
    ParseSyncSafe(s, opcode, pc, final);
    ParseExternalSafe(s, pc, final);
    ParseFieldsSafe(s, opcode, opcodePc, final);
  }

  lemma IntegerFaults(code: seq<byte>, pc: nat, width: nat, limit: int)
    ensures Tame(ReadInteger(code, pc, width, limit))
  {
  }

  lemma CommitReady(s: State, pc: nat)
    requires Ready(s)
    ensures Ready(CommitPc(s, pc)) && CommitPc(s, pc).operands == s.operands && CommitPc(s, pc).items == s.items
  {
  }

  lemma ParseImmediateSafe(s: State, width: nat, final: nat)
    requires Ready(s) && Parsing(s, ImmediateMode(width), final)
    ensures Safe(ParseImmediate(s, width), final)
  {
    hide Parsing, Inv, ReadInteger;
    var pc := s.blocks.head.pc;
    IntegerFaults(s.contexts.head.code, pc, width, s.blocks.head.limit);
    var value := ReadInteger(s.contexts.head.code, pc, width, s.blocks.head.limit);
    if value.Ok? {
      CommitParsing(s, ImmediateMode(width), value.value.1, final);
      PushOperandSafe(CommitPc(s, value.value.1), ImmediateMode(width), Value(Integer(Wrap(value.value.0))), final);
    }
  }

  /** One call of `lai_exec_parse` on arbitrary bytes. */
  lemma ParseSafe(s: State, mode: Mode, final: nat)
    requires Parsing(s, mode, final)
    ensures SafeFrom(s, Parse(s, mode), final)
  {
    hide Parsing, Inv, ParseOpcode, ParseName, ParseReference, ParseImmediate;
    ParsingReady(s, mode, final);
    var code, pc, limit := s.contexts.head.code, s.blocks.head.pc, s.blocks.head.limit;
    if pc < limit && mode.ImmediateMode? {
      ParseImmediateSafe(s, mode.width, final);
    } else if pc < limit && pc < |code| {
      if IsName(code[pc]) {
        ParseNameFaults(code, pc);
        var name := ParseName(code, pc);
        if name.Ok? {
          CommitParsing(s, mode, name.value.1, final);
          ParseReferenceSafe(CommitPc(s, name.value.1), mode, name.value.0, final);
        }
      } else if code[pc] != EXTOP_PREFIX {
        ParseOpcodeSafe(s, mode, code[pc], pc, pc + 1, final);
      } else if pc + 1 != limit && pc + 1 < |code| {
        ParseOpcodeSafe(s, mode, 256 * EXTOP_PREFIX + code[pc + 1], pc, pc + 2, final);
      }
    }
  }

  // ------------------------------------------------------------------------------------
  // lai_exec_process, item by item.
  // ------------------------------------------------------------------------------------

  /** An item that still has room may parse one more term in the mode it asks for. */
  lemma MayParse(s: State, mode: Mode, final: nat)
    requires Inv(s, final) && s.items.Cons?
    requires HasRoom(s.items.head, |s.operands|, if WantsResult(mode) then 1 else 0)
    requires Fits(s.items.head, |s.operands|, mode)
    ensures Parsing(s, mode, final)
  {
  }

  lemma BodySafe(s: State, atEnd: Res<State>, final: nat)
    requires Inv(s, final) && s.items.Cons? && Ready(s) && Capacity(s.items.head) == 0
    requires s.blocks.head.pc == s.blocks.head.limit ==> Safe(atEnd, final)
    ensures SafeFrom(s, ProcessBody(s, atEnd), final)
  {
    hide Parse;
    MayParse(s, ExecMode, final);
    ParseSafe(s, ExecMode, final);
  }

  /** Popping a block-owning item whose operands are all consumed. */
  lemma LeaveBlockSafe(s: State, final: nat)
    requires Inv(s, final) && s.items.Cons? && (s.items.head.LoopItem? || s.items.head.CondItem?)
    requires s.items.head.frame == |s.operands|
    ensures Safe(LeaveBlock(s), final)
  {
    BelowFits(s.items.tail, |s.operands|, 0, final);
    assert s.operands[..|s.operands|] == s.operands;
  }

  /** Dropping the operand a predicate was read from. */
  lemma ConsumeSafe(s: State, item: Item, final: nat)
    requires Inv(s, final) && s.items.Cons? && (s.items.head.LoopItem? || s.items.head.CondItem?)
    requires |s.operands| == s.items.head.frame + 1
    requires (item.LoopItem? && s.items.head.LoopItem?) || (item.CondItem? && s.items.head.CondItem?)
    requires item.frame == s.items.head.frame
    ensures Inv(SetTop(s.(operands := s.operands[..item.frame]), item), final)
  {
    var frame := item.frame;
    assert s.operands[..frame][..frame] == s.operands[..frame];
  }

  lemma LoopSafe(s: State, final: nat)
    requires Inv(s, final) && s.items.Cons? && s.items.head.LoopItem? && Ready(s)
    ensures SafeFrom(s, ProcessLoop(s), final)
  {
    hide Parse;
    var LoopItem(frame, iterating, predicatePc) := s.items.head;
    if iterating {
      StackedPc(s.items, s.contexts, s.blocks, predicatePc);
      BodySafe(s, Ok(SetTop(CommitPc(s, predicatePc), LoopItem(frame, false, predicatePc))), final);
    } else if |s.operands| == frame {
      MayParse(s, ObjectMode, final);
      ParseSafe(s, ObjectMode, final);
    } else {
      ConsumeSafe(s, LoopItem(frame, true, predicatePc), final);
      ConsumeSafe(s, s.items.head, final);
      LeaveBlockSafe(s.(operands := s.operands[..frame]), final);
    }
  }

  lemma CondSafe(s: State, final: nat)
    requires Inv(s, final) && s.items.Cons? && s.items.head.CondItem? && Ready(s)
    ensures SafeFrom(s, ProcessCond(s), final)
  {
    hide Parse;
    var item := s.items.head;
    if item.inBranch {
      LeaveBlockSafe(s, final);
      BodySafe(s, LeaveBlock(s), final);
    } else if |s.operands| == item.frame {
      MayParse(s, ObjectMode, final);
      ParseSafe(s, ObjectMode, final);
    } else {
      ConsumeSafe(s, item.(inBranch := true), final);
      ConsumeSafe(s, item, final);
      LeaveBlockSafe(s.(operands := s.operands[..item.frame]), final);
    }
  }

  /** A finished item with its operands removed, and possibly one result pushed. */
  lemma FinishSafe(s: State, results: seq<Operand>, final: nat)
    requires Inv(s, final) && s.items.Cons? && Framed(s.items.head) && |results| == Gain(s.items.head)
    requires !OwnsBlock(s.items.head) && AllValues(results)
    ensures Inv(s.(items := s.items.tail, operands := s.operands[..s.items.head.frame] + results), final)
  {
    var frame := s.items.head.frame;
    BelowFits(s.items.tail, frame, Gain(s.items.head), final);
    CalledGrows(s.items.tail, s.operands[..frame], results, s.ns, s.ns);
  }

  /** A finished BUFFER or PACKAGE leaves its block as well. */
  lemma FinishBlockSafe(s: State, results: seq<Operand>, final: nat)
    requires Inv(s, final) && s.items.Cons? && (s.items.head.BufferItem? || s.items.head.PackageItem?)
    requires |results| == Gain(s.items.head) && AllValues(results)
    ensures s.blocks.Cons?
    ensures Inv(s.(items := s.items.tail, blocks := s.blocks.tail,
                   operands := s.operands[..s.items.head.frame] + results), final)
  {
    var frame := s.items.head.frame;
    BelowFits(s.items.tail, frame, Gain(s.items.head), final);
    CalledGrows(s.items.tail, s.operands[..frame], results, s.ns, s.ns);
  }

  lemma EnvSafe(s: State, env: Env, final: nat)
    requires Inv(s, final) && Ready(s) && Harmless(EnvOf(s), env)
    ensures Inv(WithEnv(s, env), final)
  {
    StackedEnv(s.items, s.contexts, s.blocks, env.invocation);
    CalledGrows(s.items, s.operands, [], s.ns, env.ns);
    assert s.operands + [] == s.operands;
    assert AllCreated(WithEnv(s, env).contexts) == AllCreated(s.contexts);
  }

  /** The same for an item that is about to finish. */
  lemma AnsweredInv(s: State, final: nat)
    requires Inv(s, final)
    ensures var r := Answered(s); Tame(r) && (r.Ok? ==> Inv(r.value.1, final))
  {
    if s.replies != [] && s.replies[0].Replied? {
      var s' := Answered(s).value.1;
      RebindKeepsCalls(s.contexts, s.replies[0].variables);
      StackedCalls(s.items, s.contexts, s.blocks, s'.contexts);
      CreatedCalls(s.contexts, s'.contexts);
      RefillKeepsOwned(s.ns, s.replies[0].contents, AllCreated(s.contexts));
      CalledGrows(s.items, s.operands, [], s.ns, s'.ns);
      assert s.operands + [] == s.operands;
    }
  }

  lemma ReductionSafe(s: State, opcode: nat, operands: seq<Operand>, final: nat)
    requires Inv(s, final) && Ready(s) && HasOperands(opcode) && |operands| == OperandCount(opcode)
    requires forall k: nat :: k < |operands| && GivesValue(ModeOf(opcode, k)) ==> operands[k].Value?
    ensures var r := Reduction(s, opcode, operands); Tame(r) && (r.Ok? ==> Inv(r.value.1, final))
  {
    hide Inv, ReduceOp, Answered;
    AnsweredInv(s, final);
    if IsOperator(opcode) {
      ReduceIsHarmless(opcode, EnvOf(s), operands);
      var r := ReduceOp(opcode, EnvOf(s), operands);
      if r.Ok? { EnvSafe(s, r.value.1, final); }
    }
  }

  lemma OpSafe(s: State, final: nat)
    requires Inv(s, final) && s.items.Cons? && s.items.head.OpItem? && Ready(s)
    ensures SafeFrom(s, ProcessOp(s), final)
  {
    hide Parse, Reduction, Inv;
    InvHeld(s, final);
    var OpItem(frame, opcode, want) := s.items.head;
    var k := |s.operands| - frame;
    if k < OperandCount(opcode) {
      assert WantsResult(ModeOf(opcode, k));
      MayParse(s, ModeOf(opcode, k), final);
      ParseSafe(s, ModeOf(opcode, k), final);
    } else {
      ReductionSafe(s, opcode, s.operands[frame..], final);
      var r := Reduction(s, opcode, s.operands[frame..]);
      if r.Ok? { FinishSafe(r.value.1, if want then [Value(r.value.0)] else [], final); }
    }
  }

  lemma InvHeld(s: State, final: nat)
    requires Inv(s, final) && s.items.Cons?
    ensures Held(s.items.head, |s.operands|)
    ensures Framed(s.items.head) ==> Tagged(s.items.head, s.operands[s.items.head.frame..])
    ensures s.items.head.InvokeItem? ==> IsMethod(s.ns, s.operands[s.items.head.frame])
  {
  }

  lemma IntegerTame(o: Operand)
    requires o.Value?
    ensures Tame(GetInteger(o)) && Tame(GetObject(o))
  {
  }

  lemma LoadTame(env: Env, o: Operand)
    ensures Load(env, o).Fail? && Load(env, o).fault != Unknown ==> Tame(Load(env, o))
  {
  }

  lemma AnswerInv(s: State, r: Res<Object>, final: nat)
    requires Inv(s, final) && (r.Fail? && r.fault != Unknown ==> Tame(r))
    ensures var answer := OrAnswered(s, r); Tame(answer) && (answer.Ok? ==> Inv(answer.value.1, final))
  {
    hide Inv;
    AnsweredInv(s, final);
  }

  /** The state after a node has been reduced, with its item still on the stack. */
  ghost predicate Reduced(s: State, s': State, final: nat) {
    && s'.items == s.items && s.items.Cons? && s.items.head.NodeItem? && s.items.head.frame <= |s.operands|
    && Inv(s'.(items := s.items.tail, operands := s.operands[..s.items.head.frame]), final)
  }

  lemma ReduceBufferFieldSafe(s: State, opcode: nat, operands: seq<Operand>, final: nat)
    requires Inv(s, final) && s.items.Cons? && s.items.head.NodeItem? && Ready(s)
    requires opcode != NAME_OP && IsNodeOpcode(opcode) && |operands| == |NodeModes(opcode)|
    requires Tagged(NodeItem(s.items.head.frame, opcode), operands)
    ensures var r := ReduceBufferField(s, opcode, operands); Tame(r) && (r.Ok? ==> Reduced(s, r.value, final))
  {
    hide InstallQuietly, Inv, DoResolveNew, OrAnswered, Load;
    InvHeld(s, final);
    FinishNodeSafe(s, final);
    assert Tame(FieldPlace(opcode, operands));
    var target := operands[|operands| - 1];
    if FieldPlace(opcode, operands).Ok? && target.UnresolvedName? {
      ResolveNewFaults(s.ns, s.contexts.head.handle, target.name);
      var place := DoResolveNew(s.ns, s.contexts.head.handle, target.name);
      LoadTame(EnvOf(s), operands[0]);
      AnswerInv(s, Load(EnvOf(s), operands[0]), final);
      var buffer := OrAnswered(s, Load(EnvOf(s), operands[0]));
      if place.Ok? && buffer.Ok? {
        var (start, length) := FieldPlace(opcode, operands).value;
        InstallQuietlySafe(buffer.value.1, place.value, BufferField(start, length), final);
      }
    }
  }

  lemma FinishNodeSafe(s: State, final: nat)
    requires Inv(s, final) && s.items.Cons? && s.items.head.NodeItem?
    ensures Reduced(s, s, final)
  {
    FinishSafe(s, [], final);
    assert s.operands[..s.items.head.frame] + [] == s.operands[..s.items.head.frame];
  }

  lemma ReduceNodeSafe(s: State, opcode: nat, operands: seq<Operand>, final: nat)
    requires Inv(s, final) && s.items.Cons? && s.items.head.NodeItem? && Ready(s)
    requires IsNodeOpcode(opcode) && |operands| == |NodeModes(opcode)|
    requires Tagged(NodeItem(s.items.head.frame, opcode), operands)
    ensures var r := ReduceNode(s, opcode, operands); Tame(r) && (r.Ok? ==> Reduced(s, r.value, final))
  {
    hide InstallQuietly, Inv, DoResolveNew, ReduceBufferField, Reduced;
    FinishNodeSafe(s, final);
    if opcode == NAME_OP || opcode == OPREGION_OP {
      if operands[0].UnresolvedName? {
        ResolveNewFaults(s.ns, s.contexts.head.handle, operands[0].name);
        var place := DoResolveNew(s.ns, s.contexts.head.handle, operands[0].name);
        if place.Ok? {
          if operands[1].Value? { InstallQuietlySafe(s, place.value, NameObject(operands[1].v), final); }
          InstallQuietlySafe(s, place.value, Other(OpRegion), final);
        }
      }
    } else {
      ReduceBufferFieldSafe(s, opcode, operands, final);
    }
  }

  lemma NodeSafe(s: State, final: nat)
    requires Inv(s, final) && s.items.Cons? && s.items.head.NodeItem? && Ready(s)
    ensures SafeFrom(s, ProcessNode(s), final)
  {
    hide Parse, ReduceNode, Inv;
    InvHeld(s, final);
    var NodeItem(frame, opcode) := s.items.head;
    var k := |s.operands| - frame;
    if k < |NodeModes(opcode)| {
      assert WantsResult(NodeModes(opcode)[k]);
      MayParse(s, NodeModes(opcode)[k], final);
      ParseSafe(s, NodeModes(opcode)[k], final);
    } else {
      ReduceNodeSafe(s, opcode, s.operands[frame..], final);
    }
  }

  lemma InstallQuietlySafe(s: State, place: (nat, Segment), kind: Kind, final: nat)
    requires Inv(s, final) && s.items.Cons? && s.items.head.NodeItem? && Ready(s)
    ensures Reduced(s, InstallQuietly(s, place, kind), final)
  {
    hide Inv;
    FinishNodeSafe(s, final);
    InstallUnder(s, place, kind, final);
  }

  /** Installing a node while the declaring item, about to finish, is still on the stack. */
  lemma InstallUnder(s: State, place: (nat, Segment), kind: Kind, final: nat)
    requires Inv(s, final) && s.items.Cons? && s.items.head.NodeItem? && Ready(s)
    ensures var r := InstallNode(s, place, kind); r.Ok? ==> Reduced(s, r.value, final)
  {
    hide InstallNode;
    var frame := s.items.head.frame;
    var below := s.(items := s.items.tail, operands := s.operands[..frame]);
    assert Parsing(below, ExecMode, final);
    InstallSafe(below, place, kind, final);
    InstallCommutes(s, below.items, below.operands, place, kind);
    var r := InstallNode(below, place, kind);
    if r.Ok? { ParsingIsStatement(r.value, ExecMode, final); }
  }

  lemma InstallCommutes(s: State, items: List<Item>, operands: seq<Operand>, place: (nat, Segment), kind: Kind)
    requires s.contexts.Cons?
    ensures var s' := s.(items := items, operands := operands);
            var r, r' := InstallNode(s, place, kind), InstallNode(s', place, kind);
            && (r.Ok? <==> r'.Ok?)
            && (r.Ok? ==> r'.value == r.value.(items := items, operands := operands) && r.value.items == s.items)
  {
  }

  lemma CallSafe(s: State, final: nat)
    requires Inv(s, final) && s.items.Cons? && s.items.head.InvokeItem? && Ready(s)
    requires |s.operands| == s.items.head.frame + 1 + s.items.head.argc
    ensures Safe(Call(s), final)
  {
    var frame := s.items.head.frame;
    GetObjectsFaults(s.operands[frame + 1..]);
    assert AllCreated(s.contexts) + [] == AllCreated(s.contexts);
  }

  lemma InvokeSafe(s: State, final: nat)
    requires Inv(s, final) && s.items.Cons? && s.items.head.InvokeItem? && Ready(s)
    ensures SafeFrom(s, ProcessInvoke(s), final)
  {
    hide Parse, Call, Inv;
    InvHeld(s, final);
    if |s.operands| == s.items.head.frame + 1 + s.items.head.argc {
      CallSafe(s, final);
    } else {
      MayParse(s, ObjectMode, final);
      ParseSafe(s, ObjectMode, final);
    }
  }

  lemma ProcessReturnSafe(s: State, final: nat)
    requires Inv(s, final) && s.items.Cons? && s.items.head.ReturnItem? && Ready(s)
    ensures SafeFrom(s, ProcessReturn(s), final)
  {
    hide Parse, ReturnFrom;
    var frame := s.items.head.frame;
    if |s.operands| == frame {
      MayParse(s, ObjectMode, final);
      ParseSafe(s, ObjectMode, final);
    } else if GetObject(s.operands[frame]).Ok? {
      var below := s.(operands := s.operands[..frame], items := s.items.tail);
      assert Parsing(below, ExecMode, final);
      ReturnSafe(below, GetObject(s.operands[frame]).value, final);
    }
  }

  lemma CreateBufferSafe(s: State, size: Object, final: nat)
    requires Inv(s, final) && Ready(s)
    ensures var r := CreateBuffer(s, size); Tame(r) && (r.Ok? ==> Inv(r.value.1, final))
  {
    hide Inv;
    AnsweredInv(s, final);
    if size.Integer? { AnswerInv(s, FillBuffer(s, size.n), final); }
    AnswerInv(s, FillBuffer(s, 0), final);
  }

  lemma BufferSafe(s: State, final: nat)
    requires Inv(s, final) && s.items.Cons? && s.items.head.BufferItem? && Ready(s)
    ensures SafeFrom(s, ProcessBuffer(s), final)
  {
    hide Parse, CreateBuffer, Inv;
    InvHeld(s, final);
    var BufferItem(frame, want) := s.items.head;
    if |s.operands| == frame {
      MayParse(s, ObjectMode, final);
      ParseSafe(s, ObjectMode, final);
    } else if GetObject(s.operands[frame]).Ok? {
      CreateBufferSafe(s, GetObject(s.operands[frame]).value, final);
      var r := CreateBuffer(s, GetObject(s.operands[frame]).value);
      if r.Ok? { FinishBlockSafe(r.value.1, if want then [Value(r.value.0)] else [], final); }
    }
  }

  lemma CreatePackageSafe(s: State, final: nat)
    requires Inv(s, final) && s.items.Cons? && s.items.head.PackageItem? && s.items.head.phase == 1
    ensures Safe(CreatePackage(s), final)
  {
    var PackageItem(frame, phase, index, want) := s.items.head;
    IntegerTame(s.operands[frame + 1]);
    var size := GetInteger(s.operands[frame + 1]);
    if size.Ok? {
      var operands := s.operands[..frame] + [Value(Opaque(PackageForm, size.value))];
      assert operands[..frame] == s.operands[..frame];
    }
  }

  lemma StoreInitializerSafe(s: State, final: nat)
    requires Inv(s, final) && s.items.Cons? && s.items.head.PackageItem? && s.items.head.phase == 2
    ensures var r := StoreInitializer(s);
            && Safe(r, final)
            && (r.Ok? ==>
                  && r.value.(items := s.items, operands := s.operands) == s && r.value.items.Cons?
                  && r.value.items.head.PackageItem? && r.value.items.tail == s.items.tail
                  && r.value.items.head.(index := s.items.head.index) == s.items.head
                  && |r.value.operands| == s.items.head.frame + 1
                  && r.value.operands[..s.items.head.frame] == s.operands[..s.items.head.frame])
  {
    var PackageItem(frame, phase, index, want) := s.items.head;
    if |s.operands| == frame + 2 {
      assert s.operands[..frame + 1][..frame] == s.operands[..frame];
    }
  }

  lemma PackageSafe(s: State, final: nat)
    requires Inv(s, final) && s.items.Cons? && s.items.head.PackageItem? && Ready(s)
    ensures SafeFrom(s, ProcessPackage(s), final)
  {
    hide Parse, Inv, CreatePackage, StoreInitializer, SafeFrom;
    InvHeld(s, final);
    var PackageItem(frame, phase, index, want) := s.items.head;
    if phase == 0 {
      PackageSizeSafe(s, final);
    } else if phase == 1 {
      CreatePackageSafe(s, final);
      StrictlySafe(s, CreatePackage(s), final);
    } else {
      StoreInitializerSafe(s, final);
      var r := StoreInitializer(s);
      StrictlySafe(s, r, final);
      if r.Ok? { FillPackageSafe(s, r.value, final); }
    }
  }

  lemma StrictlySafe(s: State, r: Res<State>, final: nat)
    requires Safe(r, final)
    ensures SafeFrom(s, r, final) && (r.Fail? ==> SafeFrom(s, Fail(r.fault), final))
  {
  }

  /** The end of a package, or its next initializer. */
  lemma FillPackageSafe(s: State, s': State, final: nat)
    requires Inv(s', final) && s.items.Cons? && s.items.head.PackageItem? && Ready(s)
    requires s'.items.Cons? && s'.items.head.PackageItem? && s'.items.head.phase == 2
    requires s'.items.head.(index := s.items.head.index) == s.items.head
    requires s'.contexts == s.contexts && s'.blocks == s.blocks && |s'.operands| == s.items.head.frame + 1
    ensures var PackageItem(frame, _, _, want) := s.items.head;
            && SafeFrom(s, LeaveBlock(if want then s' else s'.(operands := s'.operands[..frame])), final)
            && SafeFrom(s, Parse(s', DataMode), final)
  {
    hide Parse, Inv;
    var PackageItem(frame, _, _, want) := s.items.head;
    InvHeld(s', final);
    assert s'.operands[frame..][0] == s'.operands[frame] && TakesValue(s'.items.head, 0);
    FinishBlockSafe(s', if want then [s'.operands[frame]] else [], final);
    assert s'.operands[..frame] + [s'.operands[frame]] == s'.operands;
    assert s'.operands[..frame] + [] == s'.operands[..frame];
    MayParse(s', DataMode, final);
    ParseSafe(s', DataMode, final);
  }

  /** The first phase of PackageOp reads the number of elements. */
  lemma PackageSizeSafe(s: State, final: nat)
    requires Inv(s, final) && s.items.Cons? && s.items.head.PackageItem? && s.items.head.phase == 0 && Ready(s)
    ensures SafeFrom(s, ProcessPackage(s), final)
  {
    var PackageItem(frame, _, index, want) := s.items.head;
    var r := Parse(s, ImmediateMode(1));
    if r.Ok? {
      StackedPc(s.items, s.contexts, s.blocks, r.value.blocks.head.pc);
      assert r.value.operands[..frame] == s.operands[..frame];
    }
  }

  lemma MethodEndSafe(s: State, final: nat)
    requires Inv(s, final) && s.items.Cons? && s.items.head.MethodItem?
    ensures Safe(ImplicitReturn(s), final)
  {
    hide LeaveMethod;
    if s.operands == [] {
      var result: seq<Operand> := if s.items.head.wantResult then [Value(Integer(0))] else [];
      BelowFits(s.items.tail, 0, Gain(s.items.head), final);
      CalledGrows(s.items.tail, s.operands, result, s.ns, s.ns);
      assert s.operands + [] == s.operands;
      LeaveSafe(s.(operands := s.operands + result), final);
    }
  }

  lemma PopulateEndSafe(s: State, final: nat)
    requires Inv(s, final) && s.items.Cons? && s.items.head.Populate?
    ensures Ready(s)
    ensures Inv(s.(items := s.items.tail, contexts := s.contexts.tail, blocks := s.blocks.tail), final)
  {
    BelowFits(s.items.tail, |s.operands|, 0, final);
    assert AllCreated(s.contexts.tail) + [] == AllCreated(s.contexts.tail);
  }

  /** One step from a state that satisfies the invariant keeps it, and no internal assertion fails. */
  lemma StepSafe(s: State, final: nat)
    requires Inv(s, final) && s.items.Cons?
    ensures SafeFrom(s, Process(s), final)
  {
    hide ProcessLoop, ProcessCond, ProcessNode, ProcessOp, ProcessInvoke, ProcessReturn, ImplicitReturn, Parse;
    hide ProcessBuffer, ProcessPackage;
    StackedReady(s.items, s.contexts, s.blocks);
    match s.items.head
    case Populate =>
      PopulateEndSafe(s, final);
      BodySafe(s, Ok(s.(items := s.items.tail, contexts := s.contexts.tail, blocks := s.blocks.tail)), final);
    case MethodItem(_) => MethodEndSafe(s, final); BodySafe(s, ImplicitReturn(s), final);
    case LoopItem(_, _, _) => LoopSafe(s, final);
    case CondItem(_, _, _, _, _) => CondSafe(s, final);
    case NodeItem(_, _) => NodeSafe(s, final);
    case OpItem(_, _, _) => OpSafe(s, final);
    case InvokeItem(_, _, _) => InvokeSafe(s, final);
    case ReturnItem(_) => ProcessReturnSafe(s, final);
    case BufferItem(_, _) => BufferSafe(s, final);
    case PackageItem(_, _, _, _) => PackageSafe(s, final);
  }

  /** At some step within the first `n` the run comes to a VarPackage or a BankField. */
  ghost predicate MeetsLeftOut(s: State, n: nat) {
    exists k: nat :: k < n && Run(Ok(s), k).Ok? && LeftOut(Run(Ok(s), k).value)
  }

  /** Every run keeps the invariant. */
  lemma {:induction false} RunSafe(s: State, n: nat, final: nat)
    requires Inv(s, final)
    ensures var r := Run(Ok(s), n); Safe(r, final) || (r == Fail(Unmodelled) && MeetsLeftOut(s, n))
    decreases n
  {
    hide Process, Inv, LeftOut;
    assert Run(Ok(s), 0) == Ok(s);
    if n > 0 && s.items.Cons? {
      StepSafe(s, final);
      if Process(s).Ok? {
        var s' := Process(s).value;
        RunSafe(s', n - 1, final);
        if Run(Ok(s'), n - 1) == Fail(Unmodelled) && MeetsLeftOut(s', n - 1) {
          var k: nat :| k < n - 1 && Run(Ok(s'), k).Ok? && LeftOut(Run(Ok(s'), k).value);
          assert Run(Ok(s), k + 1) == Run(Ok(s'), k);
        }
      } else {
        HaltedRun(Process(s), n - 1);
      }
    }
  }

  lemma HaltedRun(r: Res<State>, n: nat)
    requires Halted(r)
    ensures Run(r, n) == r
  {
    hide Process;
  }

  // ------------------------------------------------------------------------------------
  // Whole evaluations on arbitrary bytes.
  // ------------------------------------------------------------------------------------

  lemma StartInv(ns: Space, n: nat, code: seq<byte>, size: int, args: seq<Object>, replies: seq<Reply>)
    requires Numbered(ns) && |args| <= 7
    ensures Inv(Start(ns, n, code, size, args, replies), 1)
  {
    var none: seq<nat> := [];
    assert none + none == none;
  }

  /** `lai_eval_args` on any bytes whatsoever: no internal assertion fails on the way, and when the
      execution stack is empty the context and block stacks are empty too and exactly one operand
      is left, as the checks after `lai_exec_run` demand. Only a VarPackage or a BankField ends a run
      without an outcome. */
  lemma EvaluationIsSafe(ns: Space, m: nat, code: seq<byte>, size: int, args: seq<Object>, replies: seq<Reply>, n: nat)
    requires Numbered(ns) && |args| <= 7
    ensures var s := Start(ns, m, code, size, args, replies);
            var r := Run(Ok(s), n);
            && (Tame(r) || (r == Fail(Unmodelled) && MeetsLeftOut(s, n)))
            && (r.Ok? ==> Inv(r.value, 1))
            && (r.Ok? && r.value.items.Nil? ==>
                  r.value.contexts.Nil? && r.value.blocks.Nil? && |r.value.operands| == 1)
  {
    hide Run, MeetsLeftOut;
    StartInv(ns, m, code, size, args, replies);
    RunSafe(Start(ns, m, code, size, args, replies), n, 1);
  }

  /** The state in which `lai_populate` starts a table. */
  function PopulateStart(ns: Space, parent: nat, code: seq<byte>, replies: seq<Reply>): State {
    State(Cons(Context(code, parent, None), Nil), Cons(Block(0, |code|), Nil), Cons(Populate, Nil), [], ns, replies)
  }

  /** `lai_populate` on any bytes whatsoever: the same, and no operand is left. */
  lemma PopulateIsSafe(ns: Space, parent: nat, code: seq<byte>, replies: seq<Reply>, n: nat)
    requires Numbered(ns)
    ensures var s := PopulateStart(ns, parent, code, replies);
            var r := Run(Ok(s), n);
            && (Tame(r) || (r == Fail(Unmodelled) && MeetsLeftOut(s, n)))
            && (r.Ok? && r.value.items.Nil? ==>
                  r.value.contexts.Nil? && r.value.blocks.Nil? && r.value.operands == [])
  {
    hide Run, MeetsLeftOut;
    var s := PopulateStart(ns, parent, code, replies);
    assert Stacked(s.items.tail, s.contexts.tail, s.blocks.tail);
    assert Stacked(s.items, s.contexts, s.blocks);
    assert Fit(s.items, |s.operands|, 0);
    assert Called(s.items.tail, s.operands, s.ns) && Called(s.items, s.operands, s.ns);
    assert AllCreated(s.contexts.tail) == [] && AllCreated(s.contexts) == [];
    RunSafe(s, n, 0);
  }

  // ------------------------------------------------------------------------------------
  // What the invariant says about pending items.
  // ------------------------------------------------------------------------------------

  function ItemAt(items: List<Item>, i: nat): Item
    requires i < Length(items)
  {
    if i == 0 then items.head else ItemAt(items.tail, i - 1)
  }

  /** The first operand that does not belong to item `i`: where the frame of the next item above it that
      has one begins. */
  function EndOf(items: List<Item>, h: nat, i: nat): nat
    requires i < Length(items)
  {
    if i == 0 then h else EndOf(items.tail, FrameOf(items.head, h), i - 1)
  }

  /** The items of a stack in which something started with `h` operands: each holds at most its arity
      between its frame and the frame of the next item above it. */
  lemma {:induction false} BelowWithinArity(items: List<Item>, h: nat, gain: nat, final: nat, i: nat)
    requires Below(items, h, gain, final) && i < Length(items) && Framed(ItemAt(items, i))
    ensures ItemAt(items, i).frame <= EndOf(items, h, i) <= ItemAt(items, i).frame + Capacity(ItemAt(items, i))
    ensures EndOf(items, h, i) <= h
    decreases items
  {
    if i > 0 {
      BelowWithinArity(items.tail, FrameOf(items.head, h), Gain(items.head), final, i - 1);
    }
  }

  /** In every reachable state, every pending item holds at most its arity of operands: those from its
      frame up to the frame of the next item above it, or to the top of the operand stack. So frames
      never decrease up the stack. */
  lemma PendingWithinArity(s: State, final: nat, i: nat)
    requires Inv(s, final) && i < Length(s.items) && Framed(ItemAt(s.items, i))
    ensures var item, end := ItemAt(s.items, i), EndOf(s.items, |s.operands|, i);
            item.frame <= end <= item.frame + Capacity(item) && end <= |s.operands|
  {
    if i > 0 {
      BelowWithinArity(s.items.tail, FrameOf(s.items.head, |s.operands|), Gain(s.items.head), final, i - 1);
    }
  }

  lemma {:induction false} BelowTagged(items: List<Item>, operands: seq<Operand>, ns: Space, gain: nat, final: nat,
                                       i: nat, k: nat)
    requires Called(items, operands, ns) && Below(items, |operands|, gain, final)
    requires i < Length(items) && Framed(ItemAt(items, i)) && TakesValue(ItemAt(items, i), k)
    requires ItemAt(items, i).frame + k < EndOf(items, |operands|, i) <= |operands|
    ensures operands[ItemAt(items, i).frame + k].Value?
    decreases items
  {
    var item, h := ItemAt(items, i), FrameOf(items.head, |operands|);
    if i == 0 {
      assert operands[item.frame..][k] == operands[item.frame + k];
    } else {
      BelowWithinArity(items.tail, h, Gain(items.head), final, i - 1);
      assert operands[..|operands|] == operands;
      BelowTagged(items.tail, operands[..h], ns, Gain(items.head), final, i - 1, k);
    }
  }

  /** And where the code asserts that an operand is an object, it is one. */
  lemma PendingIsTagged(s: State, final: nat, i: nat, k: nat)
    requires Inv(s, final) && i < Length(s.items) && Framed(ItemAt(s.items, i)) && TakesValue(ItemAt(s.items, i), k)
    requires ItemAt(s.items, i).frame + k < EndOf(s.items, |s.operands|, i)
    ensures ItemAt(s.items, i).frame + k < |s.operands| && s.operands[ItemAt(s.items, i).frame + k].Value?
  {
    var item, h := ItemAt(s.items, i), FrameOf(s.items.head, |s.operands|);
    PendingWithinArity(s, final, i);
    if i == 0 {
      assert s.operands[item.frame..][k] == s.operands[item.frame + k];
    } else {
      BelowWithinArity(s.items.tail, h, Gain(s.items.head), final, i - 1);
      assert s.operands[..|s.operands|] == s.operands;
      BelowTagged(s.items.tail, s.operands[..h], s.ns, Gain(s.items.head), final, i - 1, k);
    }
  }
}
