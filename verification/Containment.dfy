/** A condition on the code alone under which a call leaves no name behind: neither the method nor any
    other method it could call contains the opcode of something with a body of its own, and what has a
    length ends within the method. */
module Containment {
  import opened Bits
  import opened Outcomes
  import opened Names
  import opened Namespace
  import opened Opcodes
  import opened Operators
  import opened Machine
  import opened StackInvariant
  import opened Calls
  import L = Locality

  /** The opcodes whose block, or whose method, ends where their length says. */
  predicate HasLength(opcode: byte) {
    opcode in {IF_OP, ELSE_OP, WHILE_OP, BUFFER_OP, PACKAGE_OP, METHOD_OP}
  }

  /** What byte `pc` could be the opcode of is not ScopeOp, DeviceOp, ProcessorOp, PowerResOp or ThermalZoneOp,
      and does not reach beyond byte `reach`. */
  predicate BodilessAt(code: seq<byte>, reach: int, pc: nat)
    requires pc < |code|
  {
    && code[pc] != SCOPE_OP
    && (code[pc] == EXTOP_PREFIX && pc + 1 < |code| && pc + 1 < reach ==> !HasBody(256 * EXTOP_PREFIX + code[pc + 1]))
    && (HasLength(code[pc]) ==>
          var length := ReadPackageLength(code, pc + 1, |code|);
          length.Ok? ==> pc + 1 + length.value.0 <= reach)
  }

  /** This holds of the bytes in front of `reach`. */
  predicate Bodiless(code: seq<byte>, reach: int) {
    forall pc :: 0 <= pc < |code| && pc < reach ==> BodilessAt(code, reach, pc)
  }

  /** All methods have this property; a method within a method may use what is behind it there. */
  ghost predicate BodilessMethods(ns: Space) {
    forall n: nat :: KindOf(ns, n).Some? && KindOf(ns, n).value.Method? ==> BodilessMethod(KindOf(ns, n).value)
  }

  ghost predicate BodilessMethod(kind: Kind)
    requires kind.Method?
  {
    exists reach: int :: reach >= kind.size && Bodiless(kind.code, reach)
  }

  predicate ElseWithin(item: Item, reach: int) {
    item.CondItem? && item.hasElse ==> item.elseLimit <= reach
  }

  /** All calls in progress are calls of such methods, and no block reaches beyond its method. */
  ghost predicate Fenced(items: List<Item>, contexts: List<Context>, blocks: List<Block>, reach: int) {
    match items
    case Nil => true
    case Cons(item, rest) =>
      match item
      case Populate => false
      case MethodItem(_) =>
        && contexts.Cons? && blocks.Cons? && contexts.head.invocation.Some?
        && Bodiless(contexts.head.code, reach) && blocks.head.limit <= reach
        && exists r: int :: Fenced(rest, contexts.tail, blocks.tail, r)
      case _ =>
        rest.Cons? &&
        if OwnsBlock(item) then
          && blocks.Cons? && blocks.head.limit <= reach
          && ElseWithin(item, reach)
          && Fenced(rest, contexts, blocks.tail, reach)
        else Fenced(rest, contexts, blocks, reach)
  }

  ghost predicate Confined(s: State, reach: int) {
    Fenced(s.items, s.contexts, s.blocks, reach) && BodilessMethods(s.ns)
  }

  ghost predicate Stays(r: Res<State>, reach: int) {
    r.Ok? ==> Confined(r.value, reach)
  }

  /** The same code, in the same kind of context. */
  predicate SameFrames(contexts: List<Context>, contexts': List<Context>) {
    match contexts
    case Nil => contexts'.Nil?
    case Cons(c, rest) =>
      && contexts'.Cons? && contexts'.head.code == c.code
      && contexts'.head.invocation.Some? == c.invocation.Some? && SameFrames(rest, contexts'.tail)
  }

  predicate SameLimits(blocks: List<Block>, blocks': List<Block>) {
    match blocks
    case Nil => blocks'.Nil?
    case Cons(b, rest) => blocks'.Cons? && blocks'.head.limit == b.limit && SameLimits(rest, blocks'.tail)
  }

  lemma {:induction false} CallsAreFrames(contexts: List<Context>, contexts': List<Context>)
    requires SameCalls(contexts, contexts')
    ensures SameFrames(contexts, contexts')
  {
    if contexts.Cons? { CallsAreFrames(contexts.tail, contexts'.tail); }
  }

  lemma {:induction false} SameOfSelf(contexts: List<Context>, blocks: List<Block>)
    ensures SameFrames(contexts, contexts) && SameLimits(blocks, blocks)
    decreases contexts, blocks
  {
    if contexts.Cons? { SameOfSelf(contexts.tail, blocks); }
    else if blocks.Cons? { SameOfSelf(contexts, blocks.tail); }
  }

  /** Variables and program counters do not matter. */
  lemma {:induction false} FencedKept(items: List<Item>, contexts: List<Context>, blocks: List<Block>, reach: int,
                                      contexts': List<Context>, blocks': List<Block>)
    requires Fenced(items, contexts, blocks, reach) && SameFrames(contexts, contexts') && SameLimits(blocks, blocks')
    ensures Fenced(items, contexts', blocks', reach)
    decreases items
  {
    hide Bodiless;
    if items.Cons? {
      if items.head.MethodItem? {
        var r: int :| Fenced(items.tail, contexts.tail, blocks.tail, r);
        FencedKept(items.tail, contexts.tail, blocks.tail, r, contexts'.tail, blocks'.tail);
      } else if OwnsBlock(items.head) {
        FencedKept(items.tail, contexts, blocks.tail, reach, contexts', blocks'.tail);
      } else {
        FencedKept(items.tail, contexts, blocks, reach, contexts', blocks');
      }
    }
  }

  /** What the running code has to do with its fence. */
  lemma {:induction false} FencedTop(items: List<Item>, contexts: List<Context>, blocks: List<Block>, reach: int)
    requires Fenced(items, contexts, blocks, reach) && items.Cons?
    ensures contexts.Cons? && contexts.head.invocation.Some? && Bodiless(contexts.head.code, reach)
    ensures blocks.Cons? && blocks.head.limit <= reach
  {
    hide Bodiless;
    if !items.head.MethodItem? {
      FencedTop(items.tail, contexts, if OwnsBlock(items.head) then blocks.tail else blocks, reach);
    }
  }

  /** The fence of the caller. */
  lemma FencedBelow(items: List<Item>, contexts: List<Context>, blocks: List<Block>, reach: int) returns (below: int)
    requires Fenced(items, contexts, blocks, reach) && items.Cons? && items.head.MethodItem?
    ensures contexts.Cons? && blocks.Cons? && Fenced(items.tail, contexts.tail, blocks.tail, below)
  {
    below :| Fenced(items.tail, contexts.tail, blocks.tail, below);
  }

  lemma CommitStays(s: State, pc: nat, reach: int)
    requires Ready(s) && Confined(s, reach)
    ensures Confined(CommitPc(s, pc), reach)
  {
    hide BodilessMethods;
    SameOfSelf(s.contexts, s.blocks);
    FencedKept(s.items, s.contexts, s.blocks, reach, s.contexts, CommitPc(s, pc).blocks);
  }

  lemma EnvStays(s: State, env: Env, reach: int)
    requires s.contexts.Cons? && Confined(s, reach) && BodilessMethods(env.ns)
    requires env.invocation.Some? == s.contexts.head.invocation.Some?
    ensures Confined(WithEnv(s, env), reach)
  {
    hide BodilessMethods;
    SameOfSelf(s.contexts, s.blocks);
    FencedKept(s.items, s.contexts, s.blocks, reach, WithEnv(s, env).contexts, s.blocks);
  }

  lemma AnsweredStays(s: State, reach: int)
    requires Confined(s, reach)
    ensures var r := Answered(s); r.Ok? ==> Confined(r.value.1, reach)
  {
    if s.replies != [] && s.replies[0].Replied? {
      var s' := Answered(s).value.1;
      RebindKeepsCalls(s.contexts, s.replies[0].variables);
      CallsAreFrames(s.contexts, s'.contexts);
      SameOfSelf(s.contexts, s.blocks);
      FencedKept(s.items, s.contexts, s.blocks, reach, s'.contexts, s.blocks);
      RefillStays(s.ns, s.replies[0].contents);
    }
  }

  lemma RefillStays(ns: Space, contents: map<nat, Object>)
    requires BodilessMethods(ns)
    ensures BodilessMethods(Refill(ns, contents))
  {
    var ns' := Refill(ns, contents);
    forall n: nat | KindOf(ns', n).Some? && KindOf(ns', n).value.Method? ensures KindOf(ns, n) == KindOf(ns', n) {}
  }

  lemma OrAnsweredStays(s: State, r: Res<Object>, reach: int)
    requires Confined(s, reach)
    ensures var answer := OrAnswered(s, r); answer.Ok? ==> Confined(answer.value.1, reach)
  {
    hide Answered;
    AnsweredStays(s, reach);
  }

  lemma StoreStays(env: Env, o: Operand, v: Object, keepType: bool)
    requires BodilessMethods(env.ns)
    ensures var r := StoreTo(env, o, v, keepType);
            r.Ok? ==> BodilessMethods(r.value.ns) && r.value.invocation.Some? == env.invocation.Some?
  {
    var r := StoreTo(env, o, v, keepType);
    if r.Ok? {
      forall n: nat | KindOf(r.value.ns, n).Some? && KindOf(r.value.ns, n).value.Method?
        ensures KindOf(env.ns, n) == KindOf(r.value.ns, n)
      {
      }
    }
  }

  lemma ReduceOpStays(opcode: nat, env: Env, operands: seq<Operand>)
    requires IsOperator(opcode) && |operands| == Arity(opcode) && BodilessMethods(env.ns)
    ensures var r := ReduceOp(opcode, env, operands);
            r.Ok? ==> BodilessMethods(r.value.1.ns) && r.value.1.invocation.Some? == env.invocation.Some?
  {
    hide StoreTo, Unary, Bitwise, Remainder, ShiftRight, BodilessMethods;
    forall v, k: nat, keepType | k < |operands|
      ensures var r := StoreTo(env, operands[k], v, keepType);
              r.Ok? ==> BodilessMethods(r.value.ns) && r.value.invocation.Some? == env.invocation.Some?
    {
      StoreStays(env, operands[k], v, keepType);
    }
    if opcode == DIVIDE_OP && GetInteger(operands[0]).Ok? && GetInteger(operands[1]).Ok? {
      var a, b := GetInteger(operands[0]).value, GetInteger(operands[1]).value;
      if b != 0 {
        var first := Mutate(env, operands[2], Integer(Remainder(a, b)));
        if first.Ok? { StoreStays(first.value, operands[3], Integer(a / b), true); }
      }
    }
  }

  lemma ReductionStays(s: State, opcode: nat, operands: seq<Operand>, reach: int)
    requires Ready(s) && Confined(s, reach) && HasOperands(opcode) && |operands| == OperandCount(opcode)
    ensures var r := Reduction(s, opcode, operands); r.Ok? ==> Confined(r.value.1, reach)
  {
    hide ReduceOp, Answered, BodilessMethods, Fenced;
    AnsweredStays(s, reach);
    if IsOperator(opcode) {
      ReduceOpStays(opcode, EnvOf(s), operands);
      var r := ReduceOp(opcode, EnvOf(s), operands);
      if r.Ok? { EnvStays(s, r.value.1, reach); }
    }
  }

  // ------------------------------------------------------------------------------------
  // Declarations.
  // ------------------------------------------------------------------------------------

  lemma InstallStays(s: State, place: (nat, Segment), kind: Kind, reach: int)
    requires s.contexts.Cons? && Confined(s, reach) && (kind.Method? ==> BodilessMethod(kind))
    ensures Stays(InstallNode(s, place, kind), reach) && Confined(InstallQuietly(s, place, kind), reach)
  {
    hide Fenced, BodilessMethod;
    var r := Install(s.ns, place.0, place.1, kind);
    if r.Ok? {
      forall n: nat | KindOf(r.value, n).Some? && KindOf(r.value, n).value.Method?
        ensures BodilessMethod(KindOf(r.value, n).value)
      {
        if n != s.ns.next { assert KindOf(s.ns, n) == KindOf(r.value, n); }
      }
      EnvStays(s, Env(RecordCreated(s.contexts.head.invocation, s.ns.next), r.value), reach);
    }
  }

  lemma CreateStays(s: State, name: AmlName, kind: Kind, reach: int)
    requires s.contexts.Cons? && Confined(s, reach) && (kind.Method? ==> BodilessMethod(kind))
    ensures Stays(CreateNode(s, name, kind), reach)
  {
    hide DoResolveNew, InstallNode, Confined;
    var place := DoResolveNew(s.ns, s.contexts.head.handle, name);
    if place.Ok? { InstallStays(s, place.value, kind, reach); }
  }

  lemma {:induction false} InstallFieldsStays(s: State, code: seq<byte>, register: Register, flags: byte, offset: nat,
                                              pc: nat, end: int, limit: int, reach: int)
    requires Ready(s) && Confined(s, reach)
    ensures var r := InstallFields(s, code, register, flags, offset, pc, end, limit);
            r.Ok? ==> Confined(r.value.0, reach)
    decreases end - pc
  {
    hide ReadPackageLength, ParseName, CreateNode, Confined;
    if pc < end && pc < |code| {
      var skipped := ReadPackageLength(code, pc + 1, limit);
      var name := ParseName(code, pc);
      if code[pc] == 0 && skipped.Ok? {
        InstallFieldsStays(s, code, register, flags, offset + skipped.value.0, skipped.value.1, end, limit, reach);
      } else if code[pc] == 1 && pc + 1 < |code| {
        InstallFieldsStays(s, code, register, code[pc + 1], offset, pc + 3, end, limit, reach);
      } else if code[pc] > 2 && name.Ok? {
        var bits := ReadPackageLength(code, name.value.1, limit);
        if bits.Ok? {
          var kind := FieldUnit(register, flags, offset, bits.value.0);
          CreateStays(s, name.value.0, kind, reach);
          var s' := CreateNode(s, name.value.0, kind);
          if s'.Ok? {
            InstallFieldsStays(s'.value, code, register, flags, offset + bits.value.0, bits.value.1, end, limit, reach);
          }
        }
      }
    }
  }

  lemma ReduceNodeStays(s: State, opcode: nat, operands: seq<Operand>, reach: int)
    requires Ready(s) && Confined(s, reach) && IsNodeOpcode(opcode) && |operands| == |NodeModes(opcode)|
    ensures Stays(ReduceNode(s, opcode, operands), reach)
  {
    hide InstallQuietly, DoResolveNew, OrAnswered, FieldPlace, Load, Confined;
    OrAnsweredStays(s, Load(EnvOf(s), operands[0]), reach);
    var answer := OrAnswered(s, Load(EnvOf(s), operands[0]));
    forall s': State, place, kind: Kind | s'.contexts.Cons? && Confined(s', reach) && !kind.Method?
      ensures Confined(InstallQuietly(s', place, kind), reach)
    {
      InstallStays(s', place, kind, reach);
    }
  }

  // ------------------------------------------------------------------------------------
  // Parsing.
  // ------------------------------------------------------------------------------------

  /** The limit of the block only says whether a length can be read. */
  lemma LengthInCode(code: seq<byte>, pc: nat, limit: int)
    requires ReadPackageLength(code, pc, limit).Ok?
    ensures ReadPackageLength(code, pc, |code|) == ReadPackageLength(code, pc, limit)
  {
  }

  lemma SuffixBodiless(code: seq<byte>, reach: int, pc: nat)
    requires Bodiless(code, reach) && pc <= |code|
    ensures Bodiless(code[pc..], reach - pc)
  {
    var rest, left := code[pc..], reach - pc;
    forall i | 0 <= i < |rest| && i < left ensures BodilessAt(rest, left, i) {
      var there := pc + i;
      assert rest[i] == code[there] && BodilessAt(code, reach, there);
      LengthInSuffix(code, pc, i + 1);
    }
  }

  lemma LengthInSuffix(code: seq<byte>, from: nat, pc: nat)
    requires from <= |code|
    ensures var r, r' := ReadPackageLength(code[from..], pc, |code| - from), ReadPackageLength(code, from + pc, |code|);
            r.Ok? ==> r'.Ok? && r'.value.0 == r.value.0
  {
    var rest := code[from..];
    if ReadPackageLength(rest, pc, |rest|).Ok? {
      var extra := rest[pc] / 64;
      assert rest[pc] == code[from + pc];
      assert rest[pc + 1..pc + 1 + extra] == code[from + pc + 1..from + pc + 1 + extra];
    }
  }

  /** The code at byte `pc` of the running method, as the fence knows it. */
  predicate InFence(s: State, opcode: nat, pc: nat, reach: int)
    requires Ready(s)
  {
    var code := s.contexts.head.code;
    && Bodiless(code, reach) && s.blocks.head.limit <= reach
    && pc < |code| && pc < reach && (opcode < 256 ==> code[pc] == opcode)
  }

  lemma MethodStays(s: State, pc: nat, reach: int)
    requires Ready(s) && Confined(s, reach) && InFence(s, METHOD_OP, pc, reach)
    ensures Stays(ParseMethod(s, pc), reach)
  {
    hide ReadPackageLength, ParseName, CreateNode, ReadInteger, Confined;
    var code, limit := s.contexts.head.code, s.blocks.head.limit;
    var r := ParseMethod(s, pc);
    if r.Ok? {
      var size := ReadPackageLength(code, pc + 1, limit).value;
      var name := ParseName(code, size.1).value;
      var flags := ReadInteger(code, name.1, 1, limit).value;
      var end := pc + 1 + size.0;
      LengthInCode(code, pc + 1, limit);
      assert BodilessAt(code, reach, pc);
      if flags.1 <= |code| { SuffixBodiless(code, reach, flags.1); }
      var kind := Method(flags.0 % 256, if flags.1 <= |code| then code[flags.1..] else [], end - flags.1);
      assert kind.size <= reach - flags.1 && Bodiless(kind.code, reach - flags.1);
      CommitStays(s, end, reach);
      CreateStays(CommitPc(s, end), name.0, kind, reach);
    }
  }

  lemma LeafStays(s: State, pc: nat, name: AmlName, kind: Kind, reach: int)
    requires Ready(s) && Confined(s, reach) && !kind.Method?
    ensures Stays(CreateNode(CommitPc(s, pc), name, kind), reach)
  {
    hide Confined, CreateNode;
    CommitStays(s, pc, reach);
    CreateStays(CommitPc(s, pc), name, kind, reach);
  }

  lemma AliasStays(s: State, pc: nat, reach: int)
    requires Ready(s) && Confined(s, reach)
    ensures Stays(ParseAlias(s, pc), reach)
  {
    hide ParseName, DoResolve, CreateNode, Confined;
    var code := s.contexts.head.code;
    var target := ParseName(code, pc + 1);
    if target.Ok? && ParseName(code, target.value.1).Ok? {
      var name := ParseName(code, target.value.1).value;
      var node := DoResolve(s.ns, s.contexts.head.handle, target.value.0);
      if node.Ok? && node.value.Some? { LeafStays(s, name.1, name.0, Alias(node.value.value), reach); }
    }
  }

  lemma SyncStays(s: State, opcode: nat, pc: nat, reach: int)
    requires Ready(s) && Confined(s, reach)
    ensures Stays(ParseSync(s, opcode, pc), reach)
  {
    hide ParseName, CreateNode, Confined;
    var name := ParseName(s.contexts.head.code, pc);
    if name.Ok? {
      LeafStays(s, name.value.1 + 1, name.value.0, Other(Mutex), reach);
      LeafStays(s, name.value.1, name.value.0, Other(Event), reach);
    }
  }

  lemma ExternalStays(s: State, pc: nat, reach: int)
    requires Ready(s) && Confined(s, reach)
    ensures Stays(ParseExternal(s, pc), reach)
  {
    hide ParseName, ReadInteger, Confined;
    var r := ParseExternal(s, pc);
    if r.Ok? { CommitStays(s, r.value.blocks.head.pc, reach); }
  }

  lemma FieldsStay(s: State, opcode: nat, pc: nat, reach: int)
    requires Ready(s) && Confined(s, reach)
    ensures Stays(ParseFields(s, opcode, pc), reach)
  {
    hide ReadPackageLength, InstallFields, ReadRegister, Confined;
    var code, limit := s.contexts.head.code, s.blocks.head.limit;
    var size := ReadPackageLength(code, pc + 2, limit);
    if size.Ok? && ReadRegister(s, opcode, size.value.1).Ok? {
      var register := ReadRegister(s, opcode, size.value.1).value;
      if register.1 < |code| {
        var start, end := register.1 + 1, pc + 2 + size.value.0;
        InstallFieldsStays(s, code, register.0, code[register.1], 0, start, end, limit, reach);
        var r := InstallFields(s, code, register.0, code[register.1], 0, start, end, limit);
        if r.Ok? { CommitStays(r.value.0, r.value.1, reach); }
      }
    }
  }

  /** A block that ends where its length says. */
  lemma BlockStays(s: State, end: nat, item: Item, pc: nat, limit: int, reach: int)
    requires Ready(s) && Confined(s, reach) && s.items.Cons? && OwnsBlock(item) && limit <= reach
    requires ElseWithin(item, reach)
    ensures Confined(PushItem(PushBlock(CommitPc(s, end), pc, limit), item), reach)
  {
    hide BodilessMethods;
    CommitStays(s, end, reach);
  }

  lemma IfStays(s: State, pc: nat, reach: int)
    requires Ready(s) && Confined(s, reach) && s.items.Cons? && InFence(s, IF_OP, pc, reach)
    ensures Stays(ParseIf(s, pc), reach)
  {
    hide ReadPackageLength, Confined;
    var code, limit := s.contexts.head.code, s.blocks.head.limit;
    var r := ParseIf(s, pc);
    if r.Ok? {
      var size := ReadPackageLength(code, pc + 1, limit).value;
      LengthInCode(code, pc + 1, limit);
      assert BodilessAt(code, reach, pc);
      var end := pc + 1 + size.0;
      if end < limit && code[end] == ELSE_OP {
        LengthInCode(code, end + 1, limit);
        assert BodilessAt(code, reach, end);
      }
      BlockStays(s, r.value.blocks.tail.head.pc, r.value.items.head, size.1, end, reach);
    }
  }

  /** While, Buffer and Package. */
  lemma LengthStays(s: State, mode: Mode, opcode: byte, pc: nat, reach: int)
    requires Ready(s) && Confined(s, reach) && s.items.Cons? && InFence(s, opcode, pc, reach)
    ensures opcode == WHILE_OP ==> Stays(ParseWhile(s, pc), reach)
    ensures opcode in {BUFFER_OP, PACKAGE_OP} ==> Stays(ParseInitialized(s, mode, opcode, pc), reach)
  {
    hide ReadPackageLength, Confined;
    var code, limit := s.contexts.head.code, s.blocks.head.limit;
    var size := ReadPackageLength(code, pc + 1, limit);
    if HasLength(opcode) && size.Ok? {
      LengthInCode(code, pc + 1, limit);
      assert BodilessAt(code, reach, pc);
      var end, h, want := pc + 1 + size.value.0, |s.operands|, WantsResult(mode);
      BlockStays(s, end, LoopItem(h, false, size.value.1), size.value.1, end, reach);
      BlockStays(s, end, BufferItem(h, want), size.value.1, end, reach);
      BlockStays(s, end, PackageItem(h, 0, 0, want), size.value.1, end, reach);
      var package := PushItem(PushBlock(CommitPc(s, end), size.value.1, end), PackageItem(h, 0, 0, want));
      OperandStays(package, Value(Uninit), reach);
    }
  }

  lemma OperandStays(s: State, o: Operand, reach: int)
    requires Confined(s, reach)
    ensures Confined(PushOperand(s, o), reach)
  {
  }

  lemma {:induction false} BreakStays(s: State, reach: int)
    requires Confined(s, reach)
    ensures Stays(BreakLoop(s), reach)
    decreases s.items
  {
    hide BodilessMethods;
    if s.items.Cons? && s.items.head.CondItem? && s.blocks.Cons? {
      BreakStays(s.(blocks := s.blocks.tail, items := s.items.tail), reach);
    }
  }

  lemma {:induction false} ContinueStays(s: State, reach: int)
    requires Confined(s, reach)
    ensures Stays(ContinueLoop(s), reach)
    decreases s.items
  {
    hide BodilessMethods, CommitPc;
    if s.items.Cons? && s.blocks.Cons? {
      if s.items.head.CondItem? {
        ContinueStays(s.(blocks := s.blocks.tail, items := s.items.tail), reach);
      } else if s.items.head.LoopItem? && s.blocks.head.limit >= 0 {
        FencedTop(s.items, s.contexts, s.blocks, reach);
        CommitStays(s, s.blocks.head.limit, reach);
      }
    }
  }

  lemma ReferenceStays(s: State, mode: Mode, name: AmlName, reach: int)
    requires Ready(s) && Confined(s, reach) && s.items.Cons?
    ensures Stays(ParseReference(s, mode, name), reach)
  {
    hide DoResolve, Access, OrAnswered, BodilessMethods;
    var target := DoResolve(s.ns, s.contexts.head.handle, name);
    if target.Ok? && target.value.Some? { OrAnsweredStays(s, Access(s.ns, target.value.value), reach); }
  }

  lemma ObjectOpcodeStays(s: State, mode: Mode, opcode: nat, opcodePc: nat, pc: nat, reach: int)
    requires Ready(s) && Confined(s, reach) && s.items.Cons? && InFence(s, opcode, opcodePc, reach)
    ensures Stays(ParseObjectOpcode(s, mode, opcode, opcodePc, pc), reach)
  {
    hide ParseInitialized, StringEnd, Answered, CommitPc, ParseData, Confined, PushItem, PushOperand, InFence;
    CommitReady(s, pc);
    CommitStays(s, pc, reach);
    var next, h := CommitPc(s, pc), |s.operands|;
    if opcode == REVISION_OP {
      DataStays(next, mode, Integer(REVISION), reach);
    } else if opcode == TIMER_OP {
      AnsweredStays(next, reach);
      var r := Answered(next);
      if r.Ok? { OperandStays(r.value.1, Value(r.value.0), reach); }
    } else if opcode == DEBUG_OP {
      OperandStays(next, DebugName, reach);
    } else if opcode == STRINGPREFIX {
      var end := StringEnd(s.contexts.head.code, pc, s.blocks.head.limit);
      if end.Ok? {
        CommitStays(s, end.value + 1, reach);
        DataStays(CommitPc(s, end.value + 1), mode, Opaque(TextForm, end.value - pc), reach);
      }
    } else if opcode in {BUFFER_OP, PACKAGE_OP} {
      LengthStays(s, mode, opcode, opcodePc, reach);
    } else {
      ItemStays(next, OpItem(h, opcode, WantsResult(mode)), reach);
      ItemStays(next, NodeItem(h, opcode), reach);
    }
  }

  lemma DataStays(s: State, mode: Mode, v: Object, reach: int)
    requires Confined(s, reach)
    ensures Stays(ParseData(s, mode, v), reach)
  {
  }

  lemma VariableStays(s: State, mode: Mode, variable: Operand, reach: int)
    requires Ready(s) && Confined(s, reach)
    ensures Stays(ParseVariable(s, mode, variable), reach)
  {
    hide Load;
  }

  lemma ItemStays(s: State, item: Item, reach: int)
    requires Confined(s, reach) && s.items.Cons? && Framed(item) && !OwnsBlock(item)
    ensures Confined(PushItem(s, item), reach)
  {
  }

  lemma OpcodeStays(s: State, mode: Mode, opcode: nat, opcodePc: nat, pc: nat, reach: int)
    requires Ready(s) && Confined(s, reach) && s.items.Cons? && opcode != SCOPE_OP && !HasBody(opcode)
    requires InFence(s, opcode, opcodePc, reach)
    ensures Stays(ParseOpcode(s, mode, opcode, opcodePc, pc), reach)
  {
    hide ParseMethod, ParseAlias, ParseIf, ParseWhile, BreakLoop, ContinueLoop, ReadInteger, ParseSync, ParseExternal,
      ParseFields, ParseObjectOpcode, ParseData, ParseVariable, Confined, CommitPc, InFence, PushItem, PushOperand;
    CommitReady(s, pc);
    CommitStays(s, pc, reach);
    var next, h := CommitPc(s, pc), |s.operands|;
    if opcode in {ZERO_OP, ONE_OP, ONES_OP} {
      OperandStays(next, NullName, reach);
      DataStays(next, mode, Integer(if opcode == ZERO_OP then 0 else if opcode == ONE_OP then 1 else TWO64 - 1), reach);
    } else if opcode in {BYTEPREFIX, WORDPREFIX, DWORDPREFIX, QWORDPREFIX} {
      var value := ReadInteger(s.contexts.head.code, pc, PrefixWidth(opcode), s.blocks.head.limit);
      if value.Ok? {
        CommitStays(s, value.value.1, reach);
        DataStays(CommitPc(s, value.value.1), mode, Integer(Wrap(value.value.0)), reach);
      }
    } else if ARG0_OP <= opcode <= ARG6_OP {
      VariableStays(next, mode, ArgName(opcode - ARG0_OP), reach);
    } else if LOCAL0_OP <= opcode <= LOCAL7_OP {
      VariableStays(next, mode, LocalName(opcode - LOCAL0_OP), reach);
    } else {
      ItemStays(next, OpItem(h, opcode, WantsResult(mode)), reach);
      ItemStays(next, ReturnItem(h), reach);
      ItemStays(next, NodeItem(h, NAME_OP), reach);
      ControlStays(s, mode, opcode, opcodePc, pc, reach);
    }
  }

  /** What moves the program counter, declares a node or opens a block. */
  lemma ControlStays(s: State, mode: Mode, opcode: nat, opcodePc: nat, pc: nat, reach: int)
    requires Ready(s) && Confined(s, reach) && s.items.Cons? && InFence(s, opcode, opcodePc, reach)
    ensures opcode == IF_OP ==> Stays(ParseIf(s, opcodePc), reach)
    ensures opcode == WHILE_OP ==> Stays(ParseWhile(s, opcodePc), reach)
    ensures opcode == METHOD_OP ==> Stays(ParseMethod(s, opcodePc), reach)
    ensures Stays(BreakLoop(s), reach) && Stays(ContinueLoop(s), reach)
    ensures Stays(ParseAlias(s, opcodePc), reach) && Stays(ParseSync(s, opcode, pc), reach)
    ensures Stays(ParseExternal(s, pc), reach) && Stays(ParseFields(s, opcode, opcodePc), reach)
    ensures Stays(ParseObjectOpcode(s, mode, opcode, opcodePc, pc), reach)
  {
    hide InFence, Stays, Confined;
    AliasStays(s, opcodePc, reach);
    SyncStays(s, opcode, pc, reach);
    ExternalStays(s, pc, reach);
    FieldsStay(s, opcode, opcodePc, reach);
    BreakStays(s, reach);
    ContinueStays(s, reach);
    ObjectOpcodeStays(s, mode, opcode, opcodePc, pc, reach);
    if opcode == METHOD_OP { MethodStays(s, opcodePc, reach); }
    if opcode == IF_OP { IfStays(s, opcodePc, reach); }
    if opcode == WHILE_OP { LengthStays(s, mode, WHILE_OP, opcodePc, reach); }
  }

  lemma ParseStays(s: State, mode: Mode, reach: int)
    requires Ready(s) && Confined(s, reach) && s.items.Cons?
    ensures Stays(Parse(s, mode), reach)
  {
    hide ParseOpcode, ParseName, ParseReference, ReadInteger, Fenced, BodilessMethods, CommitPc, Bodiless;
    FencedTop(s.items, s.contexts, s.blocks, reach);
    var code, pc, limit := s.contexts.head.code, s.blocks.head.pc, s.blocks.head.limit;
    if mode.ImmediateMode? {
      var value := ReadInteger(code, pc, mode.width, limit);
      if value.Ok? { CommitStays(s, value.value.1, reach); }
    } else if pc < limit && pc < |code| {
      BodilessThere(code, reach, pc);
      if IsName(code[pc]) {
        if ParseName(code, pc).Ok? {
          var (name, next) := ParseName(code, pc).value;
          CommitReady(s, next);
          CommitStays(s, next, reach);
          ReferenceStays(CommitPc(s, next), mode, name, reach);
        }
      } else if code[pc] != EXTOP_PREFIX {
        OpcodeStays(s, mode, code[pc], pc, pc + 1, reach);
      } else if pc + 1 < |code| && pc + 1 != limit {
        OpcodeStays(s, mode, 256 * EXTOP_PREFIX + code[pc + 1], pc, pc + 2, reach);
      }
    }
  }

  lemma BodilessThere(code: seq<byte>, reach: int, pc: nat)
    requires Bodiless(code, reach) && pc < |code| && pc < reach
    ensures BodilessAt(code, reach, pc)
  {
  }

  // ------------------------------------------------------------------------------------
  // Steps and runs.
  // ------------------------------------------------------------------------------------

  /** After the end of a method the fence is another one. */
  ghost predicate StaysSomehow(r: Res<State>) {
    r.Ok? ==> exists reach: int :: Confined(r.value, reach)
  }

  lemma {:induction false} UninstallKeepsNodes(ns: Space, created: seq<nat>)
    ensures var r := UninstallAll(ns, created); r.Ok? ==> r.value.nodes == ns.nodes
    decreases |created|
  {
    if created != [] && Uninstall(ns, created[0]).Ok? {
      UninstallKeepsNodes(Uninstall(ns, created[0]).value, created[1..]);
    }
  }

  lemma LeaveStays(s: State, reach: int)
    requires Confined(s, reach) && s.items.Cons? && s.items.head.MethodItem?
    ensures StaysSomehow(LeaveMethod(s))
  {
    hide UninstallAll;
    if s.contexts.Cons? && s.contexts.head.invocation.Some? {
      UninstallKeepsNodes(s.ns, s.contexts.head.invocation.value.created);
      var r := LeaveMethod(s);
      if r.Ok? {
        forall n: nat ensures KindOf(r.value.ns, n) == KindOf(s.ns, n) {}
        var below := FencedBelow(s.items, s.contexts, s.blocks, reach);
        assert Confined(r.value, below);
      }
    }
  }

  lemma {:induction false} ReturnStays(s: State, v: Object, reach: int)
    requires Confined(s, reach)
    ensures StaysSomehow(ReturnFrom(s, v))
    decreases s.items
  {
    hide LeaveMethod, BodilessMethods, StaysSomehow;
    if s.items.Cons? {
      if s.items.head.MethodItem? {
        LeaveStays(if s.items.head.wantResult then PushOperand(s, Value(v)) else s, reach);
      } else if (s.items.head.CondItem? || s.items.head.LoopItem?) && s.blocks.Cons? {
        ReturnStays(s.(blocks := s.blocks.tail, items := s.items.tail), v, reach);
      } else {
        NoFault(ReturnFrom(s, v));
      }
    } else {
      NoFault(ReturnFrom(s, v));
    }
  }

  lemma NoFault(r: Res<State>)
    requires r.Fail?
    ensures StaysSomehow(r)
  {
  }

  lemma Somehow(r: Res<State>, reach: int)
    requires Stays(r, reach)
    ensures StaysSomehow(r)
  {
  }

  lemma CallStays(s: State, reach: int)
    requires Ready(s) && Confined(s, reach) && s.items.Cons? && s.items.head.InvokeItem?
    ensures StaysSomehow(ProcessInvoke(s))
  {
    hide Parse, GetObjects, Bodiless;
    ParseStays(s, ObjectMode, reach);
    var r := ProcessInvoke(s);
    var InvokeItem(frame, argc, want) := s.items.head;
    if |s.operands| == frame + argc + 1 && r.Ok? {
      var kind := KindOf(s.ns, s.operands[frame].node).value;
      var inside: int :| inside >= kind.size && Bodiless(kind.code, inside);
      assert Fenced(s.items.tail, s.contexts, s.blocks, reach);
      assert Confined(r.value, inside);
    } else {
      Somehow(r, reach);
    }
  }

  lemma BufferStays(s: State, size: Object, reach: int)
    requires Ready(s) && Confined(s, reach)
    ensures var r := CreateBuffer(s, size); r.Ok? ==> Confined(r.value.1, reach)
  {
    hide Answered, OrAnswered, Confined;
    AnsweredStays(s, reach);
    if size.Integer? { OrAnsweredStays(s, FillBuffer(s, size.n), reach); }
    OrAnsweredStays(s, FillBuffer(s, 0), reach);
  }

  lemma ReturnItemStays(s: State, reach: int)
    requires Ready(s) && Confined(s, reach) && s.items.Cons? && s.items.head.ReturnItem?
    ensures StaysSomehow(ProcessReturn(s))
  {
    hide Parse, ReturnFrom, BodilessMethods, StaysSomehow;
    ParseStays(s, ObjectMode, reach);
    var frame := s.items.head.frame;
    if |s.operands| == frame + 1 && GetObject(s.operands[frame]).Ok? {
      var below := s.(operands := s.operands[..frame], items := s.items.tail);
      ReturnStays(below, GetObject(s.operands[frame]).value, reach);
    } else {
      Somehow(ProcessReturn(s), reach);
    }
  }

  lemma OperandItemStays(s: State, reach: int)
    requires Ready(s) && Confined(s, reach) && s.items.Cons? && (s.items.head.OpItem? || s.items.head.NodeItem?)
    ensures s.items.head.OpItem? ==> Stays(ProcessOp(s), reach)
    ensures s.items.head.NodeItem? ==> Stays(ProcessNode(s), reach)
  {
    hide Parse, Reduction, ReduceNode, BodilessMethods;
    forall mode ensures Stays(Parse(s, mode), reach) { ParseStays(s, mode, reach); }
    var frame, opcode := s.items.head.frame, s.items.head.opcode;
    if frame <= |s.operands| {
      if s.items.head.OpItem? && HasOperands(opcode) && |s.operands| - frame == OperandCount(opcode) {
        ReductionStays(s, opcode, s.operands[frame..], reach);
      }
      if s.items.head.NodeItem? && IsNodeOpcode(opcode) && |s.operands| - frame == |NodeModes(opcode)| {
        ReduceNodeStays(s, opcode, s.operands[frame..], reach);
      }
    }
  }

  lemma InitializedStays(s: State, reach: int)
    requires Ready(s) && Confined(s, reach) && s.items.Cons?
    requires s.items.head.BufferItem? || s.items.head.PackageItem?
    ensures s.items.head.BufferItem? ==> Stays(ProcessBuffer(s), reach)
    ensures s.items.head.PackageItem? ==> Stays(ProcessPackage(s), reach)
  {
    hide Parse, CreateBuffer, BodilessMethods;
    forall mode ensures Stays(Parse(s, mode), reach) { ParseStays(s, mode, reach); }
    if s.items.head.BufferItem? {
      forall size ensures var r := CreateBuffer(s, size); r.Ok? ==> Confined(r.value.1, reach) {
        BufferStays(s, size, reach);
      }
    } else {
      PackageItemStays(s, reach);
    }
  }

  lemma PackageItemStays(s: State, reach: int)
    requires Ready(s) && Confined(s, reach) && s.items.Cons? && s.items.head.PackageItem?
    ensures Stays(ProcessPackage(s), reach)
  {
    hide Parse, BodilessMethods;
    ParseStays(s, ImmediateMode(1), reach);
    if s.items.head.phase == 0 {
      var r := Parse(s, ImmediateMode(1));
      if r.Ok? { L.ImmediateKeeps(s, 1); }
    } else if s.items.head.phase >= 2 && StoreInitializer(s).Ok? {
      var s' := StoreInitializer(s).value;
      assert Confined(s', reach);
      ParseStays(s', DataMode, reach);
    }
  }

  lemma StepStays(s: State, reach: int)
    requires Confined(s, reach) && s.items.Cons?
    ensures StaysSomehow(Process(s))
  {
    hide Parse, ProcessOp, ProcessNode, ProcessInvoke, ProcessReturn, ProcessBuffer, ProcessPackage, ProcessLoop,
      ProcessCond, LeaveMethod, BodilessMethods, StaysSomehow;
    if !Ready(s) || s.blocks.head.pc > s.blocks.head.limit {
      NoFault(Process(s));
    } else {
      match s.items.head
      case Populate => assert false;
      case MethodItem(_) => MethodItemStays(s, reach);
      case LoopItem(_, _, _) => BlockItemStays(s, reach); Somehow(Process(s), reach);
      case CondItem(_, _, _, _, _) => BlockItemStays(s, reach); Somehow(Process(s), reach);
      case NodeItem(_, _) => OperandItemStays(s, reach); Somehow(Process(s), reach);
      case OpItem(_, _, _) => OperandItemStays(s, reach); Somehow(Process(s), reach);
      case InvokeItem(_, _, _) => CallStays(s, reach);
      case ReturnItem(_) => ReturnItemStays(s, reach);
      case BufferItem(_, _) => InitializedStays(s, reach); Somehow(Process(s), reach);
      case PackageItem(_, _, _, _) => InitializedStays(s, reach); Somehow(Process(s), reach);
    }
  }

  lemma BlockItemStays(s: State, reach: int)
    requires Ready(s) && Confined(s, reach) && s.items.Cons?
    ensures s.items.head.LoopItem? ==> Stays(ProcessLoop(s), reach)
    ensures s.items.head.CondItem? ==> Stays(ProcessCond(s), reach)
  {
    hide Parse, BodilessMethods;
    ParseStays(s, ExecMode, reach);
    ParseStays(s, ObjectMode, reach);
    if s.items.head.LoopItem? { CommitStays(s, s.items.head.predicatePc, reach); }
  }

  lemma MethodItemStays(s: State, reach: int)
    requires Ready(s) && Confined(s, reach) && s.items.Cons? && s.items.head.MethodItem?
    ensures StaysSomehow(ProcessBody(s, ImplicitReturn(s)))
  {
    hide Parse, LeaveMethod, BodilessMethods, StaysSomehow;
    if s.blocks.head.pc != s.blocks.head.limit {
      ParseStays(s, ExecMode, reach);
      Somehow(Parse(s, ExecMode), reach);
    } else if s.operands == [] {
      LeaveStays(if s.items.head.wantResult then PushOperand(s, Value(Integer(0))) else s, reach);
    } else {
      NoFault(ImplicitReturn(s));
    }
  }

  /** Such a run never declares a name that no method owns. */
  lemma {:induction false} NothingLeaks(s: State, n: nat, reach: int)
    requires Confined(s, reach)
    ensures !LeaksWithin(s, n)
    decreases n
  {
    hide Process, BodilessMethods, Bodiless, Fenced;
    if s.items.Cons? { FencedTop(s.items, s.contexts, s.blocks, reach); }
    if n > 0 && s.items.Cons? && Process(s).Ok? {
      StepStays(s, reach);
      var next: int :| Confined(Process(s).value, next);
      NothingLeaks(Process(s).value, n - 1, next);
      LeaksShift(s, n);
    } else {
      forall k: nat | k < n && Run(Ok(s), k).Ok? ensures !Leaks(Run(Ok(s), k).value) {
        if s.items.Nil? { HaltedRun(Ok(s), k); }
        if k > 0 && s.items.Cons? { HaltedRun(Process(s), k - 1); }
      }
    }
  }

  /** A call of a method without bodies, in a namespace of such methods, leaves the children of every
      node as they were. */
  lemma CallRestoresNames(b: State, m: nat, code: seq<byte>, size: int, args: seq<Object>, want: bool, n: nat)
    requires |args| <= 7 && Numbered(b.ns) && Bodiless(code, size) && BodilessMethods(b.ns)
    requires var t := Callee(b, m, code, size, args, want);
             Run(Ok(t), n).Ok? && Run(Ok(t), n).value.items.Nil? && forall k: nat :: k < n ==> !Halted(Run(Ok(t), k))
    ensures var r := Run(Ok(EnterMethod(b, m, code, size, args, want)), n); r.Ok? && r.value.ns.kids == b.ns.kids
  {
    hide Run, LeaksWithin, Bodiless;
    var t := Callee(b, m, code, size, args, want);
    assert Fenced(t.items.tail, t.contexts.tail, t.blocks.tail, 0);
    assert Confined(t, size);
    NothingLeaks(t, n, size);
    CallIsTransparent(b, m, code, size, args, want, n);
  }
}
