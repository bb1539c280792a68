/** Execution time: code that parses no While and enters no AML method stops after a number of steps
    that is linear in the length of the code, whatever the bytes are. The pc of the current block
    never moves backwards, and between two moves items can only be finished. */
module Halting {
  import opened Bits
  import opened Outcomes
  import opened Names
  import opened Namespace
  import opened Opcodes
  import opened Operators
  import opened Machine
  import SI = StackInvariant
  import L = Locality

  predicate SameCode(contexts: List<Context>, code: seq<byte>) {
    contexts.Nil? || (contexts.head.code == code && SameCode(contexts.tail, code))
  }

  /** A block below another one continues at or after the end of the block above it. */
  predicate Resumes(blocks: List<Block>, end: int) {
    blocks.Nil? || end <= blocks.head.pc
  }

  /** No loops, no method but the outermost one, and every block returns to a later pc. */
  predicate Stairs(items: List<Item>, blocks: List<Block>) {
    match items
    case Nil => true
    case Cons(item, rest) =>
      match item
      case LoopItem(_, _, _) => false
      case MethodItem(_) => rest.Nil? && blocks.Cons?
      case Populate => blocks.Cons? && Resumes(blocks.tail, blocks.head.limit) && Stairs(rest, blocks.tail)
      case CondItem(_, inBranch, hasElse, elsePc, elseLimit) =>
        && blocks.Cons? && Resumes(blocks.tail, blocks.head.limit) && Stairs(rest, blocks.tail)
        && (hasElse && !inBranch ==> blocks.head.limit <= elsePc && Resumes(blocks.tail, elseLimit))
      case BufferItem(_, _) => blocks.Cons? && Resumes(blocks.tail, blocks.head.limit) && Stairs(rest, blocks.tail)
      case PackageItem(_, _, _, _) =>
        blocks.Cons? && Resumes(blocks.tail, blocks.head.limit) && Stairs(rest, blocks.tail)
      case _ => Stairs(rest, blocks)
  }

  predicate Straight(s: State, code: seq<byte>) {
    SameCode(s.contexts, code) && Stairs(s.items, s.blocks)
  }

  /** Steps an item can take between two moves of the pc. */
  function Phases(item: Item): nat {
    if (item.CondItem? && !item.inBranch) || (item.PackageItem? && item.phase < 2) then 2 else 1
  }

  function Weight(items: List<Item>): nat {
    match items
    case Nil => 0
    case Cons(item, rest) => Phases(item) + Weight(rest)
  }

  /** Three units for every byte ahead of the pc, and the phases of the items on the stack. */
  function Remaining(s: State, code: seq<byte>): nat {
    var ahead := if s.blocks.Cons? && s.blocks.head.pc < |code| then |code| - s.blocks.head.pc else 0;
    3 * ahead + Weight(s.items)
  }

  /** The step enters an AML method. */
  predicate Calls(s: State) {
    s.items.Cons? && s.items.head.InvokeItem? && |s.operands| == s.items.head.frame + s.items.head.argc + 1
  }

  /** The step parses a While. */
  predicate Loops(s: State) {
    s.items.Cons? && Process(s).Ok? && Process(s).value.items.Cons? && Process(s).value.items.head.LoopItem?
  }

  lemma {:induction false} StairsPc(items: List<Item>, blocks: List<Block>, pc: nat)
    requires Stairs(items, blocks) && blocks.Cons?
    ensures Stairs(items, blocks.(head := blocks.head.(pc := pc)))
  {
    if items.Cons? && SI.Framed(items.head) && !SI.OwnsBlock(items.head) {
      StairsPc(items.tail, blocks, pc);
    }
  }

  lemma {:induction false} NoLoopToLeave(s: State)
    requires Stairs(s.items, s.blocks)
    ensures BreakLoop(s).Fail? && ContinueLoop(s).Fail?
    decreases s.items
  {
    if s.items.Cons? && s.items.head.CondItem? {
      NoLoopToLeave(s.(blocks := s.blocks.tail, items := s.items.tail));
    }
  }

  lemma {:induction false} ReturnEnds(s: State, v: Object)
    requires Stairs(s.items, s.blocks) && ReturnFrom(s, v).Ok?
    ensures ReturnFrom(s, v).value.items.Nil?
    decreases s.items
  {
    hide LeaveMethod;
    if s.items.head.CondItem? { ReturnEnds(s.(blocks := s.blocks.tail, items := s.items.tail), v); }
    if s.items.head.MethodItem? { LeaveEnds(if s.items.head.wantResult then PushOperand(s, Value(v)) else s); }
  }

  lemma LeaveEnds(s: State)
    requires s.items.Cons? && LeaveMethod(s).Ok?
    ensures LeaveMethod(s).value.items == s.items.tail
  {
    hide UninstallAll;
  }

  /** Parsing moved the pc forward, or pushed a block that lies ahead, and added at most one item. */
  predicate Advanced(s: State, s': State, code: seq<byte>)
    requires Ready(s)
  {
    && Straight(s', code) && s'.blocks.Cons? && s'.blocks.head.pc > s.blocks.head.pc
    && Weight(s'.items) <= Weight(s.items) + 2
  }

  ghost predicate Progress(s: State, r: Res<State>, code: seq<byte>)
    requires Ready(s)
  {
    r.Ok? && !(r.value.items.Cons? && r.value.items.head.LoopItem?) ==> Advanced(s, r.value, code)
  }

  lemma {:induction false} SameCodeCalls(contexts: List<Context>, contexts': List<Context>, code: seq<byte>)
    requires SameCode(contexts, code) && SI.SameCalls(contexts, contexts')
    ensures SameCode(contexts', code)
  {
    if contexts.Cons? { SameCodeCalls(contexts.tail, contexts'.tail, code); }
  }

  /** A reply changes neither code nor blocks nor items. */
  lemma AnsweredKeeps(s: State, code: seq<byte>)
    requires Straight(s, code)
    ensures var r := Answered(s); r.Ok? ==> Straight(r.value.1, code)
  {
    if s.replies != [] && s.replies[0].Replied? {
      SI.RebindKeepsCalls(s.contexts, s.replies[0].variables);
      SameCodeCalls(s.contexts, Answered(s).value.1.contexts, code);
    }
  }

  lemma OrAnsweredKeeps(s: State, r: Res<Object>, code: seq<byte>)
    requires Straight(s, code)
    ensures var answer := OrAnswered(s, r); answer.Ok? ==> Straight(answer.value.1, code)
  {
    hide Answered;
    AnsweredKeeps(s, code);
  }

  lemma IfProgress(s: State, code: seq<byte>)
    requires Ready(s) && Straight(s, code)
    ensures Progress(s, ParseIf(s, s.blocks.head.pc), code)
  {
    StairsPc(s.items, s.blocks, 0);
    var r := ParseIf(s, s.blocks.head.pc);
    if r.Ok? { StairsPc(s.items, s.blocks, r.value.blocks.tail.head.pc); }
  }

  lemma ScopeProgress(s: State, code: seq<byte>)
    requires Ready(s) && Straight(s, code)
    ensures Progress(s, ParseScope(s, s.blocks.head.pc), code)
  {
    hide DoResolve, ParseName;
    var r := ParseScope(s, s.blocks.head.pc);
    if r.Ok? { StairsPc(s.items, s.blocks, r.value.blocks.tail.head.pc); }
  }

  lemma CreateKeeps(s: State, name: AmlName, kind: Kind, code: seq<byte>)
    requires Ready(s) && Straight(s, code)
    ensures var r := CreateNode(s, name, kind);
            r.Ok? ==>
              && Straight(r.value, code) && Ready(r.value)
              && r.value.items == s.items && r.value.blocks == s.blocks
  {
    hide DoResolveNew, Install;
  }

  lemma HeaderAdvances(code: seq<byte>, opcode: nat, pc: nat, limit: int)
    ensures var r := ReadHeader(code, opcode, pc, limit); r.Ok? ==> r.value.1 >= pc
  {
  }

  lemma DeviceProgress(s: State, opcode: nat, code: seq<byte>)
    requires Ready(s) && Straight(s, code)
    ensures Progress(s, ParseDevice(s, opcode, s.blocks.head.pc), code)
  {
    hide CreateNode, ParseName, ReadHeader;
    var own, limit := s.contexts.head.code, s.blocks.head.limit;
    var size := ReadPackageLength(own, s.blocks.head.pc + 2, limit);
    if size.Ok? && ParseName(own, size.value.1).Ok? {
      var name := ParseName(own, size.value.1).value;
      HeaderAdvances(own, opcode, name.1, limit);
      var header := ReadHeader(own, opcode, name.1, limit);
      var end := s.blocks.head.pc + 2 + size.value.0;
      StairsPc(s.items, s.blocks, end);
      if header.Ok? { CreateKeeps(CommitPc(s, end), name.0, header.value.0, code); }
    }
  }

  lemma LeafProgress(s: State, pc: nat, name: AmlName, kind: Kind, code: seq<byte>)
    requires Ready(s) && Straight(s, code) && pc > s.blocks.head.pc
    ensures Progress(s, CreateNode(CommitPc(s, pc), name, kind), code)
  {
    hide CreateNode;
    StairsPc(s.items, s.blocks, pc);
    CreateKeeps(CommitPc(s, pc), name, kind, code);
  }

  lemma SyncProgress(s: State, opcode: nat, pc: nat, code: seq<byte>)
    requires Ready(s) && Straight(s, code) && pc > s.blocks.head.pc
    ensures Progress(s, ParseSync(s, opcode, pc), code) && Progress(s, ParseExternal(s, pc), code)
  {
    hide ParseName, CreateNode;
    var name := ParseName(s.contexts.head.code, pc);
    if name.Ok? {
      LeafProgress(s, name.value.1 + 1, name.value.0, Other(Mutex), code);
      LeafProgress(s, name.value.1, name.value.0, Other(Event), code);
      StairsPc(s.items, s.blocks, name.value.1 + 2);
    }
  }

  lemma {:induction false} InstallFieldsKeeps(s: State, own: seq<byte>, register: Register, flags: byte, offset: nat,
                                              pc: nat, end: int, limit: int, code: seq<byte>)
    requires Ready(s) && Straight(s, code)
    ensures var r := InstallFields(s, own, register, flags, offset, pc, end, limit);
            r.Ok? ==> Straight(r.value.0, code) && r.value.0.blocks == s.blocks && r.value.0.items == s.items
                      && r.value.1 >= pc
    decreases end - pc
  {
    hide ReadPackageLength, ParseName, CreateNode, Straight;
    if pc < end && pc < |own| {
      var skipped := ReadPackageLength(own, pc + 1, limit);
      var name := ParseName(own, pc);
      if own[pc] == 0 && skipped.Ok? {
        InstallFieldsKeeps(s, own, register, flags, offset + skipped.value.0, skipped.value.1, end, limit, code);
      } else if own[pc] == 1 && pc + 1 < |own| {
        InstallFieldsKeeps(s, own, register, own[pc + 1], offset, pc + 3, end, limit, code);
      } else if own[pc] > 2 && name.Ok? {
        var bits := ReadPackageLength(own, name.value.1, limit);
        if bits.Ok? {
          var kind := FieldUnit(register, flags, offset, bits.value.0);
          CreateKeeps(s, name.value.0, kind, code);
          var s' := CreateNode(s, name.value.0, kind);
          if s'.Ok? {
            InstallFieldsKeeps(s'.value, own, register, flags, offset + bits.value.0, bits.value.1, end, limit, code);
          }
        }
      }
    }
  }

  lemma RegisterAdvances(s: State, opcode: nat, pc: nat)
    requires Ready(s)
    ensures var r := ReadRegister(s, opcode, pc); r.Ok? ==> r.value.1 > pc
  {
    hide DoResolve, ParseName;
  }

  lemma FieldsProgress(s: State, opcode: nat, code: seq<byte>)
    requires Ready(s) && Straight(s, code)
    ensures Progress(s, ParseFields(s, opcode, s.blocks.head.pc), code)
  {
    hide ReadPackageLength, ReadRegister, InstallFields;
    var own, limit, pc := s.contexts.head.code, s.blocks.head.limit, s.blocks.head.pc;
    var size := ReadPackageLength(own, pc + 2, limit);
    if size.Ok? {
      RegisterAdvances(s, opcode, size.value.1);
      var register := ReadRegister(s, opcode, size.value.1);
      if register.Ok? && register.value.1 < |own| {
        var start, end := register.value.1 + 1, pc + 2 + size.value.0;
        InstallFieldsKeeps(s, own, register.value.0, own[start - 1], 0, start, end, limit, code);
        var r := InstallFields(s, own, register.value.0, own[start - 1], 0, start, end, limit);
        if r.Ok? { StairsPc(r.value.0.items, r.value.0.blocks, r.value.1); }
      }
    }
  }

  lemma InitializedProgress(s: State, mode: Mode, opcode: nat, code: seq<byte>)
    requires Ready(s) && Straight(s, code)
    ensures Progress(s, ParseInitialized(s, mode, opcode, s.blocks.head.pc), code)
  {
    var r := ParseInitialized(s, mode, opcode, s.blocks.head.pc);
    if r.Ok? { StairsPc(s.items, s.blocks, r.value.blocks.tail.head.pc); }
  }

  lemma StringProgress(s: State, mode: Mode, pc: nat, code: seq<byte>)
    requires Ready(s) && Straight(s, code) && pc > s.blocks.head.pc
    ensures Progress(s, ParseString(s, mode, pc), code)
  {
    hide StringEnd;
    var end := StringEnd(s.contexts.head.code, pc, s.blocks.head.limit);
    if end.Ok? { StairsPc(s.items, s.blocks, end.value + 1); }
  }

  lemma TimerProgress(s: State, mode: Mode, pc: nat, code: seq<byte>)
    requires Ready(s) && Straight(s, code) && pc > s.blocks.head.pc
    ensures Progress(s, ParseTimer(CommitPc(s, pc), mode), code)
  {
    hide Answered;
    StairsPc(s.items, s.blocks, pc);
    AnsweredKeeps(CommitPc(s, pc), code);
  }

  lemma ObjectOpcodeProgress(s: State, mode: Mode, opcode: nat, pc: nat, code: seq<byte>)
    requires Ready(s) && Straight(s, code) && pc > s.blocks.head.pc
    ensures Progress(s, ParseObjectOpcode(s, mode, opcode, s.blocks.head.pc, pc), code)
  {
    hide ParseInitialized, ParseString, ParseTimer;
    StairsPc(s.items, s.blocks, pc);
    InitializedProgress(s, mode, opcode, code);
    StringProgress(s, mode, pc, code);
    TimerProgress(s, mode, pc, code);
  }

  lemma MethodProgress(s: State, code: seq<byte>)
    requires Ready(s) && Straight(s, code)
    ensures Progress(s, ParseMethod(s, s.blocks.head.pc), code)
  {
    hide CreateNode, ParseName, ReadInteger;
    var own, limit := s.contexts.head.code, s.blocks.head.limit;
    var size := ReadPackageLength(own, s.blocks.head.pc + 1, limit);
    if size.Ok? && ParseName(own, size.value.1).Ok? {
      var name := ParseName(own, size.value.1).value;
      var flags := ReadInteger(own, name.1, 1, limit);
      if flags.Ok? {
        var end := s.blocks.head.pc + 1 + size.value.0;
        StairsPc(s.items, s.blocks, end);
        CreateKeeps(CommitPc(s, end), name.0,
                    Method(flags.value.0 % 256, if flags.value.1 <= |own| then own[flags.value.1..] else [],
                           end - flags.value.1), code);
      }
    }
  }

  lemma AliasProgress(s: State, code: seq<byte>)
    requires Ready(s) && Straight(s, code)
    ensures Progress(s, ParseAlias(s, s.blocks.head.pc), code)
  {
    hide CreateNode, ParseName, DoResolve;
    var own, pc := s.contexts.head.code, s.blocks.head.pc;
    var target := ParseName(own, pc + 1);
    if target.Ok? && ParseName(own, target.value.1).Ok? {
      var name := ParseName(own, target.value.1).value;
      var node := DoResolve(s.ns, s.contexts.head.handle, target.value.0);
      if node.Ok? && node.value.Some? {
        StairsPc(s.items, s.blocks, name.1);
        CreateKeeps(CommitPc(s, name.1), name.0, Alias(node.value.value), code);
      }
    }
  }

  lemma OpcodeProgress(s: State, mode: Mode, opcode: nat, pc: nat, code: seq<byte>)
    requires Ready(s) && Straight(s, code) && pc > s.blocks.head.pc
    ensures Progress(s, ParseOpcode(s, mode, opcode, s.blocks.head.pc, pc), code)
  {
    hide ParseIf, ParseScope, ParseDevice, ParseMethod, ParseAlias, BreakLoop, ContinueLoop, Load, ReadPackageLength,
      ParseSync, ParseExternal, ParseFields, ParseObjectOpcode;
    StairsPc(s.items, s.blocks, pc);
    IfProgress(s, code);
    ScopeProgress(s, code);
    DeviceProgress(s, opcode, code);
    MethodProgress(s, code);
    AliasProgress(s, code);
    SyncProgress(s, opcode, pc, code);
    FieldsProgress(s, opcode, code);
    ObjectOpcodeProgress(s, mode, opcode, pc, code);
    NoLoopToLeave(s);
    if opcode in {BYTEPREFIX, WORDPREFIX, DWORDPREFIX, QWORDPREFIX} {
      StairsPc(s.items, s.blocks, pc + PrefixWidth(opcode));
    }
  }

  lemma ReferenceProgress(s: State, mode: Mode, pc: nat, name: AmlName, code: seq<byte>)
    requires Ready(s) && Straight(s, code) && pc > s.blocks.head.pc
    ensures Progress(s, ParseReference(CommitPc(s, pc), mode, name), code)
  {
    hide DoResolve, Access, OrAnswered;
    StairsPc(s.items, s.blocks, pc);
    var next := CommitPc(s, pc);
    var target := DoResolve(s.ns, s.contexts.head.handle, name);
    if target.Ok? && target.value.Some? { OrAnsweredKeeps(next, Access(s.ns, target.value.value), code); }
  }

  lemma ImmediateProgress(s: State, width: nat, code: seq<byte>)
    requires Ready(s) && Straight(s, code) && width > 0
    ensures Progress(s, ParseImmediate(s, width), code)
  {
    StairsPc(s.items, s.blocks, s.blocks.head.pc + width);
  }

  /** Immediate operands have at least one byte. */
  predicate Sized(mode: Mode) {
    mode.ImmediateMode? ==> mode.width > 0
  }

  lemma ParseProgress(s: State, mode: Mode, code: seq<byte>)
    requires Ready(s) && Straight(s, code) && Sized(mode)
    ensures Progress(s, Parse(s, mode), code)
    ensures Parse(s, mode).Ok? ==> s.blocks.head.pc < |code|
  {
    hide ParseOpcode, ParseName, ParseReference;
    var pc := s.blocks.head.pc;
    if mode.ImmediateMode? {
      ImmediateProgress(s, mode.width, code);
    } else if pc < |code| {
      if IsName(code[pc]) {
        if ParseName(code, pc).Ok? {
          ReferenceProgress(s, mode, ParseName(code, pc).value.1, ParseName(code, pc).value.0, code);
        }
      } else if code[pc] == EXTOP_PREFIX {
        if pc + 1 < |code| { OpcodeProgress(s, mode, 256 * EXTOP_PREFIX + code[pc + 1], pc + 2, code); }
      } else {
        OpcodeProgress(s, mode, code[pc], pc + 1, code);
      }
    }
  }

  /** A step that neither loops nor calls makes the remaining work smaller, or ends the run. */
  ghost predicate Shrinks(s: State, r: Res<State>, code: seq<byte>) {
    r.Ok? && r.value.items.Cons? ==> Straight(r.value, code) && Remaining(r.value, code) < Remaining(s, code)
  }

  lemma ParseShrinks(s: State, mode: Mode, code: seq<byte>)
    requires Ready(s) && Straight(s, code) && Sized(mode)
    requires Parse(s, mode).Ok? && Parse(s, mode).value.items.Cons? ==> !Parse(s, mode).value.items.head.LoopItem?
    ensures Shrinks(s, Parse(s, mode), code)
  {
    hide Parse;
    ParseProgress(s, mode, code);
  }

  /** Leaving the block of a condition: the block below resumes at or after this one's end. */
  lemma LeaveShrinks(s: State, code: seq<byte>)
    requires Ready(s) && Straight(s, code) && s.items.Cons? && s.items.head.CondItem?
    requires s.blocks.head.pc <= s.blocks.head.limit
    ensures Shrinks(s, LeaveBlock(s), code)
  {
  }

  lemma CondShrinks(s: State, code: seq<byte>)
    requires Ready(s) && Straight(s, code) && s.items.Cons? && s.items.head.CondItem? && !Loops(s)
    requires s.blocks.head.pc <= s.blocks.head.limit
    ensures Shrinks(s, ProcessCond(s), code)
  {
    hide Parse, LeaveBlock;
    LeaveShrinks(s, code);
    assert Process(s) == ProcessCond(s);
    var item := s.items.head;
    if item.inBranch {
      if s.blocks.head.pc != s.blocks.head.limit { ParseShrinks(s, ExecMode, code); }
    } else if |s.operands| < item.frame + 1 {
      ParseShrinks(s, ObjectMode, code);
    } else if |s.operands| == item.frame + 1 {
      LeaveShrinks(s.(operands := s.operands[..item.frame]), code);
    }
  }

  lemma PopulateShrinks(s: State, code: seq<byte>)
    requires Ready(s) && Straight(s, code) && s.items.Cons? && s.items.head.Populate? && !Loops(s)
    requires s.blocks.head.pc <= s.blocks.head.limit
    ensures Shrinks(s, Process(s), code)
  {
    hide Parse;
    if s.blocks.head.pc != s.blocks.head.limit { ParseShrinks(s, ExecMode, code); }
  }

  lemma MethodShrinks(s: State, code: seq<byte>)
    requires Ready(s) && Straight(s, code) && s.items.Cons? && s.items.head.MethodItem? && !Loops(s)
    requires s.blocks.head.pc <= s.blocks.head.limit
    ensures Shrinks(s, Process(s), code)
  {
    hide Parse, LeaveMethod;
    if s.blocks.head.pc != s.blocks.head.limit {
      ParseShrinks(s, ExecMode, code);
    } else {
      var ended := if s.items.head.wantResult then PushOperand(s, Value(Integer(0))) else s;
      if LeaveMethod(ended).Ok? { LeaveEnds(ended); }
    }
  }

  lemma ReductionKeeps(s: State, opcode: nat, operands: seq<Operand>, code: seq<byte>)
    requires Ready(s) && Straight(s, code) && HasOperands(opcode) && |operands| == OperandCount(opcode)
    ensures var r := Reduction(s, opcode, operands); r.Ok? ==> Straight(r.value.1, code)
  {
    hide ReduceOp, Answered;
    AnsweredKeeps(s, code);
  }

  lemma OpShrinks(s: State, code: seq<byte>)
    requires Ready(s) && Straight(s, code) && s.items.Cons? && s.items.head.OpItem? && !Loops(s)
    requires s.blocks.head.pc <= s.blocks.head.limit
    ensures Shrinks(s, Process(s), code)
  {
    hide Parse, Reduction;
    var OpItem(frame, opcode, _) := s.items.head;
    if frame <= |s.operands| && HasOperands(opcode) {
      var k := |s.operands| - frame;
      if k < OperandCount(opcode) { ParseShrinks(s, ModeOf(opcode, k), code); }
      if k == OperandCount(opcode) { ReductionKeeps(s, opcode, s.operands[frame..], code); }
    }
  }

  lemma QuietlyKeeps(s: State, place: (nat, Segment), kind: Kind, code: seq<byte>)
    requires Ready(s) && Straight(s, code)
    ensures Straight(InstallQuietly(s, place, kind), code)
  {
    hide Install;
  }

  lemma ReduceNodeKeeps(s: State, opcode: nat, operands: seq<Operand>, code: seq<byte>)
    requires Ready(s) && Straight(s, code) && IsNodeOpcode(opcode) && |operands| == |NodeModes(opcode)|
    ensures var r := ReduceNode(s, opcode, operands);
            r.Ok? ==> Straight(r.value, code) && r.value.items == s.items && r.value.blocks == s.blocks
  {
    hide InstallQuietly, DoResolveNew, OrAnswered, FieldPlace, Load, Straight;
    OrAnsweredKeeps(s, Load(EnvOf(s), operands[0]), code);
    forall s', place, kind | Ready(s') && Straight(s', code) ensures Straight(InstallQuietly(s', place, kind), code) {
      QuietlyKeeps(s', place, kind, code);
    }
  }

  lemma NodeShrinks(s: State, code: seq<byte>)
    requires Ready(s) && Straight(s, code) && s.items.Cons? && s.items.head.NodeItem? && !Loops(s)
    requires s.blocks.head.pc <= s.blocks.head.limit
    ensures Shrinks(s, Process(s), code)
  {
    hide Parse, ReduceNode;
    var NodeItem(frame, opcode) := s.items.head;
    if frame <= |s.operands| && IsNodeOpcode(opcode) {
      var k := |s.operands| - frame;
      if k < |NodeModes(opcode)| { ParseShrinks(s, NodeModes(opcode)[k], code); }
      if k == |NodeModes(opcode)| { ReduceNodeKeeps(s, opcode, s.operands[frame..], code); }
    }
  }

  lemma BufferShrinks(s: State, code: seq<byte>)
    requires Ready(s) && Straight(s, code) && s.items.Cons? && s.items.head.BufferItem? && !Loops(s)
    requires s.blocks.head.pc <= s.blocks.head.limit
    ensures Shrinks(s, Process(s), code)
  {
    hide Parse, CreateBuffer;
    var frame := s.items.head.frame;
    if |s.operands| < frame + 1 {
      ParseShrinks(s, ObjectMode, code);
    } else if |s.operands| == frame + 1 && GetObject(s.operands[frame]).Ok? {
      CreateBufferKeeps(s, GetObject(s.operands[frame]).value, code);
    }
  }

  lemma CreateBufferKeeps(s: State, size: Object, code: seq<byte>)
    requires Ready(s) && Straight(s, code)
    ensures var r := CreateBuffer(s, size); r.Ok? ==> Straight(r.value.1, code)
  {
    hide Answered, OrAnswered, Straight;
    AnsweredKeeps(s, code);
    if size.Integer? { OrAnsweredKeeps(s, FillBuffer(s, size.n), code); }
    OrAnsweredKeeps(s, FillBuffer(s, 0), code);
  }

  lemma PackageShrinks(s: State, code: seq<byte>)
    requires Ready(s) && Straight(s, code) && s.items.Cons? && s.items.head.PackageItem? && !Loops(s)
    requires s.blocks.head.pc <= s.blocks.head.limit
    ensures Shrinks(s, Process(s), code)
  {
    hide Parse, StoreInitializer;
    var PackageItem(frame, phase, index, want) := s.items.head;
    if phase == 0 {
      L.ImmediateKeeps(s, 1);
      ParseShrinks(s, ImmediateMode(1), code);
    } else if phase > 1 {
      StoredInitializer(s);
      var r := StoreInitializer(s);
      if r.Ok? && s.blocks.head.pc != s.blocks.head.limit && |r.value.operands| == frame + 1 {
        assert Process(s) == Parse(r.value, DataMode);
        ParseShrinks(r.value, DataMode, code);
      }
    }
  }

  lemma StoredInitializer(s: State)
    requires s.items.Cons? && s.items.head.PackageItem? && s.items.head.phase != 1 && s.items.head.phase != 0
    ensures var r := StoreInitializer(s);
            r.Ok? ==> r.value.contexts == s.contexts && r.value.blocks == s.blocks && r.value.items.Cons?
                      && r.value.items.tail == s.items.tail && r.value.items.head.PackageItem?
                      && r.value.items.head.phase == s.items.head.phase
  {
  }

  lemma InvokeShrinks(s: State, code: seq<byte>)
    requires Ready(s) && Straight(s, code) && s.items.Cons? && s.items.head.InvokeItem? && !Loops(s) && !Calls(s)
    requires s.blocks.head.pc <= s.blocks.head.limit
    ensures Shrinks(s, Process(s), code)
  {
    hide Parse, Call;
    if |s.operands| < s.items.head.frame + s.items.head.argc + 1 { ParseShrinks(s, ObjectMode, code); }
  }

  lemma ReturnShrinks(s: State, code: seq<byte>)
    requires Ready(s) && Straight(s, code) && s.items.Cons? && s.items.head.ReturnItem? && !Loops(s)
    requires s.blocks.head.pc <= s.blocks.head.limit
    ensures Shrinks(s, Process(s), code)
  {
    hide Parse, ReturnFrom;
    var frame := s.items.head.frame;
    if |s.operands| < frame + 1 {
      ParseShrinks(s, ObjectMode, code);
    } else if |s.operands| == frame + 1 && GetObject(s.operands[frame]).Ok? {
      var below := s.(operands := s.operands[..frame], items := s.items.tail);
      var v := GetObject(s.operands[frame]).value;
      if ReturnFrom(below, v).Ok? { ReturnEnds(below, v); }
    }
  }

  lemma StepShrinks(s: State, code: seq<byte>)
    requires Straight(s, code) && s.items.Cons? && !Loops(s) && !Calls(s)
    ensures Shrinks(s, Process(s), code)
  {
    if Ready(s) && s.blocks.head.pc <= s.blocks.head.limit {
      match s.items.head
      case Populate => PopulateShrinks(s, code);
      case MethodItem(_) => MethodShrinks(s, code);
      case CondItem(_, _, _, _, _) => CondShrinks(s, code);
      case NodeItem(_, _) => NodeShrinks(s, code);
      case OpItem(_, _, _) => OpShrinks(s, code);
      case InvokeItem(_, _, _) => InvokeShrinks(s, code);
      case ReturnItem(_) => ReturnShrinks(s, code);
      case BufferItem(_, _) => BufferShrinks(s, code);
      case PackageItem(_, _, _, _) => PackageShrinks(s, code);
    }
  }

  /** Within `n` steps the run has halted, or it has come to a While or to a call. */
  ghost predicate StopsWithin(r: Res<State>, n: nat) {
    Halted(Run(r, n)) || LoopsOrCalls(r, n)
  }

  ghost predicate LoopsOrCalls(r: Res<State>, n: nat) {
    exists k: nat :: k < n && Run(r, k).Ok? && (Loops(Run(r, k).value) || Calls(Run(r, k).value))
  }

  lemma {:induction false} StraightRunStops(s: State, code: seq<byte>, n: nat)
    requires Straight(s, code) && n > Remaining(s, code)
    ensures StopsWithin(Ok(s), n)
    decreases n
  {
    hide Process, Straight, Remaining, Loops, Calls;
    assert Run(Ok(s), 0) == Ok(s);
    if s.items.Cons? && !Loops(s) && !Calls(s) {
      StepShrinks(s, code);
      var r := Process(s);
      assert Run(Ok(s), n) == Run(r, n - 1);
      if r.Ok? && r.value.items.Cons? {
        StraightRunStops(r.value, code, n - 1);
        if !Halted(Run(r, n - 1)) {
          var k: nat :| k < n - 1 && Run(r, k).Ok? && (Loops(Run(r, k).value) || Calls(Run(r, k).value));
          assert Run(Ok(s), k + 1) == Run(r, k);
        }
      } else {
        SI.HaltedRun(r, n - 1);
      }
    }
  }

  /** `lai_eval_args` on arbitrary bytes halts within three steps per byte, unless it comes to a
      While or calls an AML method. */
  lemma MethodStops(ns: Space, m: nat, code: seq<byte>, size: int, args: seq<Object>, replies: seq<Reply>)
    requires |args| <= 7
    ensures StopsWithin(Ok(Start(ns, m, code, size, args, replies)), 3 * |code| + 2)
  {
    hide StopsWithin;
    var s := Start(ns, m, code, size, args, replies);
    assert SameCode(s.contexts.tail, code) && Weight(s.items.tail) == 0;
    StraightRunStops(s, code, 3 * |code| + 2);
  }

  /** `lai_populate` on an arbitrary table likewise. */
  lemma TableStops(ns: Space, parent: nat, code: seq<byte>, replies: seq<Reply>)
    ensures StopsWithin(Ok(SI.PopulateStart(ns, parent, code, replies)), 3 * |code| + 2)
  {
    hide StopsWithin;
    var s := SI.PopulateStart(ns, parent, code, replies);
    assert SameCode(s.contexts.tail, code) && Stairs(s.items.tail, s.blocks.tail);
    StraightRunStops(s, code, 3 * |code| + 2);
  }

  /** With the invariant: a method without While and calls ends within three steps per byte, either with
      exactly one result and empty stacks, or with an error code, a panic or undefined behaviour. */
  lemma MethodEnds(ns: Space, m: nat, code: seq<byte>, size: int, args: seq<Object>, replies: seq<Reply>)
    requires |args| <= 7 && Numbered(ns)
    ensures var s, n := Start(ns, m, code, size, args, replies), 3 * |code| + 2;
            var r := Run(Ok(s), n);
            || (r.Ok? && r.value.items.Nil? && r.value.contexts.Nil? && r.value.blocks.Nil? && |r.value.operands| == 1)
            || (r.Fail? && SI.Tame(r))
            || SI.MeetsLeftOut(s, n)
            || LoopsOrCalls(Ok(s), n)
  {
    hide Run, SI.MeetsLeftOut, SI.Inv, LoopsOrCalls;
    MethodStops(ns, m, code, size, args, replies);
    SI.EvaluationIsSafe(ns, m, code, size, args, replies, 3 * |code| + 2);
  }
}
