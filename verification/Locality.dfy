/** A running method does not see its caller: on top of any caller it does exactly what it does alone, on
    arbitrary bytes. Only references lead from it to the variables of the caller. */
module Locality {
  import opened Bits
  import opened Outcomes
  import opened Names
  import opened Namespace
  import opened Opcodes
  import opened Operators
  import opened Machine
  import opened StackInvariant

  // ------------------------------------------------------------------------------------
  // Locality: what lies below the running method does not matter.
  // ------------------------------------------------------------------------------------

  function Append<T>(top: List<T>, bottom: List<T>): List<T> {
    match top
    case Nil => bottom
    case Cons(x, rest) => Cons(x, Append(rest, bottom))
  }

  /** The stacks of `t` on top of the stacks of the caller `b`. */
  function OnTop(t: State, b: State): State {
    State(Append(t.contexts, b.contexts), Append(t.blocks, b.blocks), Append(t.items, b.items), t.operands, t.ns,
          t.replies)
  }

  function OnTopResult(r: Res<State>, b: State): Res<State> {
    match r
    case Fail(f) => Fail(f)
    case Ok(t) => Ok(OnTop(t, b))
  }

  /** What the next reply leaves in the variables of the caller, below `depth` contexts. */
  function Rebound(replies: seq<Reply>, depth: nat, b: State): State {
    if replies != [] && replies[0].Replied? && depth <= |replies[0].variables|
    then b.(contexts := Rebind(b.contexts, replies[0].variables[depth..])) else b
  }

  /** The caller after a step of the callee from `t` to `t'`. */
  function CallerOf(t: State, t': State, b: State): State {
    if t'.replies == t.replies then b else Rebound(t.replies, Length(t.contexts), b)
  }

  /** At most one reply is taken. */
  predicate NextReplies(t: State, t': State) {
    t'.replies == t.replies || (t.replies != [] && t'.replies == t.replies[1..])
  }

  /** `onTop` is on top of the caller what `r` is alone. */
  predicate Local(t: State, r: Res<State>, b: State, onTop: Res<State>) {
    match r
    case Fail(f) => onTop == Fail(f)
    case Ok(t') => NextReplies(t, t') && onTop == Ok(OnTop(t', CallerOf(t, t', b)))
  }

  /** The same, without a reply. */
  predicate Silent(t: State, r: Res<State>, b: State, onTop: Res<State>) {
    match r
    case Fail(f) => onTop == Fail(f)
    case Ok(t') => t'.replies == t.replies && onTop == Ok(OnTop(t', b))
  }

  lemma SilentIsLocal(t: State, r: Res<State>, b: State, onTop: Res<State>)
    requires Silent(t, r, b, onTop)
    ensures Local(t, r, b, onTop)
  {
  }

  predicate LocalAnswer(t: State, r: Res<(Object, State)>, b: State, onTop: Res<(Object, State)>) {
    match r
    case Fail(f) => onTop == Fail(f)
    case Ok((v, t')) => NextReplies(t, t') && onTop == Ok((v, OnTop(t', CallerOf(t, t', b))))
  }

  lemma {:induction false} RebindAppend(top: List<Context>, bottom: List<Context>, variables: seq<Variables>)
    ensures Rebind(Append(top, bottom), variables)
         == Append(Rebind(top, variables),
                   if Length(top) <= |variables| then Rebind(bottom, variables[Length(top)..]) else bottom)
    decreases top
  {
    if top.Cons? && variables != [] {
      RebindAppend(top.tail, bottom, variables[1..]);
      if Length(top) <= |variables| { assert variables[1..][Length(top.tail)..] == variables[Length(top)..]; }
    }
  }

  lemma AnsweredLocal(t: State, b: State)
    ensures LocalAnswer(t, Answered(t), b, Answered(OnTop(t, b)))
  {
    if t.replies != [] && t.replies[0].Replied? {
      RebindAppend(t.contexts, b.contexts, t.replies[0].variables);
    }
  }

  lemma OrAnsweredLocal(t: State, r: Res<Object>, b: State)
    ensures LocalAnswer(t, OrAnswered(t, r), b, OrAnswered(OnTop(t, b), r))
  {
    hide Answered, Rebound;
    AnsweredLocal(t, b);
  }

  predicate Grounded(t: State) {
    Stacked(t.items, t.contexts, t.blocks) && t.items.Cons?
  }

  lemma {:induction false} BreakLocal(t: State, b: State)
    requires Grounded(t)
    ensures Silent(t, BreakLoop(t), b, BreakLoop(OnTop(t, b)))
    decreases t.items
  {
    hide Rebound;
    if t.items.head.CondItem? { BreakLocal(t.(blocks := t.blocks.tail, items := t.items.tail), b); }
  }

  lemma {:induction false} ContinueLocal(t: State, b: State)
    requires Grounded(t)
    ensures Silent(t, ContinueLoop(t), b, ContinueLoop(OnTop(t, b)))
    decreases t.items
  {
    hide Rebound;
    if t.items.head.CondItem? { ContinueLocal(t.(blocks := t.blocks.tail, items := t.items.tail), b); }
  }

  lemma {:induction false} ReturnLocal(t: State, v: Object, b: State)
    requires Grounded(t)
    ensures Silent(t, ReturnFrom(t, v), b, ReturnFrom(OnTop(t, b), v))
    decreases t.items
  {
    hide UninstallAll, Rebound;
    if t.items.head.CondItem? || t.items.head.LoopItem? {
      ReturnLocal(t.(blocks := t.blocks.tail, items := t.items.tail), v, b);
    }
  }

  lemma CommitLocal(t: State, pc: nat, b: State)
    requires t.blocks.Cons?
    ensures OnTop(CommitPc(t, pc), b) == CommitPc(OnTop(t, b), pc)
  {
  }

  lemma PushLocal(t: State, pc: nat, limit: int, item: Item, b: State)
    ensures OnTop(PushItem(PushBlock(t, pc, limit), item), b) == PushItem(PushBlock(OnTop(t, b), pc, limit), item)
  {
  }

  lemma PushContextLocal(t: State, c: Context, b: State)
    ensures OnTop(PushContext(t, c), b) == PushContext(OnTop(t, b), c)
  {
  }

  lemma CreateLocal(t: State, name: AmlName, kind: Kind, b: State)
    requires Ready(t)
    ensures var r := CreateNode(t, name, kind);
            Silent(t, r, b, CreateNode(OnTop(t, b), name, kind))
  {
    hide DoResolveNew, Install, Rebound;
  }

  lemma ParseScopeLocal(t: State, pc: nat, b: State)
    requires Ready(t)
    ensures Silent(t, ParseScope(t, pc), b, ParseScope(OnTop(t, b), pc))
  {
    hide ReadPackageLength, ParseName, DoResolve, Rebound;
    var r := ParseScope(t, pc);
    if r.Ok? {
      var Block(start, end) := r.value.blocks.head;
      var next := CommitPc(t, end);
      CommitLocal(t, end, b);
      PushContextLocal(next, r.value.contexts.head, b);
      PushLocal(PushContext(next, r.value.contexts.head), start, end, Populate, b);
    }
  }

  lemma ParseIfLocal(t: State, pc: nat, b: State)
    requires Ready(t)
    ensures Silent(t, ParseIf(t, pc), b, ParseIf(OnTop(t, b), pc))
    ensures Silent(t, ParseWhile(t, pc), b, ParseWhile(OnTop(t, b), pc))
  {
    hide ReadPackageLength, Rebound;
    forall r | r in {ParseIf(t, pc), ParseWhile(t, pc)} && r.Ok?
      ensures OnTop(r.value, b)
           == PushItem(PushBlock(CommitPc(OnTop(t, b), r.value.blocks.tail.head.pc),
                                 r.value.blocks.head.pc, r.value.blocks.head.limit), r.value.items.head)
    {
      var next := r.value.blocks.tail.head.pc;
      CommitLocal(t, next, b);
      PushLocal(CommitPc(t, next), r.value.blocks.head.pc, r.value.blocks.head.limit, r.value.items.head, b);
    }
  }

  lemma ParseInitializedLocal(t: State, mode: Mode, opcode: nat, pc: nat, b: State)
    requires Ready(t)
    ensures Silent(t, ParseInitialized(t, mode, opcode, pc), b, ParseInitialized(OnTop(t, b), mode, opcode, pc))
  {
    hide ReadPackageLength, Rebound;
    var r := ParseInitialized(t, mode, opcode, pc);
    if r.Ok? {
      var Block(start, end) := r.value.blocks.head;
      CommitLocal(t, end, b);
      PushLocal(CommitPc(t, end), start, end, r.value.items.head, b);
    }
  }

  lemma ParseDeviceLocal(t: State, opcode: nat, pc: nat, b: State)
    requires Ready(t)
    ensures Silent(t, ParseDevice(t, opcode, pc), b, ParseDevice(OnTop(t, b), opcode, pc))
  {
    hide ReadPackageLength, ParseName, CreateNode, ReadHeader, Rebound;
    var code := t.contexts.head.code;
    var size := ReadPackageLength(code, pc + 2, t.blocks.head.limit);
    if size.Ok? && ParseName(code, size.value.1).Ok? {
      var name := ParseName(code, size.value.1).value;
      var header := ReadHeader(code, opcode, name.1, t.blocks.head.limit);
      if header.Ok? { CreateLocal(CommitPc(t, pc + 2 + size.value.0), name.0, header.value.0, b); }
    }
  }

  lemma ParseMethodLocal(t: State, pc: nat, b: State)
    requires Ready(t)
    ensures Silent(t, ParseMethod(t, pc), b, ParseMethod(OnTop(t, b), pc))
  {
    hide ReadPackageLength, ParseName, CreateNode, ReadInteger, Rebound;
    var code := t.contexts.head.code;
    var size := ReadPackageLength(code, pc + 1, t.blocks.head.limit);
    if size.Ok? && ParseName(code, size.value.1).Ok? {
      var name := ParseName(code, size.value.1).value;
      var end := pc + 1 + size.value.0;
      var flags := ReadInteger(code, name.1, 1, t.blocks.head.limit);
      if flags.Ok? {
        CreateLocal(CommitPc(t, end), name.0,
                    Method(flags.value.0 % 256, if flags.value.1 <= |code| then code[flags.value.1..] else [],
                           end - flags.value.1), b);
      }
    }
  }

  lemma ParseAliasLocal(t: State, pc: nat, b: State)
    requires Ready(t)
    ensures Silent(t, ParseAlias(t, pc), b, ParseAlias(OnTop(t, b), pc))
  {
    hide ParseName, CreateNode, DoResolve, Rebound;
    var code := t.contexts.head.code;
    var target := ParseName(code, pc + 1);
    if target.Ok? && ParseName(code, target.value.1).Ok? {
      var name := ParseName(code, target.value.1).value;
      var node := DoResolve(t.ns, t.contexts.head.handle, target.value.0);
      if node.Ok? && node.value.Some? {
        CreateLocal(CommitPc(t, name.1), name.0, Alias(node.value.value), b);
      }
    }
  }

  lemma ParseSyncLocal(t: State, opcode: nat, pc: nat, b: State)
    requires Ready(t)
    ensures Silent(t, ParseSync(t, opcode, pc), b, ParseSync(OnTop(t, b), opcode, pc))
    ensures Silent(t, ParseExternal(t, pc), b, ParseExternal(OnTop(t, b), pc))
  {
    hide ParseName, CreateNode, ReadInteger, Rebound;
    var name := ParseName(t.contexts.head.code, pc);
    if name.Ok? {
      CreateLocal(CommitPc(t, name.value.1 + 1), name.value.0, Other(Mutex), b);
      CreateLocal(CommitPc(t, name.value.1), name.value.0, Other(Event), b);
    }
  }

  lemma {:induction false} InstallFieldsLocal(t: State, code: seq<byte>, register: Register, flags: byte, offset: nat,
                                              pc: nat, end: int, limit: int, b: State)
    requires Ready(t)
    ensures var r := InstallFields(t, code, register, flags, offset, pc, end, limit);
            var onTop := InstallFields(OnTop(t, b), code, register, flags, offset, pc, end, limit);
            match r
            case Fail(f) => onTop == Fail(f)
            case Ok((t', pc')) => onTop == Ok((OnTop(t', b), pc')) && t'.replies == t.replies
    decreases end - pc
  {
    hide ReadPackageLength, ParseName, CreateNode, Rebound, OnTop;
    OnTopReady(t, b);
    if pc < end && pc < |code| {
      var skipped := ReadPackageLength(code, pc + 1, limit);
      var name := ParseName(code, pc);
      if code[pc] == 0 && skipped.Ok? {
        InstallFieldsLocal(t, code, register, flags, offset + skipped.value.0, skipped.value.1, end, limit, b);
      } else if code[pc] == 1 && pc + 1 < |code| {
        InstallFieldsLocal(t, code, register, code[pc + 1], offset, pc + 3, end, limit, b);
      } else if code[pc] > 2 && name.Ok? {
        var bits := ReadPackageLength(code, name.value.1, limit);
        if bits.Ok? {
          var kind := FieldUnit(register, flags, offset, bits.value.0);
          CreateLocal(t, name.value.0, kind, b);
          var t' := CreateNode(t, name.value.0, kind);
          if t'.Ok? {
            InstallFieldsLocal(t'.value, code, register, flags, offset + bits.value.0, bits.value.1, end, limit, b);
          }
        }
      }
    }
  }

  lemma OnTopReady(t: State, b: State)
    requires Ready(t)
    ensures Ready(OnTop(t, b))
    ensures OnTop(t, b).contexts.head == t.contexts.head && OnTop(t, b).blocks.head == t.blocks.head
    ensures OnTop(t, b).ns == t.ns && OnTop(t, b).replies == t.replies && OnTop(t, b).operands == t.operands
  {
  }

  lemma ParseFieldsLocal(t: State, opcode: nat, pc: nat, b: State)
    requires Ready(t)
    ensures Silent(t, ParseFields(t, opcode, pc), b, ParseFields(OnTop(t, b), opcode, pc))
  {
    hide ReadPackageLength, InstallFields, Rebound, OnTop, ReadRegister;
    OnTopReady(t, b);
    var code, limit := t.contexts.head.code, t.blocks.head.limit;
    var size := ReadPackageLength(code, pc + 2, limit);
    if size.Ok? {
      RegisterLocal(t, opcode, size.value.1, b);
      var register := ReadRegister(t, opcode, size.value.1);
      if register.Ok? && register.value.1 < |code| {
        var start, end := register.value.1 + 1, pc + 2 + size.value.0;
        InstallFieldsLocal(t, code, register.value.0, code[start - 1], 0, start, end, limit, b);
        var r := InstallFields(t, code, register.value.0, code[start - 1], 0, start, end, limit);
        if r.Ok? { CommitLocal(r.value.0, r.value.1, b); }
      }
    }
  }

  lemma RegisterLocal(t: State, opcode: nat, pc: nat, b: State)
    requires Ready(t)
    ensures Ready(OnTop(t, b)) && ReadRegister(OnTop(t, b), opcode, pc) == ReadRegister(t, opcode, pc)
  {
    hide ParseName, DoResolve;
  }

  lemma ParseTimerLocal(t: State, mode: Mode, b: State)
    ensures Local(t, ParseTimer(t, mode), b, ParseTimer(OnTop(t, b), mode))
  {
    hide Answered, Rebound;
    AnsweredLocal(t, b);
  }

  lemma ParseStringLocal(t: State, mode: Mode, pc: nat, b: State)
    requires Ready(t)
    ensures Ready(OnTop(t, b))
    ensures Silent(t, ParseString(t, mode, pc), b, ParseString(OnTop(t, b), mode, pc))
  {
    hide StringEnd, ParseData;
    var end := StringEnd(t.contexts.head.code, pc, t.blocks.head.limit);
    if end.Ok? {
      CommitLocal(t, end.value + 1, b);
      ParseDataLocal(CommitPc(t, end.value + 1), mode, Opaque(TextForm, end.value - pc), b);
    }
  }

  lemma ParseObjectOpcodeLocal(t: State, mode: Mode, opcode: nat, opcodePc: nat, pc: nat, b: State)
    requires Ready(t)
    ensures Ready(OnTop(t, b))
    ensures Local(t, ParseObjectOpcode(t, mode, opcode, opcodePc, pc), b,
                  ParseObjectOpcode(OnTop(t, b), mode, opcode, opcodePc, pc))
  {
    hide ParseTimer, ParseString, ParseInitialized, ParseData, Rebound, OnTop, PushItem, PushOperand;
    OnTopReady(t, b);
    CommitLocal(t, pc, b);
    var next := CommitPc(t, pc);
    if opcode == REVISION_OP { ParseDataLocal(next, mode, Integer(REVISION), b); }
    ParseTimerLocal(next, mode, b);
    PushOperandLocal(next, DebugName, b);
    ParseStringLocal(t, mode, pc, b);
    ParseInitializedLocal(t, mode, opcode, opcodePc, b);
    PushItemLocal(next, OpItem(|t.operands|, opcode, WantsResult(mode)), b);
    PushItemLocal(next, NodeItem(|t.operands|, opcode), b);
    PushedReplies(next);
  }

  lemma PushedReplies(t: State)
    ensures forall item :: PushItem(t, item).replies == t.replies
    ensures forall o :: PushOperand(t, o).replies == t.replies
  {
  }

  lemma PushOperandLocal(t: State, o: Operand, b: State)
    ensures OnTop(PushOperand(t, o), b) == PushOperand(OnTop(t, b), o)
  {
  }

  lemma PushItemLocal(t: State, item: Item, b: State)
    ensures OnTop(PushItem(t, item), b) == PushItem(OnTop(t, b), item)
  {
  }

  lemma ParseDataLocal(t: State, mode: Mode, v: Object, b: State)
    ensures Silent(t, ParseData(t, mode, v), b, ParseData(OnTop(t, b), mode, v))
  {
  }

  lemma ParseVariableLocal(t: State, mode: Mode, variable: Operand, b: State)
    requires Ready(t)
    ensures Ready(OnTop(t, b))
    ensures Silent(t, ParseVariable(t, mode, variable), b, ParseVariable(OnTop(t, b), mode, variable))
  {
    hide Load;
  }

  /** Everything that is a statement in any mode. */
  lemma ParseStatementLocal(t: State, opcode: nat, opcodePc: nat, pc: nat, b: State)
    requires Grounded(t) && Ready(t)
    ensures Ready(OnTop(t, b))
    ensures Silent(t, ParseIf(t, opcodePc), b, ParseIf(OnTop(t, b), opcodePc))
    ensures Silent(t, ParseWhile(t, opcodePc), b, ParseWhile(OnTop(t, b), opcodePc))
    ensures Silent(t, ParseScope(t, opcodePc), b, ParseScope(OnTop(t, b), opcodePc))
    ensures Silent(t, ParseDevice(t, opcode, opcodePc), b, ParseDevice(OnTop(t, b), opcode, opcodePc))
    ensures Silent(t, ParseMethod(t, opcodePc), b, ParseMethod(OnTop(t, b), opcodePc))
    ensures Silent(t, ParseAlias(t, opcodePc), b, ParseAlias(OnTop(t, b), opcodePc))
    ensures Silent(t, ParseSync(t, opcode, pc), b, ParseSync(OnTop(t, b), opcode, pc))
    ensures Silent(t, ParseExternal(t, pc), b, ParseExternal(OnTop(t, b), pc))
    ensures Silent(t, ParseFields(t, opcode, opcodePc), b, ParseFields(OnTop(t, b), opcode, opcodePc))
    ensures Silent(t, BreakLoop(t), b, BreakLoop(OnTop(t, b)))
    ensures Silent(t, ContinueLoop(t), b, ContinueLoop(OnTop(t, b)))
  {
    hide Silent, OnTop;
    OnTopReady(t, b);
    ParseIfLocal(t, opcodePc, b);
    ParseScopeLocal(t, opcodePc, b);
    ParseDeviceLocal(t, opcode, opcodePc, b);
    ParseMethodLocal(t, opcodePc, b);
    ParseAliasLocal(t, opcodePc, b);
    ParseSyncLocal(t, opcode, pc, b);
    ParseFieldsLocal(t, opcode, opcodePc, b);
    BreakLocal(t, b);
    ContinueLocal(t, b);
  }

  lemma ParseOpcodeLocal(t: State, mode: Mode, opcode: nat, opcodePc: nat, pc: nat, b: State)
    requires Grounded(t) && Ready(t)
    ensures Ready(OnTop(t, b))
    ensures Local(t, ParseOpcode(t, mode, opcode, opcodePc, pc), b,
                  ParseOpcode(OnTop(t, b), mode, opcode, opcodePc, pc))
  {
    hide ParseIf, ParseWhile, ParseScope, ParseDevice, ParseMethod, ParseAlias, BreakLoop, ContinueLoop, ReadInteger,
      ParseVariable, ParseSync, ParseExternal, ParseFields, ParseObjectOpcode, ParseData, Rebound, OnTop, PushItem,
      PushOperand, Local;
    OnTopReady(t, b);
    if ARG0_OP <= opcode <= ARG6_OP || LOCAL0_OP <= opcode <= LOCAL7_OP {
      VariableOpcodeLocal(t, mode, opcode, opcodePc, pc, b);
    } else if opcode in {ZERO_OP, ONE_OP, ONES_OP, BYTEPREFIX, WORDPREFIX, DWORDPREFIX, QWORDPREFIX} {
      ConstantOpcodeLocal(t, mode, opcode, opcodePc, pc, b);
    } else if opcode in {NOP_OP, BREAKPOINT_OP, RETURN_OP, NAME_OP} || IsOperator(opcode) {
      ItemOpcodeLocal(t, mode, opcode, opcodePc, pc, b);
    } else {
      ParseStatementLocal(t, opcode, opcodePc, pc, b);
      ParseObjectOpcodeLocal(t, mode, opcode, opcodePc, pc, b);
      if opcode == IF_OP { SilentIsLocal(t, ParseIf(t, opcodePc), b, ParseIf(OnTop(t, b), opcodePc)); }
      if opcode == WHILE_OP { SilentIsLocal(t, ParseWhile(t, opcodePc), b, ParseWhile(OnTop(t, b), opcodePc)); }
      if opcode == BREAK_OP { SilentIsLocal(t, BreakLoop(t), b, BreakLoop(OnTop(t, b))); }
      if opcode == CONTINUE_OP { SilentIsLocal(t, ContinueLoop(t), b, ContinueLoop(OnTop(t, b))); }
      if opcode == SCOPE_OP { SilentIsLocal(t, ParseScope(t, opcodePc), b, ParseScope(OnTop(t, b), opcodePc)); }
      if HasBody(opcode) {
        SilentIsLocal(t, ParseDevice(t, opcode, opcodePc), b, ParseDevice(OnTop(t, b), opcode, opcodePc));
      }
      if opcode == METHOD_OP { SilentIsLocal(t, ParseMethod(t, opcodePc), b, ParseMethod(OnTop(t, b), opcodePc)); }
      if opcode == ALIAS_OP { SilentIsLocal(t, ParseAlias(t, opcodePc), b, ParseAlias(OnTop(t, b), opcodePc)); }
      if opcode in {MUTEX_OP, EVENT_OP} {
        SilentIsLocal(t, ParseSync(t, opcode, pc), b, ParseSync(OnTop(t, b), opcode, pc));
      }
      if opcode == EXTERNAL_OP { SilentIsLocal(t, ParseExternal(t, pc), b, ParseExternal(OnTop(t, b), pc)); }
      if opcode in {FIELD_OP, INDEXFIELD_OP} {
        SilentIsLocal(t, ParseFields(t, opcode, opcodePc), b, ParseFields(OnTop(t, b), opcode, opcodePc));
      }
      if opcode == ELSE_OP { SilentIsLocal(t, Fail(Panic), b, Fail(Panic)); }
    }
  }

  lemma VariableOpcodeLocal(t: State, mode: Mode, opcode: nat, opcodePc: nat, pc: nat, b: State)
    requires Ready(t) && (ARG0_OP <= opcode <= ARG6_OP || LOCAL0_OP <= opcode <= LOCAL7_OP)
    ensures Ready(OnTop(t, b))
    ensures Local(t, ParseOpcode(t, mode, opcode, opcodePc, pc), b,
                  ParseOpcode(OnTop(t, b), mode, opcode, opcodePc, pc))
  {
    hide ParseVariable, OnTop, Rebound;
    OnTopReady(t, b);
    CommitLocal(t, pc, b);
    var variable := if opcode >= ARG0_OP then ArgName(opcode - ARG0_OP) else LocalName(opcode - LOCAL0_OP);
    ParseVariableLocal(CommitPc(t, pc), mode, variable, b);
  }

  lemma ConstantOpcodeLocal(t: State, mode: Mode, opcode: nat, opcodePc: nat, pc: nat, b: State)
    requires Ready(t) && opcode in {ZERO_OP, ONE_OP, ONES_OP, BYTEPREFIX, WORDPREFIX, DWORDPREFIX, QWORDPREFIX}
    ensures Ready(OnTop(t, b))
    ensures Local(t, ParseOpcode(t, mode, opcode, opcodePc, pc), b,
                  ParseOpcode(OnTop(t, b), mode, opcode, opcodePc, pc))
  {
    hide ParseData, ReadInteger, OnTop, Rebound, PushOperand;
    OnTopReady(t, b);
    CommitLocal(t, pc, b);
    var next := CommitPc(t, pc);
    PushOperandLocal(next, NullName, b);
    PushedReplies(next);
    ParseDataLocal(next, mode, Integer(0), b);
    ParseDataLocal(next, mode, Integer(1), b);
    ParseDataLocal(next, mode, Integer(TWO64 - 1), b);
    var value := ReadInteger(t.contexts.head.code, pc, PrefixWidth(opcode), t.blocks.head.limit);
    if value.Ok? {
      CommitLocal(t, value.value.1, b);
      ParseDataLocal(CommitPc(t, value.value.1), mode, Integer(Wrap(value.value.0)), b);
    }
  }

  lemma ItemOpcodeLocal(t: State, mode: Mode, opcode: nat, opcodePc: nat, pc: nat, b: State)
    requires Ready(t) && (opcode in {NOP_OP, BREAKPOINT_OP, RETURN_OP, NAME_OP} || IsOperator(opcode))
    ensures Ready(OnTop(t, b))
    ensures Local(t, ParseOpcode(t, mode, opcode, opcodePc, pc), b,
                  ParseOpcode(OnTop(t, b), mode, opcode, opcodePc, pc))
  {
    hide OnTop, Rebound, PushItem;
    OnTopReady(t, b);
    CommitLocal(t, pc, b);
    var next := CommitPc(t, pc);
    PushedReplies(next);
    PushItemLocal(next, OpItem(|t.operands|, opcode, WantsResult(mode)), b);
    PushItemLocal(next, ReturnItem(|t.operands|), b);
    PushItemLocal(next, NodeItem(|t.operands|, NAME_OP), b);
  }

  lemma ParseReferenceLocal(t: State, mode: Mode, name: AmlName, b: State)
    requires Ready(t)
    ensures Ready(OnTop(t, b))
    ensures Local(t, ParseReference(t, mode, name), b, ParseReference(OnTop(t, b), mode, name))
  {
    hide DoResolve, Access, OrAnswered, Rebound;
    var target := DoResolve(t.ns, t.contexts.head.handle, name);
    if target.Ok? && target.value.Some? { OrAnsweredLocal(t, Access(t.ns, target.value.value), b); }
  }

  lemma ParseImmediateLocal(t: State, width: nat, b: State)
    requires Ready(t)
    ensures Ready(OnTop(t, b)) && Silent(t, ParseImmediate(t, width), b, ParseImmediate(OnTop(t, b), width))
  {
    hide ReadInteger;
    var value := ReadInteger(t.contexts.head.code, t.blocks.head.pc, width, t.blocks.head.limit);
    if value.Ok? { CommitLocal(t, value.value.1, b); }
  }

  lemma ParseLocal(t: State, mode: Mode, b: State)
    requires Grounded(t)
    ensures Local(t, Parse(t, mode), b, Parse(OnTop(t, b), mode))
  {
    hide ParseOpcode, ParseName, ParseReference, ParseImmediate, Rebound, OnTop;
    StackedReady(t.items, t.contexts, t.blocks);
    OnTopReady(t, b);
    var code, pc := t.contexts.head.code, t.blocks.head.pc;
    if mode.ImmediateMode? {
      ParseImmediateLocal(t, mode.width, b);
    } else if pc < |code| {
      if code[pc] == EXTOP_PREFIX {
        if pc + 1 < |code| {
          ParseOpcodeLocal(t, mode, 256 * EXTOP_PREFIX + code[pc + 1], pc, pc + 2, b);
        }
      } else if !IsName(code[pc]) {
        ParseOpcodeLocal(t, mode, code[pc], pc, pc + 1, b);
      } else if ParseName(code, pc).Ok? {
        var name := ParseName(code, pc).value;
        CommitLocal(t, name.1, b);
        ParseReferenceLocal(CommitPc(t, name.1), mode, name.0, b);
      }
    }
  }

  lemma BodyLocal(t: State, atEnd: Res<State>, b: State, atEnd': Res<State>)
    requires Grounded(t) && Ready(t) && Local(t, atEnd, b, atEnd')
    ensures Ready(OnTop(t, b)) && Local(t, ProcessBody(t, atEnd), b, ProcessBody(OnTop(t, b), atEnd'))
  {
    hide Parse, Local;
    ParseLocal(t, ExecMode, b);
  }

  lemma LoopLocal(t: State, b: State)
    requires Grounded(t) && Ready(t) && t.items.head.LoopItem?
    ensures Local(t, ProcessLoop(t), b, ProcessLoop(OnTop(t, b)))
  {
    hide Parse, ProcessBody, Rebound;
    var LoopItem(frame, _, predicatePc) := t.items.head;
    CommitLocal(t, predicatePc, b);
    BodyLocal(t, Ok(SetTop(CommitPc(t, predicatePc), LoopItem(frame, false, predicatePc))), b,
              Ok(SetTop(CommitPc(OnTop(t, b), predicatePc), LoopItem(frame, false, predicatePc))));
    ParseLocal(t, ObjectMode, b);
  }

  lemma CondLocal(t: State, b: State)
    requires Grounded(t) && Ready(t) && t.items.head.CondItem?
    ensures Local(t, ProcessCond(t), b, ProcessCond(OnTop(t, b)))
  {
    hide Parse, ProcessBody, Rebound;
    BodyLocal(t, LeaveBlock(t), b, LeaveBlock(OnTop(t, b)));
    ParseLocal(t, ObjectMode, b);
  }

  lemma ReductionLocal(t: State, opcode: nat, operands: seq<Operand>, b: State)
    requires Ready(t) && HasOperands(opcode) && |operands| == OperandCount(opcode)
    ensures Ready(OnTop(t, b))
    ensures LocalAnswer(t, Reduction(t, opcode, operands), b, Reduction(OnTop(t, b), opcode, operands))
  {
    hide ReduceOp, Answered, Rebound;
    AnsweredLocal(t, b);
  }

  lemma OpLocal(t: State, b: State)
    requires Grounded(t) && Ready(t) && t.items.head.OpItem?
    ensures Local(t, ProcessOp(t), b, ProcessOp(OnTop(t, b)))
  {
    hide Parse, Reduction, Rebound;
    var OpItem(frame, opcode, _) := t.items.head;
    if frame <= |t.operands| && HasOperands(opcode) {
      var k := |t.operands| - frame;
      if k < OperandCount(opcode) { ParseLocal(t, ModeOf(opcode, k), b); }
      if k == OperandCount(opcode) { ReductionLocal(t, opcode, t.operands[frame..], b); }
    }
  }

  lemma InstallQuietlyLocal(t: State, place: (nat, Segment), kind: Kind, b: State)
    requires Ready(t)
    ensures Ready(OnTop(t, b)) && InstallQuietly(OnTop(t, b), place, kind) == OnTop(InstallQuietly(t, place, kind), b)
    ensures InstallQuietly(t, place, kind).replies == t.replies
  {
    hide Install;
  }

  lemma ReduceBufferFieldLocal(t: State, opcode: nat, operands: seq<Operand>, b: State)
    requires Ready(t) && opcode != NAME_OP && IsNodeOpcode(opcode) && |operands| == |NodeModes(opcode)|
    ensures Ready(OnTop(t, b))
    ensures Local(t, ReduceBufferField(t, opcode, operands), b, ReduceBufferField(OnTop(t, b), opcode, operands))
  {
    hide InstallQuietly, DoResolveNew, OrAnswered, FieldPlace, Load, Rebound;
    OrAnsweredLocal(t, Load(EnvOf(t), operands[0]), b);
    var target := operands[|operands| - 1];
    var buffer := OrAnswered(t, Load(EnvOf(t), operands[0]));
    if FieldPlace(opcode, operands).Ok? && target.UnresolvedName? && buffer.Ok? {
      var place := DoResolveNew(t.ns, t.contexts.head.handle, target.name);
      var (start, length) := FieldPlace(opcode, operands).value;
      if place.Ok? {
        var t' := buffer.value.1;
        InstallQuietlyLocal(t', place.value, BufferField(start, length), CallerOf(t, t', b));
      }
    }
  }

  lemma ReduceNodeLocal(t: State, opcode: nat, operands: seq<Operand>, b: State)
    requires Ready(t) && IsNodeOpcode(opcode) && |operands| == |NodeModes(opcode)|
    ensures Ready(OnTop(t, b))
    ensures Local(t, ReduceNode(t, opcode, operands), b, ReduceNode(OnTop(t, b), opcode, operands))
  {
    hide InstallQuietly, DoResolveNew, ReduceBufferField, Rebound;
    if opcode == NAME_OP || opcode == OPREGION_OP {
      if operands[0].UnresolvedName? {
        var place := DoResolveNew(t.ns, t.contexts.head.handle, operands[0].name);
        if place.Ok? {
          if operands[1].Value? { InstallQuietlyLocal(t, place.value, NameObject(operands[1].v), b); }
          InstallQuietlyLocal(t, place.value, Other(OpRegion), b);
        }
      }
    } else {
      ReduceBufferFieldLocal(t, opcode, operands, b);
    }
  }

  lemma NodeLocal(t: State, b: State)
    requires Grounded(t) && Ready(t) && t.items.head.NodeItem?
    ensures Local(t, ProcessNode(t), b, ProcessNode(OnTop(t, b)))
  {
    hide Parse, ReduceNode, Rebound;
    var NodeItem(frame, opcode) := t.items.head;
    if frame <= |t.operands| && IsNodeOpcode(opcode) {
      var k := |t.operands| - frame;
      if k < |NodeModes(opcode)| { ParseLocal(t, NodeModes(opcode)[k], b); }
      if k == |NodeModes(opcode)| {
        ReduceNodeLocal(t, opcode, t.operands[frame..], b);
      }
    }
  }

  lemma InvokeLocal(t: State, b: State)
    requires Grounded(t) && Ready(t) && t.items.head.InvokeItem?
    ensures Local(t, ProcessInvoke(t), b, ProcessInvoke(OnTop(t, b)))
  {
    hide Parse, GetObjects, Rebound;
    ParseLocal(t, ObjectMode, b);
  }

  lemma ReturnItemLocal(t: State, b: State)
    requires Grounded(t) && Ready(t) && t.items.head.ReturnItem?
    ensures Local(t, ProcessReturn(t), b, ProcessReturn(OnTop(t, b)))
  {
    hide Parse, ReturnFrom, Rebound;
    ParseLocal(t, ObjectMode, b);
    var frame := t.items.head.frame;
    if |t.operands| == frame + 1 && GetObject(t.operands[frame]).Ok? {
      ReturnLocal(t.(operands := t.operands[..frame], items := t.items.tail), GetObject(t.operands[frame]).value, b);
    }
  }

  lemma BufferLocal(t: State, b: State)
    requires Grounded(t) && Ready(t) && t.items.head.BufferItem?
    ensures Local(t, ProcessBuffer(t), b, ProcessBuffer(OnTop(t, b)))
  {
    hide Parse, CreateBuffer, Rebound;
    ParseLocal(t, ObjectMode, b);
    var frame := t.items.head.frame;
    if |t.operands| == frame + 1 && GetObject(t.operands[frame]).Ok? {
      CreateBufferLocal(t, GetObject(t.operands[frame]).value, b);
    }
  }

  lemma CreateBufferLocal(t: State, size: Object, b: State)
    requires Ready(t)
    ensures Ready(OnTop(t, b)) && LocalAnswer(t, CreateBuffer(t, size), b, CreateBuffer(OnTop(t, b), size))
  {
    hide OrAnswered, Answered, FillBuffer, Rebound;
    AnsweredLocal(t, b);
    if size.Integer? {
      FillBufferLocal(t, size.n, b);
      OrAnsweredLocal(t, FillBuffer(t, size.n), b);
    }
    FillBufferLocal(t, 0, b);
    OrAnsweredLocal(t, FillBuffer(t, 0), b);
  }

  lemma FillBufferLocal(t: State, size: nat, b: State)
    requires Ready(t)
    ensures Ready(OnTop(t, b)) && FillBuffer(OnTop(t, b), size) == FillBuffer(t, size)
  {
  }

  lemma PackageLocal(t: State, b: State)
    requires Grounded(t) && Ready(t) && t.items.head.PackageItem?
    ensures Local(t, ProcessPackage(t), b, ProcessPackage(OnTop(t, b)))
  {
    hide Parse, Rebound, StoreInitializer;
    ParseLocal(t, ImmediateMode(1), b);
    ImmediateKeeps(t, 1);
    StoreInitializerLocal(t, b);
    var r := StoreInitializer(t);
    if r.Ok? { ParseLocal(r.value, DataMode, b); }
  }

  lemma ImmediateKeeps(t: State, width: nat)
    ensures var r := Parse(t, ImmediateMode(width));
            r.Ok? ==> r.value.items == t.items && r.value.contexts == t.contexts && r.value.ns == t.ns
                      && t.operands <= r.value.operands && r.value.replies == t.replies
  {
  }

  lemma StoreInitializerLocal(t: State, b: State)
    requires Grounded(t) && t.items.head.PackageItem?
    ensures Silent(t, StoreInitializer(t), b, StoreInitializer(OnTop(t, b)))
    ensures var r := StoreInitializer(t);
            r.Ok? ==> r.value.contexts == t.contexts && r.value.blocks == t.blocks && r.value.items.Cons?
                      && r.value.items.tail == t.items.tail && r.value.items.head.PackageItem?
                      && r.value.ns == t.ns && r.value.replies == t.replies && Grounded(r.value)
                      && r.value.operands <= t.operands && r.value.items.head.frame == t.items.head.frame
                      && (t.items.head.frame <= |t.operands| ==> t.items.head.frame <= |r.value.operands|)
  {
    hide Rebound;
  }

  lemma MethodEndLocal(t: State, b: State)
    requires Grounded(t) && Ready(t) && t.items.head.MethodItem?
    ensures Silent(t, ImplicitReturn(t), b, ImplicitReturn(OnTop(t, b)))
  {
    hide UninstallAll, Rebound;
  }

  /** One step of the running method is the same on top of any caller. */
  lemma StepLocal(t: State, b: State)
    requires Grounded(t)
    ensures Local(t, Process(t), b, Process(OnTop(t, b)))
  {
    hide ProcessBody, ProcessLoop, ProcessCond, ProcessOp, ProcessNode, ProcessInvoke, ProcessReturn, ImplicitReturn;
    hide ProcessBuffer, ProcessPackage, Rebound;
    StackedReady(t.items, t.contexts, t.blocks);
    match t.items.head
    case Populate =>
      var t' := t.(items := t.items.tail, contexts := t.contexts.tail, blocks := t.blocks.tail);
      BodyLocal(t, Ok(t'), b, Ok(OnTop(t', b)));
    case MethodItem(_) => MethodEndLocal(t, b); BodyLocal(t, ImplicitReturn(t), b, ImplicitReturn(OnTop(t, b)));
    case LoopItem(_, _, _) => LoopLocal(t, b);
    case CondItem(_, _, _, _, _) => CondLocal(t, b);
    case NodeItem(_, _) => NodeLocal(t, b);
    case OpItem(_, _, _) => OpLocal(t, b);
    case InvokeItem(_, _, _) => InvokeLocal(t, b);
    case ReturnItem(_) => ReturnItemLocal(t, b);
    case BufferItem(_, _) => BufferLocal(t, b);
    case PackageItem(_, _, _, _) => PackageLocal(t, b);
  }

  /** The caller after `n` steps of the callee: replies may have changed its variables. */
  function CallerAfter(t: State, b: State, n: nat): State
    decreases n
  {
    if n == 0 || t.items.Nil? || Process(t).Fail? then b
    else CallerAfter(Process(t).value, CallerOf(t, Process(t).value, b), n - 1)
  }

  /** As long as the method has not returned, its run on top of the caller is its own run. */
  lemma {:induction false} RunLocal(t: State, b: State, n: nat, final: nat)
    requires Inv(t, final)
    requires forall k: nat :: k < n ==> !Halted(Run(Ok(t), k))
    ensures Run(Ok(OnTop(t, b)), n) == OnTopResult(Run(Ok(t), n), CallerAfter(t, b, n))
    decreases n
  {
    hide Process, Inv, Rebound, CallerOf;
    if n > 0 {
      assert !Halted(Run(Ok(t), 0));
      InvGrounded(t, final);
      StepLocal(t, b);
      StepSafe(t, final);
      var r := Process(t);
      if r.Ok? {
        forall k: nat | k < n - 1 ensures !Halted(Run(r, k)) {
          assert !Halted(Run(Ok(t), k + 1));
        }
        RunLocal(r.value, CallerOf(t, r.value, b), n - 1, final);
      } else {
        HaltedRun(r, n - 1);
      }
    }
  }

  lemma InvGrounded(t: State, final: nat)
    requires Inv(t, final) && t.items.Cons?
    ensures Grounded(t)
  {
  }

  /** Whatever the replies, the caller keeps its stacks; without a reply it keeps its variables, too. */
  lemma {:induction false} CallerKept(t: State, b: State, n: nat, final: nat)
    requires Inv(t, final)
    ensures var b' := CallerAfter(t, b, n);
            && b'.(contexts := b.contexts) == b && SameCalls(b.contexts, b'.contexts)
            && (Run(Ok(t), n).Ok? ==> |Run(Ok(t), n).value.replies| <= |t.replies|)
            && (Run(Ok(t), n).Ok? && Run(Ok(t), n).value.replies == t.replies ==> b' == b)
    decreases n
  {
    hide Process, Inv;
    SameCallsReflexive(b.contexts);
    if n > 0 && t.items.Cons? && Process(t).Ok? {
      var t' := Process(t).value;
      InvGrounded(t, final);
      StepLocal(t, b);
      StepSafe(t, final);
      var next := CallerOf(t, t', b);
      CallerKept(t', next, n - 1, final);
      if next != b {
        RebindKeepsCalls(b.contexts, t.replies[0].variables[Length(t.contexts)..]);
        SameCallsTransitive(b.contexts, next.contexts, CallerAfter(t, b, n).contexts);
      }
    }
  }

  lemma {:induction false} SameCallsTransitive(a: List<Context>, b: List<Context>, c: List<Context>)
    requires SameCalls(a, b) && SameCalls(b, c)
    ensures SameCalls(a, c)
  {
    if a.Cons? { SameCallsTransitive(a.tail, b.tail, c.tail); }
  }

  // ------------------------------------------------------------------------------------
  // What a method returns.
  // ------------------------------------------------------------------------------------

  /** A caller that does nothing but return what it is given. */
  function Waiting(ns: Space, replies: seq<Reply>): State {
    State(Cons(Context([], 0, Some(NewInvocation([]))), Nil), Cons(Block(0, 0), Nil),
          Cons(ReturnItem(0), Cons(MethodItem(true), Nil)), [], ns, replies)
  }

  lemma WaitingInv(ns: Space, n: nat, code: seq<byte>, size: int, args: seq<Object>, replies: seq<Reply>)
    requires Numbered(ns) && |args| <= 7
    ensures Inv(OnTop(Start(ns, n, code, size, args, replies), Waiting(ns, replies)), 1)
  {
    var s := OnTop(Start(ns, n, code, size, args, replies), Waiting(ns, replies));
    var caller, callee := Context([], 0, Some(NewInvocation([]))), Context(code, n, Some(NewInvocation(args)));
    var below: List<Context>, bottom: List<Item> := Cons(caller, Nil), Cons(MethodItem(true), Nil);
    var blocks: List<Block> := Cons(Block(0, 0), Nil);
    assert s.contexts == Cons(callee, below) by {
      assert Append(Nil, below) == below;
    }
    assert s.blocks == Cons(Block(0, size), blocks) by {
      assert Append(Nil, blocks) == blocks;
    }
    assert s.items == Cons(MethodItem(true), Cons(ReturnItem(0), bottom)) by {
      assert Append(Nil, Cons(ReturnItem(0), bottom)) == Cons(ReturnItem(0), bottom);
    }
    assert AllCreated(Nil) == [] && AllCreated(below) == [] && AllCreated(s.contexts) == [];
    assert Stacked(bottom, below, blocks) && Stacked(Cons(ReturnItem(0), bottom), below, blocks);
    assert Below(bottom, 0, 0, 1) && Below(Cons(ReturnItem(0), bottom), 0, 1, 1);
    assert Called(bottom, [], ns) && Called(Cons(ReturnItem(0), bottom), [], ns);
  }

  /** A run stops at its first halted state. */
  lemma {:induction false} FirstHalt(r: Res<State>, n: nat) returns (k: nat)
    ensures k <= n && Run(r, k) == Run(r, n) && forall j: nat :: j < k ==> !Halted(Run(r, j))
    decreases n
  {
    hide Process;
    k := 0;
    if Halted(r) {
      HaltedRun(r, n);
    } else if n > 0 {
      var next := Process(r.value);
      var k' := FirstHalt(next, n - 1);
      k := k' + 1;
      forall j: nat | j < k ensures !Halted(Run(r, j)) {
        if j > 0 {
          var i: nat := j - 1;
          assert Run(r, j) == Run(next, i);
        }
      }
    }
  }

  /** The operand that a method leaves on an empty stack is an object, as the end of `lai_eval_args` asserts:
      a caller that waits for an object would find it there. */
  lemma ResultIsObject(ns: Space, m: nat, code: seq<byte>, size: int, args: seq<Object>, replies: seq<Reply>, n: nat)
    requires Numbered(ns) && |args| <= 7
    requires var r := Run(Ok(Start(ns, m, code, size, args, replies)), n); r.Ok? && r.value.items.Nil?
    ensures var operands := Run(Ok(Start(ns, m, code, size, args, replies)), n).value.operands;
            |operands| == 1 && operands[0].Value?
  {
    hide Run, Process, Inv, CallerAfter, Waiting, MeetsLeftOut, Start;
    var t, b := Start(ns, m, code, size, args, replies), Waiting(ns, replies);
    var k := FirstHalt(Ok(t), n);
    var end := Run(Ok(t), k).value;
    EvaluationIsSafe(ns, m, code, size, args, replies, n);
    StartInv(ns, m, code, size, args, replies);
    RunLocal(t, b, k, 1);
    CallerKept(t, b, k, 1);
    WaitingInv(ns, m, code, size, args, replies);
    RunSafe(OnTop(t, b), k, 1);
    WaitsForObject(OnTop(end, CallerAfter(t, b, k)), end, CallerAfter(t, b, k), ns, replies);
  }

  lemma WaitsForObject(s: State, end: State, b: State, ns: Space, replies: seq<Reply>)
    requires Inv(s, 1) && s == OnTop(end, b) && b.items == Waiting(ns, replies).items
    requires end.items.Nil? && |end.operands| == 1
    ensures end.operands[0].Value?
  {
    assert s.items == Waiting(ns, replies).items && s.operands[0..] == s.operands;
    assert Tagged(ReturnItem(0), s.operands) && TakesValue(ReturnItem(0), 0);
  }
}
