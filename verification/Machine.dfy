/** The byte-code machine of `core/exec.c` as a transition function: `Process` is one call of
    `lai_exec_process`, `Parse` one call of `lai_exec_parse`, `Run` the loop of `lai_exec_run`. It runs
    all opcodes but VarPackage and BankField. What an operator does with strings, buffers, packages,
    references and fields, and what the host does, is not computed but taken from a list of replies:
    what holds for all replies holds for all contents. */
module Machine {
  import opened Bits
  import opened Outcomes
  import opened Names
  import opened Namespace
  import opened Opcodes
  import opened Operators

  datatype Context = Context(code: seq<byte>, handle: nat, invocation: Option<Invocation>)

  datatype Block = Block(pc: nat, limit: int)

  datatype Item =
    | Populate
    | MethodItem(wantResult: bool)
    | LoopItem(frame: nat, iterating: bool, predicatePc: nat)
    | CondItem(frame: nat, inBranch: bool, hasElse: bool, elsePc: nat, elseLimit: nat)
    | NodeItem(frame: nat, opcode: nat)
    | OpItem(frame: nat, opcode: nat, wantResult: bool)
    | InvokeItem(frame: nat, argc: nat, wantResult: bool)
    | ReturnItem(frame: nat)
    | BufferItem(frame: nat, wantResult: bool)
    | PackageItem(frame: nat, phase: nat, index: nat, wantResult: bool)

  /** New values for the variables of one method call. */
  datatype Variables = Variables(args: seq<Object>, locals: seq<Object>)

  /** How a reduction may fail: with an error code, a panic or undefined behaviour. */
  type HostFault = f: Fault | f.Api? || f.Panic? || f.Undefined? witness Panic

  /** What a reduction does that the model does not compute: it fails, or it has a result, leaves new
      values in variables of the calls in progress, the most recent first, and in `Name()` objects. */
  datatype Reply =
    | Refused(fault: HostFault)
    | Replied(result: Object, variables: seq<Variables>, contents: map<nat, Object>)

  /** `lai_state_t`: the four stacks, the namespace they work on, and the replies to come. */
  datatype State = State(contexts: List<Context>, blocks: List<Block>, items: List<Item>,
                         operands: seq<Operand>, ns: Space, replies: seq<Reply>)

  const NAME_ARITY := 2
  const REVISION := 0x2020_0712

  // ------------------------------------------------------------------------------------
  // Stack primitives (core/exec_impl.h).
  // ------------------------------------------------------------------------------------

  function PushItem(s: State, item: Item): State {
    s.(items := Cons(item, s.items))
  }

  function PushBlock(s: State, pc: nat, limit: int): State {
    s.(blocks := Cons(Block(pc, limit), s.blocks))
  }

  function PushContext(s: State, c: Context): State {
    s.(contexts := Cons(c, s.contexts))
  }

  function PushOperand(s: State, o: Operand): State {
    s.(operands := s.operands + [o])
  }

  function PopItem(s: State): Res<State> {
    if s.items.Nil? then Fail(Internal) else Ok(s.(items := s.items.tail))
  }

  function PopBlock(s: State): Res<State> {
    if s.blocks.Nil? then Fail(Internal) else Ok(s.(blocks := s.blocks.tail))
  }

  function PopContext(s: State): Res<State> {
    if s.contexts.Nil? then Fail(Internal) else Ok(s.(contexts := s.contexts.tail))
  }

  /** `lai_exec_commit_pc`. */
  function CommitPc(s: State, pc: nat): State
    requires s.blocks.Cons?
  {
    s.(blocks := s.blocks.(head := s.blocks.head.(pc := pc)))
  }

  function SetTop(s: State, item: Item): State
    requires s.items.Cons?
  {
    s.(items := s.items.(head := item))
  }

  /** Removes the operands from `frame` on and pushes the result if it is wanted. */
  function FinishOperands(s: State, frame: nat, want: bool, v: Object): State
    requires frame <= |s.operands|
  {
    s.(operands := s.operands[..frame] + if want then [Value(v)] else [])
  }

  /** The variables and the namespace, as operators see them. */
  function EnvOf(s: State): Env
    requires s.contexts.Cons?
  {
    Env(s.contexts.head.invocation, s.ns)
  }

  function WithEnv(s: State, env: Env): State
    requires s.contexts.Cons?
  {
    s.(contexts := s.contexts.(head := s.contexts.head.(invocation := env.invocation)), ns := env.ns)
  }

  // ------------------------------------------------------------------------------------
  // Replies.
  // ------------------------------------------------------------------------------------

  function RebindOne(c: Context, v: Variables): Context {
    match c.invocation
    case None => c
    case Some(inv) =>
      if |v.args| == |inv.args| && |v.locals| == |inv.locals|
      then c.(invocation := Some(inv.(args := v.args, locals := v.locals))) else c
  }

  /** References reach the variables of every call in progress. */
  function Rebind(contexts: List<Context>, variables: seq<Variables>): List<Context> {
    if contexts.Nil? || variables == [] then contexts
    else Cons(RebindOne(contexts.head, variables[0]), Rebind(contexts.tail, variables[1..]))
  }

  /** Only variables, objects and replies differ. */
  predicate SameStacks(s: State, s': State) {
    s'.blocks == s.blocks && s'.items == s.items && s'.operands == s.operands && s'.contexts.Cons? == s.contexts.Cons?
  }

  /** The next reply. A list of replies that is used up goes on with a panic. */
  function Answered(s: State): (r: Res<(Object, State)>)
    ensures r.Ok? ==> SameStacks(s, r.value.1)
  {
    if s.replies == [] then Fail(Panic)
    else
      match s.replies[0]
      case Refused(fault) => Fail(fault)
      case Replied(v, variables, contents) =>
        Ok((v, s.(contexts := Rebind(s.contexts, variables), ns := Refill(s.ns, contents), replies := s.replies[1..])))
  }

  /** What is computed if it can be, the next reply otherwise. */
  function OrAnswered(s: State, r: Res<Object>): (answer: Res<(Object, State)>)
    ensures answer.Ok? ==> SameStacks(s, answer.value.1)
  {
    match r
    case Ok(v) => Ok((v, s))
    case Fail(Unknown) => Answered(s)
    case Fail(fault) => Fail(fault)
  }

  // ------------------------------------------------------------------------------------
  // Reading code bytes.
  // ------------------------------------------------------------------------------------

  function ByteAt(code: seq<byte>, pc: nat): Res<byte> {
    if pc < |code| then Ok(code[pc]) else Fail(Undefined)
  }

  /** `lai_parse_u8` .. `lai_parse_u64`. */
  function ReadInteger(code: seq<byte>, pc: nat, width: nat, limit: int): Res<(nat, nat)> {
    if pc + width > limit then Fail(Api(ExecutionFailure))
    else if pc + width > |code| then Fail(Undefined)
    else Ok((LittleEndian(code[pc..pc + width]), pc + width))
  }

  /** `lai_parse_varint`, the PkgLength encoding: the length and the first byte after it. */
  function ReadPackageLength(code: seq<byte>, pc: nat, limit: int): (r: Res<(nat, nat)>)
    ensures r.Ok? ==> r.value.1 > pc
  {
    if pc + 1 > limit then Fail(Api(ExecutionFailure))
    else
      var lead :- ByteAt(code, pc);
      var extra := lead / 64;
      if extra == 0 then Ok((lead % 64, pc + 1))
      else if pc + 1 + extra > limit then Fail(Api(ExecutionFailure))
      else if pc + 1 + extra > |code| then Fail(Undefined)
      else Ok((lead % 16 + 16 * LittleEndian(code[pc + 1..pc + 1 + extra]), pc + 1 + extra))
  }

  // ------------------------------------------------------------------------------------
  // Reductions.
  // ------------------------------------------------------------------------------------

  /** `lai_exec_get_objectref`, which asserts that the operand is an object. */
  function GetObject(o: Operand): Res<Object> {
    if o.Value? then Ok(o.v) else Fail(Internal)
  }

  /** `lai_exec_get_integer`, which asserts the same. */
  function GetInteger(o: Operand): Res<u64> {
    match o
    case Value(Integer(n)) => Ok(n)
    case Value(Uninit) => Fail(Api(ExecutionFailure))
    case Value(_) => Fail(Panic)
    case _ => Fail(Internal)
  }

  function Compare(opcode: nat, a: u64, b: u64): bool {
    if opcode == LEQUAL_OP then a == b else if opcode == LLESS_OP then a < b else a > b
  }

  /** `lai_exec_reduce_op` for the operators on integers: the result object and the changed variables. */
  function ReduceOp(opcode: nat, env: Env, operands: seq<Operand>): Res<(Object, Env)>
    requires IsOperator(opcode) && |operands| == Arity(opcode)
  {
    if opcode == STORE_OP || opcode == COPYOBJECT_OP then
      var v :- GetObject(operands[0]);
      var env' :- StoreTo(env, operands[1], v, opcode == STORE_OP);
      Ok((v, env'))
    else if opcode in {NOT_OP, FINDSETLEFTBIT_OP, FINDSETRIGHTBIT_OP} then
      var a :- GetInteger(operands[0]);
      var r := Integer(Unary(opcode, a));
      var env' :- Mutate(env, operands[1], r);
      Ok((r, env'))
    else if opcode == LNOT_OP then
      var a :- GetInteger(operands[0]);
      Ok((Integer(Unary(opcode, a)), env))
    else if opcode in {INCREMENT_OP, DECREMENT_OP} then
      var v :- Load(env, operands[0]);
      if !v.Integer? then Fail(Panic)
      else
        var r := Integer(Wrap(if opcode == INCREMENT_OP then v.n + 1 else v.n - 1));
        var env' :- Mutate(env, operands[0], r);
        Ok((r, env'))
    else if opcode in {LEQUAL_OP, LLESS_OP, LGREATER_OP} then
      var a :- GetObject(operands[0]);
      var b :- GetObject(operands[1]);
      if a.Integer? && b.Integer? then Ok((Integer(Truth(Compare(opcode, a.n, b.n))), env))
      else if a.Opaque? || b.Opaque? then Fail(Unknown)
      else Fail(Api(IllegalArguments))
    else
      var a :- GetInteger(operands[0]);
      var b :- GetInteger(operands[1]);
      if opcode == DIVIDE_OP then
        if b == 0 then Fail(Undefined)
        else
          var env1 :- Mutate(env, operands[2], Integer(Remainder(a, b)));
          var env2 :- Mutate(env1, operands[3], Integer(a / b));
          Ok((Uninit, env2))  // the result variable is never set
      else
        var n :- Binary(opcode, a, b);
        if TargetCount(opcode) == 0 then Ok((Integer(n), env))
        else
          var env' :- Mutate(env, operands[2], Integer(n));
          Ok((Integer(n), env'))
  }

  /** Appends a new node to the list of the calling method, if there is one. */
  function RecordCreated(invocation: Option<Invocation>, n: nat): Option<Invocation> {
    match invocation
    case None => None
    case Some(inv) => Some(inv.(created := inv.created + [n]))
  }

  /** Installs a node and links it to the per-method list. */
  function InstallNode(s: State, place: (nat, Segment), kind: Kind): Res<State>
    requires s.contexts.Cons?
  {
    var ns :- Install(s.ns, place.0, place.1, kind);
    Ok(WithEnv(s, Env(RecordCreated(s.contexts.head.invocation, s.ns.next), ns)))
  }

  /** Creates a node; a duplicate name ends the run. */
  function CreateNode(s: State, name: AmlName, kind: Kind): (r: Res<State>)
    requires s.contexts.Cons?
    ensures r.Ok? ==> r.value.contexts.Cons? && SameStacks(s, r.value)
  {
    var place :- DoResolveNew(s.ns, s.contexts.head.handle, name);
    InstallNode(s, place, kind)
  }

  /** All reductions: the result object and the new state. */
  function Reduction(s: State, opcode: nat, operands: seq<Operand>): (r: Res<(Object, State)>)
    requires s.contexts.Cons? && HasOperands(opcode) && |operands| == OperandCount(opcode)
    ensures r.Ok? ==> SameStacks(s, r.value.1)
  {
    if !IsOperator(opcode) then Answered(s)
    else
      match ReduceOp(opcode, EnvOf(s), operands)
      case Ok(r) => Ok((r.0, WithEnv(s, r.1)))
      case Fail(Unknown) => Answered(s)
      case Fail(fault) => Fail(fault)
  }

  /** The error codes of `lai_exec_reduce_node` are ignored by its caller, so a duplicate name leaves
      everything as it was. */
  function InstallQuietly(s: State, place: (nat, Segment), kind: Kind): (s': State)
    requires s.contexts.Cons?
    ensures s'.contexts.Cons? && SameStacks(s, s')
  {
    match InstallNode(s, place, kind)
    case Fail(_) => s
    case Ok(s') => s'
  }

  /** `lai_exec_reduce_node` for Name(). */
  function ReduceName(s: State, operands: seq<Operand>): (r: Res<State>)
    requires s.contexts.Cons? && |operands| == NAME_ARITY
    ensures r.Ok? ==> SameStacks(s, r.value)
  {
    var v :- GetObject(operands[1]);
    if !operands[0].UnresolvedName? then Fail(Panic)
    else
      var place :- DoResolveNew(s.ns, s.contexts.head.handle, operands[0].name);
      Ok(InstallQuietly(s, place, NameObject(v)))
  }

  function FieldBits(opcode: nat): nat {
    if opcode == BITFIELD_OP then 1
    else if opcode == BYTEFIELD_OP then 8
    else if opcode == WORDFIELD_OP then 16
    else if opcode == DWORDFIELD_OP then 32
    else 64
  }

  /** The integers that say where a buffer field is, in bits. */
  function FieldPlace(opcode: nat, operands: seq<Operand>): Res<(nat, nat)>
    requires opcode != NAME_OP && IsNodeOpcode(opcode) && |operands| == |NodeModes(opcode)|
  {
    var offset :- GetInteger(operands[1]);
    if opcode == ARBFIELD_OP then
      var size :- GetInteger(operands[2]);
      Ok((offset, size))
    else Ok((if opcode == BITFIELD_OP then offset else Wrap(8 * offset), FieldBits(opcode)))
  }

  /** `lai_exec_reduce_node` for CreateField() and its short forms. The source must hold a buffer; the
      code does not check it. */
  function ReduceBufferField(s: State, opcode: nat, operands: seq<Operand>): (r: Res<State>)
    requires s.contexts.Cons? && opcode != NAME_OP && IsNodeOpcode(opcode) && |operands| == |NodeModes(opcode)|
    ensures r.Ok? ==> SameStacks(s, r.value)
  {
    match FieldPlace(opcode, operands)
    case Fail(Api(_)) => Ok(s)
    case Fail(fault) => Fail(fault)
    case Ok((start, length)) =>
      var target := operands[|operands| - 1];
      if !target.UnresolvedName? then Fail(Panic)
      else
        var place :- DoResolveNew(s.ns, s.contexts.head.handle, target.name);
        var buffer :- OrAnswered(s, Load(EnvOf(s), operands[0]));
        if !(buffer.0.Opaque? && buffer.0.form == BufferForm) then Fail(Undefined)
        else Ok(InstallQuietly(buffer.1, place, BufferField(start, length)))
  }

  function RegionPlace(operands: seq<Operand>): Res<(nat, nat)>
    requires |operands| == 4
  {
    var start :- GetInteger(operands[2]);
    var length :- GetInteger(operands[3]);
    Ok((start, length))
  }

  /** `lai_exec_reduce_node` for OperationRegion(). */
  function ReduceRegion(s: State, operands: seq<Operand>): (r: Res<State>)
    requires s.contexts.Cons? && |operands| == 4
    ensures r.Ok? ==> SameStacks(s, r.value)
  {
    match RegionPlace(operands)
    case Fail(Api(_)) => Ok(s)
    case Fail(fault) => Fail(fault)
    case Ok(_) =>
      if !operands[0].UnresolvedName? || !(operands[1].Value? && operands[1].v.Integer?) then Fail(Panic)
      else
        var place :- DoResolveNew(s.ns, s.contexts.head.handle, operands[0].name);
        Ok(InstallQuietly(s, place, Other(OpRegion)))
  }

  /** `lai_exec_reduce_node`. */
  function ReduceNode(s: State, opcode: nat, operands: seq<Operand>): (r: Res<State>)
    requires s.contexts.Cons? && IsNodeOpcode(opcode) && |operands| == |NodeModes(opcode)|
    ensures r.Ok? ==> SameStacks(s, r.value)
  {
    if opcode == NAME_OP then ReduceName(s, operands)
    else if opcode == OPREGION_OP then ReduceRegion(s, operands)
    else ReduceBufferField(s, opcode, operands)
  }

  // ------------------------------------------------------------------------------------
  // Leaving loops and methods.
  // ------------------------------------------------------------------------------------

  /** Pops conditions up to and including `Break()`'s loop. */
  function BreakLoop(s: State): Res<State>
    decreases s.items
  {
    if s.items.Nil? then Fail(Panic)
    else if s.items.head.LoopItem? then
      var s' :- PopBlock(s);
      PopItem(s')
    else if s.items.head.CondItem? then
      var s' :- PopBlock(s);
      BreakLoop(s'.(items := s.items.tail))
    else Fail(Panic)
  }

  /** Pops conditions down to `Continue()`'s loop and moves its block to the limit. */
  function ContinueLoop(s: State): Res<State>
    decreases s.items
  {
    if s.items.Nil? then Fail(Panic)
    else if s.items.head.LoopItem? then
      if s.blocks.Nil? || s.blocks.head.limit < 0 then Fail(Internal)
      else Ok(CommitPc(s, s.blocks.head.limit))
    else if s.items.head.CondItem? then
      var s' :- PopBlock(s);
      ContinueLoop(s'.(items := s.items.tail))
    else Fail(Panic)
  }

  /** Uninstalls the nodes of the current method and pops its context and block. */
  function LeaveMethod(s: State): Res<State> {
    if s.contexts.Nil? || s.contexts.head.invocation.None? then Fail(Internal)
    else
      var ns :- UninstallAll(s.ns, s.contexts.head.invocation.value.created);
      var s1 :- PopContext(s.(ns := ns));
      var s2 :- PopBlock(s1);
      PopItem(s2)
  }

  /** `Return(v)`: conditions and loops are popped up to the method, which hands `v` to its caller. */
  function ReturnFrom(s: State, v: Object): Res<State>
    decreases s.items
  {
    if s.items.Nil? then Fail(Panic)
    else if s.items.head.MethodItem? then
      LeaveMethod(if s.items.head.wantResult then PushOperand(s, Value(v)) else s)
    else if s.items.head.CondItem? || s.items.head.LoopItem? then
      var s' :- PopBlock(s);
      ReturnFrom(s'.(items := s.items.tail), v)
    else Fail(Panic)
  }

  // ------------------------------------------------------------------------------------
  // lai_exec_parse.
  // ------------------------------------------------------------------------------------

  predicate Ready(s: State) {
    s.contexts.Cons? && s.blocks.Cons?
  }

  /** A constant has no effect as a statement and is no store target. */
  function ParseConstant(s: State, mode: Mode, n: u64): Res<State> {
    ParseData(s, mode, Integer(n))
  }

  /** Data as a statement has no effect either. */
  function ParseData(s: State, mode: Mode, v: Object): Res<State> {
    match mode
    case ObjectMode => Ok(PushOperand(s, Value(v)))
    case DataMode => Ok(PushOperand(s, Value(v)))
    case ExecMode => Ok(s)
    case _ => Fail(Panic)
  }

  predicate IsTargetMode(mode: Mode) {
    mode == ReferenceMode || mode == OptionalReferenceMode
  }

  /** ArgX and LocalX: a value or a store target, never a statement. */
  function ParseVariable(s: State, mode: Mode, variable: Operand): Res<State>
    requires Ready(s)
  {
    match mode
    case ReferenceMode => Ok(PushOperand(s, variable))
    case OptionalReferenceMode => Ok(PushOperand(s, variable))
    case ObjectMode =>
      var v :- Load(EnvOf(s), variable);
      Ok(PushOperand(s, Value(v)))
    case _ => Fail(Panic)
  }

  /** A name: an unresolved name, a store target, a method call, or the value of an object. In a package
      it stays unresolved until somebody looks at it. */
  function ParseReference(s: State, mode: Mode, name: AmlName): Res<State>
    requires Ready(s)
  {
    if mode == UnresolvedMode then Ok(PushOperand(s, UnresolvedName(name)))
    else if mode == DataMode then Ok(PushOperand(s, Value(Opaque(LazyForm, 0))))
    else
      var target :- DoResolve(s.ns, s.contexts.head.handle, name);
      match target
      case None =>
        if mode == OptionalReferenceMode then Ok(PushOperand(s, MissingName)) else Fail(Api(UnexpectedResult))
      case Some(n) =>
        if IsTargetMode(mode) then Ok(PushOperand(s, ResolvedName(n)))
        else
          var kind := KindOf(s.ns, n);
          if kind.Some? && kind.value.Method? then
            var item := InvokeItem(|s.operands|, kind.value.flags % 8, WantsResult(mode));
            Ok(PushOperand(PushItem(s, item), ResolvedName(n)))
          else
            var r :- OrAnswered(s, Access(s.ns, n));
            Ok(if WantsResult(mode) then PushOperand(r.1, Value(r.0)) else r.1)
  }

  /** IfOp: the branch block is pushed, the pc moves behind the whole If/Else. */
  function ParseIf(s: State, opcodePc: nat): Res<State>
    requires Ready(s)
  {
    var code, limit := s.contexts.head.code, s.blocks.head.limit;
    var size :- ReadPackageLength(code, opcodePc + 1, limit);
    var ifLimit := opcodePc + 1 + size.0;
    var atElse :- if ifLimit < limit then ByteAt(code, ifLimit) else Ok(0);
    if atElse == ELSE_OP then
      var elseSize :- ReadPackageLength(code, ifLimit + 1, limit);
      var elseLimit := ifLimit + 1 + elseSize.0;
      Ok(PushItem(PushBlock(CommitPc(s, elseLimit), size.1, ifLimit),
                  CondItem(|s.operands|, false, true, elseSize.1, elseLimit)))
    else
      Ok(PushItem(PushBlock(CommitPc(s, ifLimit), size.1, ifLimit),
                  CondItem(|s.operands|, false, false, 0, ifLimit + 1)))
  }

  function ParseWhile(s: State, opcodePc: nat): Res<State>
    requires Ready(s)
  {
    var size :- ReadPackageLength(s.contexts.head.code, opcodePc + 1, s.blocks.head.limit);
    var end := opcodePc + 1 + size.0;
    Ok(PushItem(PushBlock(CommitPc(s, end), size.1, end), LoopItem(|s.operands|, false, size.1)))
  }

  /** ScopeOp: runs the body in the context of an existing node, outside of any method. */
  function ParseScope(s: State, opcodePc: nat): Res<State>
    requires Ready(s)
  {
    var code := s.contexts.head.code;
    var size :- ReadPackageLength(code, opcodePc + 1, s.blocks.head.limit);
    var name :- ParseName(code, size.1);
    var end := opcodePc + 1 + size.0;
    var target :- DoResolve(s.ns, s.contexts.head.handle, name.0);
    match target
    case None => Fail(Api(UnexpectedResult))
    case Some(n) =>
      Ok(PushItem(PushBlock(PushContext(CommitPc(s, end), Context(code, n, None)), name.1, end), Populate))
  }

  predicate HasBody(opcode: nat) {
    opcode in {DEVICE_OP, PROCESSOR_OP, POWER_RES_OP, THERMALZONE_OP}
  }

  /** What stands between the name and the body: the kind of the node, and where the body starts. */
  function ReadHeader(code: seq<byte>, opcode: nat, pc: nat, limit: int): Res<(Kind, nat)> {
    if opcode == DEVICE_OP then Ok((Device, pc))
    else if opcode == THERMALZONE_OP then Ok((Other(ThermalZone), pc))
    else if opcode == POWER_RES_OP then Ok((Other(PowerResource), pc + 3))
    else
      var id :- ReadInteger(code, pc, 1, limit);
      var address :- ReadInteger(code, id.1, 4, limit);
      var length :- ReadInteger(code, address.1, 1, limit);
      Ok((Other(Processor), length.1))
  }

  /** Device and its likes: creates the node, then runs the body in its context. */
  function ParseDevice(s: State, opcode: nat, opcodePc: nat): Res<State>
    requires Ready(s)
  {
    var code := s.contexts.head.code;
    var size :- ReadPackageLength(code, opcodePc + 2, s.blocks.head.limit);
    var name :- ParseName(code, size.1);
    var header :- ReadHeader(code, opcode, name.1, s.blocks.head.limit);
    var end := opcodePc + 2 + size.0;
    var s' :- CreateNode(CommitPc(s, end), name.0, header.0);
    Ok(PushItem(PushBlock(PushContext(s', Context(code, s.ns.next, None)), header.1, end), Populate))
  }

  /** Mutex and Event. */
  function ParseSync(s: State, opcode: nat, pc: nat): Res<State>
    requires Ready(s)
  {
    var name :- ParseName(s.contexts.head.code, pc);
    if opcode == MUTEX_OP then CreateNode(CommitPc(s, name.1 + 1), name.0, Other(Mutex))
    else CreateNode(CommitPc(s, name.1), name.0, Other(Event))
  }

  function ParseExternal(s: State, pc: nat): Res<State>
    requires Ready(s)
  {
    var code, limit := s.contexts.head.code, s.blocks.head.limit;
    var name :- ParseName(code, pc);
    var kind :- ReadInteger(code, name.1, 1, limit);
    var count :- ReadInteger(code, kind.1, 1, limit);
    Ok(CommitPc(s, count.1))
  }

  /** The loop over a FieldList, from `pc` up to `end`: it installs every named field. */
  function InstallFields(s: State, code: seq<byte>, register: Register, flags: byte, offset: nat, pc: nat, end: int,
                         limit: int): (r: Res<(State, nat)>)
    requires Ready(s)
    ensures r.Ok? ==> Ready(r.value.0)
    decreases end - pc
  {
    if pc >= end then Ok((s, pc))
    else
      var lead :- ByteAt(code, pc);
      if lead == 0 then
        var bits :- ReadPackageLength(code, pc + 1, limit);
        InstallFields(s, code, register, flags, offset + bits.0, bits.1, end, limit)
      else if lead == 1 then
        var access :- ByteAt(code, pc + 1);
        InstallFields(s, code, register, access, offset, pc + 3, end, limit)
      else if lead == 2 then Fail(Panic)
      else
        var name :- ParseName(code, pc);
        var bits :- ReadPackageLength(code, name.1, limit);
        var s' :- CreateNode(s, name.0, FieldUnit(register, flags, offset, bits.0));
        InstallFields(s', code, register, flags, offset + bits.0, bits.1, end, limit)
  }

  /** The nodes in front of a FieldList: the region, or the index and the data field. */
  function ReadRegister(s: State, opcode: nat, pc: nat): Res<(Register, nat)>
    requires Ready(s)
  {
    var code, handle := s.contexts.head.code, s.contexts.head.handle;
    var name :- ParseName(code, pc);
    if opcode == FIELD_OP then
      var region :- DoResolve(s.ns, handle, name.0);
      if region.None? then Fail(Panic) else Ok((InRegion(region.value), name.1))
    else
      var other :- ParseName(code, name.1);
      var index :- DoResolve(s.ns, handle, name.0);
      var data :- DoResolve(s.ns, handle, other.0);
      if index.None? || data.None? then Fail(Panic) else Ok((Indexed(index.value, data.value), other.1))
  }

  /** Field and IndexField. */
  function ParseFields(s: State, opcode: nat, opcodePc: nat): Res<State>
    requires Ready(s)
  {
    var code, limit := s.contexts.head.code, s.blocks.head.limit;
    var size :- ReadPackageLength(code, opcodePc + 2, limit);
    var register :- ReadRegister(s, opcode, size.1);
    var flags :- ByteAt(code, register.1);
    var r :- InstallFields(s, code, register.0, flags, 0, register.1 + 1, opcodePc + 2 + size.0, limit);
    Ok(CommitPc(r.0, r.1))
  }

  function ParseMethod(s: State, opcodePc: nat): Res<State>
    requires Ready(s)
  {
    var code, limit := s.contexts.head.code, s.blocks.head.limit;
    var size :- ReadPackageLength(code, opcodePc + 1, limit);
    var name :- ParseName(code, size.1);
    var flags :- ReadInteger(code, name.1, 1, limit);
    var end := opcodePc + 1 + size.0;
    CreateNode(CommitPc(s, end), name.0,
               Method(flags.0 % 256, if flags.1 <= |code| then code[flags.1..] else [], end - flags.1))
  }

  function ParseAlias(s: State, opcodePc: nat): Res<State>
    requires Ready(s)
  {
    var target :- ParseName(s.contexts.head.code, opcodePc + 1);
    var name :- ParseName(s.contexts.head.code, target.1);
    var node :- DoResolve(s.ns, s.contexts.head.handle, target.0);
    match node
    case None => Fail(Panic)
    case Some(n) => CreateNode(CommitPc(s, name.1), name.0, Alias(n))
  }

  /** The end of a string: its terminating zero byte. */
  function StringEnd(code: seq<byte>, pc: nat, limit: int): (end: Res<nat>)
    ensures if end.Ok? then pc <= end.value else end.fault in {Panic, Undefined}
    decreases limit - pc
  {
    if pc >= limit then Fail(Panic)
    else
      var c :- ByteAt(code, pc);
      if c == 0 then Ok(pc) else StringEnd(code, pc + 1, limit)
  }

  function ParseString(s: State, mode: Mode, pc: nat): Res<State>
    requires Ready(s)
  {
    var end :- StringEnd(s.contexts.head.code, pc, s.blocks.head.limit);
    ParseData(CommitPc(s, end + 1), mode, Opaque(TextForm, end - pc))
  }

  /** BufferOp and PackageOp: the block of the initializers is pushed. A package under construction is the
      first operand of its item. */
  function ParseInitialized(s: State, mode: Mode, opcode: nat, opcodePc: nat): Res<State>
    requires Ready(s)
  {
    var size :- ReadPackageLength(s.contexts.head.code, opcodePc + 1, s.blocks.head.limit);
    var end := opcodePc + 1 + size.0;
    var next := PushBlock(CommitPc(s, end), size.1, end);
    if opcode == BUFFER_OP then Ok(PushItem(next, BufferItem(|s.operands|, WantsResult(mode))))
    else Ok(PushOperand(PushItem(next, PackageItem(|s.operands|, 0, 0, WantsResult(mode))), Value(Uninit)))
  }

  /** The clock of the host. */
  function ParseTimer(s: State, mode: Mode): Res<State> {
    match mode
    case ObjectMode => var r :- Answered(s); Ok(PushOperand(r.1, Value(r.0)))
    case DataMode => var r :- Answered(s); Ok(PushOperand(r.1, Value(r.0)))
    case ExecMode => Ok(s)
    case _ => Fail(Panic)
  }

  /** The opcodes of objects that are not integers. */
  function ParseObjectOpcode(s: State, mode: Mode, opcode: nat, opcodePc: nat, pc: nat): Res<State>
    requires Ready(s)
  {
    var next := CommitPc(s, pc);
    if opcode == REVISION_OP then ParseConstant(next, mode, REVISION)
    else if opcode == TIMER_OP then ParseTimer(next, mode)
    else if opcode == DEBUG_OP then if IsTargetMode(mode) then Ok(PushOperand(next, DebugName)) else Fail(Panic)
    else if opcode == STRINGPREFIX then ParseString(s, mode, pc)
    else if opcode in {BUFFER_OP, PACKAGE_OP} then ParseInitialized(s, mode, opcode, opcodePc)
    else if IsObjectOperator(opcode) then Ok(PushItem(next, OpItem(|s.operands|, opcode, WantsResult(mode))))
    else if IsNodeOpcode(opcode) then Ok(PushItem(next, NodeItem(|s.operands|, opcode)))
    else if opcode in {VARPACKAGE_OP, BANKFIELD_OP} then Fail(Unmodelled)
    else Fail(Panic)
  }

  function PrefixWidth(opcode: nat): nat {
    if opcode == BYTEPREFIX then 1 else if opcode == WORDPREFIX then 2 else if opcode == DWORDPREFIX then 4 else 8
  }

  /** The big switch over opcodes. */
  function ParseOpcode(s: State, mode: Mode, opcode: nat, opcodePc: nat, pc: nat): Res<State>
    requires Ready(s)
  {
    var next := CommitPc(s, pc);
    if opcode in {NOP_OP, BREAKPOINT_OP} then Ok(next)
    else if opcode == ZERO_OP then
      if IsTargetMode(mode) then Ok(PushOperand(next, NullName)) else ParseConstant(next, mode, 0)
    else if opcode == ONE_OP then ParseConstant(next, mode, 1)
    else if opcode == ONES_OP then ParseConstant(next, mode, TWO64 - 1)
    else if opcode in {BYTEPREFIX, WORDPREFIX, DWORDPREFIX, QWORDPREFIX} then
      var value :- ReadInteger(s.contexts.head.code, pc, PrefixWidth(opcode), s.blocks.head.limit);
      ParseConstant(CommitPc(s, value.1), mode, Wrap(value.0))
    else if ARG0_OP <= opcode <= ARG6_OP then ParseVariable(next, mode, ArgName(opcode - ARG0_OP))
    else if LOCAL0_OP <= opcode <= LOCAL7_OP then ParseVariable(next, mode, LocalName(opcode - LOCAL0_OP))
    else if IsOperator(opcode) then Ok(PushItem(next, OpItem(|s.operands|, opcode, WantsResult(mode))))
    else if opcode == RETURN_OP then Ok(PushItem(next, ReturnItem(|s.operands|)))
    else if opcode == NAME_OP then Ok(PushItem(next, NodeItem(|s.operands|, NAME_OP)))
    else if opcode == IF_OP then ParseIf(s, opcodePc)
    else if opcode == ELSE_OP then Fail(Panic)
    else if opcode == WHILE_OP then ParseWhile(s, opcodePc)
    else if opcode == BREAK_OP then BreakLoop(s)
    else if opcode == CONTINUE_OP then ContinueLoop(s)
    else if opcode == SCOPE_OP then ParseScope(s, opcodePc)
    else if HasBody(opcode) then ParseDevice(s, opcode, opcodePc)
    else if opcode == METHOD_OP then ParseMethod(s, opcodePc)
    else if opcode == ALIAS_OP then ParseAlias(s, opcodePc)
    else if opcode in {MUTEX_OP, EVENT_OP} then ParseSync(s, opcode, pc)
    else if opcode == EXTERNAL_OP then ParseExternal(s, pc)
    else if opcode in {FIELD_OP, INDEXFIELD_OP} then ParseFields(s, opcode, opcodePc)
    else ParseObjectOpcode(s, mode, opcode, opcodePc, pc)
  }

  /** An operand that is a plain number of fixed width. */
  function ParseImmediate(s: State, width: nat): Res<State>
    requires Ready(s)
  {
    var value :- ReadInteger(s.contexts.head.code, s.blocks.head.pc, width, s.blocks.head.limit);
    Ok(PushOperand(CommitPc(s, value.1), Value(Integer(Wrap(value.0)))))
  }

  /** `lai_exec_parse`: parses one term of the current block. */
  function Parse(s: State, mode: Mode): Res<State> {
    if !Ready(s) then Fail(Internal)
    else
      var code, pc, limit := s.contexts.head.code, s.blocks.head.pc, s.blocks.head.limit;
      if pc >= limit then Fail(Panic)
      else if mode.ImmediateMode? then ParseImmediate(s, mode.width)
      else
        var lead :- ByteAt(code, pc);
        if IsName(lead) then
          var name :- ParseName(code, pc);
          ParseReference(CommitPc(s, name.1), mode, name.0)
        else if lead == EXTOP_PREFIX then
          if pc + 1 == limit then Fail(Panic)
          else
            var second :- ByteAt(code, pc + 1);
            ParseOpcode(s, mode, 256 * EXTOP_PREFIX + second, pc, pc + 2)
        else ParseOpcode(s, mode, lead, pc, pc + 1)
  }

  // ------------------------------------------------------------------------------------
  // lai_exec_process.
  // ------------------------------------------------------------------------------------

  /** The end of a method without Return(): zero is returned, but only onto an empty operand stack. */
  function ImplicitReturn(s: State): Res<State>
    requires s.items.Cons? && s.items.head.MethodItem?
  {
    if s.operands != [] then Fail(Panic)
    else LeaveMethod(if s.items.head.wantResult then PushOperand(s, Value(Integer(0))) else s)
  }

  function NewInvocation(args: seq<Object>): Invocation
    requires |args| <= 7
  {
    Invocation(args + seq(7 - |args|, i => Uninit), seq(8, i => Uninit), [])
  }

  function GetObjects(operands: seq<Operand>): Res<seq<Object>>
  {
    if operands == [] then Ok([])
    else
      var v :- GetObject(operands[0]);
      var rest :- GetObjects(operands[1..]);
      Ok([v] + rest)
  }

  /** Enters an AML method once its arguments are on the operand stack. */
  function Call(s: State): Res<State>
    requires s.items.Cons? && s.items.head.InvokeItem?
    requires |s.operands| == s.items.head.frame + 1 + s.items.head.argc
  {
    var frame := s.items.head.frame;
    if !s.operands[frame].ResolvedName? then Fail(Internal)
    else
      var n := s.operands[frame].node;
      match KindOf(s.ns, n)
      case Some(Method(_, code, size)) =>
        var args :- GetObjects(s.operands[frame + 1..]);
        if |args| > 7 then Fail(Internal)
        else
          var popped := s.(operands := s.operands[..frame], items := s.items.tail);
          Ok(EnterMethod(popped, n, code, size, args, s.items.head.wantResult))
      case _ => Fail(Internal)
  }

  function EnterMethod(s: State, n: nat, code: seq<byte>, size: int, args: seq<Object>, want: bool): State
    requires |args| <= 7
  {
    PushItem(PushBlock(PushContext(s, Context(code, n, Some(NewInvocation(args)))), 0, size), MethodItem(want))
  }

  function ProcessBody(s: State, atEnd: Res<State>): Res<State>
    requires Ready(s)
  {
    if s.blocks.head.pc == s.blocks.head.limit then atEnd else Parse(s, ExecMode)
  }

  function LeaveBlock(s: State): Res<State> {
    var s' :- PopBlock(s);
    PopItem(s')
  }

  function ProcessOp(s: State): Res<State>
    requires Ready(s) && s.items.Cons? && s.items.head.OpItem?
  {
    var OpItem(frame, opcode, want) := s.items.head;
    if frame > |s.operands| || !HasOperands(opcode) then Fail(Internal)
    else
      var k := |s.operands| - frame;
      if k > OperandCount(opcode) then Fail(Internal)
      else if k < OperandCount(opcode) then Parse(s, ModeOf(opcode, k))
      else
        var r :- Reduction(s, opcode, s.operands[frame..]);
        PopItem(FinishOperands(r.1, frame, want, r.0))
  }

  function ProcessNode(s: State): Res<State>
    requires Ready(s) && s.items.Cons? && s.items.head.NodeItem?
  {
    var NodeItem(frame, opcode) := s.items.head;
    if frame > |s.operands| || !IsNodeOpcode(opcode) then Fail(Internal)
    else
      var k := |s.operands| - frame;
      if k > |NodeModes(opcode)| then Fail(Internal)
      else if k < |NodeModes(opcode)| then Parse(s, NodeModes(opcode)[k])
      else
        var s' :- ReduceNode(s, opcode, s.operands[frame..]);
        PopItem(s'.(operands := s.operands[..frame]))
  }

  /** A `size_t` as an `int`. */
  function SignedInt(n: nat): int {
    var low := n % 0x1_0000_0000;
    if low < 0x8000_0000 then low else low - 0x1_0000_0000
  }

  /** The end of BufferOp: the size says how much memory there is, the rest of the block fills it. */
  function FillBuffer(s: State, size: nat): Res<Object>
    requires Ready(s)
  {
    var initial := s.blocks.head.limit - s.blocks.head.pc;
    if initial < 0 || initial > SignedInt(size) then Fail(Panic)
    else if initial > 0 && s.blocks.head.limit > |s.contexts.head.code| then Fail(Undefined)
    else Ok(Opaque(BufferForm, size))
  }

  /** The size operand is not checked to be an integer; zero is what other objects have in its place. */
  function CreateBuffer(s: State, size: Object): (r: Res<(Object, State)>)
    requires Ready(s)
    ensures r.Ok? ==> SameStacks(s, r.value.1)
  {
    match size
    case Integer(n) => OrAnswered(s, FillBuffer(s, n))
    case Opaque(_, _) => Answered(s)
    case _ => OrAnswered(s, FillBuffer(s, 0))
  }

  function ProcessBuffer(s: State): Res<State>
    requires Ready(s) && s.items.Cons? && s.items.head.BufferItem?
  {
    var BufferItem(frame, want) := s.items.head;
    if |s.operands| > frame + 1 then Fail(Internal)
    else if |s.operands| == frame + 1 then
      var size :- GetObject(s.operands[frame]);
      var r :- CreateBuffer(s, size);
      LeaveBlock(FinishOperands(r.1, frame, want, r.0))
    else Parse(s, ObjectMode)
  }

  /** The second phase of PackageOp: the package gets its size. */
  function CreatePackage(s: State): Res<State>
    requires s.items.Cons? && s.items.head.PackageItem?
  {
    var PackageItem(frame, phase, index, want) := s.items.head;
    if |s.operands| != frame + 2 then Fail(Internal)
    else
      var size :- GetInteger(s.operands[frame + 1]);
      Ok(SetTop(s.(operands := s.operands[..frame] + [Value(Opaque(PackageForm, size))]),
                PackageItem(frame, 2, index, want)))
  }

  /** An initializer goes into the next element. */
  function StoreInitializer(s: State): Res<State>
    requires s.items.Cons? && s.items.head.PackageItem?
  {
    var PackageItem(frame, phase, index, want) := s.items.head;
    if |s.operands| != frame + 2 then Ok(s)
    else if !(s.operands[frame].Value? && s.operands[frame].v.Opaque?) then Fail(Internal)
    else
      var v :- GetObject(s.operands[frame + 1]);
      if index == s.operands[frame].v.size then Fail(Panic)
      else if index > s.operands[frame].v.size then Fail(Internal)
      else Ok(SetTop(s.(operands := s.operands[..frame + 1]), PackageItem(frame, phase, index + 1, want)))
  }

  /** The last phase of PackageOp: initializers are parsed up to the end of the block. */
  function FillPackage(s: State): Res<State>
    requires Ready(s) && s.items.Cons? && s.items.head.PackageItem?
  {
    var s' :- StoreInitializer(s);
    var PackageItem(frame, _, _, want) := s.items.head;
    if |s'.operands| != frame + 1 then Fail(Internal)
    else if s.blocks.head.pc == s.blocks.head.limit then
      LeaveBlock(if want then s' else s'.(operands := s'.operands[..frame]))
    else Parse(s', DataMode)
  }

  function ProcessPackage(s: State): Res<State>
    requires Ready(s) && s.items.Cons? && s.items.head.PackageItem?
  {
    var PackageItem(frame, phase, index, want) := s.items.head;
    if phase == 0 then
      var s' :- Parse(s, ImmediateMode(1));
      if s'.items.Nil? then Fail(Internal) else Ok(SetTop(s', PackageItem(frame, 1, index, want)))
    else if phase == 1 then CreatePackage(s)
    else FillPackage(s)
  }

  function ProcessInvoke(s: State): Res<State>
    requires Ready(s) && s.items.Cons? && s.items.head.InvokeItem?
  {
    var InvokeItem(frame, argc, want) := s.items.head;
    if |s.operands| > frame + argc + 1 then Fail(Internal)
    else if |s.operands| == frame + argc + 1 then Call(s)
    else Parse(s, ObjectMode)
  }

  function ProcessReturn(s: State): Res<State>
    requires Ready(s) && s.items.Cons? && s.items.head.ReturnItem?
  {
    var frame := s.items.head.frame;
    if |s.operands| > frame + 1 then Fail(Internal)
    else if |s.operands| == frame + 1 then
      var v :- GetObject(s.operands[frame]);
      ReturnFrom(s.(operands := s.operands[..frame], items := s.items.tail), v)
    else Parse(s, ObjectMode)
  }

  function ProcessLoop(s: State): Res<State>
    requires Ready(s) && s.items.Cons? && s.items.head.LoopItem?
  {
    var LoopItem(frame, iterating, predicatePc) := s.items.head;
    if iterating then
      ProcessBody(s, Ok(SetTop(CommitPc(s, predicatePc), LoopItem(frame, false, predicatePc))))
    else if |s.operands| > frame + 1 then Fail(Internal)
    else if |s.operands| == frame + 1 then
      var n :- GetInteger(s.operands[frame]);
      var s' := s.(operands := s.operands[..frame]);
      if n != 0 then Ok(SetTop(s', LoopItem(frame, true, predicatePc))) else LeaveBlock(s')
    else Parse(s, ObjectMode)
  }

  function ProcessCond(s: State): Res<State>
    requires Ready(s) && s.items.Cons? && s.items.head.CondItem?
  {
    var item := s.items.head;
    if item.inBranch then ProcessBody(s, LeaveBlock(s))
    else if |s.operands| > item.frame + 1 then Fail(Internal)
    else if |s.operands| == item.frame + 1 then
      var n :- GetInteger(s.operands[item.frame]);
      var s' := s.(operands := s.operands[..item.frame]);
      if n != 0 then Ok(SetTop(s', item.(inBranch := true)))
      else if item.hasElse then
        Ok(SetTop(s'.(blocks := s.blocks.(head := Block(item.elsePc, item.elseLimit))), item.(inBranch := true)))
      else LeaveBlock(s')
    else Parse(s, ObjectMode)
  }

  /** `lai_exec_process`: one step of the topmost item. */
  function Process(s: State): Res<State>
    requires s.items.Cons?
  {
    if !Ready(s) then Fail(Internal)
    else if s.blocks.head.pc > s.blocks.head.limit then Fail(Panic)
    else
      match s.items.head
      case Populate =>
        ProcessBody(s, var s1 :- PopBlock(s); var s2 :- PopContext(s1); PopItem(s2))
      case MethodItem(_) => ProcessBody(s, ImplicitReturn(s))
      case LoopItem(_, _, _) => ProcessLoop(s)
      case CondItem(_, _, _, _, _) => ProcessCond(s)
      case NodeItem(_, _) => ProcessNode(s)
      case OpItem(_, _, _) => ProcessOp(s)
      case InvokeItem(_, _, _) => ProcessInvoke(s)
      case ReturnItem(_) => ProcessReturn(s)
      case BufferItem(_, _) => ProcessBuffer(s)
      case PackageItem(_, _, _, _) => ProcessPackage(s)
  }

  // ------------------------------------------------------------------------------------
  // lai_exec_run and lai_eval_args.
  // ------------------------------------------------------------------------------------

  predicate Halted(r: Res<State>) {
    r.Fail? || r.value.items.Nil?
  }

  /** `n` iterations of the loop of `lai_exec_run`; a halted machine stays where it is. */
  function Run(r: Res<State>, n: nat): Res<State>
    decreases n
  {
    if n == 0 || Halted(r) then r else Run(Process(r.value), n - 1)
  }

  /** The state in which `lai_eval_args` starts a method. */
  function Start(ns: Space, n: nat, code: seq<byte>, size: int, args: seq<Object>, replies: seq<Reply>): State
    requires |args| <= 7
  {
    EnterMethod(State(Nil, Nil, Nil, [], ns, replies), n, code, size, args, true)
  }
}
