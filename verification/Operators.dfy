/** Loads, stores and integer operators: `core/exec-operand.c` and the integer part of
    `lai_exec_reduce_op`. What depends on the contents of other objects is `Unknown` here. */
module Operators {
  import opened Bits
  import opened Outcomes
  import opened Names
  import opened Namespace
  import opened Opcodes

  datatype Operand =
    | Value(v: Object)
    | NullName
    | UnresolvedName(name: AmlName)
    | ResolvedName(node: nat)
    | ArgName(index: nat)
    | LocalName(index: nat)
    | DebugName
    | MissingName  // a resolved name without a node

  /** The variables of one method call and the nodes it has created, oldest first. */
  datatype Invocation = Invocation(args: seq<Object>, locals: seq<Object>, created: seq<nat>)

  /** The nodes the current method has created. */
  function CreatedBy(invocation: Option<Invocation>): seq<nat> {
    if invocation.Some? then invocation.value.created else []
  }

  /** What loads and stores can reach: the invocation on top of the context stack and the namespace. */
  datatype Env = Env(invocation: Option<Invocation>, ns: Space)

  /** `lai_exec_access` on a node that is not a method. */
  function Access(ns: Space, n: nat): Res<Object> {
    match KindOf(ns, n)
    case Some(NameObject(v)) => Ok(v)
    case Some(Device) => Ok(Handle(n))
    case Some(Other(_)) => Ok(Handle(n))
    case Some(FieldUnit(_, _, _, _)) => Fail(Unknown)
    case Some(BufferField(_, _)) => Fail(Unknown)
    case Some(_) => Fail(Panic)
    case None => Fail(Undefined)
  }

  /** `lai_exec_mutate_ns`: an object keeps its type, an uninitialised object takes any value. */
  function MutateNode(ns: Space, n: nat, v: Object): Res<Space> {
    match KindOf(ns, n)
    case Some(NameObject(Integer(_))) =>
      if v.Integer? then Ok(SetObject(ns, n, v)) else if v.Opaque? then Fail(Unknown) else Fail(Panic)
    case Some(NameObject(Opaque(form, _))) =>
      if form in {TextForm, BufferForm, PackageForm} then Fail(Unknown) else Ok(SetObject(ns, n, v))
    case Some(NameObject(_)) => Ok(SetObject(ns, n, v))
    case Some(FieldUnit(_, _, _, _)) => Fail(Unknown)
    case Some(BufferField(_, _)) => Fail(Unknown)
    case Some(_) => Fail(Panic)
    case None => Fail(Undefined)
  }

  /** `lai_store_ns`, used by CopyObject: replaces the object whatever it was. */
  function StoreNode(ns: Space, n: nat, v: Object): Res<Space> {
    match KindOf(ns, n)
    case Some(NameObject(_)) => Ok(SetObject(ns, n, v))
    case Some(FieldUnit(_, _, _, _)) => Fail(Unknown)
    case Some(BufferField(_, _)) => Fail(Unknown)
    case Some(_) => Fail(Panic)
    case None => Fail(Undefined)
  }

  /** `lai_operand_load`. */
  function Load(env: Env, o: Operand): Res<Object> {
    match o
    case ArgName(i) =>
      if env.invocation.None? then Fail(Panic)
      else if i >= |env.invocation.value.args| then Fail(Undefined)
      else Ok(env.invocation.value.args[i])
    case LocalName(i) =>
      if env.invocation.None? then Fail(Panic)
      else if i >= |env.invocation.value.locals| then Fail(Undefined)
      else Ok(env.invocation.value.locals[i])
    case ResolvedName(n) => Access(env.ns, n)
    case MissingName => Fail(Undefined)
    case _ => Fail(Panic)
  }

  /** A reference from RefOf() or Index(), which a store follows. */
  predicate IsReference(v: Object) {
    v.Opaque? && v.form == ReferenceForm
  }

  /** `lai_operand_mutate` (`keepType`) and `lai_operand_emplace` (otherwise). */
  function StoreTo(env: Env, o: Operand, v: Object, keepType: bool): Res<Env> {
    match o
    case NullName => Ok(env)
    case DebugName => Ok(env)
    case MissingName => Fail(Undefined)
    case Value(r) => if IsReference(r) then Fail(Unknown) else Fail(Panic)
    case ResolvedName(n) =>
      var ns :- if keepType then MutateNode(env.ns, n, v) else StoreNode(env.ns, n, v);
      Ok(env.(ns := ns))
    case ArgName(i) =>
      if env.invocation.None? then Fail(Panic)
      else if i >= |env.invocation.value.args| then Fail(Undefined)
      else if IsReference(env.invocation.value.args[i]) then Fail(Unknown)
      else
        var inv := env.invocation.value;
        Ok(env.(invocation := Some(inv.(args := inv.args[i := v]))))
    case LocalName(i) =>
      if env.invocation.None? then Fail(Panic)
      else if i >= |env.invocation.value.locals| then Fail(Undefined)
      else
        var inv := env.invocation.value;
        Ok(env.(invocation := Some(inv.(locals := inv.locals[i := v]))))
    case _ => Fail(Panic)
  }

  function Mutate(env: Env, o: Operand, v: Object): Res<Env> {
    StoreTo(env, o, v, true)
  }

  // ------------------------------------------------------------------------------------
  // Integer operators.
  // ------------------------------------------------------------------------------------

  /** Position (from 1) of the highest set bit, 0 for 0: the right-shift loop. */
  function FindSetLeft(x: nat): (position: nat)
    ensures position <= x
  {
    if x == 0 then 0 else 1 + FindSetLeft(x / 2)
  }

  /** Number of left shifts until a 64-bit word is zero. */
  function ShiftsToZero(x: u64, budget: nat): (shifts: nat)
    ensures shifts <= budget
    decreases budget
  {
    if x == 0 || budget == 0 then 0 else 1 + ShiftsToZero((2 * x) % TWO64, budget - 1)
  }

  /** Position (from 1) of the lowest set bit, 0 for 0. */
  function FindSetRight(x: u64): nat {
    var shifts := ShiftsToZero(x, 64);
    if shifts == 0 then 0 else 65 - shifts
  }

  function Unary(opcode: nat, a: u64): u64 {
    BitwiseFits64(a, a);
    if opcode == NOT_OP then Not(64, a)
    else if opcode == FINDSETLEFTBIT_OP then FindSetLeft(a)
    else if opcode == FINDSETRIGHTBIT_OP then FindSetRight(a)
    else if a == 0 then 1 else 0  // LNOT_OP
  }

  /** Comparisons answer with all ones, unlike the logical operators. */
  function Truth(b: bool): u64 {
    if b then TWO64 - 1 else 0
  }

  function Wrap(x: int): u64 {
    x % TWO64
  }

  function Remainder(a: u64, b: u64): u64
    requires b != 0
  {
    a % b
  }

  function Bitwise(opcode: nat, a: u64, b: u64): u64 {
    BitwiseFits64(a, b);
    if opcode == AND_OP then And(a, b)
    else if opcode == NAND_OP then BitwiseFits64(And(a, b), 0); Not(64, And(a, b))
    else if opcode == OR_OP then Or(a, b)
    else if opcode == NOR_OP then BitwiseFits64(Or(a, b), 0); Not(64, Or(a, b))
    else Xor(a, b)
  }

  function ShiftRight(a: u64, k: nat): u64 {
    ShrFits(a, k);
    Shr(a, k)
  }

  /** The two-operand operators on 64-bit words. */
  function Binary(opcode: nat, a: u64, b: u64): Res<u64> {
    if opcode == ADD_OP then Ok(Wrap(a + b))
    else if opcode == SUBTRACT_OP then Ok(Wrap(a - b))
    else if opcode == MULTIPLY_OP then Ok(Wrap(a * b))
    else if opcode == MOD_OP then if b == 0 then Fail(Undefined) else Ok(Remainder(a, b))
    else if opcode in {AND_OP, NAND_OP, OR_OP, NOR_OP, XOR_OP} then Ok(Bitwise(opcode, a, b))
    else if opcode == SHL_OP then if b >= 64 then Fail(Undefined) else Ok(Wrap(Shl(a, b)))
    else if opcode == SHR_OP then if b >= 64 then Fail(Undefined) else Ok(ShiftRight(a, b))
    else if opcode == LAND_OP then Ok(if a != 0 && b != 0 then 1 else 0)
    else Ok(if a != 0 || b != 0 then 1 else 0)  // LOR_OP
  }
}
