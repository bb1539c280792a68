/** The opcodes (`core/aml_opcodes.h`), and the operand modes `lai_exec_parse` records for each
    operator and for each kind of node with operands. */
module Opcodes {
  const ZERO_OP := 0x00
  const ONE_OP := 0x01
  const ALIAS_OP := 0x06
  const NAME_OP := 0x08
  const BYTEPREFIX := 0x0A
  const WORDPREFIX := 0x0B
  const DWORDPREFIX := 0x0C
  const STRINGPREFIX := 0x0D
  const QWORDPREFIX := 0x0E
  const SCOPE_OP := 0x10
  const BUFFER_OP := 0x11
  const PACKAGE_OP := 0x12
  const VARPACKAGE_OP := 0x13
  const METHOD_OP := 0x14
  const EXTERNAL_OP := 0x15
  const EXTOP_PREFIX := 0x5B
  const LOCAL0_OP := 0x60
  const LOCAL7_OP := 0x67
  const ARG0_OP := 0x68
  const ARG6_OP := 0x6E
  const STORE_OP := 0x70
  const REFOF_OP := 0x71
  const ADD_OP := 0x72
  const CONCAT_OP := 0x73
  const SUBTRACT_OP := 0x74
  const INCREMENT_OP := 0x75
  const DECREMENT_OP := 0x76
  const MULTIPLY_OP := 0x77
  const DIVIDE_OP := 0x78
  const SHL_OP := 0x79
  const SHR_OP := 0x7A
  const AND_OP := 0x7B
  const NAND_OP := 0x7C
  const OR_OP := 0x7D
  const NOR_OP := 0x7E
  const XOR_OP := 0x7F
  const NOT_OP := 0x80
  const FINDSETLEFTBIT_OP := 0x81
  const FINDSETRIGHTBIT_OP := 0x82
  const DEREF_OP := 0x83
  const CONCATRES_OP := 0x84
  const MOD_OP := 0x85
  const NOTIFY_OP := 0x86
  const SIZEOF_OP := 0x87
  const INDEX_OP := 0x88
  const MATCH_OP := 0x89
  const DWORDFIELD_OP := 0x8A
  const WORDFIELD_OP := 0x8B
  const BYTEFIELD_OP := 0x8C
  const BITFIELD_OP := 0x8D
  const OBJECTTYPE_OP := 0x8E
  const QWORDFIELD_OP := 0x8F
  const LAND_OP := 0x90
  const LOR_OP := 0x91
  const LNOT_OP := 0x92
  const LEQUAL_OP := 0x93
  const LGREATER_OP := 0x94
  const LLESS_OP := 0x95
  const TOBUFFER_OP := 0x96
  const TODECIMALSTRING_OP := 0x97
  const TOHEXSTRING_OP := 0x98
  const TOINTEGER_OP := 0x99
  const TOSTRING_OP := 0x9C
  const COPYOBJECT_OP := 0x9D
  const MID_OP := 0x9E
  const CONTINUE_OP := 0x9F
  const IF_OP := 0xA0
  const ELSE_OP := 0xA1
  const WHILE_OP := 0xA2
  const NOP_OP := 0xA3
  const RETURN_OP := 0xA4
  const BREAK_OP := 0xA5
  const BREAKPOINT_OP := 0xCC
  const ONES_OP := 0xFF
  const MUTEX_OP := 0x5B01
  const EVENT_OP := 0x5B02
  const CONDREF_OP := 0x5B12
  const ARBFIELD_OP := 0x5B13
  const STALL_OP := 0x5B21
  const SLEEP_OP := 0x5B22
  const ACQUIRE_OP := 0x5B23
  const SIGNAL_OP := 0x5B24
  const WAIT_OP := 0x5B25
  const RESET_OP := 0x5B26
  const RELEASE_OP := 0x5B27
  const FROM_BCD_OP := 0x5B28
  const TO_BCD_OP := 0x5B29
  const REVISION_OP := 0x5B30
  const DEBUG_OP := 0x5B31
  const FATAL_OP := 0x5B32
  const TIMER_OP := 0x5B33
  const OPREGION_OP := 0x5B80
  const FIELD_OP := 0x5B81
  const DEVICE_OP := 0x5B82
  const PROCESSOR_OP := 0x5B83
  const POWER_RES_OP := 0x5B84
  const THERMALZONE_OP := 0x5B85
  const INDEXFIELD_OP := 0x5B86
  const BANKFIELD_OP := 0x5B87

  /** How an operand is parsed: as a value, as a statement, as a name, as a store target, as a store
      target that need not exist, as an element of a package, or as a number of so many bytes. */
  datatype Mode =
    | ObjectMode
    | ExecMode
    | UnresolvedMode
    | ReferenceMode
    | OptionalReferenceMode
    | DataMode
    | ImmediateMode(width: nat)

  predicate WantsResult(mode: Mode) {
    mode != ExecMode
  }

  /** The operators on integers: `n` values and then `m` targets, as the switch of `lai_exec_parse` sets
      them up. */
  predicate IsOperator(opcode: nat) {
    || STORE_OP == opcode || ADD_OP == opcode || SUBTRACT_OP <= opcode <= FINDSETRIGHTBIT_OP
    || MOD_OP == opcode || LAND_OP <= opcode <= LLESS_OP || COPYOBJECT_OP == opcode
  }

  function ValueCount(opcode: nat): nat {
    if opcode in {INCREMENT_OP, DECREMENT_OP} then 0
    else if opcode in {STORE_OP, COPYOBJECT_OP, NOT_OP, FINDSETLEFTBIT_OP, FINDSETRIGHTBIT_OP, LNOT_OP} then 1
    else 2
  }

  function TargetCount(opcode: nat): nat {
    if LAND_OP <= opcode <= LLESS_OP then 0
    else if opcode == DIVIDE_OP then 2
    else 1
  }

  function Arity(opcode: nat): nat {
    ValueCount(opcode) + TargetCount(opcode)
  }

  /** `op_arg_modes[k]`. */
  function OperandMode(opcode: nat, k: nat): Mode {
    if k < ValueCount(opcode) then ObjectMode else ReferenceMode
  }

  /** The operand modes of the operators on other objects, and of those that ask the host. */
  function ObjectModes(opcode: nat): seq<Mode> {
    if opcode in {TOBUFFER_OP, TODECIMALSTRING_OP, TOHEXSTRING_OP, TOINTEGER_OP, FROM_BCD_OP, TO_BCD_OP}
    then [ObjectMode, ReferenceMode]
    else if opcode in {TOSTRING_OP, CONCAT_OP, INDEX_OP, CONCATRES_OP} then [ObjectMode, ObjectMode, ReferenceMode]
    else if opcode == MID_OP then [ObjectMode, ObjectMode, ObjectMode, ReferenceMode]
    else if opcode == FATAL_OP then [ImmediateMode(1), ImmediateMode(4), ObjectMode]
    else if opcode == MATCH_OP then
      [ObjectMode, ImmediateMode(1), ObjectMode, ImmediateMode(1), ObjectMode, ObjectMode]
    else if opcode in {OBJECTTYPE_OP, REFOF_OP, RELEASE_OP, SIGNAL_OP, RESET_OP} then [ReferenceMode]
    else if opcode in {DEREF_OP, SIZEOF_OP, STALL_OP, SLEEP_OP} then [ObjectMode]
    else if opcode in {NOTIFY_OP, WAIT_OP} then [ReferenceMode, ObjectMode]
    else if opcode == CONDREF_OP then [OptionalReferenceMode, ReferenceMode]
    else if opcode == ACQUIRE_OP then [ReferenceMode, ImmediateMode(2)]
    else []
  }

  predicate IsObjectOperator(opcode: nat) {
    !IsOperator(opcode) && ObjectModes(opcode) != []
  }

  predicate HasOperands(opcode: nat) {
    IsOperator(opcode) || IsObjectOperator(opcode)
  }

  function OperandCount(opcode: nat): nat {
    if IsOperator(opcode) then Arity(opcode) else |ObjectModes(opcode)|
  }

  /** `op_arg_modes[k]` for all operators. */
  function ModeOf(opcode: nat, k: nat): Mode
    requires k < OperandCount(opcode)
  {
    if IsOperator(opcode) then OperandMode(opcode, k) else ObjectModes(opcode)[k]
  }

  /** `node_arg_modes` of the nodes that are created from operands. */
  function NodeModes(opcode: nat): seq<Mode> {
    if opcode == NAME_OP then [UnresolvedMode, ObjectMode]
    else if opcode in {BITFIELD_OP, BYTEFIELD_OP, WORDFIELD_OP, DWORDFIELD_OP, QWORDFIELD_OP}
    then [ReferenceMode, ObjectMode, UnresolvedMode]
    else if opcode == ARBFIELD_OP then [ReferenceMode, ObjectMode, ObjectMode, UnresolvedMode]
    else if opcode == OPREGION_OP then [UnresolvedMode, ImmediateMode(1), ObjectMode, ObjectMode]
    else []
  }

  predicate IsNodeOpcode(opcode: nat) {
    NodeModes(opcode) != []
  }
}
