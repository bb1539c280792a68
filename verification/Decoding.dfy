/** The byte readers of the machine invert the encoders of the syntax. */
module Decoding {
  import opened Bits
  import opened Outcomes
  import opened Names
  import opened Opcodes
  import opened Syntax
  import opened Operators
  import opened Machine
  import E = Evaluator

  function Pow256(n: nat): nat {
    if n == 0 then 1 else 256 * Pow256(n - 1)
  }

  lemma {:induction false} LittleEndianInverse(n: nat, width: nat)
    requires n < Pow256(width)
    ensures LittleEndian(ToLittleEndian(n, width)) == n
    decreases width
  {
    if width > 0 {
      LittleEndianInverse(n / 256, width - 1);
      assert ToLittleEndian(n, width)[1..] == ToLittleEndian(n / 256, width - 1);
    }
  }

  /** `lai_parse_u8` .. `lai_parse_u64` invert the little-endian encoding. */
  lemma ReadEncodedInteger(code: seq<byte>, pc: nat, n: nat, width: nat, limit: int)
    requires Holds(code, pc, ToLittleEndian(n, width)) && n < Pow256(width) && pc + width <= limit
    ensures ReadInteger(code, pc, width, limit) == Ok((n, pc + width))
  {
    LittleEndianInverse(n, width);
  }

  lemma ReadLongLength(code: seq<byte>, pc: nat, total: nat, extra: nat, limit: int)
    requires 1 <= extra <= 3 && total < 16 * Pow256(extra)
    requires Holds(code, pc, LongLength(total, extra)) && pc + 1 + extra <= limit
    ensures ReadPackageLength(code, pc, limit) == Ok((total, pc + 1 + extra))
  {
    var bytes := LongLength(total, extra);
    HoldsAt(code, pc, bytes, 0);
    HoldsSplit(code, pc, [bytes[0]], ToLittleEndian(total / 16, extra));
    LittleEndianInverse(total / 16, extra);
  }

  /** `lai_parse_varint` reads back the length of a package, counting the length bytes. */
  lemma ReadEncodedLength(code: seq<byte>, pc: nat, contents: nat, limit: int)
    requires contents + 4 < MAX_PACKAGE
    requires Holds(code, pc, PackageLength(contents)) && pc + |PackageLength(contents)| <= limit
    ensures ReadPackageLength(code, pc, limit)
         == Ok((contents + |PackageLength(contents)|, pc + |PackageLength(contents)|))
  {
    assert Pow256(1) == 0x100 && Pow256(2) == 0x1_0000 && Pow256(3) == 0x100_0000;
    if contents + 1 < 0x40 {
      HoldsAt(code, pc, PackageLength(contents), 0);
    } else if contents + 2 < 0x1000 {
      ReadLongLength(code, pc, contents + 2, 1, limit);
    } else if contents + 3 < 0x10_0000 {
      ReadLongLength(code, pc, contents + 3, 2, limit);
    } else {
      ReadLongLength(code, pc, contents + 4, 3, limit);
    }
  }

  /** The code at the pc of the current block starts with `bytes`, and they fit into the block. */
  predicate CodeAt(s: State, bytes: seq<byte>) {
    && Ready(s)
    && Holds(s.contexts.head.code, s.blocks.head.pc, bytes)
    && s.blocks.head.pc + |bytes| <= s.blocks.head.limit
  }

  function Skip(s: State, n: nat): State
    requires Ready(s)
  {
    CommitPc(s, s.blocks.head.pc + n)
  }

  lemma CodeSplit(s: State, a: seq<byte>, b: seq<byte>)
    requires CodeAt(s, a + b)
    ensures CodeAt(s, a) && CodeAt(Skip(s, |a|), b)
  {
    HoldsSplit(s.contexts.head.code, s.blocks.head.pc, a, b);
  }

  /** A one-byte opcode is dispatched to `ParseOpcode`. */
  lemma ParseLead(s: State, mode: Mode, opcode: byte, rest: seq<byte>)
    requires CodeAt(s, [opcode] + rest) && !IsName(opcode) && opcode != EXTOP_PREFIX && !mode.ImmediateMode?
    ensures Parse(s, mode) == ParseOpcode(s, mode, opcode, s.blocks.head.pc, s.blocks.head.pc + 1)
    ensures CodeAt(Skip(s, 1), rest)
  {
    CodeSplit(s, [opcode], rest);
    HoldsAt(s.contexts.head.code, s.blocks.head.pc, [opcode] + rest, 0);
  }

  /** What `lai_exec_parse` does with each opcode that encoded terms start with. */
  lemma ParseVariableTerm(s: State, mode: Mode, opcode: byte)
    requires CodeAt(s, [opcode]) && LOCAL0_OP <= opcode <= ARG6_OP && !mode.ImmediateMode?
    ensures Parse(s, mode)
         == ParseVariable(Skip(s, 1), mode,
                          if opcode <= LOCAL7_OP then LocalName(opcode - LOCAL0_OP) else ArgName(opcode - ARG0_OP))
  {
    assert [opcode] == [opcode] + [];
    ParseLead(s, mode, opcode, []);
  }

  lemma ParseNullTarget(s: State)
    requires CodeAt(s, [ZERO_OP])
    ensures Parse(s, ReferenceMode) == Ok(PushOperand(Skip(s, 1), NullName))
  {
    assert [ZERO_OP] == [ZERO_OP] + [];
    ParseLead(s, ReferenceMode, ZERO_OP, []);
  }

  lemma ParseItemTerm(s: State, mode: Mode, opcode: byte, rest: seq<byte>)
    requires CodeAt(s, [opcode] + rest) && (IsOperator(opcode) || opcode == RETURN_OP || opcode == NAME_OP)
    requires !mode.ImmediateMode?
    ensures Parse(s, mode)
         == Ok(PushItem(Skip(s, 1),
                        if opcode == RETURN_OP then ReturnItem(|s.operands|)
                        else if opcode == NAME_OP then NodeItem(|s.operands|, NAME_OP)
                        else OpItem(|s.operands|, opcode, WantsResult(mode))))
    ensures CodeAt(Skip(s, 1), rest)
  {
    ParseLead(s, mode, opcode, rest);
  }

  lemma ParseControlTerm(s: State, opcode: byte)
    requires CodeAt(s, [opcode]) && opcode in {NOP_OP, BREAK_OP, CONTINUE_OP}
    ensures Parse(s, ExecMode)
         == if opcode == NOP_OP then Ok(Skip(s, 1))
            else if opcode == BREAK_OP then BreakLoop(s)
            else ContinueLoop(s)
  {
    assert [opcode] == [opcode] + [];
    ParseLead(s, ExecMode, opcode, []);
  }

  lemma ParseBlockTerm(s: State, opcode: byte, rest: seq<byte>)
    requires CodeAt(s, [opcode] + rest) && opcode in {IF_OP, WHILE_OP}
    ensures Parse(s, ExecMode)
         == if opcode == IF_OP then ParseIf(s, s.blocks.head.pc) else ParseWhile(s, s.blocks.head.pc)
    ensures CodeAt(Skip(s, 1), rest)
  {
    ParseLead(s, ExecMode, opcode, rest);
  }

  lemma ParseNamed(s: State, mode: Mode, name: NameString)
    requires CodeAt(s, EncodeName(name)) && !mode.ImmediateMode?
    ensures Parse(s, mode) == ParseReference(Skip(s, |EncodeName(name)|), mode, name)
  {
    hide ParseReference, ParseOpcode, ParseImmediate, ParseName, EncodeName;
    ParseEncodedName(s.contexts.head.code, s.blocks.head.pc, name);
  }

  lemma ParsePrefixed(s: State, mode: Mode, prefix: byte, n: nat, width: nat)
    requires prefix in {BYTEPREFIX, WORDPREFIX, DWORDPREFIX, QWORDPREFIX} && width == PrefixWidth(prefix)
    requires n < Pow256(width) && CodeAt(s, [prefix] + ToLittleEndian(n, width)) && !mode.ImmediateMode?
    ensures Parse(s, mode) == ParseConstant(Skip(s, 1 + width), mode, Wrap(n))
  {
    hide Parse, ParseOpcode, ParseConstant, ReadInteger, ToLittleEndian, Pow256, Wrap;
    ParseLead(s, mode, prefix, ToLittleEndian(n, width));
    ReadEncodedInteger(s.contexts.head.code, s.blocks.head.pc + 1, n, width, s.blocks.head.limit);
    PrefixOpcode(s, mode, prefix, s.blocks.head.pc, s.blocks.head.pc + 1);
  }

  lemma PrefixOpcode(s: State, mode: Mode, prefix: byte, opcodePc: nat, pc: nat)
    requires Ready(s) && prefix in {BYTEPREFIX, WORDPREFIX, DWORDPREFIX, QWORDPREFIX}
    ensures ParseOpcode(s, mode, prefix, opcodePc, pc)
         == var value :- ReadInteger(s.contexts.head.code, pc, PrefixWidth(prefix), s.blocks.head.limit);
            ParseConstant(CommitPc(s, value.1), mode, Wrap(value.0))
  {
    hide ParseConstant, ReadInteger, Wrap, CommitPc;
  }

  lemma ParseEncodedConstant(s: State, mode: Mode, c: Constant)
    requires CodeAt(s, EncodeConstant(c)) && WfConstant(c)
    requires mode == ObjectMode || mode == ExecMode
    ensures Parse(s, mode) == ParseConstant(Skip(s, |EncodeConstant(c)|), mode, Wrap(E.ConstantValue(c)))
  {
    hide Parse, ParseOpcode, LittleEndian;
    assert Pow256(1) == 0x100 && Pow256(2) == 0x1_0000 && Pow256(4) == 0x1_0000_0000;
    assert Pow256(8) == 0x1_0000_0000_0000_0000;
    match c
    case Byte(n) => ParsePrefixed(s, mode, BYTEPREFIX, n, 1);
    case Word(n) => ParsePrefixed(s, mode, WORDPREFIX, n, 2);
    case DWord(n) => ParsePrefixed(s, mode, DWORDPREFIX, n, 4);
    case QWord(n) => ParsePrefixed(s, mode, QWORDPREFIX, n, 8);
    case _ => ParseOneByte(s, mode, c);
  }

  lemma ParseOneByte(s: State, mode: Mode, c: Constant)
    requires CodeAt(s, EncodeConstant(c)) && (c.Zero? || c.One? || c.AllOnes?)
    requires mode == ObjectMode || mode == ExecMode
    ensures Parse(s, mode) == ParseConstant(Skip(s, 1), mode, Wrap(E.ConstantValue(c))) && |EncodeConstant(c)| == 1
  {
    hide Parse;
    assert EncodeConstant(c) == EncodeConstant(c) + [];
    ParseLead(s, mode, EncodeConstant(c)[0], []);
  }

  lemma FirstByteOfStatement(st: Stmt)
    ensures EncodeStmt(st) != [] && EncodeStmt(st)[0] != ELSE_OP
  {
    match st
    case Do(e) => FirstByteOfExpression(e);
    case _ =>
  }

  lemma FirstByteOfExpression(e: Expr)
    ensures EncodeExpr(e) != [] && EncodeExpr(e)[0] != ELSE_OP
  {
    match e
    case Const(c) =>
    case Var(name) => FirstByteOfName(name);
    case Call(name, args) => FirstByteOfName(name);
    case _ =>
  }

  lemma FirstByteOfName(name: NameString)
    ensures EncodeName(name) != [] && EncodeName(name)[0] != ELSE_OP
  {
    var code := EncodeName(name);
    assert Holds(code, 0, code);
    ParseEncodedName(code, 0, name);
  }
}
