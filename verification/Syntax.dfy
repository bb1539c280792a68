/** Abstract syntax of the modelled AML subset and its byte encoding
    (section 20.2 of the ACPI 6.3 specification). */
module Syntax {
  import opened Bits
  import opened Names
  import opened Opcodes

  type NameString = n: AmlName | LegalName(n) && (n.isAbsolute || n.height > 0 || n.segments != [])
    witness AmlName(true, 0, [])
  type ArgIndex = i: nat | i < 7
  type LocalIndex = i: nat | i < 8
  type Operator = o: nat | IsOperator(o) witness STORE_OP

  datatype Constant = Zero | One | AllOnes | Byte(n: byte) | Word(w: nat) | DWord(d: nat) | QWord(q: nat)

  datatype Target = NoTarget | ArgTarget(a: ArgIndex) | LocalTarget(l: LocalIndex) | NameTarget(name: NameString)

  datatype Expr =
    | Const(c: Constant)
    | Arg(a: ArgIndex)
    | Local(l: LocalIndex)
    | Var(name: NameString)
    | Apply(op: Operator, values: seq<Expr>, targets: seq<Target>)
    | Call(name: NameString, args: seq<Expr>)

  datatype Stmt =
    | Nop
    | Do(e: Expr)
    | If(cond: Expr, thn: seq<Stmt>)
    | IfElse(cond: Expr, thn: seq<Stmt>, els: seq<Stmt>)
    | While(cond: Expr, body: seq<Stmt>)
    | Break
    | Continue
    | Return(e: Expr)
    | Declare(name: NameString, init: Expr)

  // ------------------------------------------------------------------------------------
  // Encoding.
  // ------------------------------------------------------------------------------------

  function ToLittleEndian(n: nat, width: nat): (bytes: seq<byte>)
    ensures |bytes| == width
    decreases width
  {
    if width == 0 then [] else [n % 256] + ToLittleEndian(n / 256, width - 1)
  }

  /** PkgLength counts its own bytes; the shortest form is chosen. */
  function PackageLength(contents: nat): seq<byte> {
    if contents + 1 < 0x40 then [contents + 1]
    else if contents + 2 < 0x1000 then LongLength(contents + 2, 1)
    else if contents + 3 < 0x10_0000 then LongLength(contents + 3, 2)
    else LongLength(contents + 4, 3)
  }

  function LongLength(total: nat, extra: nat): (bytes: seq<byte>)
    requires 1 <= extra <= 3
    ensures |bytes| == extra + 1
  {
    [64 * extra + total % 16] + ToLittleEndian(total / 16, extra)
  }

  const MAX_PACKAGE := 0x1000_0000

  function Package(contents: seq<byte>): seq<byte> {
    PackageLength(|contents|) + contents
  }

  function EncodeConstant(c: Constant): seq<byte> {
    match c
    case Zero => [ZERO_OP]
    case One => [ONE_OP]
    case AllOnes => [ONES_OP]
    case Byte(n) => [BYTEPREFIX] + ToLittleEndian(n, 1)
    case Word(n) => [WORDPREFIX] + ToLittleEndian(n, 2)
    case DWord(n) => [DWORDPREFIX] + ToLittleEndian(n, 4)
    case QWord(n) => [QWORDPREFIX] + ToLittleEndian(n, 8)
  }

  function EncodeTarget(t: Target): seq<byte> {
    match t
    case NoTarget => [ZERO_OP]
    case ArgTarget(i) => [ARG0_OP + i]
    case LocalTarget(i) => [LOCAL0_OP + i]
    case NameTarget(name) => EncodeName(name)
  }

  function EncodeTargets(ts: seq<Target>): seq<byte> {
    if ts == [] then [] else EncodeTarget(ts[0]) + EncodeTargets(ts[1..])
  }

  function EncodeExpr(e: Expr): seq<byte>
    decreases e, 0
  {
    match e
    case Const(c) => EncodeConstant(c)
    case Arg(i) => [ARG0_OP + i]
    case Local(i) => [LOCAL0_OP + i]
    case Var(name) => EncodeName(name)
    case Apply(op, es, ts) => [op] + (EncodeExprs(es) + EncodeTargets(ts))
    case Call(name, args) => EncodeName(name) + EncodeExprs(args)
  }

  function EncodeExprs(es: seq<Expr>): seq<byte>
    decreases es, 0
  {
    if es == [] then [] else EncodeExpr(es[0]) + EncodeExprs(es[1..])
  }

  function EncodeStmt(st: Stmt): seq<byte>
    decreases st, 0
  {
    match st
    case Nop => [NOP_OP]
    case Do(e) => EncodeExpr(e)
    case If(c, thn) => [IF_OP] + Package(EncodeExpr(c) + EncodeStmts(thn))
    case IfElse(c, thn, els) =>
      [IF_OP] + (Package(EncodeExpr(c) + EncodeStmts(thn)) + ([ELSE_OP] + Package(EncodeStmts(els))))
    case While(c, body) => [WHILE_OP] + Package(EncodeExpr(c) + EncodeStmts(body))
    case Break => [BREAK_OP]
    case Continue => [CONTINUE_OP]
    case Return(e) => [RETURN_OP] + EncodeExpr(e)
    case Declare(name, e) => [NAME_OP] + (EncodeName(name) + EncodeExpr(e))
  }

  function EncodeStmts(ss: seq<Stmt>): seq<byte>
    decreases ss, 0
  {
    if ss == [] then [] else EncodeStmt(ss[0]) + EncodeStmts(ss[1..])
  }

  // ------------------------------------------------------------------------------------
  // Well-formed programs: operand counts match, numbers and packages fit their encoding.
  // ------------------------------------------------------------------------------------

  predicate WfConstant(c: Constant) {
    match c
    case Word(n) => n < 0x1_0000
    case DWord(n) => n < 0x1_0000_0000
    case QWord(n) => n < TWO64
    case _ => true
  }

  predicate WfExpr(e: Expr)
    decreases e, 0
  {
    match e
    case Const(c) => WfConstant(c)
    case Apply(op, es, ts) => |es| == ValueCount(op) && |ts| == TargetCount(op) && WfExprs(es)
    case Call(_, args) => |args| <= 7 && WfExprs(args)
    case _ => true
  }

  predicate WfExprs(es: seq<Expr>)
    decreases es, 0
  {
    es == [] || (WfExpr(es[0]) && WfExprs(es[1..]))
  }

  predicate Fits(contents: seq<byte>) {
    |contents| + 4 < MAX_PACKAGE
  }

  predicate WfStmt(st: Stmt)
    decreases st, 0
  {
    match st
    case Do(e) => WfExpr(e)
    case If(c, thn) => WfExpr(c) && WfStmts(thn) && Fits(EncodeExpr(c) + EncodeStmts(thn))
    case IfElse(c, thn, els) =>
      && WfExpr(c) && WfStmts(thn) && WfStmts(els)
      && Fits(EncodeExpr(c) + EncodeStmts(thn)) && Fits(EncodeStmts(els))
    case While(c, body) => WfExpr(c) && WfStmts(body) && Fits(EncodeExpr(c) + EncodeStmts(body))
    case Return(e) => WfExpr(e)
    case Declare(_, e) => WfExpr(e)
    case _ => true
  }

  predicate WfStmts(ss: seq<Stmt>)
    decreases ss, 0
  {
    ss == [] || (WfStmt(ss[0]) && WfStmts(ss[1..]))
  }
}
