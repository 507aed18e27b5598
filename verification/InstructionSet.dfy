/** i0 instructions, their encoding into bytes, and the length the assembler takes for granted. */
module InstructionSet {
  import opened Wrappers

  datatype Prefix = EBM | SBM

  datatype Opcode =
    | NOP | CONV | ADD | SUB | MUL | DIV | AND | OR | XOR | B | SPAWN | SPAWNX | EXIT | INT | SCMP | GREP

  datatype Attribute =
    | Signed8 | Unsigned8 | Signed32 | Unsigned32 | Signed64 | Unsigned64 | Signed128 | Unsigned128 | Double | Single

  datatype Mode = Immediate | Direct | Indirect | BaseDisplacement

  datatype JumpMode = J | L | LE | E | NE | Z | NZ | SL | JI

  datatype ExitMode = Commit | Abort | CommitDelete | AbortDelete

  /** An operand. `value` is the bits of the immediate, or of the address; a single-precision
      immediate is its low half. `conv` is the conversion attribute. */
  datatype Operand = Operand(mode: Mode, conv: Attribute, value: bv64, displacement: bv32)

  datatype Instruction = Instruction(
    prefix: Prefix, op: Opcode, attribute: Attribute, jump: JumpMode, relative: bool, exit: ExitMode, operands: seq<Operand>)

  const MAX_NUM_OPERANDS: nat := 5

  predicate Valid(i: Instruction) {
    |i.operands| == MAX_NUM_OPERANDS
  }

  // ----- Codes -----

  function OpcodeCode(op: Opcode): bv8 {
    match op
    case NOP => 0x0
    case CONV => 0x21
    case ADD => 0x03
    case SUB => 0x06
    case MUL => 0x09
    case DIV => 0x0C
    case AND => 0x18
    case OR => 0x1B
    case XOR => 0x1E
    case B => 0x15
    case SPAWN => 0x25
    case SPAWNX => 0x29
    case EXIT => 0x86
    case INT => 0x24
    case SCMP => 0x2A
    case GREP => 0x30
  }

  function AttributeCode(a: Attribute): bv8 {
    match a
    case Signed8 => 0x0
    case Unsigned8 => 0x4
    case Signed32 => 0x3
    case Unsigned32 => 0x7
    case Signed64 => 0x1
    case Unsigned64 => 0x5
    case Signed128 => 0x2
    case Unsigned128 => 0x6
    case Double => 0x9
    case Single => 0x8
  }

  function ModeCode(m: Mode): bv8 {
    match m
    case Immediate => 0
    case Direct => 1
    case Indirect => 2
    case BaseDisplacement => 3
  }

  function JumpCode(j: JumpMode): bv8 {
    match j
    case J => 0x0
    case L => 0x2
    case LE => 0x3
    case E => 0x4
    case NE => 0x5
    case Z => 0x6
    case NZ => 0x7
    case SL => 0x8
    case JI => 0xC
  }

  function ExitCode(e: ExitMode): bv8 {
    match e
    case Commit => 0
    case Abort => 1
    case CommitDelete => 2
    case AbortDelete => 3
  }

  predicate IsArithmetic(op: Opcode) {
    op.ADD? || op.SUB? || op.MUL? || op.DIV? || op.AND? || op.OR? || op.XOR?
  }

  /** Jumps that compare their first two operands. */
  predicate Compares(j: JumpMode) {
    j.NE? || j.E? || j.L? || j.LE? || j.SL?
  }

  /** How many operands follow the leading bytes. */
  function NumOperands(op: Opcode, jump: JumpMode): (n: nat)
    ensures n <= MAX_NUM_OPERANDS
  {
    match op
    case CONV => 2
    case B => if jump == J || jump == JI then 1 else if Compares(jump) then 3 else 2
    case SPAWN => 4
    case SPAWNX => 5
    case SCMP => 5
    case GREP => 5
    case INT => 1
    case EXIT => 0
    case NOP => 0
    case _ => 3
  }

  // ----- The length the assembler computes -----

  /** Bytes of an immediate, by its attribute; 128-bit ones are not supported. */
  function AttributeWidth(a: Attribute): Option<nat> {
    match a
    case Signed64 => Some(8)
    case Unsigned64 => Some(8)
    case Double => Some(8)
    case Signed32 => Some(4)
    case Unsigned32 => Some(4)
    case Single => Some(4)
    case Signed8 => Some(1)
    case Unsigned8 => Some(1)
    case _ => None
  }

  /** What the length of an immediate is taken to be: for arithmetic it is the instruction's attribute that decides. */
  function AssumedWidth(op: Opcode, attribute: Attribute, conv: Attribute): Option<nat> {
    match op
    case CONV => AttributeWidth(conv)
    case SPAWN => Some(8)
    case SPAWNX => Some(8)
    case B => Some(8)
    case SCMP => Some(8)
    case GREP => Some(8)
    case EXIT => None
    case NOP => None
    case INT => None
    case _ =>
      match attribute
      case Signed64 => Some(8)
      case Unsigned64 => Some(8)
      case Double => Some(8)
      case Single => Some(4)
      case _ => None
  }

  function GetOperandEncodingLength(i: Instruction, o: Operand): Option<nat> {
    match o.mode
    case Immediate => AssumedWidth(i.op, i.attribute, o.conv)
    case Direct => Some(8)
    case Indirect => Some(8)
    case BaseDisplacement => Some(12)
  }

  /** The lengths of operands `k` and later; `None` is an abort. */
  function OperandLengths(i: Instruction, k: nat): Option<nat>
    requires Valid(i) && k <= NumOperands(i.op, i.jump)
    decreases NumOperands(i.op, i.jump) - k
  {
    if k == NumOperands(i.op, i.jump) then Some(0) else
    match (GetOperandEncodingLength(i, i.operands[k]), OperandLengths(i, k + 1))
    case (Some(a), Some(b)) => Some(a + b)
    case _ => None
  }

  /** The number of leading bytes. */
  function HeaderLength(op: Opcode, jump: JumpMode): nat {
    match op
    case CONV => 4
    case B => if jump == J then 2 else if jump == JI || jump == Z || jump == NZ then 3 else 4
    case SPAWN => 3
    case SPAWNX => 4
    case EXIT => 2
    case NOP => 2
    case INT => 2
    case SCMP => 4
    case GREP => 4
    case _ => 3
  }

  function GetLength(i: Instruction): Option<nat>
    requires Valid(i)
  {
    if i.op == INT then Some(HeaderLength(i.op, i.jump) + 1) else
    match OperandLengths(i, 0)
    case None => None
    case Some(n) => Some(HeaderLength(i.op, i.jump) + n)
  }

  // ----- The bytes -----

  function Bytes64(v: bv64): (r: seq<bv8>)
    ensures |r| == 8
  {
    [(v & 0xFF) as bv8, ((v >> 8) & 0xFF) as bv8, ((v >> 16) & 0xFF) as bv8, ((v >> 24) & 0xFF) as bv8,
     ((v >> 32) & 0xFF) as bv8, ((v >> 40) & 0xFF) as bv8, ((v >> 48) & 0xFF) as bv8, ((v >> 56) & 0xFF) as bv8]
  }

  function Bytes32(v: bv32): (r: seq<bv8>)
    ensures |r| == 4
  {
    [(v & 0xFF) as bv8, ((v >> 8) & 0xFF) as bv8, ((v >> 16) & 0xFF) as bv8, ((v >> 24) & 0xFF) as bv8]
  }

  /** The low `width` bytes, lowest first. */
  function ValueBytes(v: bv64, width: nat): (r: seq<bv8>)
    requires width <= 8
    ensures |r| == width
  {
    Bytes64(v)[..width]
  }

  /** The bytes of an operand: here the width of an immediate is that of its conversion attribute. */
  function EncodeOperandData(i: Instruction, o: Operand): Option<seq<bv8>> {
    if i.prefix == SBM then None else
    match o.mode
    case Immediate =>
      if i.op == EXIT || i.op == NOP || i.op == INT then None else
      (match AttributeWidth(o.conv)
       case None => None
       case Some(width) => Some(ValueBytes(o.value, width)))
    case Direct => Some(Bytes64(o.value))
    case Indirect => Some(Bytes64(o.value))
    case BaseDisplacement => Some(Bytes32(o.displacement) + Bytes64(o.value))
  }

  function OperandData(i: Instruction, k: nat): Option<seq<bv8>>
    requires Valid(i) && k <= NumOperands(i.op, i.jump)
    decreases NumOperands(i.op, i.jump) - k
  {
    if k == NumOperands(i.op, i.jump) then Some([]) else
    match (EncodeOperandData(i, i.operands[k]), OperandData(i, k + 1))
    case (Some(a), Some(b)) => Some(a + b)
    case _ => None
  }

  function Bit(b: bool): bv8 {
    if b then 1 else 0
  }

  /** The first byte, and the part of the second byte that completes the opcode. */
  function FirstByte(i: Instruction): bv8 {
    (if i.prefix == SBM then 0x80 else 0) | ((OpcodeCode(i.op) >> 3) & 0x7F)
  }

  function OpcodeRest(i: Instruction): bv8 {
    ((OpcodeCode(i.op) & 0x7) << 5) & 0xF0
  }

  function ConvHeader(i: Instruction): (r: seq<bv8>)
    requires Valid(i)
    ensures |r| == 3
  {
    var c0, c1 := AttributeCode(i.operands[0].conv), AttributeCode(i.operands[1].conv);
    var m0, m1 := ModeCode(i.operands[0].mode), ModeCode(i.operands[1].mode);
    [OpcodeRest(i) | (c0 << 1) | (c1 >> 3), (c1 << 5) | (m0 << 2) | (m1 >> 1), m1 << 7]
  }

  function ArithmeticHeader(i: Instruction): (r: seq<bv8>)
    requires Valid(i)
    ensures |r| == 2
  {
    var a, m0, m1, m2 :=
      AttributeCode(i.attribute), ModeCode(i.operands[0].mode), ModeCode(i.operands[1].mode), ModeCode(i.operands[2].mode);
    [OpcodeRest(i) | (a << 1) | (m0 >> 2), (m0 << 6) | (m1 << 3) | m2]
  }

  function BranchHeader(i: Instruction): (r: seq<bv8>)
    requires Valid(i)
    ensures |r| == if i.jump == J then 1 else if i.jump == JI || i.jump == Z || i.jump == NZ then 2 else 3
  {
    var p, jump, attribute, relative := OpcodeRest(i), JumpCode(i.jump), AttributeCode(i.attribute), Bit(i.relative);
    var m0, m1 := ModeCode(i.operands[0].mode), ModeCode(i.operands[1].mode);
    if i.jump == J then [p | (jump << 1) | relative]
    else if i.jump == JI then [p | (jump << 1) | (m0 >> 2), m0 << 6]
    else if Compares(i.jump) then
      [p | (jump << 1) | (attribute >> 3), (attribute << 5) | (m0 << 2) | (m1 >> 1), (m1 << 7) | (relative << 6)]
    else [p | (jump << 1) | (attribute >> 3), (attribute << 5) | (m0 << 2) | (relative << 1)]
  }

  /** The leading bytes of instructions with four or five operands. Where the lowest bit of the second mode
      belongs, SPAWN and SPAWNX put that of the third one. */
  function ManyHeader(i: Instruction): (r: seq<bv8>)
    requires Valid(i)
    ensures |r| == if i.op == SPAWN then 2 else 3
  {
    var m0, m1, m2 := ModeCode(i.operands[0].mode), ModeCode(i.operands[1].mode), ModeCode(i.operands[2].mode);
    var m3, m4 := ModeCode(i.operands[3].mode), ModeCode(i.operands[4].mode);
    if i.op == SPAWN then [OpcodeRest(i) | (m0 << 2) | (m1 >> 1), (m2 << 7) | (m2 << 4) | (m3 << 1)]
    else if i.op == SPAWNX then
      [OpcodeRest(i) | (m0 << 2) | (m1 >> 1), (m2 << 7) | (m2 << 4) | (m3 << 1) | (m4 >> 2), m4 << 6]
    else
      [OpcodeRest(i) | (m0 << 2) | (m1 >> 1), (m1 << 7) | (m2 << 4) | (m3 << 1) | (m4 >> 2), m4 << 6]
  }

  /** The leading bytes: prefix, opcode, attributes, flags and addressing modes. */
  function Header(i: Instruction): (r: seq<bv8>)
    requires Valid(i)
    ensures |r| == HeaderLength(i.op, i.jump)
  {
    [FirstByte(i)] +
    match i.op
    case CONV => ConvHeader(i)
    case B => BranchHeader(i)
    case SPAWN => ManyHeader(i)
    case SPAWNX => ManyHeader(i)
    case EXIT => [OpcodeRest(i) | (ExitCode(i.exit) << 3)]
    case NOP => [OpcodeRest(i)]
    case INT => [OpcodeRest(i)]
    case SCMP => ManyHeader(i)
    case GREP => ManyHeader(i)
    case _ => ArithmeticHeader(i)
  }

  /** The encoding of an instruction; `None` is an abort. */
  function Encoding(i: Instruction): Option<seq<bv8>>
    requires Valid(i)
  {
    if i.op == INT then Some(Header(i) + ValueBytes(i.operands[0].value, 1)) else
    match OperandData(i, 0)
    case None => None
    case Some(data) => Some(Header(i) + data)
  }

  // ----- Length and bytes agree -----

  /** The operand is one whose written width is the assumed one. */
  predicate WidthAgrees(i: Instruction, o: Operand) {
    o.mode == Immediate ==> AttributeWidth(o.conv) == AssumedWidth(i.op, i.attribute, o.conv)
  }

  predicate WidthsAgree(i: Instruction, k: nat)
    requires Valid(i) && k <= NumOperands(i.op, i.jump)
  {
    forall j {:trigger i.operands[j]} :: k <= j < NumOperands(i.op, i.jump) ==> WidthAgrees(i, i.operands[j])
  }

  /** The width that the assembler takes the immediates of an instruction to have, whichever they are, except in conversions. */
  lemma OneAssumedWidth(i: Instruction, o: Operand, o': Operand)
    requires i.op != CONV
    ensures AssumedWidth(i.op, i.attribute, o.conv) == AssumedWidth(i.op, i.attribute, o'.conv)
    ensures AssumedWidth(i.op, i.attribute, o.conv) in {None, Some(4), Some(8)}
  {
  }

  lemma DataLength(i: Instruction, o: Operand)
    requires EncodeOperandData(i, o).Some? && GetOperandEncodingLength(i, o).Some?
    ensures var (b, n) := (|EncodeOperandData(i, o).value|, GetOperandEncodingLength(i, o).value);
      (b == n <==> WidthAgrees(i, o)) && (n == 8 && i.op != CONV ==> b <= n) && (i.op == CONV ==> b == n) &&
      (b != n ==> o.mode == Immediate && (n == 4 || n == 8) && (b == 1 || b == 4 || b == 8))
  {
  }
}
