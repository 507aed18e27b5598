/** A decoder for i0 code, and the proof that a stream of encoded instructions can be read back. */
module InstructionDecoding {
  import opened Wrappers
  import opened InstructionSet

  /** What the leading bytes say. Parts an instruction does not have are set to a fixed value. */
  datatype Head = Head(
    prefix: Prefix, op: Opcode, attribute: Attribute, jump: JumpMode, relative: bool, exit: ExitMode,
    convs: seq<Attribute>, modes: seq<Mode>)

  datatype Field = Field(mode: Mode, value: bv64, displacement: bv32)

  /** Everything that an encoding holds. */
  datatype Decoded = Decoded(head: Head, fields: seq<Field>)

  // ----- What is encoded of an instruction -----

  predicate HasAttribute(op: Opcode, jump: JumpMode) {
    IsArithmetic(op) || (op == B && jump != J && jump != JI)
  }

  /** The mode of a jump's target is not encoded unless the jump is indirect, nor is that of an interrupt number. */
  predicate ModeIsEncoded(op: Opcode, jump: JumpMode, k: nat) {
    op != INT && (op == B && jump != JI ==> k + 1 < NumOperands(op, jump))
  }

  function HeadMode(i: Instruction, k: nat): Mode
    requires Valid(i) && k < NumOperands(i.op, i.jump)
  {
    if ModeIsEncoded(i.op, i.jump, k) then i.operands[k].mode else Immediate
  }

  const NO_CONVS: seq<Attribute> := [Signed64, Signed64]

  function HeadOf(i: Instruction): Head
    requires Valid(i)
  {
    Head(i.prefix, i.op,
         if HasAttribute(i.op, i.jump) then i.attribute else Signed64,
         if i.op == B then i.jump else J,
         i.op == B && i.jump != JI && i.relative,
         if i.op == EXIT then i.exit else Commit,
         if i.op == CONV then [i.operands[0].conv, i.operands[1].conv] else NO_CONVS,
         seq(NumOperands(i.op, i.jump), k requires 0 <= k < NumOperands(i.op, i.jump) => HeadMode(i, k)))
  }

  /** The bits of an immediate that are written. */
  function Masked(v: bv64, width: nat): bv64 {
    if width == 1 then v & 0xFF else if width == 4 then v & 0xFFFF_FFFF else v
  }

  function WidthOf(h: Head, k: nat): Option<nat> {
    if h.op == INT then Some(1)
    else AssumedWidth(h.op, h.attribute, if h.op == CONV && k < |h.convs| then h.convs[k] else Signed64)
  }

  function FieldOf(o: Operand, mode: Mode, width: nat): Field {
    match mode
    case Immediate => Field(mode, Masked(o.value, width), 0)
    case BaseDisplacement => Field(mode, o.value, o.displacement)
    case _ => Field(mode, o.value, 0)
  }

  function WidthFrom(h: Head, k: nat): nat {
    if WidthOf(h, k).Some? then WidthOf(h, k).value else 8
  }

  function DecodedOf(i: Instruction): Decoded
    requires Valid(i)
  {
    var h := HeadOf(i);
    Decoded(h, seq(|h.modes|, k requires 0 <= k < |h.modes| => FieldOf(i.operands[k], h.modes[k], WidthFrom(h, k))))
  }

  // ----- Decoding -----

  function OpcodeFrom(c: bv8): Option<Opcode> {
    if c == 0x0 then Some(NOP) else if c == 0x21 then Some(CONV) else if c == 0x03 then Some(ADD)
    else if c == 0x06 then Some(SUB) else if c == 0x09 then Some(MUL) else if c == 0x0C then Some(DIV)
    else if c == 0x18 then Some(AND) else if c == 0x1B then Some(OR) else if c == 0x1E then Some(XOR)
    else if c == 0x15 then Some(B) else if c == 0x25 then Some(SPAWN) else if c == 0x29 then Some(SPAWNX)
    else if c == 0x86 then Some(EXIT) else if c == 0x24 then Some(INT) else if c == 0x2A then Some(SCMP)
    else if c == 0x30 then Some(GREP) else None
  }

  function AttributeFrom(c: bv8): Option<Attribute> {
    if c == 0 then Some(Signed8) else if c == 4 then Some(Unsigned8) else if c == 3 then Some(Signed32)
    else if c == 7 then Some(Unsigned32) else if c == 1 then Some(Signed64) else if c == 5 then Some(Unsigned64)
    else if c == 2 then Some(Signed128) else if c == 6 then Some(Unsigned128) else if c == 9 then Some(Double)
    else if c == 8 then Some(Single) else None
  }

  function ModeFrom(c: bv8): Option<Mode> {
    if c == 0 then Some(Immediate) else if c == 1 then Some(Direct) else if c == 2 then Some(Indirect)
    else if c == 3 then Some(BaseDisplacement) else None
  }

  function JumpFrom(c: bv8): Option<JumpMode> {
    if c == 0 then Some(J) else if c == 2 then Some(L) else if c == 3 then Some(LE) else if c == 4 then Some(E)
    else if c == 5 then Some(NE) else if c == 6 then Some(Z) else if c == 7 then Some(NZ) else if c == 8 then Some(SL)
    else if c == 0xC then Some(JI) else None
  }

  function ExitFrom(c: bv8): ExitMode {
    if c == 0 then Commit else if c == 1 then Abort else if c == 2 then CommitDelete else AbortDelete
  }

  lemma OpcodeRoundTrip(op: Opcode)
    ensures OpcodeFrom(OpcodeCode(op)) == Some(op)
  {
  }

  lemma AttributeRoundTrip(a: Attribute)
    ensures AttributeFrom(AttributeCode(a)) == Some(a) && AttributeCode(a) < 16
  {
  }

  lemma ModeRoundTrip(m: Mode)
    ensures ModeFrom(ModeCode(m)) == Some(m) && ModeCode(m) < 4
  {
  }

  lemma JumpRoundTrip(j: JumpMode)
    ensures JumpFrom(JumpCode(j)) == Some(j) && JumpCode(j) < 16
  {
  }

  lemma ExitRoundTrip(e: ExitMode)
    ensures ExitFrom(ExitCode(e)) == e && ExitCode(e) < 4
  {
  }

  function Modes(codes: seq<bv8>): Option<seq<Mode>> {
    if forall k :: 0 <= k < |codes| ==> ModeFrom(codes[k]).Some?
    then Some(seq(|codes|, k requires 0 <= k < |codes| => ModeFrom(codes[k]).value)) else None
  }

  /** A head put together from its decoded parts. */
  function Assembled(prefix: Prefix, op: Opcode, attribute: Option<Attribute>, jump: JumpMode, relative: bool, exit: ExitMode,
                     convs: seq<Attribute>, modes: Option<seq<Mode>>): Option<Head> {
    if attribute.None? || modes.None? then None
    else Some(Head(prefix, op, attribute.value, jump, relative, exit, convs, modes.value))
  }

  // The decoders of the layouts get the fields' codes.

  function DecodeConv(prefix: Prefix, c0: bv8, c1: bv8, m0: bv8, m1: bv8): Option<Head> {
    if AttributeFrom(c0).None? || AttributeFrom(c1).None? then None else
    Assembled(prefix, CONV, Some(Signed64), J, false, Commit, [AttributeFrom(c0).value, AttributeFrom(c1).value], Modes([m0, m1]))
  }

  function DecodeArithmetic(prefix: Prefix, op: Opcode, attribute: bv8, modes: seq<bv8>): Option<Head> {
    Assembled(prefix, op, AttributeFrom(attribute), J, false, Commit, NO_CONVS, Modes(modes))
  }

  function DecodeJump(prefix: Prefix, jump: JumpMode, attribute: Option<Attribute>, relative: bool, modes: seq<bv8>): Option<Head> {
    Assembled(prefix, B, attribute, jump, relative, Commit, NO_CONVS, Modes(modes))
  }

  function DecodePlain(prefix: Prefix, op: Opcode, exit: ExitMode, modes: seq<bv8>): Option<Head> {
    Assembled(prefix, op, Some(Signed64), J, false, exit, NO_CONVS, Modes(modes))
  }

  // Places in the leading bytes.

  function FourBits(b: bv8): bv8 {
    (b >> 1) & 0xF
  }

  function FourAcross(b: bv8, next: bv8): bv8 {
    ((b & 1) << 3) | (next >> 5)
  }

  function ThreeAcross(b: bv8, next: bv8): bv8 {
    ((b & 1) << 2) | (next >> 6)
  }

  function TwoAcross(b: bv8, next: bv8): bv8 {
    ((b & 3) << 1) | (next >> 7)
  }

  function ThreeBits(b: bv8, at: nat): bv8
    requires at <= 5
  {
    (b >> at) & 7
  }

  function Flag(b: bv8, at: nat): bool
    requires at <= 7
  {
    (b >> at) & 1 == 1
  }

  function DecodeBranch(prefix: Prefix, b1: bv8, b2: bv8, b3: bv8): Option<Head> {
    match JumpFrom(FourBits(b1))
    case None => None
    case Some(jump) =>
      if jump == J then DecodeJump(prefix, jump, Some(Signed64), Flag(b1, 0), [0])
      else if jump == JI then DecodeJump(prefix, jump, Some(Signed64), false, [ThreeAcross(b1, b2)])
      else if Compares(jump) then
        DecodeJump(prefix, jump, AttributeFrom(FourAcross(b1, b2)), Flag(b3, 6), [ThreeBits(b2, 2), TwoAcross(b2, b3), 0])
      else
        DecodeJump(prefix, jump, AttributeFrom(FourAcross(b1, b2)), Flag(b2, 1), [ThreeBits(b2, 2), 0])
  }

  /** The modes of up to five operands in one row. */
  function FiveModes(b1: bv8, b2: bv8, b3: bv8): (r: seq<bv8>)
    ensures |r| == 5
  {
    [ThreeBits(b1, 2), TwoAcross(b1, b2), ThreeBits(b2, 4), ThreeBits(b2, 1), ThreeAcross(b2, b3)]
  }

  function DecodeAs(prefix: Prefix, op: Opcode, b1: bv8, b2: bv8, b3: bv8): Option<Head> {
    match op
    case CONV => DecodeConv(prefix, FourBits(b1), FourAcross(b1, b2), ThreeBits(b2, 2), TwoAcross(b2, b3))
    case B => DecodeBranch(prefix, b1, b2, b3)
    case SPAWN => DecodePlain(prefix, op, Commit, FiveModes(b1, b2, b3)[..4])
    case SPAWNX => DecodePlain(prefix, op, Commit, FiveModes(b1, b2, b3))
    case SCMP => DecodePlain(prefix, op, Commit, FiveModes(b1, b2, b3))
    case GREP => DecodePlain(prefix, op, Commit, FiveModes(b1, b2, b3))
    case EXIT => DecodePlain(prefix, op, ExitFrom(ThreeBits(b1, 3) & 3), [])
    case NOP => DecodePlain(prefix, op, Commit, [])
    case INT => DecodePlain(prefix, op, Commit, [0])
    case _ => DecodeArithmetic(prefix, op, FourBits(b1), [ThreeAcross(b1, b2), ThreeBits(b2, 3), ThreeBits(b2, 0)])
  }

  function DecodeBytes(b0: bv8, b1: bv8, b2: bv8, b3: bv8): Option<Head> {
    var prefix := if b0 >> 7 == 1 then SBM else EBM;
    match OpcodeFrom(((b0 & 0x7F) << 3) | (b1 >> 5))
    case None => None
    case Some(op) => DecodeAs(prefix, op, b1, b2, b3)
  }

  function ByteAt(b: seq<bv8>, k: nat): bv8 {
    if k < |b| then b[k] else 0
  }

  function DecodeHead(b: seq<bv8>): Option<Head> {
    match DecodeBytes(ByteAt(b, 0), ByteAt(b, 1), ByteAt(b, 2), ByteAt(b, 3))
    case None => None
    case Some(h) => if |b| < HeaderLength(h.op, h.jump) then None else Some(h)
  }

  // ----- Heads can be read back -----

  /** The lowest bits of operands 1 and 2 share a place in the encoding of SPAWN and SPAWNX. */
  predicate SpawnModesAgree(i: Instruction)
    requires Valid(i)
  {
    i.op == SPAWN || i.op == SPAWNX ==> ModeCode(i.operands[1].mode) & 1 == ModeCode(i.operands[2].mode) & 1
  }

  lemma OpcodeBits(c: bv8, high: bv8, x: bv8)
    requires (high == 0 || high == 0x80) && x < 0x20
    ensures var b0 := high | ((c >> 3) & 0x7F); var b1 := (((c & 0x7) << 5) & 0xF0) | x;
      ((b0 & 0x7F) << 3) | (b1 >> 5) == c && (b0 >> 7 == 1 <==> high == 0x80)
  {
  }

  lemma PairBits(p: bv8, c0: bv8, c1: bv8, m0: bv8, m1: bv8, r: bv8)
    requires p & 0x1F == 0 && c0 < 16 && c1 < 16 && m0 < 4 && m1 < 4 && r < 2
    ensures var b1, b2, b3 := p | (c0 << 1) | (c1 >> 3), (c1 << 5) | (m0 << 2) | (m1 >> 1), (m1 << 7) | (r << 6);
      FourBits(b1) == c0 && FourAcross(b1, b2) == c1 && ThreeBits(b2, 2) == m0 && TwoAcross(b2, b3) == m1 && Flag(b3, 6) == (r == 1)
    ensures p | (c0 << 1) | (c1 >> 3) == p | ((c0 << 1) | (c1 >> 3)) && (c0 << 1) | (c1 >> 3) < 0x20
    ensures r == 0 ==> (m1 << 7) | (r << 6) == m1 << 7
  {
  }

  lemma TestBits(p: bv8, j: bv8, a: bv8, m0: bv8, r: bv8)
    requires p & 0x1F == 0 && j < 16 && a < 16 && m0 < 4 && r < 2
    ensures var b1, b2 := p | (j << 1) | (a >> 3), (a << 5) | (m0 << 2) | (r << 1);
      FourBits(b1) == j && FourAcross(b1, b2) == a && ThreeBits(b2, 2) == m0 && Flag(b2, 1) == (r == 1)
    ensures p | (j << 1) | (a >> 3) == p | ((j << 1) | (a >> 3)) && (j << 1) | (a >> 3) < 0x20
  {
  }

  lemma JumpBits(p: bv8, j: bv8, r: bv8)
    requires p & 0x1F == 0 && j < 16 && r < 2
    ensures var b1 := p | (j << 1) | r;
      FourBits(b1) == j && Flag(b1, 0) == (r == 1) && b1 == p | ((j << 1) | r) && (j << 1) | r < 0x20
  {
  }

  lemma IndirectBits(p: bv8, j: bv8, m0: bv8)
    requires p & 0x1F == 0 && j < 16 && m0 < 4
    ensures var b1, b2 := p | (j << 1) | (m0 >> 2), m0 << 6;
      FourBits(b1) == j && ThreeAcross(b1, b2) == m0 && b1 == p | ((j << 1) | (m0 >> 2)) && (j << 1) | (m0 >> 2) < 0x20
  {
  }

  lemma ArithmeticBits(p: bv8, a: bv8, m0: bv8, m1: bv8, m2: bv8)
    requires p & 0x1F == 0 && a < 16 && m0 < 4 && m1 < 4 && m2 < 4
    ensures var b1, b2 := p | (a << 1) | (m0 >> 2), (m0 << 6) | (m1 << 3) | m2;
      FourBits(b1) == a && ThreeAcross(b1, b2) == m0 && ThreeBits(b2, 3) == m1 && ThreeBits(b2, 0) == m2 &&
      b1 == p | ((a << 1) | (m0 >> 2)) && (a << 1) | (m0 >> 2) < 0x20
  {
  }

  lemma ExitBits(p: bv8, e: bv8)
    requires p & 0x1F == 0 && e < 4
    ensures ThreeBits(p | (e << 3), 3) & 3 == e && e << 3 < 0x20
  {
  }

  /** The bit `s` stands where the lowest bit of the second mode belongs; in SPAWN and SPAWNX it is that of the third mode. */
  lemma ManyBits(p: bv8, m0: bv8, m1: bv8, m2: bv8, m3: bv8, m4: bv8, s: bv8)
    requires p & 0x1F == 0 && m0 < 4 && m1 < 4 && m2 < 4 && m3 < 4 && m4 < 4 && s < 4
    ensures var b1, b2, b3 := p | (m0 << 2) | (m1 >> 1), (s << 7) | (m2 << 4) | (m3 << 1) | (m4 >> 2), m4 << 6;
      ThreeBits(b1, 2) == m0 && (TwoAcross(b1, b2) == m1 <==> s & 1 == m1 & 1) && ThreeBits(b2, 4) == m2 &&
      ThreeBits(b2, 1) == m3 && ThreeAcross(b2, b3) == m4
    ensures p | (m0 << 2) | (m1 >> 1) == p | ((m0 << 2) | (m1 >> 1)) && (m0 << 2) | (m1 >> 1) < 0x20
    ensures (s << 7) | (m2 << 4) | (m3 << 1) | (m4 >> 2) == (s << 7) | (m2 << 4) | (m3 << 1)
  {
  }

  /** The opcode and the prefix are read back whatever shares the second byte with them. */
  lemma OpcodeIsDecoded(i: Instruction, x: bv8)
    requires x < 0x20
    ensures var b0, b1 := FirstByte(i), OpcodeRest(i) | x;
      OpcodeFrom(((b0 & 0x7F) << 3) | (b1 >> 5)) == Some(i.op) && (if b0 >> 7 == 1 then SBM else EBM) == i.prefix
    ensures OpcodeRest(i) & 0x1F == 0
  {
    OpcodeBits(OpcodeCode(i.op), if i.prefix == SBM then 0x80 else 0, x);
    OpcodeRoundTrip(i.op);
    LowBitsFree(OpcodeCode(i.op));
  }

  lemma LowBitsFree(c: bv8)
    ensures (((c & 0x7) << 5) & 0xF0) & 0x1F == 0
  {
  }

  lemma ModesAre(codes: seq<bv8>, modes: seq<Mode>)
    requires |codes| == |modes| && forall k :: 0 <= k < |codes| ==> codes[k] == ModeCode(modes[k])
    ensures Modes(codes) == Some(modes)
  {
    hide ModeFrom, ModeCode;
    forall k | 0 <= k < |codes|
      ensures ModeFrom(codes[k]) == Some(modes[k])
    {
      ModeRoundTrip(modes[k]);
    }
    assert Modes(codes).Some?;
    assert Modes(codes).value == modes;
  }

  /** Once prefix and opcode are known, the rest is a matter of the opcode's own layout. */
  lemma Dispatches(i: Instruction, x: bv8, b2: bv8, b3: bv8)
    requires x < 0x20
    ensures var b1 := OpcodeRest(i) | x;
      DecodeBytes(FirstByte(i), b1, b2, b3) == DecodeAs(i.prefix, i.op, b1, b2, b3)
  {
    OpcodeIsDecoded(i, x);
  }

  predicate HeadIsDecoded(i: Instruction, b1: bv8, b2: bv8, b3: bv8)
    requires Valid(i)
  {
    DecodeBytes(FirstByte(i), b1, b2, b3) == Some(HeadOf(i))
  }

  lemma ConvFields(i: Instruction)
    requires Valid(i) && i.op == CONV
    ensures DecodeConv(i.prefix, AttributeCode(i.operands[0].conv), AttributeCode(i.operands[1].conv),
                       ModeCode(i.operands[0].mode), ModeCode(i.operands[1].mode)) == Some(HeadOf(i))
  {
    hide AttributeFrom, AttributeCode, Modes, ModeCode;
    AttributeRoundTrip(i.operands[0].conv);
    AttributeRoundTrip(i.operands[1].conv);
    ModesAre([ModeCode(i.operands[0].mode), ModeCode(i.operands[1].mode)], HeadOf(i).modes);
  }

  lemma ConvHead(i: Instruction, c0: bv8, c1: bv8, m0: bv8, m1: bv8)
    requires Valid(i) && i.op == CONV
    requires c0 == AttributeCode(i.operands[0].conv) && c1 == AttributeCode(i.operands[1].conv)
    requires m0 == ModeCode(i.operands[0].mode) && m1 == ModeCode(i.operands[1].mode)
    ensures HeadIsDecoded(i, OpcodeRest(i) | (c0 << 1) | (c1 >> 3), (c1 << 5) | (m0 << 2) | (m1 >> 1), m1 << 7)
  {
    hide AttributeCode, ModeCode, OpcodeRest, FirstByte, DecodeBytes, DecodeConv, DecodeArithmetic, DecodePlain, HeadOf,
      FourBits, FourAcross, ThreeAcross, TwoAcross, ThreeBits, Flag;
    AttributeRoundTrip(i.operands[0].conv);
    AttributeRoundTrip(i.operands[1].conv);
    ModeRoundTrip(i.operands[0].mode);
    ModeRoundTrip(i.operands[1].mode);
    OpcodeIsDecoded(i, 0);
    PairBits(OpcodeRest(i), c0, c1, m0, m1, 0);
    Dispatches(i, (c0 << 1) | (c1 >> 3), (c1 << 5) | (m0 << 2) | (m1 >> 1), m1 << 7);
    ConvFields(i);
  }

  lemma ArithmeticFields(i: Instruction)
    requires Valid(i) && IsArithmetic(i.op)
    ensures DecodeArithmetic(i.prefix, i.op, AttributeCode(i.attribute),
        [ModeCode(i.operands[0].mode), ModeCode(i.operands[1].mode), ModeCode(i.operands[2].mode)]) == Some(HeadOf(i))
  {
    hide AttributeFrom, AttributeCode, Modes, ModeCode;
    AttributeRoundTrip(i.attribute);
    ModesAre([ModeCode(i.operands[0].mode), ModeCode(i.operands[1].mode), ModeCode(i.operands[2].mode)], HeadOf(i).modes);
  }

  lemma ArithmeticDispatch(prefix: Prefix, op: Opcode, b1: bv8, b2: bv8, b3: bv8)
    requires IsArithmetic(op)
    ensures DecodeAs(prefix, op, b1, b2, b3) ==
      DecodeArithmetic(prefix, op, FourBits(b1), [ThreeAcross(b1, b2), ThreeBits(b2, 3), ThreeBits(b2, 0)])
  {
    hide DecodeArithmetic, FourBits, ThreeAcross, ThreeBits;
  }

  lemma ArithmeticHead(i: Instruction, a: bv8, m0: bv8, m1: bv8, m2: bv8, b3: bv8)
    requires Valid(i) && IsArithmetic(i.op) && a == AttributeCode(i.attribute)
    requires m0 == ModeCode(i.operands[0].mode) && m1 == ModeCode(i.operands[1].mode) && m2 == ModeCode(i.operands[2].mode)
    ensures HeadIsDecoded(i, OpcodeRest(i) | (a << 1) | (m0 >> 2), (m0 << 6) | (m1 << 3) | m2, b3)
  {
    hide AttributeCode, ModeCode, OpcodeRest, FirstByte, DecodeBytes, DecodeAs, DecodeArithmetic, HeadOf,
      FourBits, ThreeAcross, ThreeBits, IsArithmetic;
    AttributeRoundTrip(i.attribute);
    ModeRoundTrip(i.operands[0].mode);
    ModeRoundTrip(i.operands[1].mode);
    ModeRoundTrip(i.operands[2].mode);
    OpcodeIsDecoded(i, 0);
    ArithmeticBits(OpcodeRest(i), a, m0, m1, m2);
    var b1, b2 := OpcodeRest(i) | ((a << 1) | (m0 >> 2)), (m0 << 6) | (m1 << 3) | m2;
    Dispatches(i, (a << 1) | (m0 >> 2), b2, b3);
    ArithmeticDispatch(i.prefix, i.op, b1, b2, b3);
    ArithmeticFields(i);
  }

  function ManyModes(i: Instruction): (r: seq<bv8>)
    requires Valid(i)
    ensures |r| == MAX_NUM_OPERANDS
  {
    seq(MAX_NUM_OPERANDS, k requires 0 <= k < MAX_NUM_OPERANDS => ModeCode(i.operands[k].mode))
  }

  predicate HasManyModes(op: Opcode) {
    op == SCMP || op == GREP || op == SPAWNX || op == SPAWN
  }

  lemma PlainFields(i: Instruction, modes: seq<bv8>)
    requires Valid(i) && (HasManyModes(i.op) || i.op == EXIT || i.op == NOP || i.op == INT)
    requires |modes| == NumOperands(i.op, i.jump)
    requires forall k :: 0 <= k < |modes| ==> modes[k] == ModeCode(HeadMode(i, k))
    ensures DecodePlain(i.prefix, i.op, if i.op == EXIT then i.exit else Commit, modes) == Some(HeadOf(i))
  {
    hide Modes, ModeCode, HeadMode;
    ModesAre(modes, HeadOf(i).modes);
  }

  lemma ManyDispatch(prefix: Prefix, op: Opcode, b1: bv8, b2: bv8, b3: bv8, n: nat)
    requires HasManyModes(op) && n == NumOperands(op, J)
    ensures DecodeAs(prefix, op, b1, b2, b3) == DecodePlain(prefix, op, Commit, FiveModes(b1, b2, b3)[..n])
  {
    hide DecodePlain, ThreeBits, TwoAcross, ThreeAcross;
    assert FiveModes(b1, b2, b3)[..5] == FiveModes(b1, b2, b3);
  }

  lemma FourAreRead(p: bv8, m0: bv8, m1: bv8, m2: bv8, m3: bv8, m4: bv8, s: bv8, b2: bv8, b3: bv8)
    requires p & 0x1F == 0 && m0 < 4 && m1 < 4 && m2 < 4 && m3 < 4 && m4 < 4 && s < 4 && s & 1 == m1 & 1
    requires b2 == (s << 7) | (m2 << 4) | (m3 << 1) | (m4 >> 2)
    ensures (m0 << 2) | (m1 >> 1) < 0x20 && p | (m0 << 2) | (m1 >> 1) == p | ((m0 << 2) | (m1 >> 1))
    ensures var r := FiveModes(p | (m0 << 2) | (m1 >> 1), b2, b3); r[0] == m0 && r[1] == m1 && r[2] == m2 && r[3] == m3
    ensures var r := FiveModes(p | (m0 << 2) | (m1 >> 1), b2, m4 << 6); r[4] == m4
  {
    ManyBits(p, m0, m1, m2, m3, m4, s);
  }

  /** The codes of the modes, read from the leading bytes. */
  lemma ModesAreRead(p: bv8, m: seq<bv8>, s: bv8, b2: bv8, b3: bv8, n: nat)
    requires |m| == 5 && (n == 4 || n == 5) && p & 0x1F == 0 && s < 4 && s & 1 == m[1] & 1 && forall k :: 0 <= k < 5 ==> m[k] < 4
    requires b2 == (s << 7) | (m[2] << 4) | (m[3] << 1) | (m[4] >> 2) && (n == 5 ==> b3 == m[4] << 6)
    ensures (m[0] << 2) | (m[1] >> 1) < 0x20 && p | (m[0] << 2) | (m[1] >> 1) == p | ((m[0] << 2) | (m[1] >> 1))
    ensures FiveModes(p | (m[0] << 2) | (m[1] >> 1), b2, b3)[..n] == m[..n]
  {
    hide FiveModes;
    FourAreRead(p, m[0], m[1], m[2], m[3], m[4], s, b2, b3);
  }

  lemma ManyModesAre(i: Instruction)
    requires Valid(i) && HasManyModes(i.op)
    ensures forall k :: 0 <= k < NumOperands(i.op, i.jump) ==> ManyModes(i)[k] == ModeCode(HeadMode(i, k))
    ensures i.op != EXIT
  {
    hide ModeCode;
  }

  lemma ManyHead(i: Instruction, m: seq<bv8>, s: bv8, b2: bv8, b3: bv8)
    requires Valid(i) && HasManyModes(i.op) && m == ManyModes(i) && s < 4 && s & 1 == m[1] & 1
    requires b2 == (s << 7) | (m[2] << 4) | (m[3] << 1) | (m[4] >> 2) && (i.op != SPAWN ==> b3 == m[4] << 6)
    ensures HeadIsDecoded(i, OpcodeRest(i) | (m[0] << 2) | (m[1] >> 1), b2, b3)
  {
    forall k | 0 <= k < MAX_NUM_OPERANDS
      ensures m[k] < 4
    {
      ModeRoundTrip(i.operands[k].mode);
    }
    var n := NumOperands(i.op, J);
    assert n == NumOperands(i.op, i.jump) && (i.op != SPAWN <==> n == 5);
    ManyModesAre(i);
    hide ModeCode, OpcodeRest, FirstByte, DecodeBytes, DecodeAs, DecodePlain, HeadOf, FiveModes, HasManyModes, ManyModes, HeadMode, NumOperands;
    OpcodeIsDecoded(i, 0);
    ModesAreRead(OpcodeRest(i), m, s, b2, b3, n);
    Dispatches(i, (m[0] << 2) | (m[1] >> 1), b2, b3);
    ManyDispatch(i.prefix, i.op, OpcodeRest(i) | ((m[0] << 2) | (m[1] >> 1)), b2, b3, n);
    PlainFields(i, m[..n]);
  }
}
