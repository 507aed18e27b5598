/** Every encoded instruction, and every stream of them, is decoded to what was encoded. */
module InstructionRoundTrip {
  import opened Wrappers
  import opened InstructionSet
  import opened InstructionDecoding

  // ----- Branches -----

  lemma JumpFields(i: Instruction, modes: seq<bv8>)
    requires Valid(i) && i.op == B && |modes| == NumOperands(B, i.jump)
    requires forall k :: 0 <= k < |modes| ==> modes[k] == ModeCode(HeadMode(i, k))
    ensures DecodeJump(i.prefix, i.jump, Some(if HasAttribute(B, i.jump) then i.attribute else Signed64),
                       i.jump != JI && i.relative, modes) == Some(HeadOf(i))
  {
    hide Modes, ModeCode, HeadMode;
    ModesAre(modes, HeadOf(i).modes);
  }

  lemma BranchDispatch(i: Instruction, x: bv8, b2: bv8, b3: bv8)
    requires i.op == B && x < 0x20
    ensures var b1 := OpcodeRest(i) | x; DecodeBytes(FirstByte(i), b1, b2, b3) == DecodeBranch(i.prefix, b1, b2, b3)
  {
    hide OpcodeRest, FirstByte, DecodeBytes, DecodeBranch;
    Dispatches(i, x, b2, b3);
  }

  lemma PlainJumpHead(i: Instruction, j: bv8, r: bv8, b2: bv8, b3: bv8)
    requires Valid(i) && i.op == B && i.jump == J && j == JumpCode(J) && r == Bit(i.relative)
    ensures HeadIsDecoded(i, OpcodeRest(i) | (j << 1) | r, b2, b3)
  {
    hide OpcodeRest, FirstByte, DecodeBytes, DecodeJump, HeadOf, FourBits, Flag;
    JumpRoundTrip(J);
    OpcodeIsDecoded(i, 0);
    JumpBits(OpcodeRest(i), j, r);
    BranchDispatch(i, (j << 1) | r, b2, b3);
    JumpFields(i, [0]);
  }

  lemma IndirectJumpHead(i: Instruction, j: bv8, m0: bv8, b3: bv8)
    requires Valid(i) && i.op == B && i.jump == JI && j == JumpCode(JI) && m0 == ModeCode(i.operands[0].mode)
    ensures HeadIsDecoded(i, OpcodeRest(i) | (j << 1) | (m0 >> 2), m0 << 6, b3)
  {
    hide OpcodeRest, FirstByte, DecodeBytes, DecodeJump, HeadOf, FourBits, ThreeAcross, ModeCode;
    JumpRoundTrip(JI);
    ModeRoundTrip(i.operands[0].mode);
    OpcodeIsDecoded(i, 0);
    IndirectBits(OpcodeRest(i), j, m0);
    BranchDispatch(i, (j << 1) | (m0 >> 2), m0 << 6, b3);
    JumpFields(i, [m0]);
  }

  lemma CompareDecodes(i: Instruction, b1: bv8, b2: bv8, b3: bv8)
    requires Valid(i) && i.op == B && Compares(i.jump) && FourBits(b1) == JumpCode(i.jump)
    requires FourAcross(b1, b2) == AttributeCode(i.attribute) && Flag(b3, 6) == i.relative
    requires ThreeBits(b2, 2) == ModeCode(i.operands[0].mode) && TwoAcross(b2, b3) == ModeCode(i.operands[1].mode)
    ensures DecodeBranch(i.prefix, b1, b2, b3) == Some(HeadOf(i))
  {
    hide DecodeJump, HeadOf, FourBits, FourAcross, ThreeBits, TwoAcross, Flag, ModeCode, AttributeCode, JumpCode, JumpFrom, AttributeFrom;
    JumpRoundTrip(i.jump);
    AttributeRoundTrip(i.attribute);
    ZeroIsImmediate();
    JumpFields(i, [ModeCode(i.operands[0].mode), ModeCode(i.operands[1].mode), 0]);
  }

  lemma ZeroIsImmediate()
    ensures ModeCode(Immediate) == 0
  {
  }

  lemma IsDecoded(i: Instruction, b1: bv8, b2: bv8, b3: bv8)
    requires Valid(i) && DecodeBytes(FirstByte(i), b1, b2, b3) == Some(HeadOf(i))
    ensures HeadIsDecoded(i, b1, b2, b3)
  {
  }

  lemma CompareHead(i: Instruction, j: bv8, a: bv8, m0: bv8, m1: bv8, r: bv8)
    requires Valid(i) && i.op == B && Compares(i.jump) && j == JumpCode(i.jump) && a == AttributeCode(i.attribute)
    requires m0 == ModeCode(i.operands[0].mode) && m1 == ModeCode(i.operands[1].mode) && r == Bit(i.relative)
    ensures HeadIsDecoded(i, OpcodeRest(i) | (j << 1) | (a >> 3), (a << 5) | (m0 << 2) | (m1 >> 1), (m1 << 7) | (r << 6))
  {
    hide OpcodeRest, FirstByte, DecodeBytes, DecodeBranch, HeadOf, FourBits, FourAcross, ThreeBits, TwoAcross, Flag,
      ModeCode, AttributeCode, JumpCode, Compares, HeadIsDecoded;
    JumpRoundTrip(i.jump);
    AttributeRoundTrip(i.attribute);
    ModeRoundTrip(i.operands[0].mode);
    ModeRoundTrip(i.operands[1].mode);
    OpcodeIsDecoded(i, 0);
    PairBits(OpcodeRest(i), j, a, m0, m1, r);
    var b2, b3 := (a << 5) | (m0 << 2) | (m1 >> 1), (m1 << 7) | (r << 6);
    BranchDispatch(i, (j << 1) | (a >> 3), b2, b3);
    CompareDecodes(i, OpcodeRest(i) | ((j << 1) | (a >> 3)), b2, b3);
    IsDecoded(i, OpcodeRest(i) | ((j << 1) | (a >> 3)), b2, b3);
  }

  predicate Tests(j: JumpMode) {
    j == Z || j == NZ
  }

  lemma TestDecodes(i: Instruction, b1: bv8, b2: bv8, b3: bv8)
    requires Valid(i) && i.op == B && Tests(i.jump) && FourBits(b1) == JumpCode(i.jump)
    requires FourAcross(b1, b2) == AttributeCode(i.attribute) && Flag(b2, 1) == i.relative
    requires ThreeBits(b2, 2) == ModeCode(i.operands[0].mode)
    ensures DecodeBranch(i.prefix, b1, b2, b3) == Some(HeadOf(i))
  {
    hide DecodeJump, HeadOf, FourBits, FourAcross, ThreeBits, TwoAcross, Flag, ModeCode, AttributeCode, JumpCode, JumpFrom, AttributeFrom;
    JumpRoundTrip(i.jump);
    AttributeRoundTrip(i.attribute);
    ZeroIsImmediate();
    JumpFields(i, [ModeCode(i.operands[0].mode), 0]);
  }

  lemma TestHead(i: Instruction, j: bv8, a: bv8, m0: bv8, r: bv8, b3: bv8)
    requires Valid(i) && i.op == B && Tests(i.jump) && j == JumpCode(i.jump) && a == AttributeCode(i.attribute)
    requires m0 == ModeCode(i.operands[0].mode) && r == Bit(i.relative)
    ensures HeadIsDecoded(i, OpcodeRest(i) | (j << 1) | (a >> 3), (a << 5) | (m0 << 2) | (r << 1), b3)
  {
    hide OpcodeRest, FirstByte, DecodeBytes, DecodeBranch, HeadOf, FourBits, FourAcross, ThreeBits, Flag, ModeCode, AttributeCode, JumpCode,
      Tests, HeadIsDecoded;
    JumpRoundTrip(i.jump);
    AttributeRoundTrip(i.attribute);
    ModeRoundTrip(i.operands[0].mode);
    OpcodeIsDecoded(i, 0);
    TestBits(OpcodeRest(i), j, a, m0, r);
    BranchDispatch(i, (j << 1) | (a >> 3), (a << 5) | (m0 << 2) | (r << 1), b3);
    TestDecodes(i, OpcodeRest(i) | ((j << 1) | (a >> 3)), (a << 5) | (m0 << 2) | (r << 1), b3);
    IsDecoded(i, OpcodeRest(i) | ((j << 1) | (a >> 3)), (a << 5) | (m0 << 2) | (r << 1), b3);
  }

  // ----- The short instructions -----

  lemma ExitHead(i: Instruction, e: bv8, b2: bv8, b3: bv8)
    requires Valid(i) && i.op == EXIT && e == ExitCode(i.exit)
    ensures HeadIsDecoded(i, OpcodeRest(i) | (e << 3), b2, b3)
  {
    hide OpcodeRest, FirstByte, DecodeBytes, DecodePlain, HeadOf, ThreeBits;
    ExitRoundTrip(i.exit);
    OpcodeIsDecoded(i, 0);
    ExitBits(OpcodeRest(i), e);
    Dispatches(i, e << 3, b2, b3);
    PlainFields(i, []);
  }

  lemma BareHead(i: Instruction, b2: bv8, b3: bv8)
    requires Valid(i) && (i.op == NOP || i.op == INT)
    ensures HeadIsDecoded(i, OpcodeRest(i), b2, b3)
  {
    hide FirstByte, DecodeBytes, DecodePlain, HeadOf;
    Dispatches(i, 0, b2, b3);
    assert OpcodeRest(i) | 0 == OpcodeRest(i);
    PlainFields(i, if i.op == NOP then [] else [0]);
  }

  // ----- All heads -----

  lemma BytesOfHeader(i: Instruction, b: seq<bv8>)
    requires Valid(i) && Header(i) <= b
    ensures forall k :: 0 <= k < HeaderLength(i.op, i.jump) ==> ByteAt(b, k) == Header(i)[k]
    ensures HeaderLength(i.op, i.jump) >= 2 && Header(i)[0] == FirstByte(i)
  {
    hide OpcodeCode, AttributeCode, ModeCode, JumpCode, ExitCode, FirstByte, OpcodeRest;
  }

  predicate HeadFrom(i: Instruction, b: seq<bv8>)
    requires Valid(i)
  {
    HeadIsDecoded(i, ByteAt(b, 1), ByteAt(b, 2), ByteAt(b, 3))
  }

  lemma ConvFrom(i: Instruction, b: seq<bv8>)
    requires Valid(i) && i.op == CONV && Header(i) <= b
    ensures HeadFrom(i, b)
  {
    hide AttributeCode, ModeCode, FirstByte, OpcodeRest, HeadIsDecoded, NumOperands;
    BytesOfHeader(i, b);
    var c0, c1 := AttributeCode(i.operands[0].conv), AttributeCode(i.operands[1].conv);
    ConvHead(i, c0, c1, ModeCode(i.operands[0].mode), ModeCode(i.operands[1].mode));
  }

  lemma ArithmeticLayout(i: Instruction)
    requires Valid(i) && IsArithmetic(i.op)
    ensures Header(i) == [FirstByte(i)] + ArithmeticHeader(i) && HeaderLength(i.op, i.jump) == 3
  {
  }

  lemma ArithmeticFrom(i: Instruction, b: seq<bv8>)
    requires Valid(i) && IsArithmetic(i.op) && Header(i) <= b
    ensures HeadFrom(i, b)
  {
    ArithmeticLayout(i);
    BytesOfHeader(i, b);
    hide AttributeCode, ModeCode, FirstByte, OpcodeRest, HeadIsDecoded, NumOperands, HeaderLength, IsArithmetic, Header;
    ArithmeticHead(i, AttributeCode(i.attribute), ModeCode(i.operands[0].mode), ModeCode(i.operands[1].mode),
                   ModeCode(i.operands[2].mode), ByteAt(b, 3));
  }

  lemma BranchLayout(i: Instruction, b: seq<bv8>)
    requires Valid(i) && i.op == B && Header(i) <= b
    ensures forall k :: 0 <= k < |BranchHeader(i)| ==> ByteAt(b, k + 1) == BranchHeader(i)[k]
  {
    hide BranchHeader;
    BytesOfHeader(i, b);
    assert Header(i) == [FirstByte(i)] + BranchHeader(i);
  }

  lemma UnconditionalFrom(i: Instruction, b: seq<bv8>)
    requires Valid(i) && i.op == B && (i.jump == J || i.jump == JI) && Header(i) <= b
    ensures HeadFrom(i, b)
  {
    BranchLayout(i, b);
    hide AttributeCode, ModeCode, Bit, FirstByte, OpcodeRest, HeadIsDecoded, NumOperands, Header, HeaderLength;
    var m0 := ModeCode(i.operands[0].mode);
    if i.jump == J {
      PlainJumpHead(i, JumpCode(J), Bit(i.relative), ByteAt(b, 2), ByteAt(b, 3));
    } else {
      IndirectJumpHead(i, JumpCode(JI), m0, ByteAt(b, 3));
    }
  }

  lemma CompareBytes(i: Instruction)
    requires Valid(i) && i.op == B && Compares(i.jump)
    ensures var j, a, r := JumpCode(i.jump), AttributeCode(i.attribute), Bit(i.relative);
      var m0, m1 := ModeCode(i.operands[0].mode), ModeCode(i.operands[1].mode);
      BranchHeader(i) ==
        [OpcodeRest(i) | (j << 1) | (a >> 3), (a << 5) | (m0 << 2) | (m1 >> 1), (m1 << 7) | (r << 6)]
  {
    hide AttributeCode, ModeCode, JumpCode, Bit, OpcodeRest;
  }

  lemma CompareFrom(i: Instruction, b: seq<bv8>)
    requires Valid(i) && i.op == B && Compares(i.jump) && Header(i) <= b
    ensures HeadFrom(i, b)
  {
    BranchLayout(i, b);
    CompareBytes(i);
    hide AttributeCode, ModeCode, JumpCode, Bit, FirstByte, OpcodeRest, HeadIsDecoded, NumOperands, Header, HeaderLength, Compares, BranchHeader, ByteAt;
    assert ByteAt(b, 0 + 1) == BranchHeader(i)[0] && ByteAt(b, 1 + 1) == BranchHeader(i)[1] && ByteAt(b, 2 + 1) == BranchHeader(i)[2];
    CompareHead(i, JumpCode(i.jump), AttributeCode(i.attribute), ModeCode(i.operands[0].mode), ModeCode(i.operands[1].mode),
                Bit(i.relative));
  }

  lemma TestFrom(i: Instruction, b: seq<bv8>)
    requires Valid(i) && i.op == B && Tests(i.jump) && Header(i) <= b
    ensures HeadFrom(i, b)
  {
    BranchLayout(i, b);
    hide AttributeCode, ModeCode, JumpCode, Bit, FirstByte, OpcodeRest, HeadIsDecoded, NumOperands, Header, HeaderLength;
    TestHead(i, JumpCode(i.jump), AttributeCode(i.attribute), ModeCode(i.operands[0].mode), Bit(i.relative), ByteAt(b, 3));
  }

  lemma BranchFrom(i: Instruction, b: seq<bv8>)
    requires Valid(i) && i.op == B && Header(i) <= b
    ensures HeadFrom(i, b)
  {
    hide HeadFrom, Header;
    if i.jump == J || i.jump == JI {
      UnconditionalFrom(i, b);
    } else if Compares(i.jump) {
      CompareFrom(i, b);
    } else {
      TestFrom(i, b);
    }
  }

  lemma ManyLayout(i: Instruction, b: seq<bv8>)
    requires Valid(i) && HasManyModes(i.op) && Header(i) <= b
    ensures forall k :: 0 <= k < |ManyHeader(i)| ==> ByteAt(b, k + 1) == ManyHeader(i)[k]
  {
    hide ManyHeader;
    BytesOfHeader(i, b);
    assert Header(i) == [FirstByte(i)] + ManyHeader(i);
  }

  lemma SpawnFrom(i: Instruction, b: seq<bv8>)
    requires Valid(i) && (i.op == SPAWN || i.op == SPAWNX) && Header(i) <= b && SpawnModesAgree(i)
    ensures HeadFrom(i, b)
  {
    ManyLayout(i, b);
    hide ModeCode, FirstByte, OpcodeRest, HeadIsDecoded, NumOperands, HeaderLength, Header;
    var m := ManyModes(i);
    ModeRoundTrip(i.operands[2].mode);
    if i.op == SPAWN { FourthIsLast(m[2], m[2], m[3], m[4], i.operands[4].mode); }
    ManyHead(i, m, m[2], ByteAt(b, 2), ByteAt(b, 3));
  }

  lemma ManyFrom(i: Instruction, b: seq<bv8>)
    requires Valid(i) && (i.op == SCMP || i.op == GREP) && Header(i) <= b
    ensures HeadFrom(i, b)
  {
    ManyLayout(i, b);
    hide ModeCode, FirstByte, OpcodeRest, HeadIsDecoded, NumOperands, HeaderLength, Header;
    var m := ManyModes(i);
    ModeRoundTrip(i.operands[1].mode);
    ManyHead(i, m, m[1], ByteAt(b, 2), ByteAt(b, 3));
  }

  lemma FourthIsLast(s: bv8, m2: bv8, m3: bv8, m4: bv8, mode: Mode)
    requires m4 == ModeCode(mode)
    ensures (s << 7) | (m2 << 4) | (m3 << 1) == (s << 7) | (m2 << 4) | (m3 << 1) | (m4 >> 2)
  {
  }

  lemma ShortFrom(i: Instruction, b: seq<bv8>)
    requires Valid(i) && (i.op == EXIT || i.op == NOP || i.op == INT) && Header(i) <= b
    ensures HeadFrom(i, b)
  {
    hide ExitCode, FirstByte, OpcodeRest, HeadIsDecoded, NumOperands;
    BytesOfHeader(i, b);
    if i.op == EXIT { ExitHead(i, ExitCode(i.exit), ByteAt(b, 2), ByteAt(b, 3)); } else { BareHead(i, ByteAt(b, 2), ByteAt(b, 3)); }
  }

  /** The leading bytes tell everything that they were made from. */
  lemma HeadRoundTrip(i: Instruction, b: seq<bv8>)
    requires Valid(i) && Header(i) <= b && SpawnModesAgree(i)
    ensures DecodeHead(b) == Some(HeadOf(i))
  {
    BytesOfHeader(i, b);
    hide Header, FirstByte, OpcodeRest, DecodeBytes, HeadIsDecoded, HeadFrom;
    if i.op == CONV {
      ConvFrom(i, b);
    } else if i.op == B {
      BranchFrom(i, b);
    } else if i.op == SPAWN || i.op == SPAWNX {
      SpawnFrom(i, b);
    } else if i.op == SCMP || i.op == GREP {
      ManyFrom(i, b);
    } else if i.op == EXIT || i.op == NOP || i.op == INT {
      ShortFrom(i, b);
    } else {
      ArithmeticFrom(i, b);
    }
    HeadIsRead(i, b);
  }

  lemma HeadIsRead(i: Instruction, b: seq<bv8>)
    requires Valid(i) && HeadFrom(i, b) && ByteAt(b, 0) == FirstByte(i) && |b| >= HeaderLength(i.op, i.jump)
    ensures DecodeHead(b) == Some(HeadOf(i))
  {
    hide DecodeBytes, FirstByte;
    assert i.op != B ==> HeaderLength(i.op, J) == HeaderLength(i.op, i.jump);
  }
}
