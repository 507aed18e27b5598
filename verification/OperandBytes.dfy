/** Operands, spelled out: when the encoder and the length function abort, how many bytes there are, and which. */
module OperandBytes {
  import opened Wrappers
  import opened InstructionSet
  import opened InstructionDecoding
  import opened InstructionStream

  // ----- Bytes -----

  /** The bytes are the lowest ones of `v`, lowest first. */
  predicate LowBytes(v: bv64, b: seq<bv8>) {
    |b| <= 8 &&
    (|b| > 0 ==> b[0] == (v & 0xFF) as bv8) && (|b| > 1 ==> b[1] == ((v >> 0x08) & 0xFF) as bv8) &&
    (|b| > 2 ==> b[2] == ((v >> 0x10) & 0xFF) as bv8) && (|b| > 3 ==> b[3] == ((v >> 0x18) & 0xFF) as bv8) &&
    (|b| > 4 ==> b[4] == ((v >> 0x20) & 0xFF) as bv8) && (|b| > 5 ==> b[5] == ((v >> 0x28) & 0xFF) as bv8) &&
    (|b| > 6 ==> b[6] == ((v >> 0x30) & 0xFF) as bv8) && (|b| > 7 ==> b[7] == ((v >> 0x38) & 0xFF) as bv8)
  }

  predicate LowBytes32(v: bv32, b: seq<bv8>) {
    |b| == 4 && b[0] == (v & 0xFF) as bv8 && b[1] == ((v >> 0x08) & 0xFF) as bv8 &&
    b[2] == ((v >> 0x10) & 0xFF) as bv8 && b[3] == ((v >> 0x18) & 0xFF) as bv8
  }

  lemma {:induction false} BytesAreLow(v: bv64, width: nat)
    requires width <= 8
    ensures LowBytes(v, ValueBytes(v, width)) && (width == 8 ==> ValueBytes(v, width) == Bytes64(v))
  {
  }

  lemma {:induction false} BytesAreLow32(v: bv32)
    ensures LowBytes32(v, Bytes32(v))
  {
  }

  /** How many bytes an immediate takes by its conversion attribute; 128 bits have no encoding. */
  predicate Takes(conv: Attribute, n: nat) {
    (conv in {Signed64, Unsigned64, Double} ==> n == 8) && (conv in {Signed32, Unsigned32, Single} ==> n == 4) &&
    (conv in {Signed8, Unsigned8} ==> n == 1) && conv !in {Signed128, Unsigned128}
  }

  lemma {:induction false} WidthIs(a: Attribute)
    ensures match AttributeWidth(a)
      case None => a in {Signed128, Unsigned128}
      case Some(n) => Takes(a, n)
  {
  }

  /** An operand's bytes: an immediate in the width of its conversion attribute, an address in eight bytes, and a base with a
      displacement in four and eight. */
  predicate HoldsOperand(o: Operand, b: seq<bv8>) {
    match o.mode
    case Immediate => Takes(o.conv, |b|) && LowBytes(o.value, b)
    case BaseDisplacement => |b| == 12 && LowBytes32(o.displacement, b[..4]) && LowBytes(o.value, b[4..])
    case _ => |b| == 8 && LowBytes(o.value, b)
  }

  /** Where the encoder gives up on an operand. */
  predicate EncoderAborts(i: Instruction, o: Operand) {
    i.prefix == SBM || (o.mode == Immediate && (i.op in {EXIT, NOP, INT} || o.conv in {Signed128, Unsigned128}))
  }

  lemma {:induction false} OperandIs(i: Instruction, o: Operand)
    ensures match EncodeOperandData(i, o)
      case None => EncoderAborts(i, o)
      case Some(b) => !EncoderAborts(i, o) && HoldsOperand(o, b)
  {
    WidthIs(o.conv);
    BytesAreLow(o.value, 8);
    BytesAreLow32(o.displacement);
    if AttributeWidth(o.conv).Some? { BytesAreLow(o.value, AttributeWidth(o.conv).value); }
    var b := Bytes32(o.displacement) + Bytes64(o.value);
    assert b[..4] == Bytes32(o.displacement) && b[4..] == Bytes64(o.value);
    hide LowBytes, LowBytes32, Bytes32, Bytes64, ValueBytes, Takes;
  }

  // ----- Lengths -----

  /** Where the length function gives up: it goes by the instruction's attribute, except in conversions. */
  predicate LengthAborts(i: Instruction, o: Operand) {
    o.mode == Immediate &&
    (i.op in {EXIT, NOP, INT} || (i.op == CONV && o.conv in {Signed128, Unsigned128}) ||
     (i.op in {ADD, SUB, MUL, DIV, AND, OR, XOR} && i.attribute !in {Signed64, Unsigned64, Double, Single}))
  }

  /** The length an operand is taken to have. */
  predicate Measures(i: Instruction, o: Operand, n: nat) {
    match o.mode
    case Immediate =>
      if i.op == CONV then Takes(o.conv, n)
      else n == if i.op in {ADD, SUB, MUL, DIV, AND, OR, XOR} && i.attribute == Single then 4 else 8
    case BaseDisplacement => n == 12
    case _ => n == 8
  }

  lemma {:induction false} LengthIs(i: Instruction, o: Operand)
    ensures match GetOperandEncodingLength(i, o)
      case None => LengthAborts(i, o)
      case Some(n) => !LengthAborts(i, o) && Measures(i, o, n)
  {
    WidthIs(o.conv);
    hide Takes, AttributeWidth;
  }

  // ----- Whole instructions -----

  /** The instruction has an operand `k` behind its leading bytes. */
  predicate HasOperand(op: Opcode, jump: JumpMode, k: nat) {
    match op
    case CONV => k < 2
    case B => k < 1 || (k < 2 && jump !in {J, JI}) || (k < 3 && jump in {L, LE, E, NE, SL})
    case SPAWN => k < 4
    case SPAWNX => k < 5
    case SCMP => k < 5
    case GREP => k < 5
    case EXIT => false
    case NOP => false
    case INT => k < 1
    case _ => k < 3
  }

  lemma {:induction false} CountIs(op: Opcode, jump: JumpMode, k: nat)
    ensures HasOperand(op, jump, k) <==> k < NumOperands(op, jump)
  {
  }

  lemma {:induction false} DataAborts(i: Instruction, k: nat)
    requires Valid(i) && k <= NumOperands(i.op, i.jump)
    ensures OperandData(i, k).None? <==> exists j {:trigger i.operands[j]} :: k <= j < NumOperands(i.op, i.jump) && EncoderAborts(i, i.operands[j])
    decreases NumOperands(i.op, i.jump) - k
  {
    hide EncoderAborts, NumOperands;
    if k < NumOperands(i.op, i.jump) {
      OperandIs(i, i.operands[k]);
      DataAborts(i, k + 1);
    }
  }

  lemma {:induction false} LengthsAbort(i: Instruction, k: nat)
    requires Valid(i) && k <= NumOperands(i.op, i.jump)
    ensures OperandLengths(i, k).None? <==> exists j {:trigger i.operands[j]} :: k <= j < NumOperands(i.op, i.jump) && LengthAborts(i, i.operands[j])
    decreases NumOperands(i.op, i.jump) - k
  {
    hide LengthAborts, NumOperands;
    if k < NumOperands(i.op, i.jump) {
      LengthIs(i, i.operands[k]);
      LengthsAbort(i, k + 1);
    }
  }

  /** Encode aborts exactly if the instruction has an operand that cannot be written; INT, EXIT and NOP never do. */
  lemma {:induction false} EncodeAbortsIff(i: Instruction)
    requires Valid(i)
    ensures Encoding(i).None? <==>
      i.op != INT && exists k {:trigger i.operands[k]} :: 0 <= k < 5 && HasOperand(i.op, i.jump, k) && EncoderAborts(i, i.operands[k])
  {
    DataAborts(i, 0);
    hide EncoderAborts, OperandData, Header, HasOperand, NumOperands;
    forall k: nat
      ensures HasOperand(i.op, i.jump, k) <==> k < NumOperands(i.op, i.jump)
    {
      CountIs(i.op, i.jump, k);
    }
  }

  /** GetLength aborts exactly if the instruction has an operand that cannot be measured. */
  lemma {:induction false} LengthAbortsIff(i: Instruction)
    requires Valid(i)
    ensures GetLength(i).None? <==>
      i.op != INT && exists k {:trigger i.operands[k]} :: 0 <= k < 5 && HasOperand(i.op, i.jump, k) && LengthAborts(i, i.operands[k])
  {
    LengthsAbort(i, 0);
    hide LengthAborts, OperandLengths, HeaderLength, HasOperand, NumOperands;
    forall k: nat
      ensures HasOperand(i.op, i.jump, k) <==> k < NumOperands(i.op, i.jump)
    {
      CountIs(i.op, i.jump, k);
    }
  }

  // ----- Reading back -----

  /** What comes back of an operand's value: all of an address and of an immediate of 64 bits, and the low half or the low
      byte of a shorter one. */
  predicate ReadBack(i: Instruction, o: Operand, f: Field) {
    (i.op == INT ==> f.value == o.value & 0xFF) &&
    (i.op != INT && (o.mode != Immediate || o.conv in {Signed64, Unsigned64, Double}) ==> f.value == o.value) &&
    (i.op != INT && o.mode == Immediate && o.conv in {Signed32, Unsigned32, Single} ==> f.value == o.value & 0xFFFF_FFFF) &&
    (i.op != INT && o.mode == Immediate && o.conv in {Signed8, Unsigned8} ==> f.value == o.value & 0xFF) &&
    (i.op != INT && o.mode == BaseDisplacement ==> f.displacement == o.displacement)
  }

  /** A jump's target is taken for an immediate, of eight bytes. */
  lemma {:induction false} FieldReads(i: Instruction, o: Operand, mode: Mode, width: nat)
    requires i.op != INT && (o.mode == Immediate ==> Takes(o.conv, width))
    requires mode == o.mode || (mode == Immediate && o.mode != BaseDisplacement && width == 8)
    ensures ReadBack(i, o, FieldOf(o, mode, width))
  {
  }

  lemma {:induction false} ImmediateWidth(i: Instruction, k: nat)
    requires WellEncoded(i) && i.op != INT && k < NumOperands(i.op, i.jump) && i.operands[k].mode == Immediate
    ensures Takes(i.operands[k].conv, WidthFrom(HeadOf(i), k))
  {
    var o := i.operands[k];
    assert WidthAgrees(i, o);
    EncodesAll(i, k);
    OperandIs(i, o);
    WidthOfHead(i, k);
    WidthIs(o.conv);
    hide WellEncoded, HoldsOperand, AttributeWidth, AssumedWidth, HeadOf, NumOperands, WidthOf;
  }

  lemma {:induction false} EncodesAll(i: Instruction, k: nat)
    requires WellEncoded(i) && i.op != INT && k < NumOperands(i.op, i.jump)
    ensures EncodeOperandData(i, i.operands[k]).Some?
  {
    DataAborts(i, 0);
    OperandIs(i, i.operands[k]);
    hide EncoderAborts, EncodeOperandData, HoldsOperand, NumOperands, Header, WidthsAgree, PlainTargets, OperandData;
  }

  lemma {:induction false} FieldIs(i: Instruction, k: nat)
    requires WellEncoded(i) && k < NumOperands(i.op, i.jump)
    ensures k < |DecodedOf(i).fields| && ReadBack(i, i.operands[k], DecodedOf(i).fields[k])
  {
    var o := i.operands[k];
    if i.op == INT {
      InterruptHead(i);
    } else {
      WidthOfHead(i, k);
      if o.mode == Immediate { ImmediateWidth(i, k); }
      assert !ModeIsEncoded(i.op, i.jump, k) ==> o.mode != BaseDisplacement;
      hide WellEncoded, AssumedWidth, WidthOf, WidthFrom, FieldOf, ReadBack, Takes;
      FieldReads(i, o, HeadMode(i, k), WidthFrom(HeadOf(i), k));
    }
  }

  /** The values of an instruction's operands can be read off its bytes, whatever follows them. */
  lemma {:induction false} ValuesAreReadBack(i: Instruction, rest: seq<bv8>, k: nat)
    requires WellEncoded(i) && SpawnModesAgree(i) && HasOperand(i.op, i.jump, k)
    ensures var r := DecodeInstruction(Encoding(i).value + rest);
      r.Some? && k < |r.value.0.fields| && k < 5 && ReadBack(i, i.operands[k], r.value.0.fields[k])
  {
    assert Valid(i);
    EncodingRoundTrip(i, rest);
    CountIs(i.op, i.jump, k);
    FieldIs(i, k);
    hide WellEncoded, Encoding, DecodeInstruction, DecodedOf, ReadBack, HasOperand;
  }
}
