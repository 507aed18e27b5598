/** Whole instructions and streams of them: what was encoded can be decoded. */
module InstructionStream {
  import opened Wrappers
  import opened InstructionSet
  import opened InstructionDecoding
  import opened InstructionRoundTrip

  // ----- Operands -----

  function Join64(b: seq<bv8>): bv64
    requires |b| == 8
  {
    (b[0] as bv64) | ((b[1] as bv64) << 8) | ((b[2] as bv64) << 16) | ((b[3] as bv64) << 24) |
    ((b[4] as bv64) << 32) | ((b[5] as bv64) << 40) | ((b[6] as bv64) << 48) | ((b[7] as bv64) << 56)
  }

  function Join32(b: seq<bv8>): bv32
    requires |b| == 4
  {
    (b[0] as bv32) | ((b[1] as bv32) << 8) | ((b[2] as bv32) << 16) | ((b[3] as bv32) << 24)
  }

  /** The value of up to eight bytes, lowest first. */
  function FromBytes(b: seq<bv8>): bv64
    requires |b| <= 8
  {
    Join64(b + seq(8 - |b|, _ => 0))
  }

  lemma Join64RoundTrip(v: bv64)
    ensures Join64(Bytes64(v)) == v
  {
  }

  lemma Join32RoundTrip(v: bv32)
    ensures Join32(Bytes32(v)) == v
  {
  }

  lemma LowByte(v: bv64)
    ensures FromBytes(ValueBytes(v, 1)) == v & 0xFF
  {
    var b := ValueBytes(v, 1) + seq(7, _ => 0);
    assert b[0] == (v & 0xFF) as bv8;
    assert forall k :: 1 <= k < 8 ==> b[k] == 0;
  }

  lemma LowWord(v: bv64)
    ensures FromBytes(ValueBytes(v, 4)) == v & 0xFFFF_FFFF
  {
    var b := ValueBytes(v, 4) + seq(4, _ => 0);
    assert forall k :: 0 <= k < 4 ==> b[k] == Bytes64(v)[k];
    assert forall k :: 4 <= k < 8 ==> b[k] == 0;
  }

  lemma ValueRoundTrip(v: bv64, width: nat)
    requires width == 1 || width == 4 || width == 8
    ensures FromBytes(ValueBytes(v, width)) == Masked(v, width)
  {
    if width == 1 {
      LowByte(v);
    } else if width == 4 {
      LowWord(v);
    } else {
      hide Join64, Bytes64;
      Join64RoundTrip(v);
      assert Bytes64(v)[..8] + seq(0, _ => 0) == Bytes64(v);
    }
  }

  /** The length of an operand's bytes. */
  function FieldLength(mode: Mode, width: nat): nat {
    match mode
    case Immediate => width
    case BaseDisplacement => 12
    case _ => 8
  }

  function DecodeField(mode: Mode, width: nat, b: seq<bv8>): (r: Option<Field>)
    requires width <= 8
  {
    if |b| < FieldLength(mode, width) then None else
    match mode
    case Immediate => Some(Field(mode, FromBytes(b[..width]), 0))
    case BaseDisplacement => Some(Field(mode, Join64(b[4..12]), Join32(b[..4])))
    case _ => Some(Field(mode, Join64(b[..8]), 0))
  }

  /** The operand's mode is known to the decoder, and its bytes are as many as the decoder expects. */
  predicate FieldExpected(i: Instruction, o: Operand, mode: Mode, width: nat) {
    (mode == o.mode || (mode == Immediate && o.mode != BaseDisplacement && width == 8)) &&
    (o.mode == Immediate ==> AttributeWidth(o.conv) == Some(width))
  }

  lemma FieldRoundTrip(i: Instruction, o: Operand, mode: Mode, width: nat, rest: seq<bv8>)
    requires EncodeOperandData(i, o).Some? && FieldExpected(i, o, mode, width) && (width == 1 || width == 4 || width == 8)
    ensures var b := EncodeOperandData(i, o).value;
      |b| == FieldLength(mode, width) && DecodeField(mode, width, b + rest) == Some(FieldOf(o, mode, width))
  {
    hide Bytes64, Bytes32, Join64, Join32, Masked;
    var b := EncodeOperandData(i, o).value;
    Join64RoundTrip(o.value);
    if o.mode == BaseDisplacement {
      Join32RoundTrip(o.displacement);
      assert (b + rest)[..4] == Bytes32(o.displacement);
      assert (b + rest)[4..12] == Bytes64(o.value);
    } else if o.mode == Immediate {
      ValueRoundTrip(o.value, width);
      assert (b + rest)[..width] == ValueBytes(o.value, width);
    } else {
      AddressRoundTrip(o.value);
      assert (b + rest)[..8] == Bytes64(o.value);
    }
  }

  lemma AddressRoundTrip(v: bv64)
    ensures FromBytes(Bytes64(v)) == v == Masked(v, 8)
  {
    hide Join64, Bytes64;
    Join64RoundTrip(v);
    assert Bytes64(v) + seq(0, _ => 0) == Bytes64(v);
  }

  // ----- Instructions -----

  predicate Decodable(h: Head, k: nat) {
    var w := WidthFrom(h, k); w == 1 || w == 4 || w == 8
  }

  lemma WidthsAreDecodable(h: Head, k: nat)
    ensures Decodable(h, k)
  {
  }

  /** The operands from the `k`-th on, and how many bytes they take up. */
  function DecodeFields(h: Head, k: nat, b: seq<bv8>): (r: Option<(seq<Field>, nat)>)
    requires k <= |h.modes|
    ensures r.Some? ==> r.value.1 <= |b|
    decreases |h.modes| - k
  {
    if k == |h.modes| then Some(([], 0)) else
    var width := WidthFrom(h, k);
    WidthsAreDecodable(h, k);
    var n := FieldLength(h.modes[k], width);
    match DecodeField(h.modes[k], width, b)
    case None => None
    case Some(f) =>
      match DecodeFields(h, k + 1, b[n..])
      case None => None
      case Some((fs, m)) => Some(([f] + fs, n + m))
  }

  /** One instruction at the beginning of the code, and its length. */
  function DecodeInstruction(b: seq<bv8>): (r: Option<(Decoded, nat)>)
    ensures r.Some? ==> 0 < r.value.1 <= |b|
  {
    match DecodeHead(b)
    case None => None
    case Some(h) =>
      var n := HeaderLength(h.op, h.jump);
      match DecodeFields(h, 0, b[n..])
      case None => None
      case Some((fs, m)) => Some((Decoded(h, fs), n + m))
  }

  /** Jump targets are not given by base and displacement. */
  predicate PlainTargets(i: Instruction)
    requires Valid(i)
  {
    forall k {:trigger i.operands[k]} :: 0 <= k < NumOperands(i.op, i.jump) && i.op != INT && !ModeIsEncoded(i.op, i.jump, k) ==>
      i.operands[k].mode != BaseDisplacement
  }

  /** What a readable encoding needs: written widths are the assumed ones, and jump targets are plain. */
  predicate WellEncoded(i: Instruction) {
    Valid(i) && Encoding(i).Some? && (i.op == INT || WidthsAgree(i, 0)) && PlainTargets(i)
  }

  lemma OperandIsExpected(i: Instruction, k: nat)
    requires WellEncoded(i) && i.op != INT && k < NumOperands(i.op, i.jump) && EncodeOperandData(i, i.operands[k]).Some?
    ensures FieldExpected(i, i.operands[k], HeadOf(i).modes[k], WidthFrom(HeadOf(i), k))
  {
    var o := i.operands[k];
    assert WidthAgrees(i, o);
    WidthOfHead(i, k);
    if !ModeIsEncoded(i.op, i.jump, k) { assert o.mode != BaseDisplacement; }
  }

  lemma WidthOfHead(i: Instruction, k: nat)
    requires Valid(i) && i.op != INT && k < NumOperands(i.op, i.jump)
    ensures WidthOf(HeadOf(i), k) == AssumedWidth(i.op, i.attribute, i.operands[k].conv)
    ensures i.op == B ==> WidthFrom(HeadOf(i), k) == 8
  {
  }

  function FieldsFrom(i: Instruction, k: nat): seq<Field>
    requires Valid(i) && k <= |DecodedOf(i).fields|
  {
    DecodedOf(i).fields[k..]
  }

  lemma {:induction false} DecodeFieldsStep(h: Head, k: nat, a: seq<bv8>, c: seq<bv8>, rest: seq<bv8>, f: Field, fs: seq<Field>)
    requires k < |h.modes| && Decodable(h, k) && |a| == FieldLength(h.modes[k], WidthFrom(h, k))
    requires DecodeField(h.modes[k], WidthFrom(h, k), a + (c + rest)) == Some(f)
    requires DecodeFields(h, k + 1, c + rest) == Some((fs, |c|))
    ensures DecodeFields(h, k, a + c + rest) == Some(([f] + fs, |a + c|))
  {
    hide DecodeField, WidthFrom, FieldLength;
    var b := a + c + rest;
    assert b == a + (c + rest) && b[|a|..] == c + rest;
  }

  lemma {:induction false} FieldsFromStep(i: Instruction, k: nat)
    requires Valid(i) && k < NumOperands(i.op, i.jump)
    ensures |HeadOf(i).modes| == |DecodedOf(i).fields| == NumOperands(i.op, i.jump)
    ensures var h := HeadOf(i);
      FieldsFrom(i, k) == [FieldOf(i.operands[k], h.modes[k], WidthFrom(h, k))] + FieldsFrom(i, k + 1)
  {
    hide FieldOf, WidthFrom, HeadMode;
  }

  lemma {:induction false} OperandDataStep(i: Instruction, k: nat)
    requires Valid(i) && k < NumOperands(i.op, i.jump) && OperandData(i, k).Some?
    ensures EncodeOperandData(i, i.operands[k]).Some? && OperandData(i, k + 1).Some?
    ensures OperandData(i, k).value == EncodeOperandData(i, i.operands[k]).value + OperandData(i, k + 1).value
  {
    hide EncodeOperandData;
  }

  lemma {:induction false} NoFieldsLeft(i: Instruction, b: seq<bv8>)
    requires Valid(i)
    ensures |HeadOf(i).modes| == |DecodedOf(i).fields| == NumOperands(i.op, i.jump)
    ensures var n := NumOperands(i.op, i.jump);
      OperandData(i, n) == Some([]) && FieldsFrom(i, n) == [] && DecodeFields(HeadOf(i), n, b) == Some(([], 0))
  {
    hide FieldOf, WidthFrom, HeadMode;
  }

  lemma {:induction false} OneOperand(i: Instruction, k: nat, rest: seq<bv8>)
    requires WellEncoded(i) && i.op != INT && k < NumOperands(i.op, i.jump) && EncodeOperandData(i, i.operands[k]).Some?
    requires k < |HeadOf(i).modes|
    ensures var h, o := HeadOf(i), i.operands[k]; var a, w := EncodeOperandData(i, o).value, WidthFrom(h, k);
      Decodable(h, k) && |a| == FieldLength(h.modes[k], w) && DecodeField(h.modes[k], w, a + rest) == Some(FieldOf(o, h.modes[k], w))
  {
    assert Valid(i);
    hide WellEncoded, EncodeOperandData, DecodeField, FieldOf, WidthFrom, HeadOf, NumOperands;
    OperandIsExpected(i, k);
    WidthsAreDecodable(HeadOf(i), k);
    FieldRoundTrip(i, i.operands[k], HeadOf(i).modes[k], WidthFrom(HeadOf(i), k), rest);
  }

  lemma {:induction false} FieldsRoundTrip(i: Instruction, k: nat, rest: seq<bv8>)
    requires WellEncoded(i) && i.op != INT && k <= NumOperands(i.op, i.jump) && OperandData(i, k).Some?
    ensures |HeadOf(i).modes| == |DecodedOf(i).fields| == NumOperands(i.op, i.jump)
    ensures var data := OperandData(i, k).value;
      DecodeFields(HeadOf(i), k, data + rest) == Some((FieldsFrom(i, k), |data|))
    decreases NumOperands(i.op, i.jump) - k
  {
    assert Valid(i);
    hide WellEncoded, EncodeOperandData, DecodeField, FieldOf, WidthFrom, HeadOf, NumOperands, DecodedOf, FieldsFrom, OperandData,
      DecodeFields, Decodable, FieldLength;
    var h := HeadOf(i);
    var data := OperandData(i, k).value;
    NoFieldsLeft(i, data + rest);
    if k < NumOperands(i.op, i.jump) {
      OperandDataStep(i, k);
      FieldsFromStep(i, k);
      FieldsRoundTrip(i, k + 1, rest);
      FieldsRoundTripStep(i, k, rest);
    }
  }

  lemma {:induction false} FieldsRoundTripStep(i: Instruction, k: nat, rest: seq<bv8>)
    requires WellEncoded(i) && i.op != INT && k < NumOperands(i.op, i.jump) == |HeadOf(i).modes| == |DecodedOf(i).fields|
    requires EncodeOperandData(i, i.operands[k]).Some? && OperandData(i, k + 1).Some?
    requires var h := HeadOf(i);
      FieldsFrom(i, k) == [FieldOf(i.operands[k], h.modes[k], WidthFrom(h, k))] + FieldsFrom(i, k + 1)
    requires var c := OperandData(i, k + 1).value;
      DecodeFields(HeadOf(i), k + 1, c + rest) == Some((FieldsFrom(i, k + 1), |c|))
    ensures var data := EncodeOperandData(i, i.operands[k]).value + OperandData(i, k + 1).value;
      DecodeFields(HeadOf(i), k, data + rest) == Some((FieldsFrom(i, k), |data|))
  {
    assert Valid(i);
    hide *;
    var h, o := HeadOf(i), i.operands[k];
    var a, c := EncodeOperandData(i, o).value, OperandData(i, k + 1).value;
    OneOperand(i, k, c + rest);
    DecodeFieldsStep(h, k, a, c, rest, FieldOf(o, h.modes[k], WidthFrom(h, k)), FieldsFrom(i, k + 1));
  }

  lemma WholeEncoding(i: Instruction)
    requires WellEncoded(i) && i.op != INT
    ensures OperandData(i, 0).Some? && Encoding(i).value == Header(i) + OperandData(i, 0).value && FieldsFrom(i, 0) == DecodedOf(i).fields
  {
    hide Header, OperandData, DecodedOf;
  }

  lemma {:induction false} DecodeInstructionIs(h: Head, header: seq<bv8>, data: seq<bv8>, rest: seq<bv8>, fs: seq<Field>)
    requires |header| == HeaderLength(h.op, h.jump) && DecodeHead(header + data + rest) == Some(h)
    requires DecodeFields(h, 0, data + rest) == Some((fs, |data|))
    ensures DecodeInstruction(header + data + rest) == Some((Decoded(h, fs), |header| + |data|))
  {
    hide DecodeHead, DecodeFields;
    assert (header + data + rest)[|header|..] == data + rest;
  }

  lemma HeadLength(i: Instruction)
    requires Valid(i)
    ensures |Header(i)| == HeaderLength(HeadOf(i).op, HeadOf(i).jump)
  {
    hide Header;
  }

  lemma {:induction false} InterruptRoundTrip(i: Instruction, rest: seq<bv8>)
    requires Valid(i) && i.op == INT
    ensures var data := ValueBytes(i.operands[0].value, 1);
      DecodeFields(HeadOf(i), 0, data + rest) == Some((DecodedOf(i).fields, 1))
  {
    var h, data := HeadOf(i), ValueBytes(i.operands[0].value, 1);
    InterruptHead(i);
    ValueRoundTrip(i.operands[0].value, 1);
    assert (data + ([] + rest))[..1] == data;
    assert DecodeField(Immediate, 1, data + ([] + rest)) == Some(FieldOf(i.operands[0], Immediate, 1));
    assert DecodeFields(h, 1, [] + rest) == Some(([], 0));
    var f := FieldOf(i.operands[0], Immediate, 1);
    assert [f] + [] == [f] && data + [] == data && |data| == 1;
    hide *;
    DecodeFieldsStep(h, 0, data, [], rest, f, []);
    assert data + [] + rest == data + rest;
  }

  lemma {:induction false} InterruptHead(i: Instruction)
    requires Valid(i) && i.op == INT
    ensures HeadOf(i).modes == [Immediate] && WidthFrom(HeadOf(i), 0) == 1
    ensures DecodedOf(i).fields == [FieldOf(i.operands[0], Immediate, 1)]
  {
  }

  lemma {:induction false} InterruptEncoding(i: Instruction)
    requires Valid(i)
    ensures i.op == INT ==> Encoding(i) == Some(Header(i) + ValueBytes(i.operands[0].value, 1)) && |ValueBytes(i.operands[0].value, 1)| == 1
    ensures DecodedOf(i).head == HeadOf(i)
  {
    hide Header, ValueBytes, HeadOf;
  }

  /** Decoding the bytes of an instruction, whatever follows them, gives back everything that was encoded, and their
      number. SPAWN and SPAWNX need operands 1 and 2 to have addressing modes with the same lowest bit. */
  lemma {:induction false} EncodingRoundTrip(i: Instruction, rest: seq<bv8>)
    requires WellEncoded(i) && SpawnModesAgree(i)
    ensures DecodeInstruction(Encoding(i).value + rest) == Some((DecodedOf(i), |Encoding(i).value|))
  {
    if i.op == INT { InterruptIsRead(i, rest); } else { OperandsAreRead(i, rest); }
  }

  lemma {:induction false} InterruptIsRead(i: Instruction, rest: seq<bv8>)
    requires WellEncoded(i) && SpawnModesAgree(i) && i.op == INT
    ensures DecodeInstruction(Encoding(i).value + rest) == Some((DecodedOf(i), |Encoding(i).value|))
  {
    assert Valid(i);
    InterruptEncoding(i);
    hide *;
    HeadLength(i);
    var data := ValueBytes(i.operands[0].value, 1);
    HeadRoundTrip(i, Header(i) + data + rest);
    InterruptRoundTrip(i, rest);
    DecodeInstructionIs(HeadOf(i), Header(i), data, rest, DecodedOf(i).fields);
  }

  lemma {:induction false} OperandsAreRead(i: Instruction, rest: seq<bv8>)
    requires WellEncoded(i) && SpawnModesAgree(i) && i.op != INT
    ensures DecodeInstruction(Encoding(i).value + rest) == Some((DecodedOf(i), |Encoding(i).value|))
  {
    assert Valid(i);
    hide *;
    WholeEncoding(i);
    PartsAreRead(i, OperandData(i, 0).value, rest);
  }

  lemma {:induction false} PartsAreRead(i: Instruction, data: seq<bv8>, rest: seq<bv8>)
    requires WellEncoded(i) && SpawnModesAgree(i) && i.op != INT && Valid(i)
    requires OperandData(i, 0) == Some(data) && FieldsFrom(i, 0) == DecodedOf(i).fields
    ensures DecodeInstruction(Header(i) + data + rest) == Some((DecodedOf(i), |Header(i) + data|))
  {
    hide *;
    var h, header := HeadOf(i), Header(i);
    InterruptEncoding(i);
    HeadLength(i);
    Begins(header, data, rest);
    HeadRoundTrip(i, header + data + rest);
    FieldsRoundTrip(i, 0, rest);
    DecodeInstructionIs(h, header, data, rest, DecodedOf(i).fields);
  }

  lemma {:induction false} Begins(a: seq<bv8>, b: seq<bv8>, c: seq<bv8>)
    ensures a <= a + b + c && |a + b| == |a| + |b|
  {
  }

  // ----- Where two modes share a bit -----

  lemma {:induction false} SecondMode(prefix: Prefix, op: Opcode, modes: seq<bv8>, h: Head)
    requires DecodePlain(prefix, op, Commit, modes) == Some(h) && |modes| >= 2
    ensures |h.modes| == |modes| && modes[1] == ModeCode(h.modes[1])
  {
    assert ModeFrom(modes[1]) == Some(h.modes[1]);
  }

  lemma {:induction false} SharedBit(i: Instruction, b: seq<bv8>) returns (x: bv8)
    requires Valid(i) && (i.op == SPAWN || i.op == SPAWNX) && Header(i) <= b
    ensures FiveModes(ByteAt(b, 1), ByteAt(b, 2), ByteAt(b, 3))[1] == ModeCode(i.operands[1].mode) <==> SpawnModesAgree(i)
    ensures x < 0x20 && ByteAt(b, 1) == OpcodeRest(i) | x
  {
    ManyLayout(i, b);
    OpcodeIsDecoded(i, 0);
    ModesAreSmall(i);
    var m := ManyModes(i);
    FourthIsLast(m[2], m[2], m[3], m[4], i.operands[4].mode);
    ManyBits(OpcodeRest(i), m[0], m[1], m[2], m[3], m[4], m[2]);
    hide ModeCode, FirstByte, OpcodeRest, HeadIsDecoded, NumOperands, HeaderLength, Header, TwoAcross, ThreeBits, ThreeAcross;
    x := (m[0] << 2) | (m[1] >> 1);
  }

  lemma {:induction false} ModesAreSmall(i: Instruction)
    requires Valid(i)
    ensures forall k :: 0 <= k < MAX_NUM_OPERANDS ==> ManyModes(i)[k] < 4
  {
    forall k | 0 <= k < MAX_NUM_OPERANDS
      ensures ManyModes(i)[k] < 4
    {
      ModeRoundTrip(i.operands[k].mode);
    }
  }

  /** If operands 1 and 2 of a SPAWN have modes with different lowest bits, the mode of operand 1 is lost. */
  lemma {:induction false} SpawnModeIsLost(i: Instruction, b: seq<bv8>)
    requires Valid(i) && (i.op == SPAWN || i.op == SPAWNX) && Header(i) <= b && !SpawnModesAgree(i)
    ensures DecodeHead(b) != Some(HeadOf(i))
  {
    var x := SharedBit(i, b);
    BytesOfHeader(i, b);
    var b1, b2, b3 := ByteAt(b, 1), ByteAt(b, 2), ByteAt(b, 3);
    var n := NumOperands(i.op, J);
    hide Header, FirstByte, OpcodeRest, DecodeBytes, DecodeAs, DecodePlain, FiveModes, ModeCode, SpawnModesAgree;
    Dispatches(i, x, b2, b3);
    ManyDispatch(i.prefix, i.op, b1, b2, b3, n);
    if DecodePlain(i.prefix, i.op, Commit, FiveModes(b1, b2, b3)[..n]) == Some(HeadOf(i)) {
      SecondMode(i.prefix, i.op, FiveModes(b1, b2, b3)[..n], HeadOf(i));
    }
  }

  lemma {:induction false} DecodedHead(b: seq<bv8>)
    ensures DecodeInstruction(b).Some? ==> DecodeHead(b) == Some(DecodeInstruction(b).value.0.head)
  {
  }

  /** SPAWN and SPAWNX can be read back exactly if the lowest bits of these two modes are equal. */
  lemma {:induction false} SpawnRoundTripIff(i: Instruction, rest: seq<bv8>)
    requires WellEncoded(i) && (i.op == SPAWN || i.op == SPAWNX)
    ensures DecodeInstruction(Encoding(i).value + rest) == Some((DecodedOf(i), |Encoding(i).value|)) <==> SpawnModesAgree(i)
  {
    var b := Encoding(i).value + rest;
    if SpawnModesAgree(i) {
      EncodingRoundTrip(i, rest);
    } else {
      WholeEncoding(i);
      assert Header(i) <= b;
      SpawnModeIsLost(i, b);
      DecodedHead(b);
    }
  }

  // ----- Streams -----

  function EncodeAll(code: seq<Instruction>): seq<bv8>
    requires forall j :: 0 <= j < |code| ==> Valid(code[j]) && Encoding(code[j]).Some?
  {
    if code == [] then [] else Encoding(code[0]).value + EncodeAll(code[1..])
  }

  function DecodeAll(b: seq<bv8>): Option<seq<Decoded>>
    decreases |b|
  {
    if b == [] then Some([]) else
    match DecodeInstruction(b)
    case None => None
    case Some((d, n)) =>
      match DecodeAll(b[n..])
      case None => None
      case Some(ds) => Some([d] + ds)
  }

  predicate AllReadable(code: seq<Instruction>) {
    forall j {:trigger code[j]} :: 0 <= j < |code| ==> WellEncoded(code[j]) && SpawnModesAgree(code[j])
  }

  lemma {:induction false} EncodingIsNotEmpty(i: Instruction)
    requires WellEncoded(i)
    ensures |Encoding(i).value| > 0
  {
  }

  function AllDecoded(code: seq<Instruction>): seq<Decoded>
    requires forall j :: 0 <= j < |code| ==> Valid(code[j])
  {
    seq(|code|, j requires 0 <= j < |code| => DecodedOf(code[j]))
  }

  lemma {:induction false} AllDecodedStep(code: seq<Instruction>)
    requires code != [] && forall j :: 0 <= j < |code| ==> Valid(code[j])
    ensures AllDecoded(code) == [DecodedOf(code[0])] + AllDecoded(code[1..])
  {
    hide DecodedOf;
  }

  lemma {:induction false} DecodeAllStep(a: seq<bv8>, rest: seq<bv8>, d: Decoded, ds: seq<Decoded>)
    requires a != [] && DecodeInstruction(a + rest) == Some((d, |a|)) && DecodeAll(rest) == Some(ds)
    ensures DecodeAll(a + rest) == Some([d] + ds)
  {
    hide DecodeInstruction;
    assert (a + rest)[|a|..] == rest;
  }

  /** The code stream is uniquely decodable. */
  lemma {:induction false} StreamRoundTrip(code: seq<Instruction>)
    requires AllReadable(code)
    ensures DecodeAll(EncodeAll(code)) == Some(AllDecoded(code))
  {
    if code == [] {
      assert AllDecoded(code) == [];
    } else {
      var i := code[0];
      assert AllReadable(code[1..]);
      StreamRoundTrip(code[1..]);
      EncodingRoundTrip(i, EncodeAll(code[1..]));
      EncodingIsNotEmpty(i);
      AllDecodedStep(code);
      hide DecodedOf, DecodeInstruction, Encoding, SpawnModesAgree, WellEncoded, DecodeAll, AllDecoded;
      DecodeAllStep(Encoding(i).value, EncodeAll(code[1..]), DecodedOf(i), AllDecoded(code[1..]));
    }
  }
}
