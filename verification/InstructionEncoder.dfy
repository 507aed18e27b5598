/** The encoder as the program runs it: bytes are written through a pointer that moves along a buffer. */
module InstructionEncoder {
  import opened Wrappers
  import opened InstructionSet
  import opened EncodingLength
  import opened InstructionStream
  import opened OperandBytes

  /** The buffer before and after: `bytes` have been written at `at`, and nothing else has changed. */
  predicate Wrote(before: seq<bv8>, after: seq<bv8>, at: nat, bytes: seq<bv8>) {
    at + |bytes| <= |before| && after == before[..at] + bytes + before[at + |bytes|..]
  }

  lemma {:induction false} WroteMore(a: seq<bv8>, b: seq<bv8>, c: seq<bv8>, at: nat, x: seq<bv8>, y: seq<bv8>)
    requires Wrote(a, b, at, x) && Wrote(b, c, at + |x|, y)
    ensures Wrote(a, c, at, x + y)
  {
    assert c[..at] == b[..at] == a[..at];
    assert c == c[..at] + c[at..];
    assert b[at..][..|x|] == x;
    assert c[at..] == x + y + a[at + |x| + |y|..];
  }

  lemma {:induction false} WroteNothing(a: seq<bv8>, at: nat)
    requires at <= |a|
    ensures Wrote(a, a, at, [])
  {
  }

  /** Appends bytes at the pointer and moves it. */
  method Put(buffer: array<bv8>, p: nat, bytes: seq<bv8>) returns (q: nat)
    requires p + |bytes| <= buffer.Length
    modifies buffer
    ensures q == p + |bytes| && Wrote(old(buffer[..]), buffer[..], p, bytes)
  {
    q := p;
    ghost var before := buffer[..];
    for k := 0 to |bytes|
      invariant q == p + k && Wrote(before, buffer[..], p, bytes[..k])
    {
      buffer[q] := bytes[k];
      q := q + 1;
    }
    assert bytes[..|bytes|] == bytes;
  }

  /** The most bytes an operand takes up. */
  const MAX_OPERAND: nat := 12

  lemma {:induction false} OperandIsShort(i: Instruction, o: Operand)
    ensures EncodeOperandData(i, o).Some? ==> |EncodeOperandData(i, o).value| <= MAX_OPERAND
  {
  }

  /** Writes an operand; `ok` is false where the program aborts. */
  method EncodeOperand(i: Instruction, o: Operand, buffer: array<bv8>, p: nat) returns (ok: bool, q: nat)
    requires p + MAX_OPERAND <= buffer.Length
    modifies buffer
    ensures ok <==> EncodeOperandData(i, o).Some?
    ensures ok ==> var b := EncodeOperandData(i, o).value; q == p + |b| && Wrote(old(buffer[..]), buffer[..], p, b)
    ensures ok <==> !EncoderAborts(i, o)
    ensures ok ==> p <= q <= buffer.Length && HoldsOperand(o, buffer[p..q])
  {
    OperandIs(i, o);
    ghost var before := buffer[..];
    hide Bytes64, Bytes32, Wrote, HoldsOperand, EncoderAborts;
    ok, q := false, p;
    if i.prefix == SBM {
      return;
    }
    match o.mode
    case Immediate =>
      if i.op != EXIT && i.op != NOP && i.op != INT && AttributeWidth(o.conv).Some? {
        ok := true;
        q := Put(buffer, p, ValueBytes(o.value, AttributeWidth(o.conv).value));
      }
    case BaseDisplacement =>
      ok := true;
      q := Put(buffer, p, Bytes32(o.displacement));
      ghost var middle := buffer[..];
      q := Put(buffer, q, Bytes64(o.value));
      WroteMore(before, middle, buffer[..], p, Bytes32(o.displacement), Bytes64(o.value));
    case _ =>
      ok := true;
      q := Put(buffer, p, Bytes64(o.value));
    if ok { WroteThere(before, buffer[..], p, EncodeOperandData(i, o).value); }
  }

  lemma {:induction false} WroteThere(before: seq<bv8>, after: seq<bv8>, at: nat, bytes: seq<bv8>)
    requires Wrote(before, after, at, bytes)
    ensures at + |bytes| <= |after| && after[at..at + |bytes|] == bytes
  {
  }

  /** The operands written so far, from the first to the one before `k`. */
  lemma {:induction false} DataUpTo(i: Instruction, k: nat, done: seq<bv8>, all: seq<bv8>)
    requires Valid(i) && k < NumOperands(i.op, i.jump) && OperandData(i, k).Some? && all == done + OperandData(i, k).value
    ensures EncodeOperandData(i, i.operands[k]).Some? && OperandData(i, k + 1).Some?
    ensures all == done + EncodeOperandData(i, i.operands[k]).value + OperandData(i, k + 1).value
  {
    OperandDataStep(i, k);
  }

  lemma {:induction false} DataFails(i: Instruction, k: nat)
    requires Valid(i) && k < NumOperands(i.op, i.jump)
    ensures OperandData(i, k).None? <==> EncodeOperandData(i, i.operands[k]).None? || OperandData(i, k + 1).None?
  {
  }

  const MAX_INSTRUCTION: nat := 64

  /** Writes all operands behind the leading bytes. */
  method EncodeOperands(i: Instruction, buffer: array<bv8>, at: nat) returns (ok: bool, end: nat)
    requires Valid(i) && at + NumOperands(i.op, i.jump) * MAX_OPERAND <= buffer.Length
    modifies buffer
    ensures ok <==> OperandData(i, 0).Some?
    ensures ok ==> var b := OperandData(i, 0).value; end == at + |b| && Wrote(old(buffer[..]), buffer[..], at, b)
  {
    hide NumOperands, EncodeOperandData, OperandData, Wrote;
    ok, end := true, at;
    ghost var before, done := buffer[..], [];
    WroteNothing(before, at);
    var n := NumOperands(i.op, i.jump);
    for k := 0 to n
      invariant end == at + |done| && |done| <= k * MAX_OPERAND && Wrote(before, buffer[..], at, done)
      invariant OperandData(i, 0).Some? <==> OperandData(i, k).Some?
      invariant OperandData(i, 0).Some? ==> OperandData(i, 0).value == done + OperandData(i, k).value
    {
      DataFails(i, k);
      ghost var middle := buffer[..];
      OperandIsShort(i, i.operands[k]);
      ok, end := EncodeOperand(i, i.operands[k], buffer, end);
      if !ok {
        return;
      }
      if OperandData(i, 0).Some? { DataUpTo(i, k, done, OperandData(i, 0).value); }
      WroteMore(before, middle, buffer[..], at, done, EncodeOperandData(i, i.operands[k]).value);
      done := done + EncodeOperandData(i, i.operands[k]).value;
    }
    NoFieldsLeft(i, []);
    assert done + [] == done;
  }

  /** Writes an instruction at `at`; `ok` is false where the program aborts. */
  method Encode(i: Instruction, buffer: array<bv8>, at: nat) returns (ok: bool, end: nat)
    requires Valid(i) && at + MAX_INSTRUCTION <= buffer.Length
    modifies buffer
    ensures ok <==> Encoding(i).Some?
    ensures ok ==> var b := Encoding(i).value; end == at + |b| && Wrote(old(buffer[..]), buffer[..], at, b)
  {
    hide Header, OperandData, Wrote, NumOperands, ValueBytes;
    ghost var before := buffer[..];
    HeaderIsShort(i);
    end := Put(buffer, at, Header(i));
    ghost var middle := buffer[..];
    if i.op == INT {
      ok := true;
      end := Put(buffer, end, ValueBytes(i.operands[0].value, 1));
      WroteMore(before, middle, buffer[..], at, Header(i), ValueBytes(i.operands[0].value, 1));
    } else {
      ok, end := EncodeOperands(i, buffer, end);
      if ok { WroteMore(before, middle, buffer[..], at, Header(i), OperandData(i, 0).value); }
    }
  }

  lemma {:induction false} HeaderIsShort(i: Instruction)
    requires Valid(i)
    ensures |Header(i)| + NumOperands(i.op, i.jump) * MAX_OPERAND <= MAX_INSTRUCTION && |Header(i)| <= 4
  {
  }

  // ----- The linker's last loop -----

  predicate Exact(i: Instruction) {
    Valid(i) && Encoding(i).Some? && GetLength(i).Some? && (i.op == INT || WidthsAgree(i, 0))
  }

  predicate AllExact(code: seq<Instruction>) {
    forall j {:trigger code[j]} :: 0 <= j < |code| ==> Exact(code[j])
  }

  /** Where the assembler takes instruction `j` to begin. */
  function StartOf(code: seq<Instruction>, j: nat): nat
    requires j <= |code| && AllExact(code)
  {
    if j == 0 then 0 else assert Exact(code[j - 1]); StartOf(code, j - 1) + GetLength(code[j - 1]).value
  }

  lemma {:induction false} StartsInOrder(code: seq<Instruction>, j: nat, k: nat)
    requires j <= k <= |code| && AllExact(code)
    ensures StartOf(code, j) <= StartOf(code, k)
    decreases k
  {
    hide GetLength, Encoding, WidthsAgree;
    if j < k { StartsInOrder(code, j, k - 1); }
  }

  lemma {:induction false} EncodeAllLast(code: seq<Instruction>, i: Instruction)
    requires AllExact(code) && Exact(i)
    ensures AllExact(code + [i])
    ensures EncodeAll(code + [i]) == EncodeAll(code) + Encoding(i).value
    decreases |code|
  {
    hide Encoding, Exact;
    ExactEncodes(code, i);
    if code == [] {
      assert code + [i] == [i] && [i][1..] == [];
    } else {
      assert AllExact(code[1..]) && (code + [i])[1..] == code[1..] + [i];
      EncodeAllLast(code[1..], i);
    }
  }

  lemma {:induction false} ExactEncodes(code: seq<Instruction>, i: Instruction)
    requires AllExact(code) && Exact(i)
    ensures forall j :: 0 <= j < |code| ==> Valid(code[j]) && Encoding(code[j]).Some?
    ensures Valid(i) && Encoding(i).Some?
  {
  }

  lemma {:induction false} EncodeAllSplit(code: seq<Instruction>, j: nat)
    requires AllExact(code) && j <= |code|
    ensures AllExact(code[..j]) && AllExact(code[j..]) && AllEncoded(code) && AllEncoded(code[..j]) && AllEncoded(code[j..])
    ensures EncodeAll(code) == EncodeAll(code[..j]) + EncodeAll(code[j..])
    decreases j
  {
    hide Exact, Encoding;
    EncodedExactly(code);
    EncodedExactly(code[..j]);
    EncodedExactly(code[j..]);
    if j == 0 {
      assert code[..0] == [] && code[0..] == code;
    } else {
      assert AllExact(code[1..]) && code[1..][..j - 1] == code[..j][1..] && code[1..][j - 1..] == code[j..];
      EncodeAllSplit(code[1..], j - 1);
    }
  }

  predicate AllEncoded(code: seq<Instruction>) {
    forall j :: 0 <= j < |code| ==> Valid(code[j]) && Encoding(code[j]).Some?
  }

  lemma {:induction false} EncodedExactly(code: seq<Instruction>)
    requires AllExact(code)
    ensures AllEncoded(code)
  {
  }

  lemma {:induction false} StartIsLength(code: seq<Instruction>, j: nat)
    requires j <= |code| && AllExact(code)
    ensures AllEncoded(code[..j]) && |EncodeAll(code[..j])| == StartOf(code, j)
    decreases j
  {
    EncodedExactly(code[..j]);
    if j > 0 {
      var i := code[j - 1];
      assert Exact(i) && AllExact(code[..j - 1]);
      LengthIsExactIff(i);
      hide Encoding, GetLength, WidthsAgree;
      StartIsLength(code, j - 1);
      EncodeAllLast(code[..j - 1], i);
      assert code[..j] == code[..j - 1] + [i];
    }
  }

  /** The bytes from instruction `j`'s place on are its encoding and those of the instructions behind it. */
  lemma {:induction false} PlacedAt(code: seq<Instruction>, j: nat)
    requires j < |code| && AllExact(code)
    ensures AllEncoded(code) && AllEncoded(code[j + 1..]) && StartOf(code, j) <= |EncodeAll(code)|
    ensures EncodeAll(code)[StartOf(code, j)..] == Encoding(code[j]).value + EncodeAll(code[j + 1..])
  {
    hide Encoding, Exact;
    EncodedExactly(code);
    EncodeAllSplit(code, j);
    StartIsLength(code, j);
    assert code[j..][1..] == code[j + 1..];
    EncodedExactly(code[j..]);
  }

  /** Each instruction is written where the previous ones' lengths say it begins, so the text is their encodings one
      after the other. */
  method EncodeProgram(code: seq<Instruction>, text: array<bv8>) returns (size: nat)
    requires AllExact(code) && StartOf(code, |code|) + MAX_INSTRUCTION <= text.Length
    modifies text
    ensures size == StartOf(code, |code|) && (forall j :: 0 <= j < |code| ==> Valid(code[j]) && Encoding(code[j]).Some?)
    ensures text[..size] == EncodeAll(code)
  {
    hide Encoding, GetLength, WidthsAgree;
    size := 0;
    for j := 0 to |code|
      invariant size <= StartOf(code, |code|)
      invariant AllExact(code[..j]) && size == StartOf(code, j) && text[..size] == EncodeAll(code[..j])
    {
      var i := code[j];
      assert Exact(i);
      LengthIsExactIff(i);
      ghost var before := text[..];
      StartsInOrder(code, j + 1, |code|);
      var ok, end := Encode(i, text, size);
      EncodeAllLast(code[..j], i);
      assert code[..j + 1] == code[..j] + [i];
      assert text[..end] == before[..size] + Encoding(i).value;
      assert StartOf(code, j + 1) == StartOf(code, j) + GetLength(i).value;
      size := size + GetLength(i).value;
    }
    assert code[..|code|] == code;
  }
}
