/** The encoder writes as many bytes as the assembler takes for granted exactly if each immediate
    carries the conversion attribute its instruction assumes. */
module EncodingLength {
  import opened Wrappers
  import opened InstructionSet

  predicate Encodes(i: Instruction, k: nat)
    requires Valid(i) && k <= NumOperands(i.op, i.jump)
  {
    OperandData(i, k).Some? && OperandLengths(i, k).Some?
  }

  /** Bytes written less bytes assumed, from operand `k` on. */
  function Excess(i: Instruction, k: nat): int
    requires Valid(i) && k <= NumOperands(i.op, i.jump) && Encodes(i, k)
  {
    |OperandData(i, k).value| - OperandLengths(i, k).value
  }

  function OperandExcess(i: Instruction, o: Operand): int
    requires EncodeOperandData(i, o).Some? && GetOperandEncodingLength(i, o).Some?
  {
    |EncodeOperandData(i, o).value| - GetOperandEncodingLength(i, o).value
  }

  lemma ExcessStep(i: Instruction, k: nat)
    requires Valid(i) && k < NumOperands(i.op, i.jump) && Encodes(i, k)
    ensures EncodeOperandData(i, i.operands[k]).Some? && GetOperandEncodingLength(i, i.operands[k]).Some? && Encodes(i, k + 1)
    ensures Excess(i, k) == OperandExcess(i, i.operands[k]) + Excess(i, k + 1)
    ensures WidthsAgree(i, k) <==> WidthAgrees(i, i.operands[k]) && WidthsAgree(i, k + 1)
  {
  }

  lemma LastExcess(i: Instruction)
    requires Valid(i)
    ensures var n := NumOperands(i.op, i.jump); Encodes(i, n) && Excess(i, n) == 0 && WidthsAgree(i, n)
  {
  }

  /** Only arithmetic on single-precision numbers assumes immediates of four bytes. */
  predicate AssumesFour(i: Instruction) {
    IsArithmetic(i.op) && i.attribute == Single
  }

  lemma OperandExcessIs(i: Instruction, o: Operand)
    requires EncodeOperandData(i, o).Some? && GetOperandEncodingLength(i, o).Some?
    ensures OperandExcess(i, o) == 0 <==> WidthAgrees(i, o)
    ensures !AssumesFour(i) ==> OperandExcess(i, o) <= 0
    ensures AssumesFour(i) ==> OperandExcess(i, o) in {-3, 0, 4}
  {
    DataLength(i, o);
    if i.op != CONV { OneAssumedWidth(i, o, o); }
  }

  /** Where eight bytes are assumed, no immediate is longer, so no mismatch can make up for another. */
  lemma {:induction false} NeverLonger(i: Instruction, k: nat)
    requires Valid(i) && k <= NumOperands(i.op, i.jump) && Encodes(i, k) && !AssumesFour(i)
    ensures Excess(i, k) <= 0 && (Excess(i, k) == 0 <==> WidthsAgree(i, k))
    decreases NumOperands(i.op, i.jump) - k
  {
    hide Encodes, WidthsAgree, Excess, AssumesFour;
    if k == NumOperands(i.op, i.jump) {
      LastExcess(i);
    } else {
      ExcessStep(i, k);
      OperandExcessIs(i, i.operands[k]);
      NeverLonger(i, k + 1);
    }
  }

  /** Where four are assumed a mismatch is three bytes short or four too long, and three operands cannot balance. */
  lemma {:induction false} ShortAndLong(i: Instruction, k: nat) returns (short: nat, long: nat)
    requires Valid(i) && k <= NumOperands(i.op, i.jump) && Encodes(i, k) && AssumesFour(i)
    ensures Excess(i, k) == 4 * long - 3 * short && short + long <= NumOperands(i.op, i.jump) - k
    ensures short + long == 0 <==> WidthsAgree(i, k)
    decreases NumOperands(i.op, i.jump) - k
  {
    hide Encodes, WidthsAgree, Excess;
    if k == NumOperands(i.op, i.jump) {
      LastExcess(i);
      short, long := 0, 0;
    } else {
      ExcessStep(i, k);
      OperandExcessIs(i, i.operands[k]);
      short, long := ShortAndLong(i, k + 1);
      if OperandExcess(i, i.operands[k]) == -3 { short := short + 1; }
      if OperandExcess(i, i.operands[k]) == 4 { long := long + 1; }
    }
  }

  lemma EncodingHasLength(i: Instruction)
    requires Valid(i) && Encoding(i).Some? && GetLength(i).Some? && i.op != INT
    ensures Encodes(i, 0) && |Encoding(i).value| - GetLength(i).value == Excess(i, 0)
  {
  }

  /** `Encode` writes exactly `GetLength` bytes if and only if every immediate is written in the assumed width. */
  lemma LengthIsExactIff(i: Instruction)
    requires Valid(i) && Encoding(i).Some? && GetLength(i).Some?
    ensures |Encoding(i).value| == GetLength(i).value <==> (i.op == INT || WidthsAgree(i, 0))
  {
    hide Encodes, WidthsAgree, Excess;
    if i.op != INT {
      EncodingHasLength(i);
      if AssumesFour(i) {
        var short, long := ShortAndLong(i, 0);
      } else {
        NeverLonger(i, 0);
      }
    }
  }
}
