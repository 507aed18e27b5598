/** Labels and branches: addresses are counted while code is emitted, and patched into it afterwards. */
module CodeAddresses {
  import opened Wrappers
  import opened InstructionSet
  import opened InstructionEncoder
  import opened InstructionDecoding
  import opened InstructionStream
  import opened WordBits

  /** An instruction with the symbols whose addresses its operands are waiting for. */
  datatype Emitted = Emitted(i: Instruction, refs: seq<Option<string>>)

  predicate Measured(e: Emitted) {
    Valid(e.i) && |e.refs| == MAX_NUM_OPERANDS && GetLength(e.i).Some?
  }

  predicate AllMeasured(code: seq<Emitted>) {
    forall j {:trigger code[j]} :: 0 <= j < |code| ==> Measured(code[j])
  }

  /** The total length of the first `n` instructions. */
  function LengthUpTo(code: seq<Emitted>, n: nat): nat
    requires n <= |code| && AllMeasured(code)
  {
    if n == 0 then 0 else assert Measured(code[n - 1]); LengthUpTo(code, n - 1) + GetLength(code[n - 1].i).value
  }

  /** An address as the 64 bits of an operand. */
  function Word(a: int): bv64 {
    (a % 0x1_0000_0000_0000_0000) as bv64
  }

  /** The bits are the address itself, if it is one of 64 bits. */
  predicate Addresses(w: bv64, a: int) {
    0 <= a < 0x1_0000_0000_0000_0000 ==> w as int == a
  }

  lemma {:induction false} WordAddresses(a: int)
    ensures Addresses(Word(a), a)
  {
    if 0 <= a < 0x1_0000_0000_0000_0000 {
      LongIs(a);
      SmallModulo(a, 0x1_0000_0000_0000_0000);
    }
  }

  lemma {:induction false} SmallModulo(a: nat, n: nat)
    requires a < n
    ensures a % n == a
  {
  }

  /** The instruction with another value in operand `k`. */
  function Patched(e: Emitted, k: nat, value: bv64): Emitted
    requires k < |e.i.operands|
  {
    e.(i := e.i.(operands := e.i.operands[k := e.i.operands[k].(value := value)]))
  }

  /** The same instructions, except for the values of operands. */
  predicate SameButValue(o: Operand, o': Operand) {
    o'.mode == o.mode && o'.conv == o.conv && o'.displacement == o.displacement
  }

  /** The same instruction, except that the value of operand `k` is an address. */
  predicate HasAddress(e: Emitted, k: nat, a: int, e': Emitted) {
    |e'.i.operands| == |e.i.operands| && k < |e.i.operands| && e'.refs == e.refs &&
    e'.i == e.i.(operands := e.i.operands[k := e'.i.operands[k]]) &&
    SameButValue(e.i.operands[k], e'.i.operands[k]) && Addresses(e'.i.operands[k].value, a)
  }

  lemma {:induction false} PatchedAddresses(e: Emitted, k: nat, a: int)
    requires k < |e.i.operands|
    ensures HasAddress(e, k, a, Patched(e, k, Word(a)))
  {
    WordAddresses(a);
    hide Word, Addresses;
  }

  predicate SameShape(e: Emitted, e': Emitted) {
    e'.i == e.i.(operands := e'.i.operands) && |e'.i.operands| == |e.i.operands| && |e'.refs| == |e.refs| &&
    forall k {:trigger e'.i.operands[k]} :: 0 <= k < |e.i.operands| ==> SameButValue(e.i.operands[k], e'.i.operands[k])
  }

  predicate SameShapes(code: seq<Emitted>, code': seq<Emitted>) {
    |code| == |code'| && forall j {:trigger code'[j]} :: 0 <= j < |code| ==> SameShape(code[j], code'[j])
  }

  lemma {:induction false} ShapeLengths(i: Instruction, i': Instruction, k: nat)
    requires Valid(i) && Valid(i') && i' == i.(operands := i'.operands) && k <= NumOperands(i.op, i.jump)
    requires forall j {:trigger i'.operands[j]} :: 0 <= j < MAX_NUM_OPERANDS ==> SameButValue(i.operands[j], i'.operands[j])
    ensures OperandLengths(i', k) == OperandLengths(i, k)
    decreases NumOperands(i.op, i.jump) - k
  {
    if k < NumOperands(i.op, i.jump) {
      ShapeLengths(i, i', k + 1);
      assert SameButValue(i.operands[k], i'.operands[k]);
      assert GetOperandEncodingLength(i', i'.operands[k]) == GetOperandEncodingLength(i, i.operands[k]);
    }
  }

  /** Patching an address changes no length. */
  lemma {:induction false} ShapeIsMeasured(e: Emitted, e': Emitted)
    requires Measured(e) && SameShape(e, e')
    ensures Measured(e') && GetLength(e'.i) == GetLength(e.i)
  {
    ShapeLengths(e.i, e'.i, 0);
    hide OperandLengths;
  }

  lemma {:induction false} ShapesHaveLengths(code: seq<Emitted>, code': seq<Emitted>, n: nat)
    requires AllMeasured(code) && SameShapes(code, code') && n <= |code|
    ensures AllMeasured(code') && LengthUpTo(code', n) == LengthUpTo(code, n)
    decreases n
  {
    hide SameShape, Measured, GetLength;
    forall j | 0 <= j < |code'|
      ensures Measured(code'[j])
    {
      ShapeIsMeasured(code[j], code'[j]);
    }
    if n > 0 {
      ShapesHaveLengths(code, code', n - 1);
      ShapeIsMeasured(code[n - 1], code'[n - 1]);
    }
  }

  lemma {:induction false} PrefixLength(code: seq<Emitted>, more: seq<Emitted>, n: nat)
    requires AllMeasured(code) && n <= |code| <= |more| && more[..|code|] == code && AllMeasured(more)
    ensures LengthUpTo(more, n) == LengthUpTo(code, n)
    decreases n
  {
    hide GetLength;
    if n > 0 {
      PrefixLength(code, more, n - 1);
      assert more[n - 1] == code[n - 1];
      assert Measured(code[n - 1]);
    }
  }

  function Instructions(code: seq<Emitted>): (r: seq<Instruction>)
    ensures |r| == |code|
  {
    seq(|code|, j requires 0 <= j < |code| => code[j].i)
  }

  /** The counted lengths are the offsets at which the linker's last loop places the instructions. */
  lemma {:induction false} LengthsAreOffsets(code: seq<Emitted>, n: nat)
    requires AllMeasured(code) && n <= |code| && AllExact(Instructions(code))
    ensures StartOf(Instructions(code), n) == LengthUpTo(code, n)
    decreases n
  {
    hide GetLength, Exact;
    if n > 0 {
      LengthsAreOffsets(code, n - 1);
      assert Measured(code[n - 1]) && Instructions(code)[n - 1] == code[n - 1].i;
    }
  }

  // ----- Resolution -----

  predicate CanResolve(e: Emitted, addresses: map<string, int>) {
    forall k {:trigger e.refs[k]} :: 0 <= k < |e.refs| && e.refs[k].Some? ==>
      e.refs[k].value in addresses && addresses[e.refs[k].value] != 0
  }

  function ResolvedOperand(e: Emitted, k: nat, addresses: map<string, int>): Operand
    requires k < |e.i.operands| == |e.refs|
  {
    var o := e.i.operands[k];
    if e.refs[k].Some? && e.refs[k].value in addresses then o.(value := Word(addresses[e.refs[k].value])) else o
  }

  /** Every operand that was waiting for a symbol holds its address. */
  function Resolved(e: Emitted, addresses: map<string, int>): (r: Emitted)
    requires |e.i.operands| == |e.refs|
    ensures SameShape(e, r)
  {
    Emitted(e.i.(operands := seq(|e.refs|, k requires 0 <= k < |e.refs| => ResolvedOperand(e, k, addresses))),
            seq(|e.refs|, _ => None))
  }

  /** The same instruction with nothing left to wait for: an operand that was waiting has the symbol's address for its value,
      and nothing else has changed. */
  predicate HoldsAddresses(e: Emitted, addresses: map<string, int>, e': Emitted) {
    e'.i == e.i.(operands := e'.i.operands) && |e'.i.operands| == |e.i.operands| && |e'.refs| == |e.refs| == |e.i.operands| &&
    forall k {:trigger e'.i.operands[k]} :: 0 <= k < |e.i.operands| ==>
      e'.refs[k].None? &&
      if e.refs[k].None? then e'.i.operands[k] == e.i.operands[k]
      else e.refs[k].value in addresses && SameButValue(e.i.operands[k], e'.i.operands[k]) &&
           Addresses(e'.i.operands[k].value, addresses[e.refs[k].value])
  }

  lemma {:induction false} ResolvedHolds(e: Emitted, addresses: map<string, int>)
    requires |e.i.operands| == |e.refs| && CanResolve(e, addresses)
    ensures HoldsAddresses(e, addresses, Resolved(e, addresses))
  {
    hide Word, Addresses;
    var r := Resolved(e, addresses);
    forall k | 0 <= k < |e.i.operands| && e.refs[k].Some?
      ensures Addresses(r.i.operands[k].value, addresses[e.refs[k].value])
    {
      WordAddresses(addresses[e.refs[k].value]);
    }
  }

  function ResolvedAll(code: seq<Emitted>, addresses: map<string, int>): (r: seq<Emitted>)
    requires AllMeasured(code)
    ensures |r| == |code|
  {
    seq(|code|, j requires 0 <= j < |code| => (assert Measured(code[j]); Resolved(code[j], addresses)))
  }

  lemma {:induction false} ResolvedShapes(code: seq<Emitted>, addresses: map<string, int>)
    requires AllMeasured(code)
    ensures SameShapes(code, ResolvedAll(code, addresses))
  {
    hide SameShape, Resolved;
    assert forall j :: 0 <= j < |code| ==> Measured(code[j]);
  }

  // ----- The generator -----

  class I0CodeGenerator {
    const textStart: int
    var Code: seq<Emitted>
    var currentText: int
    /** The addresses of symbols, and with each the number of instructions emitted when it was assigned. */
    var addresses: map<string, int>
    ghost var placed: map<string, nat>

    ghost predicate Valid()
      reads this
    {
      AllMeasured(Code) && currentText == textStart + LengthUpTo(Code, |Code|) && addresses.Keys == placed.Keys &&
      forall sym {:trigger placed[sym]} :: sym in placed ==>
        placed[sym] <= |Code| && addresses[sym] == textStart + LengthUpTo(Code, placed[sym])
    }

    constructor (start: int)
      ensures Valid() && textStart == start && Code == [] && addresses == map[] && placed == map[]
    {
      textStart, currentText := start, start;
      Code, addresses, placed := [], map[], map[];
    }

    method Emit(e: Emitted)
      requires Valid() && Measured(e)
      modifies this
      ensures Valid() && Code == old(Code) + [e] && addresses == old(addresses) && placed == old(placed)
    {
      ghost var before := Code;
      Code := Code + [e];
      currentText := currentText + GetLength(e.i).value;
      assert Code[..|before|] == before;
      PrefixLength(before, Code, |before|);
      forall sym | sym in placed
        ensures LengthUpTo(Code, placed[sym]) == LengthUpTo(before, placed[sym])
      {
        PrefixLength(before, Code, placed[sym]);
      }
    }

    /** A label stands for the instruction that is emitted next. */
    method VisitLabel(sym: string)
      requires Valid()
      modifies this
      ensures Valid() && Code == old(Code) && addresses == old(addresses)[sym := old(currentText)] && placed == old(placed)[sym := |Code|]
    {
      addresses := addresses[sym := currentText];
      placed := placed[sym := |Code|];
    }

    /** Overwrites an address in an instruction that has been emitted already. */
    method Patch(j: nat, k: nat, address: int)
      requires Valid() && j < |Code| && k < MAX_NUM_OPERANDS
      modifies this`Code
      ensures Valid() && |Code| == old(|Code|) && |Code[j].i.operands| == MAX_NUM_OPERANDS
      ensures Code == old(Code)[j := Patched(old(Code)[j], k, Word(address))] && SameShapes(old(Code), Code)
    {
      ghost var before := Code;
      assert Measured(Code[j]);
      Code := Code[j := Patched(Code[j], k, Word(address))];
      ShapesHaveLengths(before, Code, |Code|);
      forall sym | sym in placed
        ensures LengthUpTo(Code, placed[sym]) == LengthUpTo(before, placed[sym])
      {
        ShapesHaveLengths(before, Code, placed[sym]);
      }
    }

    /** A comparison whose result is a value: a branch over storing 0 and a jump, then storing 1. The two targets
        are patched when the code they name begins. */
    method GenerateComparason(loads: seq<Emitted>, br: Emitted, store0: Emitted, jump: Emitted, store1: Emitted)
      requires Valid() && AllMeasured(loads) && Measured(br) && Measured(store0) && Measured(jump) && Measured(store1)
      modifies this
      ensures Valid() && placed == old(placed) && addresses == old(addresses)
      ensures var k := |old(Code)| + |loads|;
        |Code| == k + 4 && AllMeasured(Code) && Code[..k] == old(Code) + loads &&
        |br.i.operands| == |jump.i.operands| == MAX_NUM_OPERANDS &&
        Code[k] == Patched(br, 2, Word(textStart + LengthUpTo(Code, k + 3))) && Code[k + 1] == store0 &&
        Code[k + 2] == Patched(jump, 0, Word(textStart + LengthUpTo(Code, k + 4))) && Code[k + 3] == store1
      ensures var k := |old(Code)| + |loads|;
        HasAddress(br, 2, textStart + LengthUpTo(Code, k + 3), Code[k]) &&
        HasAddress(jump, 0, textStart + LengthUpTo(Code, k + 4), Code[k + 2])
    {
      hide LengthUpTo, Patched, Word, Measured, SameShape, HasAddress;
      MeasuredOperands(br);
      MeasuredOperands(jump);
      EmitAll(loads);
      var k := EmitBranchOver(br, store0, jump);
      ghost var patched := Code;
      Emit(store1);
      PrefixLength(patched, Code, k + 3);
      PatchHere(k + 2, 0);
      PatchedAddresses(br, 2, textStart + LengthUpTo(Code, k + 3));
      PatchedAddresses(jump, 0, textStart + LengthUpTo(Code, k + 4));
    }

    /** The branch, what it jumps over, and its target; `k` is where the branch is. */
    method EmitBranchOver(br: Emitted, store0: Emitted, jump: Emitted) returns (k: nat)
      requires Valid() && Measured(br) && Measured(store0) && Measured(jump)
      modifies this
      ensures Valid() && placed == old(placed) && addresses == old(addresses) && |br.i.operands| == MAX_NUM_OPERANDS
      ensures k == |old(Code)| && |Code| == k + 3 && AllMeasured(Code)
      ensures Code == old(Code) + [Patched(br, 2, Word(textStart + LengthUpTo(Code, k + 3)))] + [store0] + [jump]
    {
      hide LengthUpTo, Patched, Word, Measured, SameShape;
      MeasuredOperands(br);
      k := |Code|;
      Emit(br);
      Emit(store0);
      Emit(jump);
      PatchHere(k, 2);
    }

    method EmitAll(code: seq<Emitted>)
      requires Valid() && AllMeasured(code)
      modifies this
      ensures Valid() && placed == old(placed) && addresses == old(addresses) && Code == old(Code) + code
    {
      for n := 0 to |code|
        invariant Valid() && placed == old(placed) && addresses == old(addresses) && Code == old(Code) + code[..n]
      {
        Emit(code[n]);
      }
    }

    /** Makes an operand that has been emitted name the instruction that is emitted next. */
    method PatchHere(j: nat, k: nat)
      requires Valid() && j < |Code| && k < MAX_NUM_OPERANDS
      modifies this`Code
      ensures Valid() && |Code| == old(|Code|) && |old(Code)[j].i.operands| == MAX_NUM_OPERANDS
      ensures Code == old(Code)[j := Patched(old(Code)[j], k, Word(textStart + LengthUpTo(Code, |Code|)))]
      ensures AllMeasured(old(Code)) && forall n :: 0 <= n <= |Code| ==> LengthUpTo(Code, n) == LengthUpTo(old(Code), n)
    {
      hide Patched, Word, SameShape, LengthUpTo, Measured;
      ghost var before := Code;
      MeasuredOperands(Code[j]);
      Patch(j, k, currentText);
      ShapesHaveLengths(before, Code, |Code|);
      forall n | 0 <= n <= |Code|
        ensures LengthUpTo(Code, n) == LengthUpTo(before, n)
      {
        ShapesHaveLengths(before, Code, n);
      }
    }

    /** Replaces every symbol by its address; `ok` is false where the program reports an error. */
    method ResolveSymbols() returns (ok: bool)
      requires Valid()
      modifies this`Code
      ensures ok <==> forall j :: 0 <= j < |old(Code)| ==> CanResolve(old(Code)[j], addresses)
      ensures ok ==> Valid() && Code == ResolvedAll(old(Code), addresses)
      ensures ok ==> forall j {:trigger Code[j]} :: 0 <= j < |Code| ==> HoldsAddresses(old(Code)[j], addresses, Code[j])
    {
      ghost var before := Code;
      for j := 0 to |Code|
        invariant |Code| == |before| && AllMeasured(before)
        invariant forall l :: 0 <= l < j ==> CanResolve(before[l], addresses) && Code[l] == ResolvedAll(before, addresses)[l]
        invariant forall l :: j <= l < |Code| ==> Code[l] == before[l]
      {
        assert Measured(before[j]);
        var e := Code[j];
        ok, e := ResolveOne(e);
        if !ok {
          return;
        }
        Code := Code[j := e];
      }
      ok := true;
      assert Code == ResolvedAll(before, addresses);
      ResolvedShapes(before, addresses);
      forall j | 0 <= j < |Code|
        ensures HoldsAddresses(before[j], addresses, Code[j])
      {
        assert Measured(before[j]);
        ResolvedHolds(before[j], addresses);
      }
      ShapesHaveLengths(before, Code, |Code|);
      forall sym | sym in placed
        ensures LengthUpTo(Code, placed[sym]) == LengthUpTo(before, placed[sym])
      {
        ShapesHaveLengths(before, Code, placed[sym]);
      }
    }

    method ResolveOne(e: Emitted) returns (ok: bool, r: Emitted)
      requires |e.i.operands| == |e.refs| == MAX_NUM_OPERANDS
      ensures ok <==> CanResolve(e, addresses)
      ensures ok ==> r == Resolved(e, addresses)
    {
      r := e;
      for k := 0 to MAX_NUM_OPERANDS
        invariant r.i == e.i.(operands := r.i.operands) && |r.i.operands| == |r.refs| == MAX_NUM_OPERANDS
        invariant forall l :: 0 <= l < k ==>
          (e.refs[l].Some? ==> e.refs[l].value in addresses && addresses[e.refs[l].value] != 0) &&
          r.i.operands[l] == ResolvedOperand(e, l, addresses) && r.refs[l] == None
        invariant forall l :: k <= l < MAX_NUM_OPERANDS ==> r.i.operands[l] == e.i.operands[l] && r.refs[l] == e.refs[l]
      {
        if e.refs[k].Some? {
          var sym := e.refs[k].value;
          if sym !in addresses || addresses[sym] == 0 {
            ok := false;
            return;
          }
          r := Patched(r, k, Word(addresses[sym]));
          r := r.(refs := r.refs[k := None]);
        }
      }
      ok := true;
      assert r.i.operands == Resolved(e, addresses).i.operands && r.refs == Resolved(e, addresses).refs;
    }

    /** After resolution an operand that named a label holds the address at which the linker's last loop places the
        instruction the label stands for. */
    lemma {:induction false} TargetsAreRight(before: seq<Emitted>, j: nat, k: nat, sym: string)
      requires Valid() && AllMeasured(before) && Code == ResolvedAll(before, addresses) && j < |before| && k < MAX_NUM_OPERANDS
      requires Measured(before[j]) && before[j].refs[k] == Some(sym) && sym in addresses && AllExact(Instructions(Code))
      ensures var target := placed[sym];
        target <= |Code| && k < |Code[j].i.operands| &&
        Addresses(Code[j].i.operands[k].value, textStart + StartOf(Instructions(Code), target))
    {
      hide LengthUpTo, StartOf, Word, Addresses;
      assert sym in placed;
      LengthsAreOffsets(Code, placed[sym]);
      WordAddresses(addresses[sym]);
      assert Code[j] == Resolved(before[j], addresses);
    }

    /** Reading the finished text at the address that a resolved operand holds gives back the very instruction that was emitted
        next after the operand's label. */
    lemma {:induction false} TargetsDecode(before: seq<Emitted>, j: nat, k: nat, sym: string)
      requires Valid() && AllMeasured(before) && Code == ResolvedAll(before, addresses) && j < |before| && k < MAX_NUM_OPERANDS
      requires Measured(before[j]) && before[j].refs[k] == Some(sym) && sym in addresses && AllExact(Instructions(Code))
      requires AllEncoded(Instructions(Code)) && 0 <= textStart && textStart + |EncodeAll(Instructions(Code))| < 0x1_0000_0000_0000_0000
      requires placed[sym] < |Code| && WellEncoded(Code[placed[sym]].i) && SpawnModesAgree(Code[placed[sym]].i)
      ensures var text, target := EncodeAll(Instructions(Code)), Code[placed[sym]].i;
        k < |Code[j].i.operands| &&
        var at := Code[j].i.operands[k].value as int - textStart;
        0 <= at <= |text| && DecodeInstruction(text[at..]) == Some((DecodedOf(target), |Encoding(target).value|))
    {
      hide LengthUpTo, StartOf, Word, Encoding, WellEncoded, SpawnModesAgree, DecodeInstruction, DecodedOf, Exact, EncodeAll;
      TargetsAreRight(before, j, k, sym);
      DecodesAt(Instructions(Code), placed[sym]);
    }
  }

  /** What is found where an instruction is placed, however the rest of the text goes on. */
  lemma {:induction false} DecodesAt(code: seq<Instruction>, j: nat)
    requires j < |code| && AllExact(code) && WellEncoded(code[j]) && SpawnModesAgree(code[j])
    ensures AllEncoded(code) && StartOf(code, j) <= |EncodeAll(code)|
    ensures DecodeInstruction(EncodeAll(code)[StartOf(code, j)..]) == Some((DecodedOf(code[j]), |Encoding(code[j]).value|))
  {
    hide Encoding, WellEncoded, SpawnModesAgree, DecodeInstruction, DecodedOf, Exact;
    PlacedAt(code, j);
    EncodingRoundTrip(code[j], EncodeAll(code[j + 1..]));
  }

  lemma {:induction false} MeasuredOperands(e: Emitted)
    requires Measured(e)
    ensures |e.i.operands| == MAX_NUM_OPERANDS
  {
  }
}
