/** What the peephole pass computes, as functions on bodies. */
module PeepholeSpec {
  import opened Wrappers
  import opened IL

  /** What the optimizer's unchecked operand accesses rely on. */
  predicate Shaped(il: Instr) {
    (IsCompare(il.op) || IsMove(il.op) || IsDefinition(il.op) || il.op == BrZ || il.op == BrNz ==>
       |il.args| == Arity(il.op)) &&
    (il.op == Nop ==> il.args == []) &&
    forall k {:trigger WellFormedOperand(il.args[k])} :: 0 <= k < |il.args| ==> WellFormedOperand(il.args[k])
  }

  predicate ShapedBody(body: Body) {
    forall k {:trigger Shaped(body[k])} :: 0 <= k < |body| ==> Shaped(body[k])
  }

  lemma EqualIsIdentity(a: Operand, b: Operand)
    requires WellFormedOperand(a) && WellFormedOperand(b)
    ensures Equal(a, b) <==> a == b
  {
  }

  /** How many operand positions of the body hold `o`. */
  function Uses(body: Body, o: Operand): nat {
    if body == [] then 0 else multiset(body[0].args)[o] + Uses(body[1..], o)
  }

  predicate Collapsible(op: Opcode) {
    op.Add? || op.And? || op.Sub? || op.Mul? || op.Div? || op.Ldelem? || op.Ldelema? || op.Conv? || op.Neg? || op.Ldind?
  }

  /** A comparison and the branch on its result, the result having no other use. */
  predicate CanFuse(orig: Body, il: Instr, il2: Instr) {
    IsCompare(il.op) && |il.args| == 3 && (il2.op == BrZ || il2.op == BrNz) && |il2.args| == 2 &&
    il2.args[0] == il.args[0] && Uses(orig, il.args[0]) == 2
  }

  /** The branch that tests what `cmp` computes (`onTrue`) or its negation. */
  function FusedOpcode(cmp: Opcode, onTrue: bool): Opcode
    requires IsCompare(cmp)
  {
    match cmp
    case CompLt => if onTrue then BrLt else BrLe
    case CompLe => if onTrue then BrLe else BrLt
    case CompGt => if onTrue then BrLt else BrLe
    case CompGe => if onTrue then BrLe else BrLt
    case CompEq => if onTrue then BrEq else BrNe
    case CompNe => if onTrue then BrNe else BrEq
  }

  /** Only "less" branches are produced, so some tests swap their operands. */
  predicate FusedSwaps(cmp: Opcode, onTrue: bool) {
    if onTrue then cmp == CompGt || cmp == CompGe else cmp == CompLt || cmp == CompLe
  }

  /** A compare-and-branch on the operands of `cmp`, in one of the two orders, to the target of `br`. */
  predicate BranchOn(x: Instr, cmp: Instr, br: Instr)
    requires |cmp.args| == 3 && |br.args| == 2
  {
    IsCompareBranch(x.op) && |x.args| == 3 && x.args[2] == br.args[1] &&
    ((x.args[0] == cmp.args[1] && x.args[1] == cmp.args[2]) || (x.args[0] == cmp.args[2] && x.args[1] == cmp.args[1]))
  }

  function Fused(il: Instr, il2: Instr): (x: Instr)
    requires IsCompare(il.op) && |il.args| == 3 && |il2.args| == 2
    ensures BranchOn(x, il, il2)
  {
    var onTrue := il2.op == BrNz;
    var a, b := if FusedSwaps(il.op, onTrue) then 2 else 1, if FusedSwaps(il.op, onTrue) then 1 else 2;
    Instr(FusedOpcode(il.op, onTrue), [il.args[a], il.args[b], il2.args[1]])
  }

  /** A computation into a block-local variable whose only other use is the copy that follows. */
  predicate CanCollapse(orig: Body, prev: Instr, il: Instr) {
    IsMove(il.op) && |il.args| == 2 && il.args[0].ty == il.args[1].ty &&
    Collapsible(prev.op) && |prev.args| == Arity(prev.op) &&
    prev.args[0] == il.args[1] && Uses(orig, prev.args[0]) == 2 &&
    prev.args[0].kind == Variable && prev.args[0].sym.Some? && prev.args[0].sym.value.scope.kind == Block
  }

  function Retargeted(prev: Instr, dest: Operand): (x: Instr)
    requires |prev.args| >= 1
    ensures x.op == prev.op && |x.args| == |prev.args| && x.args[0] == dest
    ensures forall k :: 1 <= k < |x.args| ==> x.args[k] == prev.args[k]
  {
    Instr(prev.op, [dest] + prev.args[1..])
  }

  function Replaced(body: Body, p: nat, x: Instr): Body
    requires p + 1 < |body|
  {
    body[p := x][p + 1 := NOP]
  }

  /** One round of the pass's loop: `orig` is the function body, on which uses are
      counted, and `ils` the copy that is being rewritten. */
  function VisitAt(orig: Body, ils: Body, i: nat): (r: (Body, bool))
    requires i < |ils|
    ensures |r.0| == |ils|
  {
    if i == 0 || i + 1 == |ils| then (ils, false)
    else if CanFuse(orig, ils[i], ils[i + 1]) then (Replaced(ils, i, Fused(ils[i], ils[i + 1])), true)
    else if CanCollapse(orig, ils[i - 1], ils[i]) then
      (Replaced(ils, i - 1, Retargeted(ils[i - 1], ils[i].args[0])), true)
    else (ils, false)
  }

  function VisitFrom(orig: Body, ils: Body, i: nat): (r: (Body, bool))
    requires i <= |ils|
    ensures |r.0| == |ils|
    decreases |ils| - i
  {
    if i == |ils| then (ils, false) else
    var (ils', changed) := VisitAt(orig, ils, i);
    var (ils'', changed') := VisitFrom(orig, ils', i + 1);
    (ils'', changed || changed')
  }

  function WithoutNops(body: Body): Body {
    if body == [] then [] else
    (if body[0].op == Nop then [] else [body[0]]) + WithoutNops(body[1..])
  }

  /** One call of the pass: the new body, and whether anything was rewritten. */
  function Pass(body: Body): (Body, bool) {
    var (ils, changed) := VisitFrom(body, body, 0);
    (WithoutNops(ils), changed)
  }

  /** The pass, repeated until it reports no change. */
  function Optimized(body: Body): Body
    decreases |body|
  {
    var (body', changed) := Pass(body);
    PassShortens(body);
    if changed then Optimized(body') else body'
  }

  // ----- Every pass that reports a change shortens the body -----

  lemma {:induction false} WithoutNopsShape(body: Body)
    ensures forall k :: 0 <= k < |WithoutNops(body)| ==> WithoutNops(body)[k] in body && WithoutNops(body)[k].op != Nop
    ensures |WithoutNops(body)| <= |body|
    ensures forall k :: 0 <= k < |body| && body[k].op == Nop ==> |WithoutNops(body)| < |body|
    ensures (forall k :: 0 <= k < |body| ==> body[k].op != Nop) ==> WithoutNops(body) == body
  {
    if body != [] {
      WithoutNopsShape(body[1..]);
      assert forall k :: 1 <= k < |body| ==> body[k] == body[1..][k - 1];
      assert body == [body[0]] + body[1..];
    }
  }

  lemma VisitAtLeavesNop(orig: Body, ils: Body, i: nat)
    requires i < |ils|
    ensures var (r, changed) := VisitAt(orig, ils, i);
      && (changed ==> 1 <= i < |r| - 1 && (r[i].op == Nop || r[i + 1].op == Nop))
      && (!changed ==> r == ils)
      && (forall k :: 0 <= k < |ils| && ils[k].op == Nop ==> r[k].op == Nop)
  {
    hide CanFuse, CanCollapse, Retargeted, Fused;
    if 0 < i && i + 1 < |ils| {
      if CanFuse(orig, ils[i], ils[i + 1]) {
        FusableOpcodes(orig, ils[i], ils[i + 1]);
      } else if CanCollapse(orig, ils[i - 1], ils[i]) {
        CollapsibleOpcodes(orig, ils[i - 1], ils[i]);
      }
    }
  }

  lemma FusableOpcodes(orig: Body, il: Instr, il2: Instr)
    requires CanFuse(orig, il, il2)
    ensures il.op != Nop && il2.op != Nop && IsCompare(il.op) && |il.args| == 3 && |il2.args| == 2
  {
  }

  lemma CollapsibleOpcodes(orig: Body, prev: Instr, il: Instr)
    requires CanCollapse(orig, prev, il)
    ensures il.op != Nop && prev.op != Nop && |prev.args| >= 1 && |il.args| == 2
  {
  }

  lemma {:induction false} VisitFromLeavesNop(orig: Body, ils: Body, i: nat)
    requires i <= |ils|
    ensures var (r, changed) := VisitFrom(orig, ils, i);
      && (changed ==> exists k :: 0 <= k < |r| && r[k].op == Nop)
      && (!changed ==> r == ils)
      && (forall k :: 0 <= k < |ils| && ils[k].op == Nop ==> r[k].op == Nop)
    decreases |ils| - i
  {
    hide VisitAt;
    if i < |ils| {
      var (ils', changed) := VisitAt(orig, ils, i);
      VisitAtLeavesNop(orig, ils, i);
      VisitFromLeavesNop(orig, ils', i + 1);
    }
  }

  lemma {:induction false} PassShortens(body: Body)
    ensures Pass(body).1 ==> |Pass(body).0| < |body|
    ensures !Pass(body).1 ==> Pass(body).0 == WithoutNops(body)
  {
    var (ils, changed) := VisitFrom(body, body, 0);
    VisitFromLeavesNop(body, body, 0);
    WithoutNopsShape(ils);
  }

  // ----- The pass keeps the shape it relies on -----

  lemma FusedIsShaped(il: Instr, il2: Instr, x: Instr)
    requires Shaped(il) && Shaped(il2) && |il.args| == 3 && |il2.args| == 2 && BranchOn(x, il, il2)
    ensures Shaped(x)
  {
    assert !IsCompare(x.op) && !IsMove(x.op) && !IsDefinition(x.op);
  }

  lemma RetargetedIsShaped(prev: Instr, dest: Operand, x: Instr)
    requires Shaped(prev) && WellFormedOperand(dest) && x.op == prev.op && |x.args| == |prev.args| >= 1 && x.args[0] == dest
    requires forall k :: 1 <= k < |x.args| ==> x.args[k] == prev.args[k]
    ensures Shaped(x)
  {
  }

  lemma ReplacedIsShaped(body: Body, p: nat, x: Instr)
    requires ShapedBody(body) && p + 1 < |body| && Shaped(x)
    ensures ShapedBody(Replaced(body, p, x))
  {
    assert Shaped(NOP);
    hide Shaped;
    forall k | 0 <= k < |body|
      ensures Shaped(Replaced(body, p, x)[k])
    {
      assert Shaped(body[k]);
    }
  }

  lemma ShapedOperand(il: Instr, k: nat)
    requires Shaped(il) && k < |il.args|
    ensures WellFormedOperand(il.args[k])
  {
  }

  lemma VisitAtIsShaped(orig: Body, ils: Body, i: nat)
    requires ShapedBody(ils) && i < |ils|
    ensures ShapedBody(VisitAt(orig, ils, i).0)
  {
    hide CanFuse, CanCollapse, Retargeted, Fused, Replaced, Shaped;
    if 0 < i && i + 1 < |ils| {
      var prev, il, next := ils[i - 1], ils[i], ils[i + 1];
      assert Shaped(prev) && Shaped(il) && Shaped(next);
      if CanFuse(orig, il, next) {
        FusableOpcodes(orig, il, next);
        FusedIsShaped(il, next, Fused(il, next));
        ReplacedIsShaped(ils, i, Fused(il, next));
      } else if CanCollapse(orig, prev, il) {
        CollapsibleOpcodes(orig, prev, il);
        ShapedOperand(il, 0);
        RetargetedIsShaped(prev, il.args[0], Retargeted(prev, il.args[0]));
        ReplacedIsShaped(ils, i - 1, Retargeted(prev, il.args[0]));
      }
    }
  }

  lemma WithoutNopsIsShaped(body: Body)
    requires ShapedBody(body)
    ensures ShapedBody(WithoutNops(body))
  {
    WithoutNopsShape(body);
    forall k | 0 <= k < |WithoutNops(body)|
      ensures Shaped(WithoutNops(body)[k])
    {
      var j :| 0 <= j < |body| && body[j] == WithoutNops(body)[k];
      assert Shaped(body[j]);
    }
  }
}
