/** What the whole optimizer guarantees: behaviour is preserved, and the result is a fixpoint. */
module OptimizerTheorems {
  import opened Wrappers
  import opened IL
  import opened ILEquivalence
  import opened PeepholeSpec
  import opened PeepholeRewrite
  import opened PeepholeProof
  import opened NopDeletion

  // ----- One pass -----

  /** What holds of the copy being rewritten: uses are counted on the original body,
      and that count is still exact for every operand that has any use left. */
  ghost predicate InProgress(m: Machine, ty: SymbolRef -> OperandType, orig: Body, ils: Body) {
    Disciplined(m, ty, ils) && Equivalent(m, orig, ils) &&
    forall o :: Uses(ils, o) == Uses(orig, o) || Uses(ils, o) == 0
  }

  lemma UsedWhereItOccurs(body: Body, k: nat, o: Operand)
    requires k < |body| && o in body[k].args
    ensures Uses(body, o) > 0
  {
    UsesSplit(body, k, o);
    assert body[k..][0] == body[k];
    assert o in multiset(body[k].args);
  }

  lemma RewriteProgresses(m: Machine, ty: SymbolRef -> OperandType, orig: Body, ils: Body, p: nat, x: Instr)
    requires InProgress(m, ty, orig, ils) && Rewritable(ils, p, x)
    ensures InProgress(m, ty, orig, Replaced(ils, p, x))
  {
    RewritePreserves(m, ty, ils, p, x);
    EquivalentTrans(m, orig, ils, Replaced(ils, p, x));
    forall o
      ensures Uses(Replaced(ils, p, x), o) == Uses(orig, o) || Uses(Replaced(ils, p, x), o) == 0
    {
      RewriteUses(ils, p, x, o);
    }
  }

  lemma VisitProgresses(m: Machine, ty: SymbolRef -> OperandType, orig: Body, ils: Body, i: nat)
    requires InProgress(m, ty, orig, ils) && i < |ils|
    ensures InProgress(m, ty, orig, VisitAt(orig, ils, i).0)
  {
    if 0 < i && i + 1 < |ils| {
      if CanFuse(orig, ils[i], ils[i + 1]) {
        UsedWhereItOccurs(ils, i, ils[i].args[0]);
        RewriteProgresses(m, ty, orig, ils, i, Fused(ils[i], ils[i + 1]));
      } else if CanCollapse(orig, ils[i - 1], ils[i]) {
        UsedWhereItOccurs(ils, i - 1, ils[i - 1].args[0]);
        RewriteProgresses(m, ty, orig, ils, i - 1, Retargeted(ils[i - 1], ils[i].args[0]));
      }
    }
  }

  lemma {:induction false} VisitsProgress(m: Machine, ty: SymbolRef -> OperandType, orig: Body, ils: Body, i: nat)
    requires InProgress(m, ty, orig, ils) && i <= |ils|
    ensures InProgress(m, ty, orig, VisitFrom(orig, ils, i).0)
    decreases |ils| - i
  {
    if i < |ils| {
      VisitProgresses(m, ty, orig, ils, i);
      VisitsProgress(m, ty, orig, VisitAt(orig, ils, i).0, i + 1);
    }
  }

  lemma NopsAreBare(ty: SymbolRef -> OperandType, body: Body, k: nat)
    requires k < |body| && DisciplinedInstr(ty, body[k])
    ensures body[k].op == Nop ==> body[k].args == []
  {
  }

  lemma CleanupPreserves(m: Machine, ty: SymbolRef -> OperandType, ils: Body)
    requires Disciplined(m, ty, ils)
    ensures Equivalent(m, ils, WithoutNops(ils)) && Disciplined(m, ty, WithoutNops(ils))
  {
    forall k | 0 <= k < |ils| && ils[k].op == Nop
      ensures ils[k].args == []
    {
      NopsAreBare(ty, ils, k);
    }
    WithoutNopsEquivalent(m, ils);
    WithoutNopsDisciplined(m, ty, ils);
  }

  /** One pass preserves every run of a disciplined function, up to the variables it eliminates. */
  lemma PassPreserves(m: Machine, ty: SymbolRef -> OperandType, body: Body)
    requires Disciplined(m, ty, body)
    ensures Equivalent(m, body, Pass(body).0) && Disciplined(m, ty, Pass(body).0)
  {
    var ils := VisitFrom(body, body, 0).0;
    EquivalentRefl(m, body);
    VisitsProgress(m, ty, body, body, 0);
    CleanupPreserves(m, ty, ils);
    EquivalentTrans(m, body, ils, WithoutNops(ils));
  }

  // ----- The pass, repeated -----

  /** The optimizer preserves every run of a disciplined function, up to the variables it eliminates. */
  lemma {:induction false} OptimizedPreserves(m: Machine, ty: SymbolRef -> OperandType, body: Body)
    requires Disciplined(m, ty, body)
    ensures Equivalent(m, body, Optimized(body)) && Disciplined(m, ty, Optimized(body))
    decreases |body|
  {
    var (body', changed) := Pass(body);
    PassPreserves(m, ty, body);
    PassShortens(body);
    if changed {
      OptimizedPreserves(m, ty, body');
      EquivalentTrans(m, body, body', Optimized(body'));
    }
  }

  /** A pair that a pass would rewrite when its loop is at `p`: a comparison that is not the
      first instruction and can be fused, or a copy that is not the last and can be collapsed. */
  predicate RedexAt(body: Body, p: nat) {
    1 <= p < |body| - 1 && (CanFuse(body, body[p], body[p + 1]) || CanCollapse(body, body[p - 1], body[p]))
  }

  predicate NoRedex(body: Body) {
    forall p :: 0 <= p < |body| ==> !RedexAt(body, p)
  }

  lemma VisitChangesRedex(body: Body, p: nat)
    requires p < |body|
    ensures VisitAt(body, body, p).1 <==> RedexAt(body, p)
    ensures !RedexAt(body, p) ==> VisitAt(body, body, p).0 == body
  {
  }

  predicate NoRedexFrom(body: Body, i: nat) {
    forall p {:trigger RedexAt(body, p)} :: i <= p < |body| ==> !RedexAt(body, p)
  }

  lemma NoRedexStep(body: Body, i: nat)
    ensures i < |body| ==> (NoRedexFrom(body, i) <==> !RedexAt(body, i) && NoRedexFrom(body, i + 1))
    ensures NoRedexFrom(body, |body|)
    ensures NoRedexFrom(body, 0) <==> NoRedex(body)
  {
    hide RedexAt;
  }

  lemma {:induction false} UnchangedFrom(body: Body, i: nat)
    requires i <= |body|
    ensures !VisitFrom(body, body, i).1 <==> NoRedexFrom(body, i)
    decreases |body| - i
  {
    hide VisitAt, RedexAt, NoRedexFrom;
    NoRedexStep(body, i);
    if i < |body| {
      VisitChangesRedex(body, i);
      if !RedexAt(body, i) {
        UnchangedFrom(body, i + 1);
      }
    }
  }

  lemma UnchangedIffNoRedex(body: Body)
    ensures !Pass(body).1 <==> NoRedex(body)
  {
    UnchangedFrom(body, 0);
    NoRedexStep(body, 0);
  }

  predicate Settled(body: Body) {
    Pass(body) == (body, false)
  }

  lemma SettledIff(body: Body)
    requires forall k :: 0 <= k < |body| ==> body[k].op != Nop
    ensures Settled(body) <==> NoRedex(body)
  {
    UnchangedIffNoRedex(body);
    PassShortens(body);
    WithoutNopsShape(body);
  }

  /** When the optimizer's result is a fixpoint. Nops already in the input can hide a pair from
      the first pass; if that pass finds nothing else it deletes them and the loop stops,
      so the pair stays. In every other case nothing is left to do. */
  lemma {:induction false} OptimizedSettlesIff(body: Body)
    ensures Settled(Optimized(body)) <==> (Pass(body).1 || NoRedex(WithoutNops(body)))
    ensures Settled(Optimized(body)) ==> NoRedex(Optimized(body)) && Optimized(Optimized(body)) == Optimized(body)
    decreases |body|
  {
    var (body', changed) := Pass(body);
    PassShortens(body);
    WithoutNopsShape(VisitFrom(body, body, 0).0);
    WithoutNopsShape(body);
    if changed {
      OptimizedSettlesIff(body');
      WithoutNopsShape(body');
      UnchangedIffNoRedex(body');
    } else {
      SettledIff(body');
    }
    UnchangedIffNoRedex(Optimized(body));
  }

  /** Lowering emits no Nops, and for such bodies the result always is a fixpoint. */
  lemma OptimizedSettles(body: Body)
    requires forall k :: 0 <= k < |body| ==> body[k].op != Nop
    ensures NoRedex(Optimized(body)) && Optimized(Optimized(body)) == Optimized(body)
  {
    OptimizedSettlesIff(body);
    WithoutNopsShape(body);
    UnchangedIffNoRedex(body);
  }

  // ----- What is left nowhere, spelled out -----

  /** A comparison into an operand that the branch behind it tests and nothing else mentions. */
  predicate FusablePair(body: Body, il: Instr, il2: Instr) {
    il.op in {CompLt, CompLe, CompGt, CompGe, CompEq, CompNe} && il2.op in {BrZ, BrNz} && |il.args| == 3 && |il2.args| == 2 &&
    il2.args[0] == il.args[0] && Uses(body, il.args[0]) == 2
  }

  /** One of ten computations, into a variable of a block that the copy behind it copies, without a change of type, and
      nothing else mentions. */
  predicate CollapsiblePair(body: Body, il: Instr, il2: Instr) {
    ((il.op in {Add, And, Sub, Mul, Div, Ldelem, Ldelema} && |il.args| == 3) || (il.op in {Conv, Neg, Ldind} && |il.args| == 2)) &&
    il2.op in {Mov, Conv} && |il2.args| == 2 && il2.args[0].ty == il2.args[1].ty && il2.args[1] == il.args[0] &&
    il.args[0].kind == Variable && il.args[0].sym.Some? && il.args[0].sym.value.scope.kind == Block && Uses(body, il.args[0]) == 2
  }

  lemma PairsAre(body: Body, il: Instr, il2: Instr)
    ensures CanFuse(body, il, il2) <==> FusablePair(body, il, il2)
    ensures CanCollapse(body, il, il2) <==> CollapsiblePair(body, il, il2)
  {
    hide Uses;
  }

  /** A pass reports no change exactly if, away from both ends of the body, there is neither kind of pair. */
  lemma UnchangedIff(body: Body)
    ensures !Pass(body).1 <==>
      forall p {:trigger body[p]} :: 1 <= p < |body| - 1 ==>
        !FusablePair(body, body[p], body[p + 1]) && !CollapsiblePair(body, body[p - 1], body[p])
  {
    hide Pass, CanFuse, CanCollapse, FusablePair, CollapsiblePair;
    UnchangedIffNoRedex(body);
    forall p {:trigger body[p]} | 1 <= p < |body| - 1
      ensures RedexAt(body, p) <==> FusablePair(body, body[p], body[p + 1]) || CollapsiblePair(body, body[p - 1], body[p])
    {
      PairsAre(body, body[p], body[p + 1]);
      PairsAre(body, body[p - 1], body[p]);
    }
  }

  /** The optimizer leaves neither kind of pair in a body without Nops. */
  lemma NoPairIsLeft(body: Body, p: nat)
    requires forall k :: 0 <= k < |body| ==> body[k].op != Nop
    requires 1 <= p < |Optimized(body)| - 1
    ensures var b := Optimized(body); !FusablePair(b, b[p], b[p + 1]) && !CollapsiblePair(b, b[p - 1], b[p])
  {
    hide Optimized, Pass, FusablePair, CollapsiblePair, CanFuse, CanCollapse;
    OptimizedSettles(body);
    UnchangedIffNoRedex(Optimized(body));
    UnchangedIff(Optimized(body));
  }

  /** What a fused pair becomes. */
  predicate FusesTo(il: Instr, il2: Instr, x: Instr)
    requires |il.args| == 3 && |il2.args| == 2
  {
    var a, b, target := il.args[1], il.args[2], il2.args[1];
    (il2.op == BrNz ==>
      (il.op == CompLt ==> x == Instr(BrLt, [a, b, target])) && (il.op == CompLe ==> x == Instr(BrLe, [a, b, target])) &&
      (il.op == CompGt ==> x == Instr(BrLt, [b, a, target])) && (il.op == CompGe ==> x == Instr(BrLe, [b, a, target])) &&
      (il.op == CompEq ==> x == Instr(BrEq, [a, b, target])) && (il.op == CompNe ==> x == Instr(BrNe, [a, b, target]))) &&
    (il2.op == BrZ ==>
      (il.op == CompLt ==> x == Instr(BrLe, [b, a, target])) && (il.op == CompLe ==> x == Instr(BrLt, [b, a, target])) &&
      (il.op == CompGt ==> x == Instr(BrLe, [a, b, target])) && (il.op == CompGe ==> x == Instr(BrLt, [a, b, target])) &&
      (il.op == CompEq ==> x == Instr(BrNe, [a, b, target])) && (il.op == CompNe ==> x == Instr(BrEq, [a, b, target])))
  }

  /** One round of the pass: a fusable pair becomes one branch and a Nop, a collapsible pair one computation into the copy's
      target and a Nop, and anything else stays. */
  lemma VisitIs(orig: Body, ils: Body, i: nat)
    requires 1 <= i < |ils| - 1
    ensures var (r, changed) := VisitAt(orig, ils, i); var prev, il, next := ils[i - 1], ils[i], ils[i + 1];
      if FusablePair(orig, il, next) then changed && FusesTo(il, next, r[i]) && r == ils[i := r[i]][i + 1 := Instr(Nop, [])]
      else if CollapsiblePair(orig, prev, il) then
        changed && r == ils[i - 1 := Instr(prev.op, prev.args[0 := il.args[0]])][i := Instr(Nop, [])]
      else !changed && r == ils
  {
    var prev, il, next := ils[i - 1], ils[i], ils[i + 1];
    PairsAre(orig, il, next);
    PairsAre(orig, prev, il);
    if CanFuse(orig, il, next) {
      FusedIs(il, next);
    } else if CanCollapse(orig, prev, il) {
      assert [il.args[0]] + prev.args[1..] == prev.args[0 := il.args[0]];
    }
    hide CanFuse, CanCollapse, Uses, Fused, FusesTo;
  }

  lemma FusedIs(il: Instr, il2: Instr)
    requires IsCompare(il.op) && |il.args| == 3 && |il2.args| == 2 && il2.op in {BrZ, BrNz}
    ensures FusesTo(il, il2, Fused(il, il2))
  {
  }
}
