/** Which variables the optimizer may eliminate: locals of blocks that are written once and read once. */
module EliminatedVariables {
  import opened Wrappers
  import opened IL
  import opened ILEquivalence
  import opened PeepholeSpec
  import opened PeepholeRewrite
  import opened PeepholeProof
  import opened NopDeletion
  import opened OptimizerTheorems

  /** `v` is local to a block and occupies exactly two operand positions. */
  predicate UsedTwice(ty: SymbolRef -> OperandType, b: Body, v: SymbolRef) {
    v.scope.kind == Block && Uses(b, VariableOperand(ty(v), v)) == 2
  }

  /** From `b` to `b'`, variables with two uses may have gone; no other operand has gained or lost a use. */
  ghost predicate RemovesOnlyPairs(ty: SymbolRef -> OperandType, b: Body, b': Body) {
    Mentions(b') <= Mentions(b) &&
    (forall o {:trigger Uses(b', o)} :: Uses(b', o) == Uses(b, o) || Uses(b', o) == 0) &&
    forall v | v in Removed(b, b') :: UsedTwice(ty, b, v)
  }

  lemma RemovesTrans(ty: SymbolRef -> OperandType, b: Body, b': Body, b'': Body)
    requires RemovesOnlyPairs(ty, b, b') && RemovesOnlyPairs(ty, b', b'')
    ensures RemovesOnlyPairs(ty, b, b'')
  {
    forall o
      ensures Uses(b'', o) == Uses(b, o) || Uses(b'', o) == 0
    {
      assert Uses(b', o) == Uses(b, o) || Uses(b', o) == 0;
    }
    forall v | v in Removed(b, b'')
      ensures UsedTwice(ty, b, v)
    {
      if v in Removed(b', b'') { assert UsedTwice(ty, b', v); } else { assert v in Removed(b, b'); }
    }
  }

  lemma {:induction false} NopsHaveNoUses(body: Body, o: Operand)
    requires forall k :: 0 <= k < |body| && body[k].op == Nop ==> body[k].args == []
    ensures Uses(WithoutNops(body), o) == Uses(body, o)
  {
    if body != [] {
      NopsHaveNoUses(body[1..], o);
      if body[0].op != Nop {
        assert WithoutNops(body)[1..] == WithoutNops(body[1..]);
      } else {
        assert WithoutNops(body) == WithoutNops(body[1..]);
        assert multiset(body[0].args) == multiset{};
      }
    }
  }

  lemma RewriteRemovesPair(m: Machine, ty: SymbolRef -> OperandType, ils: Body, p: nat, x: Instr)
    requires Disciplined(m, ty, ils) && Rewritable(ils, p, x)
    ensures RemovesOnlyPairs(ty, ils, Replaced(ils, p, x))
  {
    hide Uses, Mentions;
    PairIsIsolated(m, ty, ils, p, x);
    RewriteMentions(m, ty, ils, p, x);
    forall o
      ensures Uses(Replaced(ils, p, x), o) == Uses(ils, o) || Uses(Replaced(ils, p, x), o) == 0
    {
      RewriteUses(ils, p, x, o);
    }
    PairVariable(ty, ils, p, x);
  }

  lemma PairVariable(ty: SymbolRef -> OperandType, ils: Body, p: nat, x: Instr)
    requires Rewritable(ils, p, x) && DisciplinedInstr(ty, ils[p]) && ils[p].args[0].sym.Some?
    ensures var t := ils[p].args[0]; t == VariableOperand(ty(t.sym.value), t.sym.value)
    ensures Uses(ils, ils[p].args[0]) == 2
  {
    assert WellFormedOperand(ils[p].args[0]);
  }

  /** `InProgress`, with what has been eliminated so far. */
  ghost predicate Removing(m: Machine, ty: SymbolRef -> OperandType, orig: Body, ils: Body) {
    InProgress(m, ty, orig, ils) && RemovesOnlyPairs(ty, orig, ils)
  }

  lemma RewriteRemoves(m: Machine, ty: SymbolRef -> OperandType, orig: Body, ils: Body, p: nat, x: Instr)
    requires Removing(m, ty, orig, ils) && Rewritable(ils, p, x)
    ensures RemovesOnlyPairs(ty, orig, Replaced(ils, p, x))
  {
    RewriteRemovesPair(m, ty, ils, p, x);
    RemovesTrans(ty, orig, ils, Replaced(ils, p, x));
  }

  lemma VisitRemoves(m: Machine, ty: SymbolRef -> OperandType, orig: Body, ils: Body, i: nat)
    requires Removing(m, ty, orig, ils) && i < |ils|
    ensures Removing(m, ty, orig, VisitAt(orig, ils, i).0)
  {
    hide RemovesOnlyPairs, Uses, Disciplined, Equivalent;
    VisitProgresses(m, ty, orig, ils, i);
    if 0 < i && i + 1 < |ils| {
      if CanFuse(orig, ils[i], ils[i + 1]) {
        UsedWhereItOccurs(ils, i, ils[i].args[0]);
        RewriteRemoves(m, ty, orig, ils, i, Fused(ils[i], ils[i + 1]));
      } else if CanCollapse(orig, ils[i - 1], ils[i]) {
        UsedWhereItOccurs(ils, i - 1, ils[i - 1].args[0]);
        RewriteRemoves(m, ty, orig, ils, i - 1, Retargeted(ils[i - 1], ils[i].args[0]));
      }
    }
  }

  lemma {:induction false} VisitsRemove(m: Machine, ty: SymbolRef -> OperandType, orig: Body, ils: Body, i: nat)
    requires Removing(m, ty, orig, ils) && i <= |ils|
    ensures Removing(m, ty, orig, VisitFrom(orig, ils, i).0)
    decreases |ils| - i
  {
    if i < |ils| {
      VisitRemoves(m, ty, orig, ils, i);
      VisitsRemove(m, ty, orig, VisitAt(orig, ils, i).0, i + 1);
    }
  }

  lemma CleanupRemoves(m: Machine, ty: SymbolRef -> OperandType, ils: Body)
    requires Disciplined(m, ty, ils)
    ensures RemovesOnlyPairs(ty, ils, WithoutNops(ils))
  {
    forall k | 0 <= k < |ils| && ils[k].op == Nop
      ensures ils[k].args == []
    {
      NopsAreBare(ty, ils, k);
    }
    WithoutNopsMentions(ils);
    forall o
      ensures Uses(WithoutNops(ils), o) == Uses(ils, o)
    {
      NopsHaveNoUses(ils, o);
    }
  }

  lemma NothingRemoved(m: Machine, ty: SymbolRef -> OperandType, body: Body)
    requires Disciplined(m, ty, body)
    ensures Removing(m, ty, body, body)
  {
    EquivalentRefl(m, body);
  }

  lemma PassRemoves(m: Machine, ty: SymbolRef -> OperandType, body: Body)
    requires Disciplined(m, ty, body)
    ensures RemovesOnlyPairs(ty, body, Pass(body).0)
  {
    var ils := VisitFrom(body, body, 0).0;
    NothingRemoved(m, ty, body);
    VisitsRemove(m, ty, body, body, 0);
    CleanupRemoves(m, ty, ils);
    RemovesTrans(ty, body, ils, WithoutNops(ils));
  }

  /** The optimizer eliminates only block-local variables with two uses in the function it is given,
      and every operand it keeps is used as often as before. */
  lemma {:induction false} OptimizedRemovesOnlyPairs(m: Machine, ty: SymbolRef -> OperandType, body: Body)
    requires Disciplined(m, ty, body)
    ensures RemovesOnlyPairs(ty, body, Optimized(body))
    decreases |body|
  {
    var (body', changed) := Pass(body);
    PassPreserves(m, ty, body);
    PassRemoves(m, ty, body);
    PassShortens(body);
    if changed {
      OptimizedRemovesOnlyPairs(m, ty, body');
      RemovesTrans(ty, body, body', Optimized(body'));
    }
  }
}
