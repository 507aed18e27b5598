/** The optimizer's side conditions are needed: inputs on which it changes behaviour or stops early. */
module OptimizerLimits {
  import opened Wrappers
  import opened IL
  import opened ILEquivalence
  import opened PeepholeSpec
  import opened OptimizerTheorems

  const BLOCK := Scope(1, Block)
  const T := SymbolRef(BLOCK, "t")
  const L := VariableOperand(I, SymbolRef(BLOCK, "l"))

  /** t := 1 < 2, a branch on it, and a third mention of t under another operand type. */
  const COMPARE := Instr(CompLt, [VariableOperand(I, T), IntOperand(I8, 1), IntOperand(I8, 2)])
  const BRANCH := Instr(BrZ, [VariableOperand(I, T), L])
  const RETURN := Instr(Ret, [VariableOperand(I8, T)])
  const MIXED: Body := [Instr(Label, [L]), COMPARE, BRANCH, RETURN]

  const FUSED := Instr(BrLe, [IntOperand(I8, 2), IntOperand(I8, 1), L])

  lemma UsesOfOne(il: Instr, rest: Body, o: Operand)
    ensures Uses([il] + rest, o) == multiset(il.args)[o] + Uses(rest, o)
  {
    assert ([il] + rest)[1..] == rest;
  }

  lemma MixedUses()
    ensures Uses(MIXED, VariableOperand(I, T)) == 2
  {
    var t := VariableOperand(I, T);
    UsesOfOne(RETURN, [], t);
    UsesOfOne(BRANCH, [RETURN], t);
    UsesOfOne(COMPARE, [BRANCH, RETURN], t);
    UsesOfOne(Instr(Label, [L]), [COMPARE, BRANCH, RETURN], t);
    assert [RETURN] + [] == [RETURN];
    assert [BRANCH] + [RETURN] == [BRANCH, RETURN];
    assert [COMPARE] + [BRANCH, RETURN] == [COMPARE, BRANCH, RETURN];
    assert [Instr(Label, [L])] + [COMPARE, BRANCH, RETURN] == MIXED;
  }

  const AFTER: Body := [Instr(Label, [L]), FUSED, NOP, RETURN]

  lemma MixedVisits()
    ensures VisitAt(MIXED, MIXED, 1) == (AFTER, true)
  {
    MixedUses();
    assert Fused(COMPARE, BRANCH) == FUSED;
    assert CanFuse(MIXED, COMPARE, BRANCH);
    assert Replaced(MIXED, 1, FUSED) == AFTER;
  }

  lemma MixedIsFused()
    ensures Pass(MIXED) == ([Instr(Label, [L]), FUSED, RETURN], true)
  {
    MixedVisits();
    assert VisitFrom(MIXED, AFTER, 4) == (AFTER, false);
    assert VisitFrom(MIXED, AFTER, 3) == (AFTER, false);
    assert VisitFrom(MIXED, AFTER, 2) == (AFTER, false);
    assert VisitFrom(MIXED, MIXED, 1) == (AFTER, true);
    assert VisitFrom(MIXED, MIXED, 0) == (AFTER, true);
    AfterWithoutNops();
  }

  lemma FirstOfWithoutNops(il: Instr, rest: Body)
    ensures WithoutNops([il] + rest) == if il.op == Nop then WithoutNops(rest) else [il] + WithoutNops(rest)
  {
    assert ([il] + rest)[1..] == rest;
  }

  lemma ThirdIsDropped(a: Instr, b: Instr, rest: Body)
    requires a.op != Nop && b.op != Nop && WithoutNops(rest) == rest
    ensures WithoutNops([a, b, NOP] + rest) == [a, b] + rest
  {
    hide WithoutNops;
    var tail := [NOP] + rest;
    var tail' := [b] + tail;
    FirstOfWithoutNops(NOP, rest);
    FirstOfWithoutNops(b, tail);
    FirstOfWithoutNops(a, tail');
    assert WithoutNops([a] + tail') == [a] + ([b] + rest);
    assert [a] + tail' == [a, b, NOP] + rest;
    assert [a] + ([b] + rest) == [a, b] + rest;
  }

  lemma AfterWithoutNops()
    ensures WithoutNops(AFTER) == [Instr(Label, [L]), FUSED, RETURN]
  {
    FirstOfWithoutNops(RETURN, []);
    assert [RETURN] + [] == [RETURN];
    ThirdIsDropped(Instr(Label, [L]), FUSED, [RETURN]);
    assert [Instr(Label, [L]), FUSED, NOP] + [RETURN] == AFTER;
  }

  /** Runs of a body whose instructions fall through, spelled out. */
  lemma RunThree(m: Machine, b: Body, c: Config, n: nat)
    ensures Run(m, b, c, n + 3) == Run(m, b, Step(m, b, Step(m, b, Step(m, b, c))), n)
  {
    var d := Step(m, b, c);
    var e := Step(m, b, d);
    assert Run(m, b, c, n + 3) == Run(m, b, d, n + 2);
    assert Run(m, b, d, n + 2) == Run(m, b, e, n + 1);
    assert Run(m, b, e, n + 1) == Run(m, b, Step(m, b, e), n);
  }

  lemma LabelAndReturnSteps(m: Machine, b: Body, pc: nat, st: State)
    requires pc < |b|
    ensures b[pc] == Instr(Label, [L]) ==> Step(m, b, At(pc, st)) == At(pc + 1, st)
    ensures b[pc] == RETURN ==> Step(m, b, At(pc, st)) == Returned(Some(Read(st, T)), st)
  {
  }

  lemma CompareSteps(m: Machine, b: Body, pc: nat, st: State)
    requires pc < |b|
    ensures b[pc] == COMPARE ==> Step(m, b, At(pc, st)) == At(pc + 1, Write(st, VariableOperand(I, T), 1))
  {
  }

  lemma BranchSteps(m: Machine, b: Body, pc: nat, st: State)
    requires pc < |b|
    ensures b[pc] == BRANCH && Read(st, T) == 1 ==> Step(m, b, At(pc, st)) == At(pc + 1, st)
    ensures b[pc] == FUSED ==> Step(m, b, At(pc, st)) == At(pc + 1, st)
  {
  }

  lemma MixedReturnsOne(m: Machine, st: State)
    ensures Run(m, MIXED, At(0, st), 4) == Returned(Some(1), Write(st, VariableOperand(I, T), 1))
  {
    var st' := Write(st, VariableOperand(I, T), 1);
    LabelAndReturnSteps(m, MIXED, 0, st);
    CompareSteps(m, MIXED, 1, st);
    BranchSteps(m, MIXED, 2, st');
    LabelAndReturnSteps(m, MIXED, 3, st');
    RunThree(m, MIXED, At(0, st), 1);
    assert Run(m, MIXED, At(3, st'), 1) == Run(m, MIXED, Returned(Some(1), st'), 0);
  }

  lemma FusedReturnsInitial(m: Machine, b: Body, st: State, n: nat)
    requires b == [Instr(Label, [L]), FUSED, RETURN]
    requires Final(b, Run(m, b, At(0, st), n))
    ensures Run(m, b, At(0, st), n) == Returned(Some(Read(st, T)), st)
  {
    var end := Returned(Some(Read(st, T)), st);
    LabelAndReturnSteps(m, b, 0, st);
    BranchSteps(m, b, 1, st);
    LabelAndReturnSteps(m, b, 2, st);
    RunThree(m, b, At(0, st), n);
    RunFinal(m, b, end, n);
    RunSplit(m, b, At(0, st), n, 3);
    RunFinal(m, b, Run(m, b, At(0, st), n), 3);
  }

  lemma DifferentOutcomes(m: Machine, b: Body, st: State, n: nat, removed: set<SymbolRef>)
    requires b == [Instr(Label, [L]), FUSED, RETURN] && Read(st, T) == 5
    requires Final(b, Run(m, b, At(0, st), n))
    ensures !SameOutcome(removed, Run(m, MIXED, At(0, st), 4), Run(m, b, At(0, st), n))
  {
    MixedReturnsOne(m, st);
    FusedReturnsInitial(m, b, st, n);
  }

  /** Uses are counted per operand type, so a mention of the variable under another type is
      overlooked and, on every machine, the pass changes what the function returns. */
  lemma OneTypePerVariableIsNeeded(m: Machine)
    ensures Pass(MIXED).1 && !Equivalent(m, MIXED, Pass(MIXED).0)
  {
    MixedIsFused();
    var b := Pass(MIXED).0;
    var st := State(map[T := 5], map[]);
    MixedReturnsOne(m, st);
    var removed := Removed(MIXED, b);
    assert Agree(removed, st, st);
    forall n: nat | Final(b, Run(m, b, At(0, st), n))
      ensures !SameOutcome(removed, Run(m, MIXED, At(0, st), 4), Run(m, b, At(0, st), n))
    {
      DifferentOutcomes(m, b, st, n, removed);
    }
    assert Final(MIXED, Run(m, MIXED, At(0, st), 4));
    assert !HaltsAlike(m, MIXED, st, b, st, removed);
  }

  // ----- A pair behind a Nop -----

  const LEAVE := Instr(Ret, [])
  const HIDDEN: Body := [Instr(Label, [L]), COMPARE, NOP, BRANCH, LEAVE]
  const BARED: Body := [Instr(Label, [L]), COMPARE, BRANCH, LEAVE]

  lemma BaredUses()
    ensures Uses(BARED, VariableOperand(I, T)) == 2
  {
    var t := VariableOperand(I, T);
    UsesOfOne(LEAVE, [], t);
    UsesOfOne(BRANCH, [LEAVE] + [], t);
    UsesOfOne(COMPARE, [BRANCH] + ([LEAVE] + []), t);
    UsesOfOne(Instr(Label, [L]), [COMPARE] + ([BRANCH] + ([LEAVE] + [])), t);
    assert [Instr(Label, [L])] + ([COMPARE] + ([BRANCH] + ([LEAVE] + []))) == BARED;
  }

  lemma HiddenWithoutNops()
    ensures WithoutNops(HIDDEN) == BARED
  {
    FirstOfWithoutNops(LEAVE, []);
    assert [LEAVE] + [] == [LEAVE];
    FirstOfWithoutNops(BRANCH, [LEAVE]);
    assert [BRANCH] + [LEAVE] == [BRANCH, LEAVE];
    ThirdIsDropped(Instr(Label, [L]), COMPARE, [BRANCH, LEAVE]);
    assert [Instr(Label, [L]), COMPARE, NOP] + [BRANCH, LEAVE] == HIDDEN;
  }

  lemma HiddenHasNoRedex()
    ensures NoRedex(HIDDEN)
  {
    forall p | 0 <= p < |HIDDEN|
      ensures !RedexAt(HIDDEN, p)
    {
      assert p == 0 || p == 1 || p == 2 || p == 3 || p == 4;
    }
  }

  /** With a Nop between comparison and branch the optimizer stops one pass too early. */
  lemma NopsHideRedexes()
    ensures !Settled(Optimized(HIDDEN)) && RedexAt(Optimized(HIDDEN), 1)
  {
    HiddenWithoutNops();
    BaredUses();
    HiddenHasNoRedex();
    UnchangedIffNoRedex(HIDDEN);
    PassShortens(HIDDEN);
    assert RedexAt(BARED, 1);
    OptimizedSettlesIff(HIDDEN);
  }
}
