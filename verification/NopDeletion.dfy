/** Deleting Nops preserves behaviour, labels included. */
module NopDeletion {
  import opened Wrappers
  import opened IL
  import opened ILEquivalence
  import opened PeepholeSpec
  import opened PeepholeRewrite

  /** Where the instruction at `k` ends up. */
  function Relocated(body: Body, k: nat): nat
    requires k <= |body|
  {
    |WithoutNops(body[..k])|
  }

  lemma {:induction false} WithoutNopsAppend(a: Body, b: Body)
    ensures WithoutNops(a + b) == WithoutNops(a) + WithoutNops(b)
  {
    if a == [] {
      assert a + b == b;
    } else {
      assert (a + b)[1..] == a[1..] + b;
      WithoutNopsAppend(a[1..], b);
    }
  }

  lemma RelocatedStep(body: Body, k: nat)
    requires k < |body|
    ensures body[k].op == Nop ==> Relocated(body, k + 1) == Relocated(body, k)
    ensures body[k].op != Nop ==> Relocated(body, k + 1) == Relocated(body, k) + 1 <= |WithoutNops(body)|
    ensures body[k].op != Nop ==> WithoutNops(body)[Relocated(body, k)] == body[k]
  {
    WithoutNopsOne(body[k]);
    hide WithoutNops;
    assert body[..k + 1] == body[..k] + [body[k]];
    WithoutNopsAppend(body[..k], [body[k]]);
    assert body == body[..k + 1] + body[k + 1..];
    WithoutNopsAppend(body[..k + 1], body[k + 1..]);
  }

  lemma WithoutNopsOne(il: Instr)
    ensures WithoutNops([il]) == if il.op == Nop then [] else [il]
  {
    assert [il][1..] == [];
  }

  lemma FindLabelAppend(front: Body, il: Instr, sym: Option<SymbolRef>)
    ensures FindLabel(front + [il], sym) == if IsLabel(il, sym) then |front| else FindLabel(front, sym)
  {
    assert (front + [il])[..|front|] == front;
  }

  lemma WithoutNopsLast(front: Body, il: Instr)
    ensures WithoutNops(front + [il]) == if il.op == Nop then WithoutNops(front) else WithoutNops(front) + [il]
  {
    WithoutNopsAppend(front, [il]);
    assert WithoutNops([il]) == if il.op == Nop then [] else [il];
  }

  lemma NoLabels(sym: Option<SymbolRef>)
    ensures FindLabel([], sym) == -1 && WithoutNops([]) == []
  {
  }

  lemma {:induction false} FindLabelWithoutNops(body: Body, sym: Option<SymbolRef>)
    ensures var l := FindLabel(body, sym);
      FindLabel(WithoutNops(body), sym) == if l < 0 then -1 else Relocated(body, l)
  {
    hide WithoutNops, FindLabel;
    if body == [] {
      NoLabels(sym);
    } else {
      var n := |body| - 1;
      var front, il := body[..n], body[n];
      FindLabelWithoutNops(front, sym);
      assert body == front + [il];
      WithoutNopsLast(front, il);
      FindLabelAppend(front, il, sym);
      FindLabelAppend(WithoutNops(front), il, sym);
      var l := FindLabel(front, sym);
      if l >= 0 { assert body[..l] == front[..l]; }
    }
  }

  /** The same state, at corresponding positions. */
  ghost predicate NopRel(body: Body, c: Config, c': Config) {
    SameOutcome({}, c, c') &&
    (c.At? ==> c.pc <= |body| && c'.pc == Relocated(body, c.pc) && c.st == c'.st) &&
    (!c.At? ==> c == c')
  }

  lemma NopSteps(m: Machine, body: Body, pc: nat, st: State)
    requires pc < |body| && body[pc].op == Nop
    ensures Step(m, body, At(pc, st)) == At(pc + 1, st)
  {
  }

  lemma {:induction false} SkipNops(m: Machine, body: Body, pc: nat, st: State) returns (a: nat, q: nat)
    requires pc <= |body|
    ensures pc <= q <= |body| && a == q - pc && Run(m, body, At(pc, st), a) == At(q, st)
    ensures Relocated(body, q) == Relocated(body, pc) && (q < |body| ==> body[q].op != Nop)
    decreases |body| - pc
  {
    hide Step, Relocated;
    if pc == |body| || body[pc].op != Nop {
      a, q := 0, pc;
    } else {
      RelocatedStep(body, pc);
      a, q := SkipNops(m, body, pc + 1, st);
      a := a + 1;
      NopSteps(m, body, pc, st);
    }
  }

  lemma JumpMoves(body: Body, target: Operand, st: State)
    ensures NopRel(body, Jump(body, target, st), Jump(WithoutNops(body), target, st))
  {
    FindLabelWithoutNops(body, target.sym);
    SameAgrees(st);
  }

  lemma SameAgrees(st: State)
    ensures Agree({}, st, st)
  {
  }

  lemma BranchMoves(body: Body, q: nat, st: State)
    requires q < |body| && IsControl(body[q].op) && body[q].op != Nop && |body[q].args| >= Arity(body[q].op)
    ensures NopRel(body, StepControl(body, body[q], q, st),
                   StepControl(WithoutNops(body), body[q], Relocated(body, q), st))
  {
    var il := body[q];
    RelocatedStep(body, q);
    SameAgrees(st);
    if il.op == BrZ || il.op == BrNz {
      JumpMoves(body, il.args[1], st);
    } else if il.op == Br {
      JumpMoves(body, il.args[0], st);
    } else if IsCompareBranch(il.op) {
      JumpMoves(body, il.args[2], st);
    }
  }

  lemma StepMoves(m: Machine, body: Body, q: nat, st: State)
    requires q < |body| && body[q].op != Nop
    ensures NopRel(body, StepInstr(m, body, body[q], q, st),
                   StepInstr(m, WithoutNops(body), body[q], Relocated(body, q), st))
  {
    var il := body[q];
    RelocatedStep(body, q);
    if |il.args| >= Arity(il.op) {
      if IsControl(il.op) {
        BranchMoves(body, q, st);
      } else {
        var r := Exec(m, il, st);
        if r.Some? { SameAgrees(r.value); }
      }
    }
  }

  lemma AllRelocated(body: Body)
    ensures Relocated(body, |body|) == |WithoutNops(body)|
  {
    assert body[..|body|] == body;
  }

  lemma StepOfFinal(m: Machine, body: Body, c: Config)
    ensures Final(body, c) ==> Step(m, body, c) == c
    ensures !Final(body, c) ==> Step(m, body, c) == StepInstr(m, body, body[c.pc], c.pc, c.st)
  {
  }

  lemma NopAdvances(m: Machine, body: Body, c: Config, c': Config) returns (a: nat)
    requires NopRel(body, c, c')
    ensures 1 <= a <= |body| + 1
    ensures NopRel(body, Run(m, body, c, a), Run(m, WithoutNops(body), c', 1))
    ensures Final(body, c) ==> Final(WithoutNops(body), Run(m, WithoutNops(body), c', 1))
    ensures Final(WithoutNops(body), c') ==> Final(body, Run(m, body, c, a))
  {
    hide Step, StepInstr, WithoutNops;
    var body' := WithoutNops(body);
    assert Run(m, body', c', 1) == Run(m, body', Step(m, body', c'), 0);
    StepOfFinal(m, body', c');
    assert body[..|body|] == body;
    AllRelocated(body);
    if !c.At? {
      a := 1;
      RunFinal(m, body, c, 1);
    } else {
      var k, q := SkipNops(m, body, c.pc, c.st);
      if q == |body| {
        a := if k == 0 then 1 else k;
        if k == 0 { RunFinal(m, body, c, 1); }
      } else {
        a := k + 1;
        RelocatedStep(body, q);
        RunSplit(m, body, c, k, 1);
        var d := At(q, c.st);
        assert Run(m, body, d, 1) == Run(m, body, Step(m, body, d), 0);
        StepOfFinal(m, body, d);
        StepMoves(m, body, q, c.st);
      }
    }
  }

  lemma {:induction false} WithoutNopsMentions(body: Body)
    requires forall k :: 0 <= k < |body| && body[k].op == Nop ==> body[k].args == []
    ensures Mentions(WithoutNops(body)) == Mentions(body)
  {
    var body' := WithoutNops(body);
    WithoutNopsShape(body);
    forall v | v in Mentions(body)
      ensures v in Mentions(body')
    {
      var k :| 0 <= k < |body| && v in InstrMentions(body[k]);
      RelocatedStep(body, k);
      assert v in InstrMentions(body'[Relocated(body, k)]);
    }
  }

  lemma NopsBisimulate(m: Machine, body: Body)
    ensures Bisimulates(m, body, WithoutNops(body), (c: Config, c': Config) => NopRel(body, c, c'), |body| + 1)
  {
    var body' := WithoutNops(body);
    var rel := (c: Config, c': Config) => NopRel(body, c, c');
    forall c, c' | rel(c, c')
      ensures Advances(m, body, body', rel, |body| + 1, c, c')
    {
      var a := NopAdvances(m, body, c, c');
      assert rel(Run(m, body, c, a), Run(m, body', c', 1));
    }
  }

  lemma AgreeOnAll(st: State, st': State)
    requires Agree({}, st, st')
    ensures st == st'
  {
    assert st.vars - {} == st.vars && st'.vars - {} == st'.vars;
  }

  lemma WithoutNopsEquivalent(m: Machine, body: Body)
    requires forall k :: 0 <= k < |body| && body[k].op == Nop ==> body[k].args == []
    ensures Equivalent(m, body, WithoutNops(body))
  {
    var body' := WithoutNops(body);
    WithoutNopsMentions(body);
    NopsBisimulate(m, body);
    assert Removed(body, body') == {};
    var rel := (c: Config, c': Config) => NopRel(body, c, c');
    forall st, st' | Agree({}, st, st')
      ensures HaltsAlike(m, body, st, body', st', {}) && HaltsAlike(m, body', st', body, st, {})
    {
      AgreeOnAll(st, st');
      assert NopRel(body, At(0, st), At(0, st'));
      BisimulationSuffices(m, body, body', rel, |body| + 1, {}, st, st');
    }
  }

  lemma WithoutNopsDisciplined(m: Machine, ty: SymbolRef -> OperandType, body: Body)
    requires Disciplined(m, ty, body)
    ensures Disciplined(m, ty, WithoutNops(body))
  {
    var body' := WithoutNops(body);
    WithoutNopsShape(body);
    forall k | 0 <= k < |body'|
      ensures DisciplinedInstr(ty, body'[k])
    {
      var j :| 0 <= j < |body| && body[j] == body'[k];
      assert DisciplinedInstr(ty, body[j]);
    }
    forall v | AddressTaken(body, v)
      ensures AddressTaken(body', v)
    {
      var k :| 0 <= k < |body| && TakesAddress(body[k], v);
      RelocatedStep(body, k);
      assert TakesAddress(body'[Relocated(body, k)], v);
    }
  }
}
