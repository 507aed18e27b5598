/** The peephole pass, and its repetition to a fixpoint, preserve behaviour. */
module PeepholeProof {
  import opened Wrappers
  import opened IL
  import opened ILEquivalence
  import opened PeepholeSpec
  import opened PeepholeRewrite

  // ----- One rewriting -----

  lemma {:induction false} LabelsMatch(b: Body, b': Body, sym: Option<SymbolRef>)
    requires |b| == |b'|
    requires forall k :: 0 <= k < |b| ==> (IsLabel(b[k], sym) <==> IsLabel(b'[k], sym))
    ensures FindLabel(b, sym) == FindLabel(b', sym)
  {
    if b != [] && !IsLabel(b[|b| - 1], sym) {
      LabelsMatch(b[..|b| - 1], b'[..|b| - 1], sym);
    }
  }

  lemma RewrittenOpcodes(body: Body, p: nat, x: Instr)
    requires Rewritable(body, p, x)
    ensures x.op != Label && body[p].op != Label && body[p + 1].op != Label
    ensures x.op != Lda && body[p].op != Lda && body[p + 1].op != Lda
  {
    hide Uses;
    if FusesAt(body, p, x) {
      FusedOpcodes(body[p].op, body[p + 1].op == BrNz);
    }
  }

  lemma FusedOpcodes(cmp: Opcode, onTrue: bool)
    requires IsCompare(cmp)
    ensures var op := FusedOpcode(cmp, onTrue);
      op.BrLt? || op.BrLe? || op.BrEq? || op.BrNe?
  {
  }

  lemma ReplacementOpcodes(body: Body, p: nat, x: Instr)
    requires Rewritable(body, p, x)
    ensures forall sym :: !IsLabel(x, sym) && !IsLabel(body[p], sym) && !IsLabel(body[p + 1], sym)
    ensures forall v :: !TakesAddress(x, v) && !TakesAddress(body[p], v) && !TakesAddress(body[p + 1], v)
  {
    hide IsLabel, TakesAddress;
    RewrittenOpcodes(body, p, x);
    NotLabelNorAddress(x);
    NotLabelNorAddress(body[p]);
    NotLabelNorAddress(body[p + 1]);
  }

  lemma NotLabelNorAddress(il: Instr)
    requires il.op != Label && il.op != Lda
    ensures forall sym :: !IsLabel(il, sym)
    ensures forall v :: !TakesAddress(il, v)
  {
  }

  lemma ReplacedLabels(body: Body, p: nat, x: Instr)
    requires Rewritable(body, p, x)
    ensures SameLabels(body, Replaced(body, p, x))
  {
    ReplacementOpcodes(body, p, x);
    forall sym
      ensures FindLabel(body, sym) == FindLabel(Replaced(body, p, x), sym)
    {
      LabelsMatch(body, Replaced(body, p, x), sym);
    }
  }

  lemma RunFinalOr(m: Machine, body: Body, c: Config)
    ensures Final(body, c) ==> Run(m, body, c, 1) == c
  {
    if Final(body, c) { RunFinal(m, body, c, 1); }
  }

  lemma StepElsewhere(m: Machine, t: SymbolRef, body: Body, body': Body, p: nat, c: Config, c': Config)
    requires |body| == |body'| && p + 1 < |body| && body[p + 1].op != Label && SameLabels(body, body') && !m.escapes(t)
    requires PairRel(t, p, c, c') && (c.At? ==> c.pc != p)
    requires c.At? && c.pc < |body| ==> body'[c.pc] == body[c.pc] && Avoids(t, body[c.pc])
    ensures PairRel(t, p, Run(m, body, c, 1), Run(m, body', c', 1))
  {
    TwoSteps(m, body, c);
    TwoSteps(m, body', c');
    if !Final(body, c) {
      StepAgrees(m, t, body, body', body[c.pc], c.pc, c.st, c'.st);
    }
  }

  /** From related configurations, a step or two of each run lead to related ones. */
  lemma RewriteAdvances(m: Machine, t: SymbolRef, body: Body, p: nat, x: Instr, c: Config, c': Config) returns (a: nat, a': nat)
    requires Rewritable(body, p, x) && Isolated(body, p, t) && !m.escapes(t) && SameLabels(body, Replaced(body, p, x))
    requires (CollapsesAt(body, p, x) ==> body[p + 1].args[0].sym.Some?) && body[p + 1].op != Label
    requires PairRel(t, p, c, c')
    ensures 1 <= a <= 2 && 1 <= a' <= 2
    ensures PairRel(t, p, Run(m, body, c, a), Run(m, Replaced(body, p, x), c', a'))
    ensures Final(body, c) ==> Final(Replaced(body, p, x), Run(m, Replaced(body, p, x), c', a'))
    ensures Final(Replaced(body, p, x), c') ==> Final(body, Run(m, body, c, a))
  {
    RunFinalOr(m, body, c);
    RunFinalOr(m, Replaced(body, p, x), c');
    if c.At? && c.pc == p {
      if FusesAt(body, p, x) {
        a, a' := FuseAdvances(m, t, body, p, x, c.st, c'.st);
      } else {
        a, a' := CollapseAdvances(m, t, body, p, x, c.st, c'.st);
      }
    } else {
      a, a' := 1, 1;
      assert c.At? && c.pc < |body| ==> Avoids(t, body[c.pc]);
      StepElsewhere(m, t, body, Replaced(body, p, x), p, c, c');
    }
  }

  lemma RewriteBisimulates(m: Machine, ty: SymbolRef -> OperandType, body: Body, p: nat, x: Instr)
    requires Disciplined(m, ty, body) && Rewritable(body, p, x)
    requires body[p].args[0].sym.Some?
    ensures var t := body[p].args[0].sym.value;
      Bisimulates(m, body, Replaced(body, p, x), (c: Config, c': Config) => PairRel(t, p, c, c'), 2)
  {
    var t := body[p].args[0].sym.value;
    var body' := Replaced(body, p, x);
    var rel := (c: Config, c': Config) => PairRel(t, p, c, c');
    PairIsIsolated(m, ty, body, p, x);
    IsolatedIsPrivate(m, ty, body, p, x);
    ReplacedLabels(body, p, x);
    RewrittenOpcodes(body, p, x);
    assert DisciplinedInstr(ty, body[p + 1]) && WellFormedOperand(body[p + 1].args[0]);
    forall c, c' | rel(c, c')
      ensures Advances(m, body, body', rel, 2, c, c')
    {
      var a, a' := RewriteAdvances(m, t, body, p, x, c, c');
      assert rel(Run(m, body, c, a), Run(m, body', c', a'));
    }
  }

  lemma ThreeOperands(args: seq<Operand>)
    requires |args| == 3
    ensures multiset(args) == multiset{args[0], args[1], args[2]}
  {
    assert args == [args[0], args[1], args[2]];
  }

  lemma FusedOperands(il: Instr, il2: Instr, x: Instr)
    requires |il.args| == 3 && |il2.args| == 2 && il2.args[0] == il.args[0] && BranchOn(x, il, il2)
    ensures var t := il.args[0];
      multiset(il.args) + multiset(il2.args) == multiset(x.args) + multiset{t, t}
  {
    var t, a, b, l := il.args[0], il.args[1], il.args[2], il2.args[1];
    ThreeOperands(il.args);
    assert multiset(x.args) == multiset{a, b, l} by {
      ThreeOperands(x.args);
    }
    assert il2.args == [t, l];
    OperandSum(t, a, b, l);
  }

  lemma OperandSum(t: Operand, a: Operand, b: Operand, l: Operand)
    ensures multiset{t, a, b} + multiset{t, l} == multiset{a, b, l} + multiset{t, t}
  {
  }

  lemma RetargetedOperands(il: Instr, il2: Instr)
    requires |il.args| >= 1 && |il2.args| == 2 && il2.args[1] == il.args[0]
    ensures var t := il.args[0];
      multiset(il.args) + multiset(il2.args) == multiset(Retargeted(il, il2.args[0]).args) + multiset{t, t}
  {
    assert il.args == [il.args[0]] + il.args[1..];
    assert il2.args == [il2.args[0], il.args[0]];
  }

  lemma ReplacedOperands(body: Body, p: nat, x: Instr)
    requires Rewritable(body, p, x)
    ensures var t := body[p].args[0];
      multiset(body[p].args) + multiset(body[p + 1].args) == multiset(x.args) + multiset{t, t}
  {
    if FusesAt(body, p, x) {
      FusedOperands(body[p], body[p + 1], x);
    } else {
      RetargetedOperands(body[p], body[p + 1]);
    }
  }

  lemma PairMentions(il: Instr, il2: Instr, x: Instr, t: Operand)
    requires multiset(il.args) + multiset(il2.args) == multiset(x.args) + multiset{t, t}
    requires t.sym.Some? && Avoids(t.sym.value, x)
    ensures InstrMentions(x) == InstrMentions(il) + InstrMentions(il2) - {t.sym.value}
  {
    forall o: Operand | o.sym != t.sym
      ensures o in x.args <==> o in il.args || o in il2.args
    {
      assert (multiset(il.args) + multiset(il2.args))[o] == (multiset(x.args) + multiset{t, t})[o];
      assert o in x.args <==> multiset(x.args)[o] > 0;
      assert o in il.args <==> multiset(il.args)[o] > 0;
      assert o in il2.args <==> multiset(il2.args)[o] > 0;
    }
  }

  lemma ReplacedMentions(body: Body, p: nat, x: Instr, t: SymbolRef)
    requires p + 1 < |body| && t in InstrMentions(body[p])
    requires forall k :: 0 <= k < |body| && k != p && k != p + 1 ==> t !in InstrMentions(body[k])
    requires InstrMentions(x) == InstrMentions(body[p]) + InstrMentions(body[p + 1]) - {t}
    ensures Mentions(Replaced(body, p, x)) == Mentions(body) - {t} && t in Mentions(body)
  {
    var body' := Replaced(body, p, x);
    assert InstrMentions(NOP) == {};
    forall u | u in Mentions(body')
      ensures u in Mentions(body) && u != t
    {
      var k :| 0 <= k < |body'| && u in InstrMentions(body'[k]);
      assert k == p || u in InstrMentions(body[k]);
    }
    forall u | u in Mentions(body) && u != t
      ensures u in Mentions(body')
    {
      var k :| 0 <= k < |body| && u in InstrMentions(body[k]);
      assert u in InstrMentions(body'[if k == p + 1 then p else k]);
    }
  }

  lemma ReplacementAvoids(body: Body, p: nat, x: Instr, t: SymbolRef)
    requires Rewritable(body, p, x) && Isolated(body, p, t)
    ensures Avoids(t, x)
  {
  }

  lemma RewriteMentions(m: Machine, ty: SymbolRef -> OperandType, body: Body, p: nat, x: Instr)
    requires Disciplined(m, ty, body) && Rewritable(body, p, x)
    ensures body[p].args[0].sym.Some?
    ensures Mentions(Replaced(body, p, x)) == Mentions(body) - {body[p].args[0].sym.value}
    ensures body[p].args[0].sym.value in Mentions(body)
  {
    PairIsIsolated(m, ty, body, p, x);
    ReplacedOperands(body, p, x);
    var t := body[p].args[0];
    ReplacementAvoids(body, p, x, t.sym.value);
    PairMentions(body[p], body[p + 1], x, t);
    assert t in body[p].args;
    forall k | 0 <= k < |body| && k != p && k != p + 1
      ensures t.sym.value !in InstrMentions(body[k])
    {
      assert Avoids(t.sym.value, body[k]);
    }
    ReplacedMentions(body, p, x, t.sym.value);
  }

  lemma FusedIsDisciplined(ty: SymbolRef -> OperandType, il: Instr, il2: Instr, x: Instr)
    requires DisciplinedInstr(ty, il) && DisciplinedInstr(ty, il2) && |il.args| == 3 && |il2.args| == 2 && BranchOn(x, il, il2)
    ensures DisciplinedInstr(ty, x)
  {
    FusedIsShaped(il, il2, x);
    BranchIsNoResult(x.op);
    hide Equal, WellFormedOperand;
    hide Shaped, IsCompare, IsMove, IsDefinition, IsCompareBranch;
    OperandTyped(ty, il, 1);
    OperandTyped(ty, il, 2);
    OperandTyped(ty, il2, 1);
  }

  lemma OperandTyped(ty: SymbolRef -> OperandType, il: Instr, k: nat)
    requires DisciplinedInstr(ty, il) && k < |il.args|
    ensures il.args[k].sym.Some? ==> il.args[k].ty == ty(il.args[k].sym.value)
  {
  }

  lemma BranchIsNoResult(op: Opcode)
    requires IsCompareBranch(op)
    ensures !IsCompare(op) && !IsMove(op) && !IsDefinition(op)
  {
  }

  lemma RetargetedIsDisciplined(ty: SymbolRef -> OperandType, prev: Instr, dest: Operand, x: Instr)
    requires DisciplinedInstr(ty, prev) && WellFormedOperand(dest) && dest.kind == Variable && dest.ty == ty(dest.sym.value)
    requires |prev.args| >= 1 && !IsCompare(prev.op) && x == Retargeted(prev, dest)
    ensures DisciplinedInstr(ty, x)
  {
    RetargetedIsShaped(prev, dest, x);
  }

  lemma ReplacementDisciplined(ty: SymbolRef -> OperandType, body: Body, p: nat, x: Instr)
    requires Rewritable(body, p, x)
    requires DisciplinedInstr(ty, body[p]) && DisciplinedInstr(ty, body[p + 1])
    ensures DisciplinedInstr(ty, x)
  {
    if FusesAt(body, p, x) {
      FusedIsDisciplined(ty, body[p], body[p + 1], x);
    } else {
      var dest := body[p + 1].args[0];
      assert WellFormedOperand(dest);
      CollapsibleIsNoCompare(body[p].op);
      RetargetedIsDisciplined(ty, body[p], dest, x);
    }
  }

  lemma CollapsibleIsNoCompare(op: Opcode)
    requires Collapsible(op)
    ensures !IsCompare(op)
  {
  }

  lemma NopIsDisciplined(ty: SymbolRef -> OperandType)
    ensures DisciplinedInstr(ty, NOP)
  {
  }

  lemma ReplacedKeepsAddresses(body: Body, p: nat, x: Instr, v: SymbolRef)
    requires p + 1 < |body| && body[p].op != Lda && body[p + 1].op != Lda && AddressTaken(body, v)
    ensures AddressTaken(Replaced(body, p, x), v)
  {
    var k :| 0 <= k < |body| && TakesAddress(body[k], v);
    assert TakesAddress(Replaced(body, p, x)[k], v);
  }

  lemma RewriteDisciplined(m: Machine, ty: SymbolRef -> OperandType, body: Body, p: nat, x: Instr)
    requires Disciplined(m, ty, body) && Rewritable(body, p, x)
    ensures Disciplined(m, ty, Replaced(body, p, x))
  {
    var body' := Replaced(body, p, x);
    assert DisciplinedInstr(ty, body[p]) && DisciplinedInstr(ty, body[p + 1]);
    ReplacementDisciplined(ty, body, p, x);
    NopIsDisciplined(ty);
    RewrittenOpcodes(body, p, x);
    forall k | 0 <= k < |body|
      ensures DisciplinedInstr(ty, body'[k])
    {
      assert DisciplinedInstr(ty, body[k]);
    }
    forall v | AddressTaken(body, v)
      ensures AddressTaken(body', v)
    {
      ReplacedKeepsAddresses(body, p, x, v);
    }
  }

  lemma RewritePreserves(m: Machine, ty: SymbolRef -> OperandType, body: Body, p: nat, x: Instr)
    requires Disciplined(m, ty, body) && Rewritable(body, p, x)
    ensures Equivalent(m, body, Replaced(body, p, x)) && Disciplined(m, ty, Replaced(body, p, x))
  {
    var body' := Replaced(body, p, x);
    RewriteMentions(m, ty, body, p, x);
    RewriteDisciplined(m, ty, body, p, x);
    RewriteBisimulates(m, ty, body, p, x);
    var t := body[p].args[0].sym.value;
    var rel := (c: Config, c': Config) => PairRel(t, p, c, c');
    assert Removed(body, body') == {t};
    forall st, st' | Agree({t}, st, st')
      ensures HaltsAlike(m, body, st, body', st', {t}) && HaltsAlike(m, body', st', body, st, {t})
    {
      BisimulationSuffices(m, body, body', rel, 2, {t}, st, st');
    }
  }

  /** A rewriting removes both uses of the variable it eliminates and no other use. */
  lemma RewriteUses(body: Body, p: nat, x: Instr, o: Operand)
    requires Rewritable(body, p, x)
    ensures Uses(Replaced(body, p, x), o) == if o == body[p].args[0] then 0 else Uses(body, o)
  {
    var t := body[p].args[0];
    ReplacedOperands(body, p, x);
    RewritableUses(body, p, x);
    hide Rewritable, Uses;
    ReplacedUses(body, p, x, t, o);
    if o == t { UsedOnlyByPair(body, p, t); }
  }

  lemma RewritableUses(body: Body, p: nat, x: Instr)
    requires Rewritable(body, p, x)
    ensures var t := body[p].args[0]; Uses(body, t) == 2 && t in body[p].args && t in body[p + 1].args
  {
    hide Uses;
    var t := body[p].args[0];
    assert t == body[p + 1].args[if FusesAt(body, p, x) then 0 else 1];
  }

  lemma ReplacedUses(body: Body, p: nat, x: Instr, t: Operand, o: Operand)
    requires p + 1 < |body|
    requires multiset(body[p].args) + multiset(body[p + 1].args) == multiset(x.args) + multiset{t, t}
    ensures Uses(body, o) == Uses(Replaced(body, p, x), o) + if o == t then 2 else 0
  {
    hide Uses;
    var body' := Replaced(body, p, x);
    UsesAround(body, p, o);
    UsesAround(body', p, o);
    assert body'[..p] == body[..p] && body'[p + 2..] == body[p + 2..];
    assert multiset(body'[p + 1].args)[o] == 0;
    assert (multiset(body[p].args) + multiset(body[p + 1].args))[o] == (multiset(x.args) + multiset{t, t})[o];
  }
}
