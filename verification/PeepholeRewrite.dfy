/** One rewriting of the peephole pass preserves the behaviour of the function it is applied to. */
module PeepholeRewrite {
  import opened Wrappers
  import opened IL
  import opened ILEquivalence
  import opened PeepholeSpec

  // ----- The side conditions -----

  predicate AddressTaken(body: Body, v: SymbolRef) {
    exists k :: 0 <= k < |body| && TakesAddress(body[k], v)
  }

  predicate TakesAddress(il: Instr, v: SymbolRef) {
    il.op == Lda && |il.args| == 2 && il.args[1].sym == Some(v)
  }

  /** Every mention of a variable carries the type `ty` gives it; results go to
      variables, and those of comparisons to block-local ones. */
  predicate DisciplinedInstr(ty: SymbolRef -> OperandType, il: Instr) {
    Shaped(il) &&
    (forall k :: 0 <= k < |il.args| && il.args[k].sym.Some? ==> il.args[k].ty == ty(il.args[k].sym.value)) &&
    (IsCompare(il.op) || IsMove(il.op) || IsDefinition(il.op) ==> il.args[0].kind == Variable) &&
    (IsCompare(il.op) ==> il.args[0].sym.Some? && il.args[0].sym.value.scope.kind == Block)
  }

  /** Only variables outside blocks, and those whose address is taken, are visible to other code. */
  ghost predicate EscapesAreExplicit(m: Machine, body: Body) {
    forall v | m.escapes(v) :: v.scope.kind != Block || AddressTaken(body, v)
  }

  ghost predicate Disciplined(m: Machine, ty: SymbolRef -> OperandType, body: Body) {
    (forall k {:trigger DisciplinedInstr(ty, body[k])} :: 0 <= k < |body| ==> DisciplinedInstr(ty, body[k])) &&
    EscapesAreExplicit(m, body)
  }

  // ----- Counting uses -----

  lemma {:induction false} UsesSplit(body: Body, k: nat, o: Operand)
    requires k <= |body|
    ensures Uses(body, o) == Uses(body[..k], o) + Uses(body[k..], o)
  {
    if k > 0 {
      UsesSplit(body[1..], k - 1, o);
      assert body[..k][1..] == body[1..][..k - 1];
      assert body[k..] == body[1..][k - 1..];
    }
  }

  lemma {:induction false} NoUses(body: Body, o: Operand)
    requires Uses(body, o) == 0
    ensures forall k :: 0 <= k < |body| ==> o !in body[k].args
  {
    if body != [] {
      NoUses(body[1..], o);
      assert forall k :: 1 <= k < |body| ==> body[k] == body[1..][k - 1];
    }
  }

  lemma UsesAround(body: Body, p: nat, o: Operand)
    requires p + 1 < |body|
    ensures Uses(body, o) ==
            Uses(body[..p], o) + multiset(body[p].args)[o] + multiset(body[p + 1].args)[o] + Uses(body[p + 2..], o)
  {
    UsesSplit(body, p, o);
    assert body[p..][1..] == body[p + 1..];
    assert body[p + 1..][1..] == body[p + 2..];
  }

  /** Two uses, one in each of two neighbours: nothing else mentions the operand. */
  lemma UsedOnlyByPair(body: Body, p: nat, t: Operand)
    requires p + 1 < |body| && Uses(body, t) == 2 && t in body[p].args && t in body[p + 1].args
    ensures multiset(body[p].args)[t] == 1 && multiset(body[p + 1].args)[t] == 1
    ensures forall k :: 0 <= k < |body| && k != p && k != p + 1 ==> t !in body[k].args
  {
    UsesAround(body, p, t);
    assert t in multiset(body[p].args) && t in multiset(body[p + 1].args);
    NoUses(body[..p], t);
    NoUses(body[p + 2..], t);
    forall k | 0 <= k < |body| && k != p && k != p + 1
      ensures t !in body[k].args
    {
      if k < p { assert body[k] == body[..p][k]; } else { assert body[k] == body[p + 2..][k - p - 2]; }
    }
  }

  // ----- Execution does not depend on a variable that is not mentioned -----

  lemma ReadAgrees(r: set<SymbolRef>, st: State, st': State, v: SymbolRef)
    requires Agree(r, st, st') && v !in r
    ensures Read(st, v) == Read(st', v)
    ensures v in st.vars <==> v in st'.vars
    ensures v in st.vars ==> st.vars[v] == st'.vars[v]
  {
    assert v in st.vars - r <==> v in st.vars;
    assert v in st'.vars - r <==> v in st'.vars;
    if v in st.vars {
      assert (st.vars - r)[v] == (st'.vars - r)[v];
    }
  }

  lemma AgreePointwise(r: set<SymbolRef>, st: State, st': State)
    requires st.heap == st'.heap
    requires forall u | u !in r :: (u in st.vars <==> u in st'.vars) && (u in st.vars ==> st.vars[u] == st'.vars[u])
    ensures Agree(r, st, st')
  {
    assert (st.vars - r).Keys == (st'.vars - r).Keys;
  }

  predicate Avoids(t: SymbolRef, il: Instr) {
    forall k :: 0 <= k < |il.args| ==> il.args[k].sym != Some(t)
  }

  lemma ValueAgrees(t: SymbolRef, st: State, st': State, o: Operand)
    requires Agree({t}, st, st') && o.sym != Some(t)
    ensures ValueOf(o, st) == ValueOf(o, st')
  {
    if o.sym.Some? { ReadAgrees({t}, st, st', o.sym.value); }
  }

  lemma WriteAgrees(r: set<SymbolRef>, st: State, st': State, o: Operand, n: int)
    requires Agree(r, st, st')
    ensures Agree(r, Write(st, o, n), Write(st', o, n))
  {
    if o.sym.Some? {
      forall u | u !in r
        ensures u in st.vars <==> u in st'.vars
        ensures u in st.vars ==> st.vars[u] == st'.vars[u]
      {
        ReadAgrees(r, st, st', u);
      }
      AgreePointwise(r, Write(st, o, n), Write(st', o, n));
    }
  }

  lemma InputsAgree(t: SymbolRef, il: Instr, st: State, st': State)
    requires Agree({t}, st, st')
    requires forall k :: 0 <= k < |il.args| && k != DestIndex(il.op) ==> il.args[k].sym != Some(t)
    ensures Inputs(il, st) == Inputs(il, st')
  {
    forall k | 0 <= k < |il.args|
      ensures InputAt(il, k, st) == InputAt(il, k, st')
    {
      if k != DestIndex(il.op) && il.args[k].sym.Some? { ReadAgrees({t}, st, st', il.args[k].sym.value); }
    }
  }

  lemma SharedAgrees(m: Machine, t: SymbolRef, st: State, st': State)
    requires Agree({t}, st, st') && !m.escapes(t)
    ensures Shared(m, st.vars) == Shared(m, st'.vars)
  {
    forall v | m.escapes(v)
      ensures v in Shared(m, st.vars) <==> v in Shared(m, st'.vars)
      ensures v in Shared(m, st.vars) ==> Shared(m, st.vars)[v] == Shared(m, st'.vars)[v]
    {
      ReadAgrees({t}, st, st', v);
    }
  }

  lemma MergeAgrees(t: SymbolRef, st: State, st': State, extra: map<SymbolRef, int>, heap: map<int, int>)
    requires Agree({t}, st, st')
    ensures Agree({t}, State(st.vars + extra, heap), State(st'.vars + extra, heap))
  {
    forall u | u !in {t}
      ensures u in st.vars <==> u in st'.vars
      ensures u in st.vars ==> st.vars[u] == st'.vars[u]
    {
      ReadAgrees({t}, st, st', u);
    }
    AgreePointwise({t}, State(st.vars + extra, heap), State(st'.vars + extra, heap));
  }

  lemma DefinedAgrees(m: Machine, t: SymbolRef, il: Instr, st: State, st': State)
    requires Agree({t}, st, st') && !m.escapes(t)
    requires IsDefinition(il.op) && |il.args| >= Arity(il.op)
    requires forall k :: 1 <= k < |il.args| ==> il.args[k].sym != Some(t)
    ensures Defined(m, il, st) == Defined(m, il, st')
  {
    if IsBinaryArithmetic(il.op) {
      ValueAgrees(t, st, st', il.args[1]);
      ValueAgrees(t, st, st', il.args[2]);
    } else if IsUnaryArithmetic(il.op) {
      ValueAgrees(t, st, st', il.args[1]);
    } else {
      InputsAgree(t, il, st, st');
      SharedAgrees(m, t, st, st');
    }
  }

  lemma ExecAgrees(m: Machine, t: SymbolRef, il: Instr, st: State, st': State)
    requires Agree({t}, st, st') && !m.escapes(t) && Avoids(t, il)
    requires !IsControl(il.op) && |il.args| >= Arity(il.op)
    ensures var (r, r') := (Exec(m, il, st), Exec(m, il, st'));
      (r.None? <==> r'.None?) && (r.Some? ==> Agree({t}, r.value, r'.value))
  {
    if IsCompare(il.op) {
      ValueAgrees(t, st, st', il.args[1]);
      ValueAgrees(t, st, st', il.args[2]);
      WriteAgrees({t}, st, st', il.args[0], if Compare(il.op, ValueOf(il.args[1], st), ValueOf(il.args[2], st)) then 1 else 0);
    } else if IsMove(il.op) {
      ValueAgrees(t, st, st', il.args[1]);
      WriteAgrees({t}, st, st', il.args[0], Moved(m, il.args[0], il.args[1], st));
    } else if IsDefinition(il.op) {
      DefinedAgrees(m, t, il, st, st');
      match Defined(m, il, st) {
        case None =>
        case Some(n) => WriteAgrees({t}, st, st', il.args[0], n);
      }
    } else {
      InputsAgree(t, il, st, st');
      SharedAgrees(m, t, st, st');
      match m.effect(il.op, Inputs(il, st), st.heap, Shared(m, st.vars)) {
        case None =>
        case Some((heap, shared, n)) =>
          MergeAgrees(t, st, st', Shared(m, shared), heap);
          if 0 <= DestIndex(il.op) < |il.args| {
            WriteAgrees({t}, State(st.vars + Shared(m, shared), heap), State(st'.vars + Shared(m, shared), heap),
                        il.args[DestIndex(il.op)], n);
          }
      }
    }
  }

  /** Two bodies place every label at the same instruction. */
  ghost predicate SameLabels(body: Body, body': Body) {
    forall sym :: FindLabel(body, sym) == FindLabel(body', sym)
  }

  lemma ControlAgrees(t: SymbolRef, body: Body, body': Body, il: Instr, pc: nat, st: State, st': State)
    requires Agree({t}, st, st') && Avoids(t, il) && SameLabels(body, body') && IsControl(il.op) && |il.args| >= Arity(il.op)
    ensures var (c, c') := (StepControl(body, il, pc, st), StepControl(body', il, pc, st'));
      SameOutcome({t}, c, c') &&
      (c.At? ==> c.pc == c'.pc && (c.pc == pc + 1 || (0 <= c.pc < |body| && body[c.pc].op == Label)))
  {
    if il.op == BrZ || il.op == BrNz {
      ValueAgrees(t, st, st', il.args[0]);
      FindLabelIs(body, il.args[1].sym);
    } else if il.op == Br {
      FindLabelIs(body, il.args[0].sym);
    } else if il.op == Ret {
      if |il.args| > 0 { ValueAgrees(t, st, st', il.args[0]); }
    } else if IsCompareBranch(il.op) {
      ValueAgrees(t, st, st', il.args[0]);
      ValueAgrees(t, st, st', il.args[1]);
      FindLabelIs(body, il.args[2].sym);
    }
  }

  lemma StepAgrees(m: Machine, t: SymbolRef, body: Body, body': Body, il: Instr, pc: nat, st: State, st': State)
    requires Agree({t}, st, st') && !m.escapes(t) && Avoids(t, il) && SameLabels(body, body')
    ensures var (c, c') := (StepInstr(m, body, il, pc, st), StepInstr(m, body', il, pc, st'));
      SameOutcome({t}, c, c') &&
      (c.At? ==> c.pc == c'.pc && (c.pc == pc + 1 || (0 <= c.pc < |body| && body[c.pc].op == Label)))
  {
    if |il.args| >= Arity(il.op) {
      if IsControl(il.op) {
        ControlAgrees(t, body, body', il, pc, st, st');
      } else {
        ExecAgrees(m, t, il, st, st');
      }
    }
  }

  // ----- The two rewritings, one pair of instructions at a time -----

  /** Same position, outside the pair; same state, except for the removed variable. */
  ghost predicate PairRel(t: SymbolRef, p: nat, c: Config, c': Config) {
    SameOutcome({t}, c, c') && (c.At? ==> c.pc == c'.pc && c.pc != p + 1)
  }

  /** The comparison at `p` is fused with the branch behind it ... */
  predicate FusesAt(body: Body, p: nat, x: Instr) {
    p + 1 < |body| && CanFuse(body, body[p], body[p + 1]) && x == Fused(body[p], body[p + 1])
  }

  /** ... or the computation at `p` takes over the target of the copy behind it. */
  predicate CollapsesAt(body: Body, p: nat, x: Instr) {
    p + 1 < |body| && CanCollapse(body, body[p], body[p + 1]) && x == Retargeted(body[p], body[p + 1].args[0])
  }

  predicate Rewritable(body: Body, p: nat, x: Instr) {
    FusesAt(body, p, x) || CollapsesAt(body, p, x)
  }

  lemma OverwrittenTwiceAgrees(t: Operand, st: State, st': State, n: int)
    requires t.sym.Some? && Agree({t.sym.value}, st, st')
    ensures Agree({t.sym.value}, Write(st, t, n), st')
  {
    forall u | u !in {t.sym.value}
      ensures u in Write(st, t, n).vars <==> u in st'.vars
      ensures u in Write(st, t, n).vars ==> Write(st, t, n).vars[u] == st'.vars[u]
    {
      ReadAgrees({t.sym.value}, st, st', u);
    }
    AgreePointwise({t.sym.value}, Write(st, t, n), st');
  }

  lemma TwoSteps(m: Machine, body: Body, c: Config)
    ensures Run(m, body, c, 1) == Step(m, body, c)
    ensures Run(m, body, c, 2) == Step(m, body, Step(m, body, c))
  {
    assert Run(m, body, c, 2) == Run(m, body, Step(m, body, c), 1);
    assert Run(m, body, Step(m, body, c), 1) == Run(m, body, Step(m, body, Step(m, body, c)), 0);
    assert Run(m, body, c, 1) == Run(m, body, Step(m, body, c), 0);
  }

  lemma SingleUse(args: seq<Operand>, t: Operand, i: nat)
    requires i < |args| && args[i] == t && multiset(args)[t] == 1
    ensures forall k :: 0 <= k < |args| && k != i ==> args[k] != t
  {
    forall k | 0 <= k < |args| && k != i
      ensures args[k] != t
    {
      var a, b := if k < i then k else i, if k < i then i else k;
      assert args == args[..a] + [args[a]] + args[a + 1..b] + [args[b]] + args[b + 1..];
    }
  }

  /** With one type per variable, an operand that is absent means a variable that is absent. */
  lemma AbsentByType(ty: SymbolRef -> OperandType, il: Instr, t: Operand, k: nat)
    requires DisciplinedInstr(ty, il) && k < |il.args| && t.sym.Some?
    requires t == VariableOperand(ty(t.sym.value), t.sym.value) && il.args[k] != t
    ensures il.args[k].sym != t.sym
  {
    assert WellFormedOperand(il.args[k]);
  }

  /** The variable `t` occurs nowhere but in the pair at `p`, where it is written and then read. */
  predicate Isolated(body: Body, p: nat, t: SymbolRef) {
    p + 1 < |body| && |body[p].args| >= 1 && |body[p + 1].args| == 2 && body[p].args[0].sym == Some(t) &&
    (forall k {:trigger Avoids(t, body[k])} :: 0 <= k < |body| && k != p && k != p + 1 ==> Avoids(t, body[k])) &&
    (forall k :: 1 <= k < |body[p].args| ==> body[p].args[k].sym != Some(t)) &&
    body[p + 1].args[if IsMove(body[p + 1].op) then 0 else 1].sym != Some(t)
  }

  lemma PairIsIsolated(m: Machine, ty: SymbolRef -> OperandType, body: Body, p: nat, x: Instr)
    requires Disciplined(m, ty, body) && Rewritable(body, p, x)
    ensures var t := body[p].args[0];
      t.kind == Variable && t.sym.Some? && t.sym.value.scope.kind == Block && Isolated(body, p, t.sym.value)
  {
    var t := body[p].args[0];
    var il, il2 := body[p], body[p + 1];
    assert DisciplinedInstr(ty, il) && DisciplinedInstr(ty, il2);
    assert WellFormedOperand(t);
    var i := if IsMove(il2.op) then 1 else 0;
    assert il2.args[i] == t;
    UsedOnlyByPair(body, p, t);
    SingleUse(il.args, t, 0);
    SingleUse(il2.args, t, i);
    forall k | 1 <= k < |il.args|
      ensures il.args[k].sym != t.sym
    {
      AbsentByType(ty, il, t, k);
    }
    AbsentByType(ty, il2, t, 1 - i);
    forall k | 0 <= k < |body| && k != p && k != p + 1
      ensures Avoids(t.sym.value, body[k])
    {
      assert DisciplinedInstr(ty, body[k]);
      forall j | 0 <= j < |body[k].args|
        ensures body[k].args[j].sym != t.sym
      {
        AbsentByType(ty, body[k], t, j);
      }
    }
  }

  lemma IsolatedIsPrivate(m: Machine, ty: SymbolRef -> OperandType, body: Body, p: nat, x: Instr)
    requires Disciplined(m, ty, body) && Rewritable(body, p, x)
    requires var t := body[p].args[0].sym; t.Some? && t.value.scope.kind == Block && Isolated(body, p, t.value)
    ensures !m.escapes(body[p].args[0].sym.value)
  {
    var v := body[p].args[0].sym.value;
    forall k | 0 <= k < |body|
      ensures !TakesAddress(body[k], v)
    {
      if k != p && k != p + 1 { assert Avoids(v, body[k]); }
    }
  }

  lemma FusedDecision(il: Instr, il2: Instr, st: State, n: int)
    requires IsCompare(il.op) && |il.args| == 3 && (il2.op == BrZ || il2.op == BrNz) && |il2.args| == 2
    requires n == if Compare(il.op, ValueOf(il.args[1], st), ValueOf(il.args[2], st)) then 1 else 0
    ensures var x := Fused(il, il2);
      Compare(x.op, ValueOf(x.args[0], st), ValueOf(x.args[1], st)) <==> ((n == 0) == (il2.op == BrZ))
  {
  }

  lemma CompareThenBranch(m: Machine, body: Body, p: nat, st: State, n: int)
    requires p + 1 < |body|
    requires IsCompare(body[p].op) && |body[p].args| == 3 && |body[p + 1].args| == 2 &&
             (body[p + 1].op.BrZ? || body[p + 1].op.BrNz?)
    requires body[p].args[0] == body[p + 1].args[0] && body[p].args[0].sym.Some?
    requires n == if Compare(body[p].op, ValueOf(body[p].args[1], st), ValueOf(body[p].args[2], st)) then 1 else 0
    ensures var mid := Write(st, body[p].args[0], n);
      Run(m, body, At(p, st), 2) ==
      if (n == 0) == (body[p + 1].op == BrZ) then Jump(body, body[p + 1].args[1], mid) else At(p + 2, mid)
  {
    var mid := Write(st, body[p].args[0], n);
    TwoSteps(m, body, At(p, st));
    assert Step(m, body, At(p, st)) == StepInstr(m, body, body[p], p, st) == At(p + 1, mid);
    assert ValueOf(body[p + 1].args[0], mid) == n;
    assert Step(m, body, At(p + 1, mid)) == StepInstr(m, body, body[p + 1], p + 1, mid);
  }

  lemma BranchThenNop(m: Machine, body: Body, p: nat, st: State) returns (a: nat)
    requires p + 1 < |body| && IsCompareBranch(body[p].op) && |body[p].args| == 3 && body[p + 1] == NOP
    ensures 1 <= a <= 2
    ensures Run(m, body, At(p, st), a) ==
      if Compare(body[p].op, ValueOf(body[p].args[0], st), ValueOf(body[p].args[1], st))
      then Jump(body, body[p].args[2], st) else At(p + 2, st)
  {
    TwoSteps(m, body, At(p, st));
    assert Step(m, body, At(p, st)) == StepInstr(m, body, body[p], p, st);
    assert Step(m, body, At(p + 1, st)) == At(p + 2, st);
    a := if Compare(body[p].op, ValueOf(body[p].args[0], st), ValueOf(body[p].args[1], st)) then 1 else 2;
  }

  lemma JumpAgrees(t: SymbolRef, p: nat, body: Body, body': Body, target: Operand, st: State, st': State)
    requires p + 1 < |body| && body[p + 1].op != Label && SameLabels(body, body') && Agree({t}, st, st')
    ensures PairRel(t, p, Jump(body, target, st), Jump(body', target, st'))
  {
    FindLabelIs(body, target.sym);
  }

  lemma FuseAdvances(m: Machine, t: SymbolRef, body: Body, p: nat, x: Instr, st: State, st': State) returns (a: nat, a': nat)
    requires FusesAt(body, p, x)
    requires Isolated(body, p, t) && Agree({t}, st, st')
    requires SameLabels(body, Replaced(body, p, x))
    ensures 1 <= a <= 2 && 1 <= a' <= 2
    ensures PairRel(t, p, Run(m, body, At(p, st), a), Run(m, Replaced(body, p, x), At(p, st'), a'))
  {
    var body' := Replaced(body, p, x);
    var il, il2 := body[p], body[p + 1];
    var n := if Compare(il.op, ValueOf(il.args[1], st), ValueOf(il.args[2], st)) then 1 else 0;
    var mid := Write(st, il.args[0], n);
    ValueAgrees(t, st, st', il.args[1]);
    ValueAgrees(t, st, st', il.args[2]);
    FusedDecision(il, il2, st', n);
    OverwrittenTwiceAgrees(il.args[0], st, st', n);
    JumpAgrees(t, p, body, body', il2.args[1], mid, st');
    a := 2;
    CompareThenBranch(m, body, p, st, n);
    a' := BranchThenNop(m, body', p, st');
  }

  lemma RetargetedDefines(m: Machine, prev: Instr, dest: Operand, st: State)
    requires IsDefinition(prev.op) && |prev.args| == Arity(prev.op) >= 1 && prev.args[0].ty == dest.ty
    ensures Defined(m, prev, st) == Defined(m, Retargeted(prev, dest), st)
  {
    var x := Retargeted(prev, dest);
    if !IsBinaryArithmetic(prev.op) && !IsUnaryArithmetic(prev.op) {
      forall k | 0 <= k < |prev.args|
        ensures InputAt(x, k, st) == InputAt(prev, k, st)
      {
      }
      assert Inputs(x, st) == Inputs(prev, st);
    }
  }

  lemma CollapsedStep(m: Machine, prev: Instr, dest: Operand, t: Operand, st: State, st': State) returns (n: int)
    requires Collapsible(prev.op) && |prev.args| == Arity(prev.op) && prev.args[0] == t && t.sym.Some? && dest.sym.Some?
    requires dest.ty == t.ty && Agree({t.sym.value}, st, st') && !m.escapes(t.sym.value)
    requires forall k :: 1 <= k < |prev.args| ==> prev.args[k].sym != t.sym
    ensures var (r, r') := (Exec(m, prev, st), Exec(m, Retargeted(prev, dest), st'));
      (r.None? <==> r'.None?) && (r.Some? ==> r.value == Write(st, t, n) && r'.value == Write(st', dest, n))
  {
    var x := Retargeted(prev, dest);
    var v := t.sym.value;
    if IsMove(prev.op) {
      ValueAgrees(v, st, st', prev.args[1]);
      n := IL.Moved(m, t, prev.args[1], st);
    } else {
      DefinedAgrees(m, v, prev, st, st');
      RetargetedDefines(m, prev, dest, st');
      var r := Defined(m, prev, st);
      n := if r.Some? then r.value else 0;
    }
  }

  lemma ComputeThenCopy(m: Machine, body: Body, p: nat, st: State, n: int)
    requires p + 1 < |body| && !IsControl(body[p].op) && |body[p].args| >= 1 && |body[p].args| >= Arity(body[p].op)
    requires IsMove(body[p + 1].op) && |body[p + 1].args| == 2 && body[p + 1].args[1] == body[p].args[0]
    requires body[p].args[0].sym.Some? && body[p + 1].args[0].ty == body[p + 1].args[1].ty
    requires Exec(m, body[p], st) == Some(Write(st, body[p].args[0], n))
    ensures Run(m, body, At(p, st), 2) == At(p + 2, Write(Write(st, body[p].args[0], n), body[p + 1].args[0], n))
  {
    var mid := Write(st, body[p].args[0], n);
    TwoSteps(m, body, At(p, st));
    assert Step(m, body, At(p, st)) == StepInstr(m, body, body[p], p, st) == At(p + 1, mid);
    assert Moved(m, body[p + 1].args[0], body[p + 1].args[1], mid) == n;
    assert Step(m, body, At(p + 1, mid)) == StepInstr(m, body, body[p + 1], p + 1, mid);
  }

  lemma ComputeThenNop(m: Machine, body: Body, p: nat, st: State, st': State)
    requires p + 1 < |body| && !IsControl(body[p].op) && |body[p].args| >= Arity(body[p].op) && body[p + 1] == NOP
    requires Exec(m, body[p], st) == Some(st')
    ensures Run(m, body, At(p, st), 2) == At(p + 2, st')
  {
    TwoSteps(m, body, At(p, st));
    assert Step(m, body, At(p, st)) == StepInstr(m, body, body[p], p, st) == At(p + 1, st');
    assert Step(m, body, At(p + 1, st')) == At(p + 2, st');
  }

  lemma CollapseAdvances(m: Machine, t: SymbolRef, body: Body, p: nat, x: Instr, st: State, st': State) returns (a: nat, a': nat)
    requires CollapsesAt(body, p, x) && body[p + 1].args[0].sym.Some?
    requires Isolated(body, p, t) && Agree({t}, st, st') && !m.escapes(t)
    ensures 1 <= a <= 2 && 1 <= a' <= 2
    ensures PairRel(t, p, Run(m, body, At(p, st), a), Run(m, Replaced(body, p, x), At(p, st'), a'))
  {
    var body' := Replaced(body, p, x);
    var il, il2 := body[p], body[p + 1];
    var n := CollapsedStep(m, il, il2.args[0], il.args[0], st, st');
    if Exec(m, il, st).None? {
      a, a' := 1, 1;
      TwoSteps(m, body, At(p, st));
      TwoSteps(m, body', At(p, st'));
      assert Step(m, body, At(p, st)) == StepInstr(m, body, il, p, st) == Fault;
      assert Step(m, body', At(p, st')) == StepInstr(m, body', x, p, st') == Fault;
    } else {
      a, a' := 2, 2;
      ComputeThenCopy(m, body, p, st, n);
      ComputeThenNop(m, body', p, st', Write(st', il2.args[0], n));
      OverwrittenTwiceAgrees(il.args[0], st, st', n);
      WriteAgrees({t}, Write(st, il.args[0], n), st', il2.args[0], n);
    }
  }
}
