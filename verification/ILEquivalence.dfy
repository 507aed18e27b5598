/** When one body of code may replace another: every run of the one halts
    exactly if the matching run of the other does, with the same outcome up to
    the variables the replacement no longer mentions. */
module ILEquivalence {
  import opened Wrappers
  import opened IL

  function InstrMentions(il: Instr): set<SymbolRef> {
    set o | o in il.args && o.sym.Some? :: o.sym.value
  }

  function Mentions(body: Body): set<SymbolRef> {
    set k, v | 0 <= k < |body| && v in InstrMentions(body[k]) :: v
  }

  /** The variables that occur in `b` and no longer in `b'`. */
  function Removed(b: Body, b': Body): set<SymbolRef> {
    Mentions(b) - Mentions(b')
  }

  ghost predicate Agree(removed: set<SymbolRef>, st: State, st': State) {
    st.vars - removed == st'.vars - removed && st.heap == st'.heap
  }

  ghost predicate SameOutcome(removed: set<SymbolRef>, c: Config, c': Config) {
    match (c, c')
    case (At(_, st), At(_, st')) => Agree(removed, st, st')
    case (Returned(v, st), Returned(v', st')) => v == v' && Agree(removed, st, st')
    case (Fault, Fault) => true
    case _ => false
  }

  /** Whenever the run of `b` from `st` halts, so does that of `b'` from `st'`. */
  ghost predicate HaltsAlike(m: Machine, b: Body, st: State, b': Body, st': State, removed: set<SymbolRef>) {
    forall n: nat | Final(b, Run(m, b, At(0, st), n)) ::
      exists n': nat :: Final(b', Run(m, b', At(0, st'), n')) &&
        SameOutcome(removed, Run(m, b, At(0, st), n), Run(m, b', At(0, st'), n'))
  }

  ghost predicate Equivalent(m: Machine, b: Body, b': Body) {
    Mentions(b') <= Mentions(b) &&
    forall st, st' | Agree(Removed(b, b'), st, st') ::
      HaltsAlike(m, b, st, b', st', Removed(b, b')) && HaltsAlike(m, b', st', b, st, Removed(b, b'))
  }

  lemma EquivalentRefl(m: Machine, b: Body)
    ensures Equivalent(m, b, b)
  {
    assert Removed(b, b) == {};
    forall st, st' | Agree({}, st, st')
      ensures HaltsAlike(m, b, st, b, st', {})
    {
      assert st.vars - {} == st.vars && st'.vars - {} == st'.vars;
      forall n: nat | Final(b, Run(m, b, At(0, st), n))
        ensures SameOutcome({}, Run(m, b, At(0, st), n), Run(m, b, At(0, st'), n))
      {
      }
    }
  }

  /** `st` with the variables in `r` as `st'` has them. */
  function Mixed(r: set<SymbolRef>, st: State, st': State): State {
    State((st.vars - r) + (map v | v in st'.vars && v in r :: st'.vars[v]), st.heap)
  }

  lemma AgreeTrans(r: set<SymbolRef>, r': set<SymbolRef>, c: Config, c': Config, c'': Config)
    requires SameOutcome(r, c, c') && SameOutcome(r', c', c'')
    ensures SameOutcome(r + r', c, c'')
  {
    if !c.Fault? {
      AgreeWeaken(r, r + r', c.st, c'.st);
      AgreeWeaken(r', r + r', c'.st, c''.st);
    }
  }

  lemma AgreeWeaken(r: set<SymbolRef>, r': set<SymbolRef>, st: State, st': State)
    requires Agree(r, st, st') && r <= r'
    ensures Agree(r', st, st')
  {
    assert forall v | v in st.vars - r' :: v in st.vars - r && (st.vars - r)[v] == st.vars[v];
    assert forall v | v in st'.vars - r' :: v in st'.vars - r && (st'.vars - r)[v] == st'.vars[v];
  }

  lemma MixedAgrees(r: set<SymbolRef>, r': set<SymbolRef>, st: State, st': State)
    requires Agree(r + r', st, st')
    ensures Agree(r, st, Mixed(r, st, st')) && Agree(r', Mixed(r, st, st'), st')
  {
    var mid := Mixed(r, st, st');
    assert st.vars - r == mid.vars - r;
    forall v
      ensures v in mid.vars - r' <==> v in st'.vars - r'
      ensures v in mid.vars - r' ==> (mid.vars - r')[v] == (st'.vars - r')[v]
    {
      if v !in r && v !in r' {
        assert v in st.vars - (r + r') <==> v in st'.vars - (r + r');
      }
    }
  }

  lemma HaltsAlikeTrans(m: Machine, b: Body, st: State, b': Body, st': State, b'': Body, st'': State,
                        r: set<SymbolRef>, r': set<SymbolRef>)
    requires HaltsAlike(m, b, st, b', st', r) && HaltsAlike(m, b', st', b'', st'', r')
    ensures HaltsAlike(m, b, st, b'', st'', r + r')
  {
    forall n: nat | Final(b, Run(m, b, At(0, st), n))
      ensures exists n'': nat :: (Final(b'', Run(m, b'', At(0, st''), n'')) &&
        SameOutcome(r + r', Run(m, b, At(0, st), n), Run(m, b'', At(0, st''), n'')))
    {
      var n': nat :| Final(b', Run(m, b', At(0, st'), n')) &&
        SameOutcome(r, Run(m, b, At(0, st), n), Run(m, b', At(0, st'), n'));
      var n'': nat :| Final(b'', Run(m, b'', At(0, st''), n'')) &&
        SameOutcome(r', Run(m, b', At(0, st'), n'), Run(m, b'', At(0, st''), n''));
      AgreeTrans(r, r', Run(m, b, At(0, st), n), Run(m, b', At(0, st'), n'), Run(m, b'', At(0, st''), n''));
    }
  }

  lemma EquivalentTrans(m: Machine, b: Body, b': Body, b'': Body)
    requires Equivalent(m, b, b') && Equivalent(m, b', b'')
    ensures Equivalent(m, b, b'')
  {
    var r, r' := Removed(b, b'), Removed(b', b'');
    assert Removed(b, b'') == r + r';
    assert r + r' == r' + r;
    forall st, st'' | Agree(r + r', st, st'')
      ensures HaltsAlike(m, b, st, b'', st'', r + r') && HaltsAlike(m, b'', st'', b, st, r + r')
    {
      var mid := Mixed(r, st, st'');
      MixedAgrees(r, r', st, st'');
      HaltsAlikeTrans(m, b, st, b', mid, b'', st'', r, r');
      HaltsAlikeTrans(m, b'', st'', b', mid, b, st, r', r);
    }
  }

  // ----- Proving equivalence by a relation that a few steps re-establish -----

  /** Some steps of each run lead to related configurations again, and neither run
      is left behind when the other has come to its end. */
  ghost predicate Advances(m: Machine, b: Body, b': Body, rel: (Config, Config) -> bool, bound: nat, c: Config, c': Config) {
    exists a: nat, a': nat | 1 <= a <= bound && 1 <= a' <= bound ::
      rel(Run(m, b, c, a), Run(m, b', c', a')) &&
      (Final(b, c) ==> Final(b', Run(m, b', c', a'))) && (Final(b', c') ==> Final(b, Run(m, b, c, a)))
  }

  ghost predicate Bisimulates(m: Machine, b: Body, b': Body, rel: (Config, Config) -> bool, bound: nat) {
    forall c, c' {:trigger Advances(m, b, b', rel, bound, c, c')} | rel(c, c') :: Advances(m, b, b', rel, bound, c, c')
  }

  lemma {:induction false} StaysRelated(m: Machine, b: Body, b': Body, rel: (Config, Config) -> bool, bound: nat,
                                        c: Config, c': Config, n: nat) returns (j: nat, j': nat)
    requires Bisimulates(m, b, b', rel, bound) && rel(c, c')
    ensures n <= j && n <= j' && rel(Run(m, b, c, j), Run(m, b', c', j'))
    decreases n
  {
    if n == 0 {
      j, j' := 0, 0;
    } else {
      assert Advances(m, b, b', rel, bound, c, c');
      var a: nat, a': nat :| 1 <= a <= bound && 1 <= a' <= bound && rel(Run(m, b, c, a), Run(m, b', c', a'));
      var k, k' := StaysRelated(m, b, b', rel, bound, Run(m, b, c, a), Run(m, b', c', a'), n - 1);
      j, j' := a + k, a' + k';
      RunSplit(m, b, c, a, k);
      RunSplit(m, b', c', a', k');
    }
  }

  lemma RunIsStable(m: Machine, b: Body, c: Config, n: nat, j: nat)
    requires Final(b, Run(m, b, c, n)) && n <= j
    ensures Run(m, b, c, j) == Run(m, b, c, n)
  {
    RunSplit(m, b, c, n, j - n);
    RunFinal(m, b, Run(m, b, c, n), j - n);
  }

  lemma FinishesAlike(m: Machine, b: Body, b': Body, rel: (Config, Config) -> bool, bound: nat,
                      c: Config, c': Config, j: nat, j': nat) returns (k: nat, k': nat)
    requires Bisimulates(m, b, b', rel, bound) && rel(Run(m, b, c, j), Run(m, b', c', j'))
    requires Final(b, Run(m, b, c, j)) || Final(b', Run(m, b', c', j'))
    ensures j <= k && j' <= k' && rel(Run(m, b, c, k), Run(m, b', c', k'))
    ensures Final(b, Run(m, b, c, k)) && Final(b', Run(m, b', c', k'))
  {
    var d, d' := Run(m, b, c, j), Run(m, b', c', j');
    assert Advances(m, b, b', rel, bound, d, d');
    var a: nat, a': nat :| 1 <= a <= bound && 1 <= a' <= bound && rel(Run(m, b, d, a), Run(m, b', d', a')) &&
      (Final(b, d) ==> Final(b', Run(m, b', d', a'))) && (Final(b', d') ==> Final(b, Run(m, b, d, a)));
    k, k' := j + a, j' + a';
    RunSplit(m, b, c, j, a);
    RunSplit(m, b', c', j', a');
    if Final(b, d) { RunFinal(m, b, d, a); }
    if Final(b', d') { RunFinal(m, b', d', a'); }
  }

  /** A bisimulation between the initial configurations decides both halves of equivalence. */
  lemma BisimulationSuffices(m: Machine, b: Body, b': Body, rel: (Config, Config) -> bool, bound: nat,
                             removed: set<SymbolRef>, st: State, st': State)
    requires Bisimulates(m, b, b', rel, bound) && rel(At(0, st), At(0, st'))
    requires forall c, c' {:trigger SameOutcome(removed, c, c')} | rel(c, c') :: SameOutcome(removed, c, c')
    ensures HaltsAlike(m, b, st, b', st', removed) && HaltsAlike(m, b', st', b, st, removed)
  {
    var c, c' := At(0, st), At(0, st');
    forall n: nat | Final(b, Run(m, b, c, n))
      ensures exists n': nat :: Final(b', Run(m, b', c', n')) && SameOutcome(removed, Run(m, b, c, n), Run(m, b', c', n'))
    {
      var j, j' := StaysRelated(m, b, b', rel, bound, c, c', n);
      RunIsStable(m, b, c, n, j);
      var k, k' := FinishesAlike(m, b, b', rel, bound, c, c', j, j');
      RunIsStable(m, b, c, n, k);
      assert SameOutcome(removed, Run(m, b, c, k), Run(m, b', c', k'));
    }
    forall n: nat | Final(b', Run(m, b', c', n))
      ensures exists n': nat :: Final(b, Run(m, b, c, n')) && SameOutcome(removed, Run(m, b', c', n), Run(m, b, c, n'))
    {
      var j, j' := StaysRelated(m, b, b', rel, bound, c, c', n);
      RunIsStable(m, b', c', n, j');
      var k, k' := FinishesAlike(m, b, b', rel, bound, c, c', j, j');
      RunIsStable(m, b', c', n, k');
      assert SameOutcome(removed, Run(m, b, c, k), Run(m, b', c', k'));
    }
  }
}
