/** Lowering and optimizer together: the optimized code of a function does what its source says. */
module Pipeline {
  import opened Wrappers
  import opened IL
  import opened ILEquivalence
  import opened PeepholeSpec
  import opened PeepholeRewrite
  import opened OptimizerTheorems
  import opened EliminatedVariables
  import opened Source
  import opened Lowering
  import opened LoweringShape
  import opened LoweringProof
  import opened StatementProof
  import opened LoweringTheorems

  // ----- Lowering establishes what the optimizer needs -----

  /** The type every mention of a variable carries in generated code. */
  function TypesIn(symbols: map<SymbolRef, OperandType>): SymbolRef -> OperandType {
    v => if v in symbols then symbols[v] else I8
  }

  lemma FitsIsDisciplined(symbols: map<SymbolRef, OperandType>, il: Instr)
    requires Fits(symbols, il)
    ensures DisciplinedInstr(TypesIn(symbols), il) && il.op != Nop
  {
    forall k | 0 <= k < |il.args| && il.args[k].sym.Some?
      ensures il.args[k].ty == TypesIn(symbols)(il.args[k].sym.value)
    {
      assert OperandFits(symbols, il.args[k]);
    }
  }

  /** No variable of a block is reachable from other code: the fragment takes no addresses. */
  ghost predicate BlocksArePrivate(m: Machine) {
    forall v | m.escapes(v) :: v.scope.kind != ScopeKind.Block
  }

  lemma GoodIsDisciplined(m: Machine, g: Gen)
    requires Good(g) && BlocksArePrivate(m)
    ensures Disciplined(m, TypesIn(g.symbols), g.body)
    ensures forall k :: 0 <= k < |g.body| ==> g.body[k].op != Nop
  {
    forall k | 0 <= k < |g.body|
      ensures DisciplinedInstr(TypesIn(g.symbols), g.body[k]) && g.body[k].op != Nop
    {
      assert Fits(g.symbols, g.body[k]);
      FitsIsDisciplined(g.symbols, g.body[k]);
    }
  }

  /** The code of an accepted function satisfies every side condition of the optimizer and
      holds no Nop, so optimizing it preserves its runs, eliminates only locals of blocks, and ends in a fixpoint. */
  lemma LoweredIsOptimizable(m: Machine, symbols: map<SymbolRef, OperandType>, outer: seq<Scope>, nextId: nat, s: Stmt,
                             vars: set<SymbolRef>)
    requires outer != [] && AcceptedFunction(symbols, s, vars) && LowerFunction(symbols, outer, nextId, s).Some?
    requires BlocksArePrivate(m)
    ensures var body := LowerFunction(symbols, outer, nextId, s).value;
      && (exists ty :: Disciplined(m, ty, body))
      && Equivalent(m, body, Optimized(body))
      && NoRedex(Optimized(body)) && Optimized(Optimized(body)) == Optimized(body)
      && forall v | v in Removed(body, Optimized(body)) :: v.scope.kind == ScopeKind.Block
  {
    hide Good, LowerSeq, Disciplined, NoRedex, Removed;
    StartIsGood(symbols, outer, nextId, s, vars);
    var g := LowerSeq(Start(symbols, outer, nextId, s.scope), s.stmts);
    GoodIsDisciplined(m, g);
    OptimizedPreserves(m, TypesIn(g.symbols), g.body);
    OptimizedRemovesOnlyPairs(m, TypesIn(g.symbols), g.body);
    OptimizedSettles(g.body);
  }

  // ----- End to end -----

  /** How a run of optimized code ends: every variable it still mentions, or never did, is as the source leaves it. */
  ghost predicate OptimizedOutcome(m: Machine, body: Body, vars: set<SymbolRef>, st: State, o: Outcome) {
    var opt := Optimized(body);
    match o.signal
    case Normal =>
      exists n: nat :: (var c := Run(m, opt, At(0, st), n); c.At? && Final(opt, c) && Matches(vars - Removed(body, opt), o.st, c.st))
    case Trapped => Reaches(m, opt, At(0, st), Fault)
    case _ => false
  }

  lemma AgreeReads(removed: set<SymbolRef>, vars: set<SymbolRef>, src: State, st: State, st': State)
    requires Matches(vars, src, st) && Agree(removed, st, st')
    ensures Matches(vars - removed, src, st')
  {
    forall v | v in vars - removed
      ensures Read(src, v) == Read(st', v)
    {
      ReadAgrees(removed, st, st', v);
    }
  }

  lemma EquivalentHalts(m: Machine, b: Body, b': Body, st: State)
    requires Equivalent(m, b, b')
    ensures HaltsAlike(m, b, st, b', st, Removed(b, b'))
  {
    hide Mentions, HaltsAlike;
    assert Agree(Removed(b, b'), st, st);
  }

  lemma EndsAlike(m: Machine, b: Body, b': Body, st: State, end: Config) returns (n': nat)
    requires Equivalent(m, b, b') && Reaches(m, b, At(0, st), end) && Final(b, end)
    ensures var end' := Run(m, b', At(0, st), n'); Final(b', end') && SameOutcome(Removed(b, b'), end, end')
  {
    EquivalentHalts(m, b, b', st);
    hide Removed, Equivalent, Agree, Step;
    var removed := Removed(b, b');
    var n: nat :| Run(m, b, At(0, st), n) == end;
    n' :| Final(b', Run(m, b', At(0, st), n')) && SameOutcome(removed, end, Run(m, b', At(0, st), n'));
  }

  lemma OutcomeCarriesOver(m: Machine, body: Body, vars: set<SymbolRef>, st: State, o: Outcome)
    requires FunctionOutcome(m, body, vars, st, o) && Equivalent(m, body, Optimized(body))
    ensures OptimizedOutcome(m, body, vars, st, o)
  {
    hide Optimized, Mentions, Equivalent, Run;
    var opt := Optimized(body);
    if o.signal.Normal? {
      var st' :| Matches(vars, o.st, st') && Reaches(m, body, At(0, st), At(|body|, st'));
      var n' := EndsAlike(m, body, opt, st, At(|body|, st'));
      AgreeReads(Removed(body, opt), vars, o.st, st', Run(m, opt, At(0, st), n').st);
    } else {
      var n' := EndsAlike(m, body, opt, st, Fault);
    }
  }

  /** If the source runs to its end or into a trap, so does its optimized code, and at the end every
      variable of the program that the optimizer has not eliminated has the value the source gives it. */
  lemma CompiledPreserves(m: Machine, symbols: map<SymbolRef, OperandType>, outer: seq<Scope>, nextId: nat, s: Stmt,
                          vars: set<SymbolRef>, st: State, fuel: nat)
    requires outer != [] && AcceptedFunction(symbols, s, vars) && JumpsInLoops(s, false) && !HasContinue(s)
    requires BlocksArePrivate(m)
    requires ExecStmt(m, s, st, fuel).Some?
    ensures LowerFunction(symbols, outer, nextId, s).Some?
    ensures OptimizedOutcome(m, LowerFunction(symbols, outer, nextId, s).value, vars, st, ExecStmt(m, s, st, fuel).value)
  {
    hide LowerFunction, AcceptedFunction, ExecStmt, HasContinue, Optimized;
    LoweringSucceedsIff(symbols, outer, nextId, s);
    ContinueFree(s);
    LoweringPreserves(m, symbols, outer, nextId, s, vars, st, fuel);
    LoweredIsOptimizable(m, symbols, outer, nextId, s, vars);
    OutcomeCarriesOver(m, LowerFunction(symbols, outer, nextId, s).value, vars, st, ExecStmt(m, s, st, fuel).value);
  }

  predicate Occurs(body: Body, v: SymbolRef) {
    exists j, k :: 0 <= j < |body| && 0 <= k < |body[j].args| && body[j].args[k].sym == Some(v)
  }

  lemma {:induction false} RemovedIff(b: Body, b': Body, v: SymbolRef)
    ensures v in Removed(b, b') <==> Occurs(b, v) && !Occurs(b', v)
  {
    MentionedIff(b, v);
    MentionedIff(b', v);
    hide Mentions, Occurs;
  }

  lemma {:induction false} MentionedIff(b: Body, v: SymbolRef)
    ensures v in Mentions(b) <==> Occurs(b, v)
  {
    if v in Mentions(b) {
      var j :| 0 <= j < |b| && v in InstrMentions(b[j]);
      var o :| o in b[j].args && o.sym == Some(v);
      var k :| 0 <= k < |b[j].args| && b[j].args[k] == o;
    }
    if Occurs(b, v) {
      var j, k :| 0 <= j < |b| && 0 <= k < |b[j].args| && b[j].args[k].sym == Some(v);
      assert b[j].args[k] in b[j].args;
      assert v in InstrMentions(b[j]);
    }
  }

  /** The same, spelled out: after some number of steps the optimized code has faulted, if the source traps; or else it has
      left its last instruction behind, and every variable of the program that it mentions, or that it mentioned no more
      before it was optimized, holds what the source leaves there. */
  lemma {:induction false} CompiledValues(m: Machine, symbols: map<SymbolRef, OperandType>, outer: seq<Scope>, nextId: nat, s: Stmt,
                                          vars: set<SymbolRef>, st: State, fuel: nat) returns (n: nat)
    requires outer != [] && AcceptedFunction(symbols, s, vars) && JumpsInLoops(s, false) && !HasContinue(s)
    requires BlocksArePrivate(m)
    requires ExecStmt(m, s, st, fuel).Some?
    ensures LowerFunction(symbols, outer, nextId, s).Some?
    ensures var body := LowerFunction(symbols, outer, nextId, s).value; var opt := Optimized(body);
      var o := ExecStmt(m, s, st, fuel).value; var c := Run(m, opt, At(0, st), n);
      if o.signal == Trapped then c == Fault
      else o.signal == Normal && c.At? && c.pc >= |opt| &&
           forall v :: v in vars && (Occurs(opt, v) || !Occurs(body, v)) ==> Read(c.st, v) == Read(o.st, v)
  {
    hide LowerFunction, AcceptedFunction, ExecStmt, HasContinue, Optimized, Run, Removed, Occurs;
    CompiledPreserves(m, symbols, outer, nextId, s, vars, st, fuel);
    var body := LowerFunction(symbols, outer, nextId, s).value;
    var opt, o := Optimized(body), ExecStmt(m, s, st, fuel).value;
    if o.signal == Trapped {
      n :| Run(m, opt, At(0, st), n) == Fault;
    } else {
      n :| (var c := Run(m, opt, At(0, st), n); c.At? && Final(opt, c) && Matches(vars - Removed(body, opt), o.st, c.st));
      forall v | v in vars && (Occurs(opt, v) || !Occurs(body, v))
        ensures v in vars - Removed(body, opt)
      {
        RemovedIff(body, opt, v);
      }
    }
  }

  ghost predicate Terminates(m: Machine, s: Stmt, st: State) {
    exists fuel: nat :: ExecStmt(m, s, st, fuel).Some?
  }

  ghost predicate Halts(m: Machine, b: Body, st: State) {
    exists n: nat :: Final(b, Run(m, b, At(0, st), n))
  }

  lemma {:induction false} OutcomeHalts(m: Machine, body: Body, vars: set<SymbolRef>, st: State, o: Outcome)
    requires OptimizedOutcome(m, body, vars, st, o)
    ensures Halts(m, Optimized(body), st)
  {
    hide Optimized, Run;
    var opt := Optimized(body);
    if o.signal.Normal? {
      var n: nat :| (var c := Run(m, opt, At(0, st), n); c.At? && Final(opt, c) && Matches(vars - Removed(body, opt), o.st, c.st));
    } else {
      var n: nat :| Run(m, opt, At(0, st), n) == Fault;
      assert Final(opt, Run(m, opt, At(0, st), n));
    }
  }

  lemma {:induction false} EquivalentHaltsBack(m: Machine, b: Body, b': Body, st: State)
    requires Equivalent(m, b, b') && Halts(m, b', st)
    ensures Halts(m, b, st)
  {
    hide Mentions, Run;
    assert Agree(Removed(b, b'), st, st);
    assert HaltsAlike(m, b', st, b, st, Removed(b, b'));
    var n: nat :| Final(b', Run(m, b', At(0, st), n));
    var n': nat :| Final(b, Run(m, b, At(0, st), n'));
  }

  /** Optimized code comes to an end exactly when its source does. */
  lemma {:induction false} CompiledHaltsIff(m: Machine, symbols: map<SymbolRef, OperandType>, outer: seq<Scope>, nextId: nat, s: Stmt,
                                            vars: set<SymbolRef>, st: State)
    requires outer != [] && AcceptedFunction(symbols, s, vars) && JumpsInLoops(s, false) && !HasContinue(s)
    requires BlocksArePrivate(m)
    ensures LowerFunction(symbols, outer, nextId, s).Some?
    ensures Halts(m, Optimized(LowerFunction(symbols, outer, nextId, s).value), st) <==> Terminates(m, s, st)
  {
    hide LowerFunction, AcceptedFunction, ExecStmt, HasContinue, Optimized, Run, OptimizedOutcome;
    LoweringSucceedsIff(symbols, outer, nextId, s);
    var body := LowerFunction(symbols, outer, nextId, s).value;
    if Terminates(m, s, st) {
      var fuel: nat :| ExecStmt(m, s, st, fuel).Some?;
      CompiledPreserves(m, symbols, outer, nextId, s, vars, st, fuel);
      OutcomeHalts(m, body, vars, st, ExecStmt(m, s, st, fuel).value);
    } else if Halts(m, Optimized(body), st) {
      LoweredIsOptimizable(m, symbols, outer, nextId, s, vars);
      EquivalentHaltsBack(m, body, Optimized(body), st);
      var n: nat :| Final(body, Run(m, body, At(0, st), n));
      ContinueFree(s);
      LoweringDiverges(m, symbols, outer, nextId, s, vars, st, n);
    }
  }
}
