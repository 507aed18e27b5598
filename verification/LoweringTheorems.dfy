/** What lowering guarantees for whole functions, and what it does with `continue`. */
module LoweringTheorems {
  import opened Wrappers
  import opened IL
  import opened Source
  import opened Lowering
  import opened LoweringShape
  import opened LoweringProof
  import opened StatementProof
  import opened ProgramProof
  import opened Divergence

  // ----- Loops and errors are tracked as the source nests them -----

  lemma {:induction false} ExprKeepsContext(g: Gen, e: Expr)
    ensures var g' := LowerExpr(g, e).0; g'.chain == g.chain && g'.loops == g.loops && g'.failed == g.failed
    decreases e
  {
    match e
    case Const(_, _) =>
    case Var(_) =>
    case Binary(_, l, r) => ExprKeepsContext(g, l); ExprKeepsContext(LowerExpr(g, l).0, r);
    case Negate(x) => ExprKeepsContext(g, x);
    case Convert(_, x) => ExprKeepsContext(g, x);
  }

  lemma OptionalKeepsContext(g: Gen, a: Option<Assignment>)
    ensures var g' := LowerOptional(g, a); g'.chain == g.chain && g'.loops == g.loops && g'.failed == g.failed
  {
    if a.Some? { ExprKeepsContext(g, a.value.source); }
  }

  lemma TestsKeepContext(g: Gen, c: Option<Expr>, after: bool, target: Operand)
    ensures var g' := LowerTestBefore(g, c, after, target); g'.chain == g.chain && g'.loops == g.loops && g'.failed == g.failed
    ensures var g' := LowerTestAfter(g, c, after, target); g'.chain == g.chain && g'.loops == g.loops && g'.failed == g.failed
  {
    if c.Some? { ExprKeepsContext(g, c.value); }
  }

  lemma LoopPartsKeepContext(g: Gen, s: Stmt)
    requires s.Loop?
    ensures var (h, start, next, end) := LowerLoopLabels(g);
      var g2 := LowerTestBefore(LowerLoopEntry(h, s.init, start), s.test, s.testAfter, end);
      g2.loops == g.loops + [LoopLabels(end, end)] && g2.failed == g.failed && g2.chain == g.chain
  {
    var (h, start, next, end) := LowerLoopLabels(g);
    OptionalKeepsContext(h, s.init);
    TestsKeepContext(LowerLoopEntry(h, s.init, start), s.test, s.testAfter, end);
  }

  lemma LoopEndKeepsContext(g: Gen, g3: Gen, s: Stmt, start: Operand, end: Operand)
    requires s.Loop?
    ensures var g' := LowerLoopEnd(g, LowerOptional(g3, s.step), s.test, s.testAfter, start, end);
      g'.loops == g.loops && g'.failed == g3.failed && g'.chain == g3.chain
  {
    OptionalKeepsContext(g3, s.step);
    TestsKeepContext(LowerOptional(g3, s.step), s.test, s.testAfter, start);
  }

  /** Generation fails exactly if a `break` or `continue` is outside every loop. */
  lemma {:induction false} FailsIff(g: Gen, s: Stmt)
    ensures var g' := LowerStmt(g, s);
      g'.loops == g.loops && g'.chain == g.chain && (g'.failed <==> g.failed || !JumpsInLoops(s, g.loops != []))
    decreases s, 1
  {
    match s
    case Skip =>
    case Assign(a) => OptionalKeepsContext(g, Some(a));
    case Block(scope, ss) => SeqFailsIff(g.(chain := g.chain + [scope]), ss);
    case If(c, t, e) =>
      var (g1, end) := GenTemp(g, I);
      ExprKeepsContext(g1, c);
      var (h, yes) := LowerIfHead(g1, c);
      FailsIff(h, e);
      FailsIff(LowerIfMiddle(LowerStmt(h, e), yes, end), t);
    case Loop(i, c, after, n, b) =>
      LoopPartsKeepContext(g, s);
      var (h, start, next, end) := LowerLoopLabels(g);
      var g2 := LowerTestBefore(LowerLoopEntry(h, i, start), c, after, end);
      FailsIff(g2, b);
      LoopEndKeepsContext(g, Emit(LowerStmt(g2, b), Instr(Label, [next])), s, start, end);
    case Break =>
    case Continue =>
  }

  lemma {:induction false} SeqFailsIff(g: Gen, ss: seq<Stmt>)
    ensures var g' := LowerSeq(g, ss);
      g'.loops == g.loops && g'.chain == g.chain &&
      (g'.failed <==> g.failed || !(forall k :: 0 <= k < |ss| ==> JumpsInLoops(ss[k], g.loops != [])))
    decreases ss, 0
  {
    if ss != [] {
      FailsIff(g, ss[0]);
      SeqFailsIff(LowerStmt(g, ss[0]), ss[1..]);
      assert forall k :: 1 <= k < |ss| ==> ss[k] == ss[1..][k - 1];
      assert forall k :: 0 <= k < |ss[1..]| ==> ss[1..][k] == ss[k + 1];
    }
  }

  // ----- `continue` is compiled as `break` -----

  predicate Paired(g: Gen) {
    forall k {:trigger g.loops[k]} :: 0 <= k < |g.loops| ==> g.loops[k].continueLabel == g.loops[k].breakLabel
  }

  /** The code of a program is the code of the program with `break` for `continue`. */
  lemma {:induction false} ContinueIsLoweredAsBreak(g: Gen, s: Stmt)
    requires Paired(g)
    ensures LowerStmt(g, s) == LowerStmt(g, ContinueAsBreak(s))
    decreases s, 1
  {
    match s
    case Block(scope, ss) => SeqContinueIsLoweredAsBreak(g.(chain := g.chain + [scope]), ss);
    case If(c, t, e) =>
      var (g1, end) := GenTemp(g, I);
      ExprKeepsContext(g1, c);
      var (h, yes) := LowerIfHead(g1, c);
      ContinueIsLoweredAsBreak(h, e);
      FailsIff(h, e);
      ContinueIsLoweredAsBreak(LowerIfMiddle(LowerStmt(h, e), yes, end), t);
    case Loop(i, c, after, n, b) =>
      LoopPartsKeepContext(g, s);
      var (h, start, next, end) := LowerLoopLabels(g);
      ContinueIsLoweredAsBreak(LowerTestBefore(LowerLoopEntry(h, i, start), c, after, end), b);
    case _ =>
  }

  lemma {:induction false} SeqContinueIsLoweredAsBreak(g: Gen, ss: seq<Stmt>)
    requires Paired(g)
    ensures LowerSeq(g, ss) == LowerSeq(g, ContinueAsBreakSeq(ss))
    decreases ss, 0
  {
    if ss != [] {
      ContinueIsLoweredAsBreak(g, ss[0]);
      FailsIff(g, ss[0]);
      SeqContinueIsLoweredAsBreak(LowerStmt(g, ss[0]), ss[1..]);
      assert ContinueAsBreakSeq(ss)[1..] == ContinueAsBreakSeq(ss[1..]);
    }
  }

  lemma {:induction false} ContinueAsBreakIsAccepted(s: Stmt, vars: set<SymbolRef>, inLoop: bool)
    ensures Accepted(s, vars) ==> Accepted(ContinueAsBreak(s), vars)
    ensures !HasContinue(ContinueAsBreak(s))
    ensures JumpsInLoops(s, inLoop) <==> JumpsInLoops(ContinueAsBreak(s), inLoop)
    decreases s, 1
  {
    match s
    case Block(_, ss) => SeqContinueAsBreakIsAccepted(ss, vars, inLoop);
    case If(_, t, e) => ContinueAsBreakIsAccepted(t, vars, inLoop); ContinueAsBreakIsAccepted(e, vars, inLoop);
    case Loop(_, _, _, _, b) => ContinueAsBreakIsAccepted(b, vars, true);
    case _ =>
  }

  lemma {:induction false} SeqContinueAsBreakIsAccepted(ss: seq<Stmt>, vars: set<SymbolRef>, inLoop: bool)
    ensures |ContinueAsBreakSeq(ss)| == |ss|
    ensures forall k :: 0 <= k < |ss| ==> ContinueAsBreakSeq(ss)[k] == ContinueAsBreak(ss[k])
    ensures AcceptedSeq(ss, vars) ==> AcceptedSeq(ContinueAsBreakSeq(ss), vars)
    ensures forall k :: 0 <= k < |ss| ==> !HasContinue(ContinueAsBreakSeq(ss)[k])
    ensures forall k :: 0 <= k < |ss| ==> (JumpsInLoops(ss[k], inLoop) <==> JumpsInLoops(ContinueAsBreakSeq(ss)[k], inLoop))
    decreases ss, 0
  {
    if ss != [] {
      ContinueAsBreakIsAccepted(ss[0], vars, inLoop);
      SeqContinueAsBreakIsAccepted(ss[1..], vars, inLoop);
      assert ContinueAsBreakSeq(ss)[1..] == ContinueAsBreakSeq(ss[1..]);
      forall k | 1 <= k < |ss|
        ensures ContinueAsBreakSeq(ss)[k] == ContinueAsBreak(ss[k]) && ss[k] == ss[1..][k - 1]
      {
        assert ContinueAsBreakSeq(ss)[k] == ContinueAsBreakSeq(ss[1..])[k - 1];
      }
    }
  }

  lemma {:induction false} ContinueFree(s: Stmt)
    requires !HasContinue(s)
    ensures ContinueAsBreak(s) == s
    decreases s, 1
  {
    match s
    case Block(_, ss) => SeqContinueFree(ss);
    case If(_, t, e) => ContinueFree(t); ContinueFree(e);
    case Loop(_, _, _, _, b) => ContinueFree(b);
    case _ =>
  }

  lemma {:induction false} SeqContinueFree(ss: seq<Stmt>)
    requires forall k :: 0 <= k < |ss| ==> !HasContinue(ss[k])
    ensures ContinueAsBreakSeq(ss) == ss
    decreases ss, 0
  {
    if ss != [] {
      ContinueFree(ss[0]);
      SeqContinueFree(ss[1..]);
    }
  }

  // ----- Whole functions -----

  function Start(symbols: map<SymbolRef, OperandType>, outer: seq<Scope>, nextId: nat, scope: Scope): Gen {
    GenState([], symbols, outer + [scope], [], nextId, false)
  }

  /** A function body the earlier passes accept: a block whose variables are declared `long`. */
  predicate AcceptedFunction(symbols: map<SymbolRef, OperandType>, s: Stmt, vars: set<SymbolRef>) {
    s.Block? && Accepted(s, vars) && forall v :: v in vars ==> v in symbols && symbols[v] == I8
  }

  lemma StartIsGood(symbols: map<SymbolRef, OperandType>, outer: seq<Scope>, nextId: nat, s: Stmt, vars: set<SymbolRef>)
    requires outer != [] && AcceptedFunction(symbols, s, vars)
    ensures var g := Start(symbols, outer, nextId, s.scope); Good(g) && Declared(g, vars)
    ensures var g := Start(symbols, outer, nextId, s.scope); var g' := LowerSeq(g, s.stmts);
      Good(g') && LowerFunction(symbols, outer, nextId, s) == if g'.failed then None else Some(g'.body)
  {
    SeqIsGood(Start(symbols, outer, nextId, s.scope), s.stmts, vars);
  }

  /** How a run of a function's code ends. */
  ghost predicate FunctionOutcome(m: Machine, body: Body, vars: set<SymbolRef>, st: State, o: Outcome) {
    match o.signal
    case Normal => exists st' :: Matches(vars, o.st, st') && Reaches(m, body, At(0, st), At(|body|, st'))
    case Trapped => Reaches(m, body, At(0, st), Fault)
    case _ => false
  }

  /** If the source, with `continue` read as `break`, runs to its end or into a trap, so does the generated code,
      and at the end every variable of the program has the value the source gives it. */
  lemma LoweringPreserves(m: Machine, symbols: map<SymbolRef, OperandType>, outer: seq<Scope>, nextId: nat, s: Stmt,
                          vars: set<SymbolRef>, st: State, fuel: nat)
    requires outer != [] && AcceptedFunction(symbols, s, vars) && LowerFunction(symbols, outer, nextId, s).Some?
    requires ExecStmt(m, ContinueAsBreak(s), st, fuel).Some?
    ensures FunctionOutcome(m, LowerFunction(symbols, outer, nextId, s).value, vars, st,
                            ExecStmt(m, ContinueAsBreak(s), st, fuel).value)
  {
    hide Good, Declared, LowerSeq, ExecSeq, HasContinue, JumpsInLoops, ContinueAsBreakSeq;
    var g := Start(symbols, outer, nextId, s.scope);
    StartIsGood(symbols, outer, nextId, s, vars);
    SeqFailsIff(g, s.stmts);
    SeqContinueIsLoweredAsBreak(g, s.stmts);
    SeqContinueAsBreakIsAccepted(s.stmts, vars, false);
    var body := LowerSeq(g, s.stmts).body;
    GoodLabelsOnce(LowerSeq(g, s.stmts));
    ExecBlock(m, s, st, fuel);
    var st' := SeqRuns(m, g, ContinueAsBreakSeq(s.stmts), vars, body, st, st, fuel);
  }

  /** If the source, with `continue` read as `break`, never ends, neither does the generated code. */
  lemma {:induction false} LoweringDiverges(m: Machine, symbols: map<SymbolRef, OperandType>, outer: seq<Scope>, nextId: nat, s: Stmt,
                                            vars: set<SymbolRef>, st: State, n: nat)
    requires outer != [] && AcceptedFunction(symbols, s, vars) && LowerFunction(symbols, outer, nextId, s).Some?
    requires forall fuel :: ExecStmt(m, ContinueAsBreak(s), st, fuel).None?
    ensures var code := LowerFunction(symbols, outer, nextId, s).value; !Final(code, Run(m, code, At(0, st), n))
  {
    hide Good, Declared, LowerSeq, ExecSeq, ExecStmt, HasContinue, JumpsInLoops, ContinueAsBreakSeq, Lasts, Run;
    var g := Start(symbols, outer, nextId, s.scope);
    StartIsGood(symbols, outer, nextId, s, vars);
    SeqFailsIff(g, s.stmts);
    SeqContinueIsLoweredAsBreak(g, s.stmts);
    SeqContinueAsBreakIsAccepted(s.stmts, vars, false);
    var body := LowerSeq(g, s.stmts).body;
    GoodLabelsOnce(LowerSeq(g, s.stmts));
    forall k: nat
      ensures Lasts(m, body, At(0, st), k)
    {
      ExecBlock(m, s, st, k);
      SeqLasts(m, g, ContinueAsBreakSeq(s.stmts), vars, body, st, st, k);
    }
    NeverFinal(m, body, At(0, st), n);
  }

  lemma GoodLabelsOnce(g: Gen)
    requires Good(g)
    ensures LabelsOnce(g.body)
  {
  }

  lemma ExecBlock(m: Machine, s: Stmt, st: State, fuel: nat)
    requires s.Block?
    ensures ExecStmt(m, ContinueAsBreak(s), st, fuel) == ExecSeq(m, ContinueAsBreakSeq(s.stmts), st, fuel)
  {
  }

  /** Code is generated exactly for functions whose jumps are inside loops. */
  lemma LoweringSucceedsIff(symbols: map<SymbolRef, OperandType>, outer: seq<Scope>, nextId: nat, s: Stmt)
    requires outer != []
    ensures LowerFunction(symbols, outer, nextId, s).Some? <==> JumpsInLoops(s, false)
  {
    FailsIff(GenState([], symbols, outer, [], nextId, false), s);
  }

  // ----- A program whose `continue` the generated code gets wrong -----

  /** { for (;; v := 1) if (v) break; else continue; } */
  function Retry(scope: Scope, v: SymbolRef): Stmt {
    Stmt.Block(scope, [Loop(None, None, false, Some(Assignment(v, Const(I8, 1))), If(Var(v), Break, Continue))])
  }

  lemma ExecSingle(m: Machine, scope: Scope, s: Stmt, st: State, fuel: nat)
    requires ExecStmt(m, s, st, fuel).Some?
    ensures ExecStmt(m, Stmt.Block(scope, [s]), st, fuel) == ExecStmt(m, s, st, fuel)
  {
    var o := ExecStmt(m, s, st, fuel).value;
    assert [s][1..] == [];
    assert ExecSeq(m, [], o.st, fuel) == Some(Outcome(Normal, o.st));
  }

  lemma RetryRuns(m: Machine, scope: Scope, v: SymbolRef, st: State)
    requires Read(st, v) == 0
    ensures ExecStmt(m, Retry(scope, v), st, 2) == Some(Outcome(Normal, st.(vars := st.vars[v := 1])))
  {
    var step := Some(Assignment(v, Const(I8, 1)));
    var body := If(Var(v), Break, Continue);
    var st' := st.(vars := st.vars[v := 1]);
    assert ExecOptional(m, step, st) == Outcome(Normal, st');
    assert ExecStmt(m, body, st', 0) == Some(Outcome(Broke, st'));
    assert ExecLoop(m, None, false, step, body, st', 1) == Some(Outcome(Normal, st'));
    assert ExecStmt(m, body, st, 1) == Some(Outcome(Continued, st));
    assert ExecLoop(m, None, false, step, body, st, 2) == Some(Outcome(Normal, st'));
    ExecSingle(m, scope, Loop(None, None, false, step, body), st, 2);
  }

  lemma RetryAsGenerated(m: Machine, scope: Scope, v: SymbolRef, st: State)
    requires Read(st, v) == 0
    ensures ExecStmt(m, ContinueAsBreak(Retry(scope, v)), st, 2) == Some(Outcome(Normal, st))
  {
    var step := Some(Assignment(v, Const(I8, 1)));
    var body := If(Var(v), Break, Break);
    var loop := Loop(None, None, false, step, body);
    assert ExecStmt(m, body, st, 1) == Some(Outcome(Broke, st));
    assert ExecLoop(m, None, false, step, body, st, 2) == Some(Outcome(Normal, st));
    ExecSingle(m, scope, loop, st, 2);
    var ss := Retry(scope, v).stmts;
    assert ContinueAsBreakSeq(ss) == [ContinueAsBreak(ss[0])];
    assert ContinueAsBreak(If(Var(v), Break, Continue)) == body;
    assert ContinueAsBreak(ss[0]) == loop;
  }

  /** The source leaves 1 in `v`, the generated code 0: `continue` has left the loop. */
  lemma ContinueIsMiscompiled(m: Machine, symbols: map<SymbolRef, OperandType>, outer: seq<Scope>, nextId: nat,
                              scope: Scope, v: SymbolRef, st: State)
    requires outer != [] && scope.kind == ScopeKind.Block && v in symbols && symbols[v] == I8 && Read(st, v) == 0
    ensures var s := Retry(scope, v); var code := LowerFunction(symbols, outer, nextId, s);
      && AcceptedFunction(symbols, s, {v}) && code.Some?
      && ExecStmt(m, s, st, 2) == Some(Outcome(Normal, st.(vars := st.vars[v := 1])))
      && exists st' :: Reaches(m, code.value, At(0, st), At(|code.value|, st')) && Read(st', v) == 0
  {
    var s := Retry(scope, v);
    RetryRuns(m, scope, v, st);
    RetryAsGenerated(m, scope, v, st);
    RetryIsAccepted(symbols, scope, v);
    LoweringSucceedsIff(symbols, outer, nextId, s);
    RetryCode(m, symbols, outer, nextId, s, v, st);
  }

  lemma RetryIsAccepted(symbols: map<SymbolRef, OperandType>, scope: Scope, v: SymbolRef)
    requires scope.kind == ScopeKind.Block && v in symbols && symbols[v] == I8
    ensures AcceptedFunction(symbols, Retry(scope, v), {v}) && JumpsInLoops(Retry(scope, v), false)
  {
    var ss := Retry(scope, v).stmts;
    var body := If(Var(v), Break, Continue);
    assert Accepted(Break, {v}) && Accepted(Continue, {v}) && Accepted(body, {v});
    assert WellTypedAssignment(Assignment(v, Const(I8, 1))) && AssignmentVars(Assignment(v, Const(I8, 1))) == {v};
    assert Accepted(ss[0], {v});
    assert ss[1..] == [] && AcceptedSeq(ss[1..], {v});
    assert JumpsInLoops(body, true) && JumpsInLoops(ss[0], false);
  }

  lemma RetryCode(m: Machine, symbols: map<SymbolRef, OperandType>, outer: seq<Scope>, nextId: nat, s: Stmt,
                  v: SymbolRef, st: State)
    requires outer != [] && AcceptedFunction(symbols, s, {v}) && LowerFunction(symbols, outer, nextId, s).Some?
    requires ExecStmt(m, ContinueAsBreak(s), st, 2) == Some(Outcome(Normal, st))
    ensures var code := LowerFunction(symbols, outer, nextId, s).value;
      exists st' :: Reaches(m, code, At(0, st), At(|code|, st')) && Read(st', v) == Read(st, v)
  {
    hide AcceptedFunction, LowerFunction, ExecStmt, ContinueAsBreak;
    LoweringPreserves(m, symbols, outer, nextId, s, {v}, st, 2);
  }
}
