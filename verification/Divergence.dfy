/** Code of a source program that never ends never ends either. */
module Divergence {
  import opened Wrappers
  import opened IL
  import opened ILEquivalence
  import opened Source
  import opened Lowering
  import opened LoweringShape
  import opened LoweringProof
  import opened StatementProof
  import opened ProgramProof

  /** The run from `c` is still going on after at least `k` steps. */
  ghost predicate Lasts(m: Machine, b: Body, c: Config, k: nat) {
    exists n: nat :: n >= k && !Final(b, Run(m, b, c, n))
  }

  lemma {:induction false} LastsAfter(m: Machine, b: Body, c: Config, d: Config, k: nat)
    requires Reaches(m, b, c, d) && Lasts(m, b, d, k)
    ensures Lasts(m, b, c, k) && (c != d ==> Lasts(m, b, c, k + 1))
  {
    var i: nat :| Run(m, b, c, i) == d;
    var n: nat :| n >= k && !Final(b, Run(m, b, d, n));
    RunSplit(m, b, c, i, n);
    assert c != d ==> i > 0;
    assert !Final(b, Run(m, b, c, i + n));
  }

  lemma {:induction false} LastsNow(m: Machine, b: Body, pc: nat, st: State)
    requires pc < |b|
    ensures Lasts(m, b, At(pc, st), 0)
  {
    assert !Final(b, Run(m, b, At(pc, st), 0));
  }

  /** A conditional whose selected branch takes more than `fuel`. */
  lemma {:induction false} IfLasts(m: Machine, g: Gen, s: Stmt, vars: set<SymbolRef>, b: Body, src: State, st: State, fuel: nat)
    requires s.If? && Ready(g, s, vars, b) && Matches(vars, src, st) && ExecStmt(m, s, src, fuel).None?
    ensures Lasts(m, b, At(|g.body|, st), fuel)
    decreases fuel, 2, s, 0
  {
    hide Good, Declared, LabelsOnce, HasContinue, JumpsInLoops, LowerStmt, LowerExpr, FindLabel, ExecStmt, CodeOutcome, Lasts;
    var g1, h, g5, yes, end := IfIsPlaced(g, s, vars, b);
    ExecIf(m, s, src, fuel);
    LabelIsAt(b, |g5.body| - 1, yes);
    var st1 := IfTestRuns(m, g1, s, h, yes, |g5.body|, vars, b, src, st);
    var v := Eval(m, s.cond, src);
    if v.value != 0 {
      StmtLasts(m, g5, s.thn, vars, b, src, st1, fuel);
      LastsAfter(m, b, At(|g.body|, st), At(|g5.body|, st1), fuel);
    } else {
      StmtLasts(m, h, s.els, vars, b, src, st1, fuel);
      LastsAfter(m, b, At(|g.body|, st), At(|h.body|, st1), fuel);
    }
  }

  /** The rounds of a loop, from its start label on: each takes at least one step. */
  lemma {:induction false} LoopLasts(m: Machine, g: Gen, s: Stmt, vars: set<SymbolRef>, b: Body,
      h: Gen, g2: Gen, g3: Gen, n: Gen, start: Operand, next: Operand, end: Operand, src: State, st: State, fuel: nat)
    requires s.Loop? && Accepted(s, vars) && LoopPlaced(g, s, vars, b, h, g2, g3, n, start, next, end)
    requires Matches(vars, src, st) && ExecLoop(m, s.test, s.testAfter, s.step, s.body, src, fuel).None?
    ensures Lasts(m, b, At(|h.body| - 1, st), fuel)
    decreases fuel, 1
  {
    hide Good, Declared, LowerStmt, LowerTestBefore, LowerTestAfter, LowerOptional, FindLabel, ExecStmt, ExecLoop, ExecRest,
      CodeOutcome, Ready, Accepted, Holds, Lasts, Matches, Reaches, BreakTarget;
    ExecOneRound(m, s, src, fuel);
    if fuel == 0 {
      LastsNow(m, b, |h.body| - 1, st);
    } else {
      var st1 := LoopTestRuns(m, g, s, vars, b, h, g2, start, end, |LowerStmt(g, s).body|, src, st);
      RoundLasts(m, g, s, vars, b, h, g2, g3, n, start, next, end, src, st1, fuel);
      HeadIsBefore(h, g2, s, end);
      LastsAfter(m, b, At(|h.body| - 1, st), At(|g2.body|, st1), fuel - 1);
    }
  }

  lemma {:induction false} HeadIsBefore(h: Gen, g2: Gen, s: Stmt, end: Operand)
    requires s.Loop? && g2 == LowerTestBefore(h, s.test, s.testAfter, end) && |h.body| > 0
    ensures |h.body| - 1 < |g2.body|
  {
    if !s.testAfter && s.test.Some? { ExprOnlyAppends(h, s.test.value); }
  }

  lemma {:induction false} ExprOnlyAppends(g: Gen, e: Expr)
    ensures |g.body| <= |LowerExpr(g, e).0.body|
    decreases e
  {
    match e
    case Const(_, _) =>
    case Var(_) =>
    case Binary(_, l, r) => ExprOnlyAppends(g, l); ExprOnlyAppends(LowerExpr(g, l).0, r);
    case Negate(x) => ExprOnlyAppends(g, x);
    case Convert(_, x) => ExprOnlyAppends(g, x);
  }

  /** A round behind the test at its head, and the rounds that follow. */
  lemma {:induction false} RoundLasts(m: Machine, g: Gen, s: Stmt, vars: set<SymbolRef>, b: Body,
      h: Gen, g2: Gen, g3: Gen, n: Gen, start: Operand, next: Operand, end: Operand, src: State, st1: State, fuel: nat)
    requires s.Loop? && Accepted(s, vars) && LoopPlaced(g, s, vars, b, h, g2, g3, n, start, next, end) && fuel > 0
    requires Matches(vars, src, st1) && ExecLoop(m, s.test, s.testAfter, s.step, s.body, src, fuel).None?
    requires (if s.testAfter then Some(true) else Holds(m, s.test, src)) == Some(true)
    ensures Lasts(m, b, At(|g2.body|, st1), fuel - 1)
    decreases fuel, 0, 2
  {
    hide Good, Declared, LowerStmt, LowerTestBefore, LowerTestAfter, LowerOptional, FindLabel, ExecStmt, ExecLoop, ExecRest,
      Ready, Holds, Lasts;
    ExecOneRound(m, s, src, fuel);
    var r := ExecStmt(m, s.body, src, fuel - 1);
    if r.None? {
      StmtLasts(m, g2, s.body, vars, b, src, st1, fuel - 1);
    } else {
      var st2 := StmtRuns(m, g2, s.body, vars, b, src, st1, fuel - 1);
      var o := r.value;
      NotContinued(m, g2, |g2.body|, vars, b, st1, o, |g3.body| - 1, st2);
      PassesLabel(m, b, |g3.body| - 1, next, st2);
      ReachesTrans(m, b, At(|g2.body|, st1), At(|g3.body| - 1, st2), At(|g3.body|, st2));
      FootLasts(m, g, s, vars, b, h, g2, g3, n, start, next, end, o.st, st2, fuel);
      LastsAfter(m, b, At(|g2.body|, st1), At(|g3.body|, st2), fuel - 1);
    }
  }

  lemma {:induction false} NotContinued(m: Machine, g: Gen, pc: nat, vars: set<SymbolRef>, b: Body, st: State, o: Outcome, end: nat, st': State)
    requires CodeOutcome(m, g, pc, vars, b, st, o, end, st')
    ensures o.signal != Continued
  {
  }

  /** The step, the test at the foot, and the rounds that follow. */
  lemma {:induction false} FootLasts(m: Machine, g: Gen, s: Stmt, vars: set<SymbolRef>, b: Body,
      h: Gen, g2: Gen, g3: Gen, n: Gen, start: Operand, next: Operand, end: Operand, src: State, st: State, fuel: nat)
    requires s.Loop? && Accepted(s, vars) && LoopPlaced(g, s, vars, b, h, g2, g3, n, start, next, end) && fuel > 0
    requires Matches(vars, src, st) && ExecRest(m, s.test, s.testAfter, s.step, s.body, src, fuel).None?
    ensures Lasts(m, b, At(|g3.body|, st), fuel - 1)
    decreases fuel, 0, 1
  {
    hide Good, Declared, LabelsOnce, HasContinue, JumpsInLoops, LowerStmt, LowerExpr, LowerTestBefore, LowerTestAfter, LowerOptional,
      FindLabel, ExecStmt, ExecLoop, ExecRest, ExecOptional, Holds, Lasts;
    ExecEndOfRound(m, s, src, fuel);
    var st1 := OptionalRuns(m, g3, s.step, vars, b, src, st);
    var o := ExecOptional(m, s.step, src);
    var st2 := TestAfterRuns(m, n, s.test, s.testAfter, start, vars, b, o.st, st1);
    LoopLasts(m, g, s, vars, b, h, g2, g3, n, start, next, end, o.st, st2, fuel - 1);
    LastsAfter(m, b, At(|n.body|, st1), At(|h.body| - 1, st2), fuel - 1);
    LastsAfter(m, b, At(|g3.body|, st), At(|n.body|, st1), fuel - 1);
  }

  lemma {:induction false} LoopStmtLasts(m: Machine, g: Gen, s: Stmt, vars: set<SymbolRef>, b: Body, src: State, st: State, fuel: nat)
    requires s.Loop? && Ready(g, s, vars, b) && Matches(vars, src, st) && ExecStmt(m, s, src, fuel).None?
    ensures Lasts(m, b, At(|g.body|, st), fuel)
    decreases fuel, 2, s, 0
  {
    hide Good, Declared, LabelsOnce, HasContinue, JumpsInLoops, LowerStmt, LowerLoopLabels, LowerTestBefore, LowerTestAfter,
      LowerOptional, FindLabel, ExecStmt, ExecLoop, Lasts;
    ExecLoopStmt(m, s, src, fuel);
    var h0, h, g2, g3, n, start, next, end := LoopIsPlaced(g, s, vars, b);
    DeclaredMore(g, h0, vars);
    assert h.body == LowerOptional(h0, s.init).body + [Instr(Label, [start])];
    assert h.body <= b;
    var st1 := OptionalRuns(m, h0, s.init, vars, b, src, st);
    var o := ExecOptional(m, s.init, src);
    LoopLasts(m, g, s, vars, b, h, g2, g3, n, start, next, end, o.st, st1, fuel);
    LastsAfter(m, b, At(|g.body|, st), At(|h.body| - 1, st1), fuel);
  }

  lemma {:induction false} BlockLasts(m: Machine, g: Gen, s: Stmt, vars: set<SymbolRef>, b: Body, src: State, st: State, fuel: nat)
    requires s.Block? && Ready(g, s, vars, b) && Matches(vars, src, st) && ExecStmt(m, s, src, fuel).None?
    ensures Lasts(m, b, At(|g.body|, st), fuel)
    decreases fuel, 2, s, 0
  {
    hide HasContinue, JumpsInLoops, LowerSeq, Lasts, ExecSeq, Fits, LabelsOnce, Finished, AcceptedSeq, Matches;
    var g1: Gen := g.(chain := g.chain + [s.scope]);
    BlockIsReady(g, s, vars, b);
    SeqLasts(m, g1, s.stmts, vars, b, src, st, fuel);
  }

  /** A statement that takes more than `fuel` has code that takes more than `fuel` steps. */
  lemma {:induction false} StmtLasts(m: Machine, g: Gen, s: Stmt, vars: set<SymbolRef>, b: Body, src: State, st: State, fuel: nat)
    requires Ready(g, s, vars, b) && Matches(vars, src, st) && ExecStmt(m, s, src, fuel).None?
    ensures Lasts(m, b, At(|g.body|, st), fuel)
    decreases fuel, 2, s, 1
  {
    hide Good, Declared, LowerStmt, FindLabel, Matches, Lasts, Ready;
    match s
    case Block(_, _) => BlockLasts(m, g, s, vars, b, src, st, fuel);
    case If(_, _, _) => IfLasts(m, g, s, vars, b, src, st, fuel);
    case Loop(_, _, _, _, _) => LoopStmtLasts(m, g, s, vars, b, src, st, fuel);
    case _ =>
  }

  lemma {:induction false} SeqLasts(m: Machine, g: Gen, ss: seq<Stmt>, vars: set<SymbolRef>, b: Body, src: State, st: State, fuel: nat)
    requires Good(g) && AcceptedSeq(ss, vars) && Declared(g, vars) && LowerSeq(g, ss).body <= b && Finished(g, b)
    requires forall k :: 0 <= k < |ss| ==> !HasContinue(ss[k]) && JumpsInLoops(ss[k], g.loops != [])
    requires Matches(vars, src, st) && ExecSeq(m, ss, src, fuel).None?
    ensures Lasts(m, b, At(|g.body|, st), fuel)
    decreases fuel, 2, ss, 0
  {
    hide Good, LabelsOnce, HasContinue, JumpsInLoops, LowerStmt, ExecStmt, FindLabel, Lasts;
    if ss != [] {
      var g1 := LowerStmt(g, ss[0]);
      StmtIsGood(g, ss[0], vars);
      SeqIsGood(g1, ss[1..], vars);
      if ExecStmt(m, ss[0], src, fuel).None? {
        StmtLasts(m, g, ss[0], vars, b, src, st, fuel);
      } else {
        var st1 := StmtRuns(m, g, ss[0], vars, b, src, st, fuel);
        var o := ExecStmt(m, ss[0], src, fuel).value;
        SeqLasts(m, g1, ss[1..], vars, b, o.st, st1, fuel);
        LastsAfter(m, b, At(|g.body|, st), At(|g1.body|, st1), fuel);
      }
    }
  }

  /** A run that lasts longer than any number of steps never comes to an end. */
  lemma {:induction false} NeverFinal(m: Machine, b: Body, c: Config, n: nat)
    requires forall k: nat :: Lasts(m, b, c, k)
    ensures !Final(b, Run(m, b, c, n))
  {
    assert Lasts(m, b, c, n);
    var j: nat :| j >= n && !Final(b, Run(m, b, c, j));
    if Final(b, Run(m, b, c, n)) { RunIsStable(m, b, c, n, j); }
  }
}
