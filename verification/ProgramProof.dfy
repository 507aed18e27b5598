/** Generated code does what the source says: whole statements, loops included. */
module ProgramProof {
  import opened Wrappers
  import opened IL
  import opened Source
  import opened Lowering
  import opened LoweringShape
  import opened LoweringProof
  import opened StatementProof

  // ----- What a run of a statement's code has to do -----

  function BreakTarget(g: Gen, b: Body): int {
    if g.loops == [] then -1 else FindLabel(b, g.loops[|g.loops| - 1].breakLabel.sym)
  }

  /** Run from the start of the code: to its end, to the innermost loop's end, or into a trap. */
  ghost predicate CodeOutcome(m: Machine, g: Gen, pc: nat, vars: set<SymbolRef>, b: Body, st: State, o: Outcome, end: nat, st': State) {
    match o.signal
    case Normal => Matches(vars, o.st, st') && Reaches(m, b, At(pc, st), At(end, st'))
    case Broke => Matches(vars, o.st, st') && BreakTarget(g, b) >= 0 && Reaches(m, b, At(pc, st), At(BreakTarget(g, b), st'))
    case Continued => false
    case Trapped => Reaches(m, b, At(pc, st), Fault)
  }

  /** The finished body: every label in it is placed once, and the enclosing loops' ends are in it. */
  predicate Finished(g: Gen, b: Body) {
    LabelsOnce(b) && (g.loops != [] ==> BreakTarget(g, b) >= 0)
  }

  /** A statement about to be lowered, whose code is part of the finished body. */
  predicate Ready(g: Gen, s: Stmt, vars: set<SymbolRef>, b: Body) {
    Good(g) && Accepted(s, vars) && Declared(g, vars) && !HasContinue(s) && JumpsInLoops(s, g.loops != []) &&
    LowerStmt(g, s).body <= b && Finished(g, b)
  }

  lemma OutcomeAfter(m: Machine, g: Gen, pc: nat, pc1: nat, vars: set<SymbolRef>, b: Body, st: State, st1: State, o: Outcome, end: nat, st': State)
    requires Reaches(m, b, At(pc, st), At(pc1, st1)) && CodeOutcome(m, g, pc1, vars, b, st1, o, end, st')
    ensures CodeOutcome(m, g, pc, vars, b, st, o, end, st')
  {
    match o.signal
    case Normal => ReachesTrans(m, b, At(pc, st), At(pc1, st1), At(end, st'));
    case Broke => ReachesTrans(m, b, At(pc, st), At(pc1, st1), At(BreakTarget(g, b), st'));
    case Trapped => ReachesTrans(m, b, At(pc, st), At(pc1, st1), Fault);
  }

  /** A normal end can be moved along the code; the other outcomes are unaffected. */
  lemma OutcomeBefore(m: Machine, g: Gen, g': Gen, pc: nat, vars: set<SymbolRef>, b: Body, st: State, o: Outcome, end: nat, end': nat, st': State)
    requires CodeOutcome(m, g', pc, vars, b, st, o, end, st') && g'.loops == g.loops
    requires Reaches(m, b, At(end, st'), At(end', st'))
    ensures CodeOutcome(m, g, pc, vars, b, st, o, end', st')
  {
    if o.signal.Normal? { ReachesTrans(m, b, At(pc, st), At(end, st'), At(end', st')); }
  }

  // ----- Conditionals -----

  /** The pieces of a lowered conditional: before the test, behind it, and behind the false branch. */
  predicate IfPlaced(g: Gen, s: Stmt, vars: set<SymbolRef>, b: Body, g1: Gen, h: Gen, g5: Gen, yes: Operand, end: Operand)
    requires s.If?
  {
    Good(g1) && Declared(g1, vars) && g1.body == g.body && (h, yes) == LowerIfHead(g1, s.cond) && h.body <= b &&
    Ready(h, s.els, vars, b) && h.loops == g.loops &&
    Ready(g5, s.thn, vars, b) && g5.loops == g.loops &&
    |g5.body| == |LowerStmt(h, s.els).body| + 2 <= |b| && |LowerStmt(g, s).body| == |LowerStmt(g5, s.thn).body| + 1 &&
    b[|g5.body| - 2] == Instr(Br, [end]) && b[|g5.body| - 1] == Instr(Label, [yes]) &&
    |LowerStmt(g5, s.thn).body| < |b| && b[|LowerStmt(g5, s.thn).body|] == Instr(Label, [end])
  }

  /** What generation guarantees of those pieces, wherever the code ends up. */
  predicate IfGenerated(g: Gen, s: Stmt, g1: Gen, h: Gen, g5: Gen, yes: Operand, end: Operand)
    requires s.If?
  {
    (g1, end) == GenTemp(g, I) && (h, yes) == LowerIfHead(g1, s.cond) && g5 == LowerIfMiddle(LowerStmt(h, s.els), yes, end) &&
    Good(g1) && Good(h) && Good(g5) && g1.body == g.body && SameContext(g, h) && SameContext(g, g5) &&
    Includes(g.symbols, g1.symbols) && Includes(g.symbols, h.symbols) && Includes(g.symbols, g5.symbols) &&
    h.body <= LowerStmt(h, s.els).body && g5.body <= LowerStmt(g5, s.thn).body &&
    LowerStmt(g, s) == Emit(LowerStmt(g5, s.thn), Instr(Label, [end]))
  }

  lemma IfIsGenerated(g: Gen, s: Stmt, vars: set<SymbolRef>) returns (g1: Gen, h: Gen, g5: Gen, yes: Operand, end: Operand)
    requires s.If? && Good(g) && Accepted(s, vars) && Declared(g, vars)
    ensures IfGenerated(g, s, g1, h, g5, yes, end)
  {
    hide Good, Unplaced;
    var r := GenTemp(g, I);
    g1, end := r.0, r.1;
    TempIsGood(g, I);
    DeclaredMore(g, g1, vars);
    var r' := LowerIfHead(g1, s.cond);
    h, yes := r'.0, r'.1;
    IfHeadIsGood(g1, s.cond);
    ExtendsTrans(g, g1, h);
    DeclaredMore(g, h, vars);
    StillAwaits(g, g1, h, end);
    var g4 := LowerStmt(h, s.els);
    StmtIsGood(h, s.els, vars);
    ExtendsTrans(g, h, g4);
    StillAwaits(g, h, g4, end);
    StillAwaits(g, h, g4, yes);
    g5 := LowerIfMiddle(g4, yes, end);
    IfMiddleIsGood(g, g4, yes, end);
    DeclaredMore(g, g5, vars);
    StmtIsGood(g5, s.thn, vars);
  }

  lemma IfIsPlaced(g: Gen, s: Stmt, vars: set<SymbolRef>, b: Body) returns (g1: Gen, h: Gen, g5: Gen, yes: Operand, end: Operand)
    requires s.If? && Ready(g, s, vars, b)
    ensures IfPlaced(g, s, vars, b, g1, h, g5, yes, end)
  {
    hide Good, LabelsOnce, LowerStmt, LowerIfHead, FindLabel;
    g1, h, g5, yes, end := IfIsGenerated(g, s, vars);
    DeclaredMore(g, g1, vars);
    DeclaredMore(g, h, vars);
    DeclaredMore(g, g5, vars);
    var g4, g6 := LowerStmt(h, s.els), LowerStmt(g5, s.thn);
    assert g5.body == g4.body + [Instr(Br, [end])] + [Instr(Label, [yes])];
    assert g6.body + [Instr(Label, [end])] <= b;
  }

  lemma ExecIf(m: Machine, s: Stmt, src: State, fuel: nat)
    requires s.If?
    ensures var v := Eval(m, s.cond, src);
      ExecStmt(m, s, src, fuel) ==
      if v.None? then Some(Outcome(Trapped, src))
      else if v.value != 0 then ExecStmt(m, s.thn, src, fuel) else ExecStmt(m, s.els, src, fuel)
  {
  }

  /** Behind either branch: on to the end label, and past it. */
  lemma IfFinishes(m: Machine, g: Gen, g': Gen, from: nat, start: nat, last: nat, exit: nat, vars: set<SymbolRef>, b: Body, end: Operand,
                   st: State, st1: State, o: Outcome, st': State)
    requires Reaches(m, b, At(from, st), At(start, st1)) && CodeOutcome(m, g', start, vars, b, st1, o, last, st') && g'.loops == g.loops
    requires 0 < exit <= |b| && b[exit - 1] == Instr(Label, [end]) && FindLabel(b, end.sym) == exit - 1
    requires last == exit - 1 || (last < |b| && b[last] == Instr(Br, [end]))
    ensures CodeOutcome(m, g, from, vars, b, st, o, exit, st')
  {
    hide *;
    PassesLabel(m, b, exit - 1, end, st');
    if last != exit - 1 {
      TakesGoto(m, b, last, end, st');
      ReachesTrans(m, b, At(last, st'), At(exit - 1, st'), At(exit, st'));
    }
    OutcomeBefore(m, g, g', start, vars, b, st1, o, last, exit, st');
    OutcomeAfter(m, g, from, start, vars, b, st, st1, o, exit, st');
  }

  lemma {:induction false} IfRuns(m: Machine, g: Gen, s: Stmt, vars: set<SymbolRef>, b: Body, src: State, st: State, fuel: nat)
    returns (st': State)
    requires s.If? && Ready(g, s, vars, b) && Matches(vars, src, st) && ExecStmt(m, s, src, fuel).Some?
    ensures CodeOutcome(m, g, |g.body|, vars, b, st, ExecStmt(m, s, src, fuel).value, |LowerStmt(g, s).body|, st')
    decreases fuel, 2, s, 0
  {
    hide Good, Declared, LabelsOnce, HasContinue, JumpsInLoops, LowerStmt, LowerExpr, FindLabel, ExecStmt, CodeOutcome;
    var g1, h, g5, yes, end := IfIsPlaced(g, s, vars, b);
    ExecIf(m, s, src, fuel);
    LabelIsAt(b, |g5.body| - 1, yes);
    LabelIsAt(b, |LowerStmt(g5, s.thn).body|, end);
    var st1 := IfTestRuns(m, g1, s, h, yes, |g5.body|, vars, b, src, st);
    var v := Eval(m, s.cond, src);
    st' := st;
    if v.None? {
      TrapOutcome(m, g, |g.body|, vars, b, st, src, |LowerStmt(g, s).body|, st');
    } else if v.value != 0 {
      st' := StmtRuns(m, g5, s.thn, vars, b, src, st1, fuel);
      IfFinishes(m, g, g5, |g.body|, |g5.body|, |LowerStmt(g5, s.thn).body|, |LowerStmt(g, s).body|, vars, b, end, st, st1,
                 ExecStmt(m, s.thn, src, fuel).value, st');
    } else {
      st' := StmtRuns(m, h, s.els, vars, b, src, st1, fuel);
      IfFinishes(m, g, h, |g.body|, |h.body|, |g5.body| - 2, |LowerStmt(g, s).body|, vars, b, end, st, st1,
                 ExecStmt(m, s.els, src, fuel).value, st');
    }
  }

  lemma TrapOutcome(m: Machine, g: Gen, pc: nat, vars: set<SymbolRef>, b: Body, st: State, src: State, end: nat, st': State)
    requires Reaches(m, b, At(pc, st), Fault)
    ensures CodeOutcome(m, g, pc, vars, b, st, Outcome(Trapped, src), end, st')
  {
  }

  /** The condition, up to the start of the branch it selects. */
  lemma IfTestRuns(m: Machine, g1: Gen, s: Stmt, h: Gen, yes: Operand, thn: nat, vars: set<SymbolRef>, b: Body, src: State, st: State)
    returns (st1: State)
    requires s.If? && Good(g1) && Declared(g1, vars) && Accepted(s, vars) && (h, yes) == LowerIfHead(g1, s.cond) && h.body <= b
    requires 0 < thn <= |b| && b[thn - 1] == Instr(Label, [yes]) && FindLabel(b, yes.sym) == thn - 1 && Matches(vars, src, st)
    ensures match Eval(m, s.cond, src)
      case None => Reaches(m, b, At(|g1.body|, st), Fault)
      case Some(v) =>
        Matches(vars, src, st1) && Reaches(m, b, At(|g1.body|, st), At(if v != 0 then thn else |h.body|, st1))
  {
    st1 := TestRuns(m, g1, s.cond, BrNz, yes, vars, b, src, st);
    var v := Eval(m, s.cond, src);
    if v.Some? && v.value != 0 {
      PassesLabel(m, b, thn - 1, yes, st1);
      ReachesTrans(m, b, At(|g1.body|, st), At(thn - 1, st1), At(thn, st1));
    }
  }

  // ----- Loops -----

  /** The pieces of a lowered loop: behind the start label, behind the test at the head,
      behind the body, behind the step. */
  predicate LoopPlaced(g: Gen, s: Stmt, vars: set<SymbolRef>, b: Body, h: Gen, g2: Gen, g3: Gen, n: Gen, start: Operand, next: Operand, end: Operand)
    requires s.Loop?
  {
    LoopContexts(s, vars, b, h, g2, g3, n, start, next, end) &&
    LoopCode(b, |h.body|, |g3.body|, |LowerStmt(g, s).body|, start, next, end) &&
    g2.loops != [] && BreakTarget(g2, b) == FindLabel(b, end.sym) &&
    |LowerTestAfter(n, s.test, s.testAfter, start).body| + 1 == |LowerStmt(g, s).body| &&
    |LowerStmt(g2, s.body).body| + 1 == |g3.body|
  }

  predicate LoopContexts(s: Stmt, vars: set<SymbolRef>, b: Body, h: Gen, g2: Gen, g3: Gen, n: Gen, start: Operand, next: Operand, end: Operand)
    requires s.Loop?
  {
    Good(h) && Declared(h, vars) && g2 == LowerTestBefore(h, s.test, s.testAfter, end) && g2.body <= b &&
    Ready(g2, s.body, vars, b) &&
    Good(g3) && Declared(g3, vars) && n == LowerOptional(g3, s.step) && n.body <= b && Good(n) && Declared(n, vars) &&
    LowerTestAfter(n, s.test, s.testAfter, start).body <= b
  }

  /** Where a loop's three labels stand: `head` is behind the start label, `foot` behind
      the round's label, `exit` behind the end label. */
  predicate LoopCode(b: Body, head: nat, foot: nat, exit: nat, start: Operand, next: Operand, end: Operand) {
    0 < head <= |b| && 0 < foot <= |b| && 0 < exit <= |b| &&
    b[head - 1] == Instr(Label, [start]) && FindLabel(b, start.sym) == head - 1 &&
    b[foot - 1] == Instr(Label, [next]) &&
    b[exit - 1] == Instr(Label, [end]) && FindLabel(b, end.sym) == exit - 1
  }

  predicate LoopGenerated(g: Gen, s: Stmt, h0: Gen, h: Gen, g2: Gen, g3: Gen, n: Gen, start: Operand, next: Operand, end: Operand)
    requires s.Loop?
  {
    (h0, start, next, end) == LowerLoopLabels(g) && h == LowerLoopEntry(h0, s.init, start) &&
    g2 == LowerTestBefore(h, s.test, s.testAfter, end) &&
    g3 == Emit(LowerStmt(g2, s.body), Instr(Label, [next])) && n == LowerOptional(g3, s.step) &&
    LowerStmt(g, s) == LowerLoopEnd(g, n, s.test, s.testAfter, start, end) &&
    Good(h0) && Good(h) && Good(g2) && Good(g3) && Good(n) && h0.body == g.body &&
    Includes(g.symbols, h0.symbols) && Includes(g.symbols, h.symbols) && Includes(g.symbols, g2.symbols) &&
    Includes(g.symbols, g3.symbols) && Includes(g.symbols, n.symbols) && InLoop(g, g2, end) &&
    h.body <= g2.body && g2.body <= LowerStmt(g2, s.body).body && g3.body <= n.body &&
    n.body <= LowerTestAfter(n, s.test, s.testAfter, start).body
  }

  /** A loop up to the test at its head. */
  lemma LoopHeadIsGenerated(g: Gen, s: Stmt, vars: set<SymbolRef>)
    returns (h0: Gen, h: Gen, g2: Gen, start: Operand, next: Operand, end: Operand)
    requires s.Loop? && Good(g) && Accepted(s, vars) && Declared(g, vars)
    ensures (h0, start, next, end) == LowerLoopLabels(g) && h == LowerLoopEntry(h0, s.init, start)
    ensures g2 == LowerTestBefore(h, s.test, s.testAfter, end) && h.body <= g2.body && h0.body == g.body
    ensures Good(h0) && Good(h) && Good(g2) && Extends(g, g2) && InLoop(g, g2, end) && next.sym != end.sym
    ensures Includes(g.symbols, h0.symbols) && Includes(g.symbols, h.symbols)
    ensures Awaits(g, g2, next) && Awaits(g, g2, end) && IsLabelOperand(g2.symbols, start)
  {
    hide Good, Unplaced, Extends, Awaits, LowerLoopLabels, LowerLoopEntry, LowerTestBefore;
    var r := LowerLoopLabels(g);
    h0, start, next, end := r.0, r.1, r.2, r.3;
    LoopLabelsAreGood(g);
    ExtendsMeans(g, h0);
    DeclaredMore(g, h0, vars);
    h := LowerLoopEntry(h0, s.init, start);
    LoopEntryIsGood(g, h0, s.init, start, next, end);
    ExtendsMeans(g, h);
    DeclaredMore(g, h, vars);
    AwaitsMeans(g, h, end);
    g2 := LowerTestBefore(h, s.test, s.testAfter, end);
    TestBeforeIsGood(h, s.test, s.testAfter, end);
    ExtendsMeans(h, g2);
    LabelStays(h, g2, start);
    ExtendsTrans(g, h, g2);
    StillAwaits(g, h, g2, next);
    StillAwaits(g, h, g2, end);
  }

  lemma LoopIsGenerated(g: Gen, s: Stmt, vars: set<SymbolRef>)
    returns (h0: Gen, h: Gen, g2: Gen, g3: Gen, n: Gen, start: Operand, next: Operand, end: Operand)
    requires s.Loop? && Good(g) && Accepted(s, vars) && Declared(g, vars)
    ensures LoopGenerated(g, s, h0, h, g2, g3, n, start, next, end)
  {
    hide Good, Unplaced, Extends, Awaits, LowerLoopLabels, LowerLoopEntry, LowerTestBefore, LowerTestAfter, LowerOptional, LowerLoopEnd;
    h0, h, g2, start, next, end := LoopHeadIsGenerated(g, s, vars);
    ExtendsMeans(g, g2);
    DeclaredMore(g, g2, vars);
    var c := LowerStmt(g2, s.body);
    StmtIsGood(g2, s.body, vars);
    ExtendsMeans(g2, c);
    ExtendsTrans(g, g2, c);
    StillAwaits(g, g2, c, next);
    StillAwaits(g, g2, c, end);
    g3 := Emit(c, Instr(Label, [next]));
    LoopNextIsGood(g, c, next, end);
    ExtendsMeans(g, g3);
    DeclaredMore(g, g3, vars);
    n := LowerOptional(g3, s.step);
    OptionalIsGood(g3, s.step);
    ExtendsMeans(g3, n);
    DeclaredMore(g, n, vars);
    LabelStays(g2, n, start);
    TestAfterIsGood(n, s.test, s.testAfter, start);
    ExtendsMeans(n, LowerTestAfter(n, s.test, s.testAfter, start));
  }

  lemma LoopIsPlaced(g: Gen, s: Stmt, vars: set<SymbolRef>, b: Body)
    returns (h0: Gen, h: Gen, g2: Gen, g3: Gen, n: Gen, start: Operand, next: Operand, end: Operand)
    requires s.Loop? && Ready(g, s, vars, b)
    ensures LoopGenerated(g, s, h0, h, g2, g3, n, start, next, end)
    ensures LoopPlaced(g, s, vars, b, h, g2, g3, n, start, next, end)
  {
    hide Good, LabelsOnce, LowerStmt, LowerLoopLabels, LowerTestBefore, LowerTestAfter, LowerOptional, FindLabel;
    h0, h, g2, g3, n, start, next, end := LoopIsGenerated(g, s, vars);
    DeclaredMore(g, h, vars);
    DeclaredMore(g, g2, vars);
    DeclaredMore(g, g3, vars);
    DeclaredMore(g, n, vars);
    var c, g4 := LowerStmt(g2, s.body), LowerTestAfter(n, s.test, s.testAfter, start);
    assert h.body == LowerOptional(h0, s.init).body + [Instr(Label, [start])];
    assert g3.body == c.body + [Instr(Label, [next])];
    assert g4.body + [Instr(Label, [end])] <= b;
    LabelIsAt(b, |h.body| - 1, start);
    LabelIsAt(b, |g4.body|, end);
  }

  lemma ExecOneRound(m: Machine, s: Stmt, src: State, fuel: nat)
    requires s.Loop?
    ensures var enter := if s.testAfter then Some(true) else Holds(m, s.test, src);
      ExecLoop(m, s.test, s.testAfter, s.step, s.body, src, fuel) ==
      if fuel == 0 then None
      else if enter.None? then Some(Outcome(Trapped, src))
      else if !enter.value then Some(Outcome(Normal, src))
      else
        var o := ExecStmt(m, s.body, src, fuel - 1);
        if o.None? || o.value.signal.Trapped? then o
        else if o.value.signal.Broke? then Some(Outcome(Normal, o.value.st))
        else ExecRest(m, s.test, s.testAfter, s.step, s.body, o.value.st, fuel)
  {
  }

  lemma ExecEndOfRound(m: Machine, s: Stmt, src: State, fuel: nat)
    requires s.Loop? && fuel > 0
    ensures var o := ExecOptional(m, s.step, src);
      ExecRest(m, s.test, s.testAfter, s.step, s.body, src, fuel) ==
      if o.signal.Trapped? then Some(o) else AtFoot(m, s, o.st, fuel)
  {
  }

  lemma ExecLoopStmt(m: Machine, s: Stmt, src: State, fuel: nat)
    requires s.Loop?
    ensures var o := ExecOptional(m, s.init, src);
      ExecStmt(m, s, src, fuel) ==
      if o.signal.Trapped? then Some(o) else ExecLoop(m, s.test, s.testAfter, s.step, s.body, o.st, fuel)
  {
  }

  /** From any point of the loop: reaching its end label is leaving it normally. */
  lemma LeavesLoop(m: Machine, g: Gen, pc: nat, exit: nat, vars: set<SymbolRef>, b: Body, end: Operand, src: State, st: State, st': State)
    requires 0 < exit <= |b| && b[exit - 1] == Instr(Label, [end])
    requires Reaches(m, b, At(pc, st), At(exit - 1, st')) && Matches(vars, src, st')
    ensures CodeOutcome(m, g, pc, vars, b, st, Outcome(Normal, src), exit, st')
  {
    PassesLabel(m, b, exit - 1, end, st');
    ReachesTrans(m, b, At(pc, st), At(exit - 1, st'), At(exit, st'));
  }

  /** A round up to the start of the body, or out of the loop. */
  lemma LoopTestRuns(m: Machine, g: Gen, s: Stmt, vars: set<SymbolRef>, b: Body, h: Gen, g2: Gen, start: Operand, end: Operand,
                     exit: nat, src: State, st: State)
    returns (st1: State)
    requires s.Loop? && Good(h) && Declared(h, vars) && g2 == LowerTestBefore(h, s.test, s.testAfter, end) && g2.body <= b
    requires Accepted(s, vars) && 0 < |h.body| <= |b| && b[|h.body| - 1] == Instr(Label, [start])
    requires 0 < exit <= |b| && b[exit - 1] == Instr(Label, [end]) && FindLabel(b, end.sym) == exit - 1 && Matches(vars, src, st)
    ensures match (if s.testAfter then Some(true) else Holds(m, s.test, src))
      case None => CodeOutcome(m, g, |h.body| - 1, vars, b, st, Outcome(Trapped, src), exit, st1)
      case Some(enter) =>
        if enter then Matches(vars, src, st1) && Reaches(m, b, At(|h.body| - 1, st), At(|g2.body|, st1))
        else CodeOutcome(m, g, |h.body| - 1, vars, b, st, Outcome(Normal, src), exit, st1)
  {
    hide Good, LowerTestBefore;
    PassesLabel(m, b, |h.body| - 1, start, st);
    st1 := TestBeforeRuns(m, h, s.test, s.testAfter, end, vars, b, src, st);
    var enter := if s.testAfter then Some(true) else Holds(m, s.test, src);
    var to := if enter.None? then Fault else At(if enter.value then |g2.body| else exit - 1, st1);
    ReachesTrans(m, b, At(|h.body| - 1, st), At(|h.body|, st), to);
    if enter == Some(false) { LeavesLoop(m, g, |h.body| - 1, exit, vars, b, end, src, st, st1); }
  }

  /** The rounds of a loop, from its start label on. */
  lemma {:induction false} LoopRuns(m: Machine, g: Gen, s: Stmt, vars: set<SymbolRef>, b: Body,
      h: Gen, g2: Gen, g3: Gen, n: Gen, start: Operand, next: Operand, end: Operand, src: State, st: State, fuel: nat)
    returns (st': State)
    requires s.Loop? && Accepted(s, vars) && LoopPlaced(g, s, vars, b, h, g2, g3, n, start, next, end)
    requires Matches(vars, src, st) && ExecLoop(m, s.test, s.testAfter, s.step, s.body, src, fuel).Some?
    ensures var o := ExecLoop(m, s.test, s.testAfter, s.step, s.body, src, fuel).value;
      CodeOutcome(m, g, |h.body| - 1, vars, b, st, o, |LowerStmt(g, s).body|, st')
    decreases fuel, 1
  {
    hide Good, Declared, LowerStmt, LowerTestBefore, LowerTestAfter, LowerOptional, FindLabel, ExecStmt, ExecLoop, ExecRest,
      CodeOutcome, Ready, Accepted, Holds;
    ExecOneRound(m, s, src, fuel);
    st' := LoopTestRuns(m, g, s, vars, b, h, g2, start, end, |LowerStmt(g, s).body|, src, st);
    if (if s.testAfter then Some(true) else Holds(m, s.test, src)) == Some(true) {
      var st1 := st';
      var st2 := StmtRuns(m, g2, s.body, vars, b, src, st1, fuel - 1);
      st' := RoundRuns(m, g, s, vars, b, h, g2, g3, n, start, next, end, src, st1, st2, fuel);
      OutcomeAfter(m, g, |h.body| - 1, |g2.body|, vars, b, st, st1,
                   ExecLoop(m, s.test, s.testAfter, s.step, s.body, src, fuel).value, |LowerStmt(g, s).body|, st');
    }
  }

  /** The rest of a round whose body has been run. */
  lemma {:induction false} RoundRuns(m: Machine, g: Gen, s: Stmt, vars: set<SymbolRef>, b: Body,
      h: Gen, g2: Gen, g3: Gen, n: Gen, start: Operand, next: Operand, end: Operand, src: State, st1: State, st2: State, fuel: nat)
    returns (st': State)
    requires s.Loop? && Accepted(s, vars) && LoopPlaced(g, s, vars, b, h, g2, g3, n, start, next, end) && fuel > 0
    requires ExecLoop(m, s.test, s.testAfter, s.step, s.body, src, fuel).Some?
    requires (if s.testAfter then Some(true) else Holds(m, s.test, src)) == Some(true)
    requires CodeOutcome(m, g2, |g2.body|, vars, b, st1, ExecStmt(m, s.body, src, fuel - 1).value, |g3.body| - 1, st2)
    ensures var o := ExecLoop(m, s.test, s.testAfter, s.step, s.body, src, fuel).value;
      CodeOutcome(m, g, |g2.body|, vars, b, st1, o, |LowerStmt(g, s).body|, st')
    decreases fuel, 0, 2
  {
    hide Good, Declared, LabelsOnce, HasContinue, JumpsInLoops, LowerStmt, LowerExpr, LowerTestBefore, LowerTestAfter, LowerOptional, FindLabel, ExecStmt, ExecLoop, ExecRest;
    ExecOneRound(m, s, src, fuel);
    var o := ExecStmt(m, s.body, src, fuel - 1).value;
    st' := st2;
    if o.signal.Broke? {
      LeavesLoop(m, g, |g2.body|, |LowerStmt(g, s).body|, vars, b, end, o.st, st1, st2);
    } else if o.signal.Normal? {
      PassesLabel(m, b, |g3.body| - 1, next, st2);
      ReachesTrans(m, b, At(|g2.body|, st1), At(|g3.body| - 1, st2), At(|g3.body|, st2));
      st' := RestRuns(m, g, s, vars, b, h, g2, g3, n, start, next, end, o.st, st2, fuel);
      OutcomeAfter(m, g, |g2.body|, |g3.body|, vars, b, st1, st2,
                   ExecRest(m, s.test, s.testAfter, s.step, s.body, o.st, fuel).value, |LowerStmt(g, s).body|, st');
    }
  }

  /** The step, and what follows it. */
  lemma {:induction false} RestRuns(m: Machine, g: Gen, s: Stmt, vars: set<SymbolRef>, b: Body,
      h: Gen, g2: Gen, g3: Gen, n: Gen, start: Operand, next: Operand, end: Operand, src: State, st: State, fuel: nat)
    returns (st': State)
    requires s.Loop? && Accepted(s, vars) && LoopPlaced(g, s, vars, b, h, g2, g3, n, start, next, end) && fuel > 0
    requires Matches(vars, src, st) && ExecRest(m, s.test, s.testAfter, s.step, s.body, src, fuel).Some?
    ensures var o := ExecRest(m, s.test, s.testAfter, s.step, s.body, src, fuel).value;
      CodeOutcome(m, g, |g3.body|, vars, b, st, o, |LowerStmt(g, s).body|, st')
    decreases fuel, 0, 1
  {
    hide Good, Declared, LabelsOnce, HasContinue, JumpsInLoops, LowerStmt, LowerExpr, LowerTestBefore, LowerTestAfter, LowerOptional,
      FindLabel, ExecStmt, ExecLoop, ExecRest, ExecOptional, Holds;
    ExecEndOfRound(m, s, src, fuel);
    var st1 := OptionalRuns(m, g3, s.step, vars, b, src, st);
    var o := ExecOptional(m, s.step, src);
    st' := st1;
    if !o.signal.Trapped? {
      st' := FootRuns(m, g, s, vars, b, h, g2, g3, n, start, next, end, o.st, st1, fuel);
      OutcomeAfter(m, g, |g3.body|, |n.body|, vars, b, st, st1,
                   ExecRest(m, s.test, s.testAfter, s.step, s.body, src, fuel).value, |LowerStmt(g, s).body|, st');
    }
  }

  /** What the end of a round does once the step has been taken. */
  function AtFoot(m: Machine, s: Stmt, src: State, fuel: nat): Option<Outcome>
    requires s.Loop? && fuel > 0
  {
    var again := if s.testAfter then Holds(m, s.test, src) else Some(true);
    if again.None? then Some(Outcome(Trapped, src))
    else if again.value then ExecLoop(m, s.test, s.testAfter, s.step, s.body, src, fuel - 1)
    else Some(Outcome(Normal, src))
  }

  /** The test at the foot, and the rounds that follow. */
  lemma {:induction false} FootRuns(m: Machine, g: Gen, s: Stmt, vars: set<SymbolRef>, b: Body,
      h: Gen, g2: Gen, g3: Gen, n: Gen, start: Operand, next: Operand, end: Operand, src: State, st: State, fuel: nat)
    returns (st': State)
    requires s.Loop? && Accepted(s, vars) && LoopPlaced(g, s, vars, b, h, g2, g3, n, start, next, end) && fuel > 0
    requires Matches(vars, src, st) && AtFoot(m, s, src, fuel).Some?
    ensures CodeOutcome(m, g, |n.body|, vars, b, st, AtFoot(m, s, src, fuel).value, |LowerStmt(g, s).body|, st')
    decreases fuel, 0, 0
  {
    hide Good, Declared, LabelsOnce, HasContinue, JumpsInLoops, LowerStmt, LowerExpr, LowerTestBefore, LowerTestAfter, LowerOptional,
      FindLabel, ExecLoop, Holds;
    st' := TestAfterRuns(m, n, s.test, s.testAfter, start, vars, b, src, st);
    var again := if s.testAfter then Holds(m, s.test, src) else Some(true);
    if again.Some? {
      var st1 := st';
      if again.value {
        st' := LoopRuns(m, g, s, vars, b, h, g2, g3, n, start, next, end, src, st1, fuel - 1);
        OutcomeAfter(m, g, |n.body|, |h.body| - 1, vars, b, st, st1,
                     ExecLoop(m, s.test, s.testAfter, s.step, s.body, src, fuel - 1).value, |LowerStmt(g, s).body|, st');
      } else {
        LeavesLoop(m, g, |n.body|, |LowerStmt(g, s).body|, vars, b, end, src, st, st1);
      }
    }
  }

  lemma {:induction false} LoopStmtRuns(m: Machine, g: Gen, s: Stmt, vars: set<SymbolRef>, b: Body, src: State, st: State, fuel: nat)
    returns (st': State)
    requires s.Loop? && Ready(g, s, vars, b) && Matches(vars, src, st) && ExecStmt(m, s, src, fuel).Some?
    ensures CodeOutcome(m, g, |g.body|, vars, b, st, ExecStmt(m, s, src, fuel).value, |LowerStmt(g, s).body|, st')
    decreases fuel, 2, s, 0
  {
    hide Good, Declared, LabelsOnce, HasContinue, JumpsInLoops, LowerStmt, LowerLoopLabels, LowerTestBefore, LowerTestAfter,
      LowerOptional, FindLabel, ExecStmt, ExecLoop;
    ExecLoopStmt(m, s, src, fuel);
    var h0, h, g2, g3, n, start, next, end := LoopIsPlaced(g, s, vars, b);
    DeclaredMore(g, h0, vars);
    assert h.body == LowerOptional(h0, s.init).body + [Instr(Label, [start])];
    assert h.body <= b;
    var st1 := OptionalRuns(m, h0, s.init, vars, b, src, st);
    var o := ExecOptional(m, s.init, src);
    st' := st1;
    if !o.signal.Trapped? {
      st' := LoopRuns(m, g, s, vars, b, h, g2, g3, n, start, next, end, o.st, st1, fuel);
      OutcomeAfter(m, g, |g.body|, |h.body| - 1, vars, b, st, st1,
                   ExecLoop(m, s.test, s.testAfter, s.step, s.body, o.st, fuel).value, |LowerStmt(g, s).body|, st');
    }
  }

  // ----- All statements -----

  lemma {:induction false} StmtRuns(m: Machine, g: Gen, s: Stmt, vars: set<SymbolRef>, b: Body, src: State, st: State, fuel: nat)
    returns (st': State)
    requires Ready(g, s, vars, b) && Matches(vars, src, st) && ExecStmt(m, s, src, fuel).Some?
    ensures CodeOutcome(m, g, |g.body|, vars, b, st, ExecStmt(m, s, src, fuel).value, |LowerStmt(g, s).body|, st')
    decreases fuel, 2, s, 1
  {
    hide Good, Declared, LowerStmt, ExecStmt, FindLabel, Matches, CodeOutcome;
    match s
    case Block(_, _) => st' := BlockRuns(m, g, s, vars, b, src, st, fuel);
    case If(_, _, _) => st' := IfRuns(m, g, s, vars, b, src, st, fuel);
    case Loop(_, _, _, _, _) => st' := LoopStmtRuns(m, g, s, vars, b, src, st, fuel);
    case _ => st' := SimpleRuns(m, g, s, vars, b, src, st, fuel);
  }

  lemma SimpleRuns(m: Machine, g: Gen, s: Stmt, vars: set<SymbolRef>, b: Body, src: State, st: State, fuel: nat)
    returns (st': State)
    requires s.Skip? || s.Assign? || s.Break? || s.Continue?
    requires Ready(g, s, vars, b) && Matches(vars, src, st)
    ensures CodeOutcome(m, g, |g.body|, vars, b, st, ExecStmt(m, s, src, fuel).value, |LowerStmt(g, s).body|, st')
  {
    match s
    case Skip =>
      st' := st;
      ReachesSelf(m, b, At(|g.body|, st));
    case Assign(a) => st' := AssignmentRuns(m, g, a, vars, b, src, st);
    case Break =>
      st' := st;
      TakesGoto(m, b, |g.body|, g.loops[|g.loops| - 1].breakLabel, st);
    case Continue =>
  }

  /** What is known of a block's statements once the block has been entered. */
  lemma BlockIsReady(g: Gen, s: Stmt, vars: set<SymbolRef>, b: Body)
    requires s.Block? && Ready(g, s, vars, b)
    ensures var g1: Gen := g.(chain := g.chain + [s.scope]);
      Good(g1) && AcceptedSeq(s.stmts, vars) && Declared(g1, vars) && LowerSeq(g1, s.stmts).body <= b && Finished(g1, b)
    ensures forall k :: 0 <= k < |s.stmts| ==> !HasContinue(s.stmts[k]) && JumpsInLoops(s.stmts[k], g.loops != [])
  {
    hide LowerSeq, Fits, LabelsOnce, AcceptedSeq;
  }

  lemma {:induction false} BlockRuns(m: Machine, g: Gen, s: Stmt, vars: set<SymbolRef>, b: Body, src: State, st: State, fuel: nat)
    returns (st': State)
    requires s.Block? && Ready(g, s, vars, b) && Matches(vars, src, st) && ExecStmt(m, s, src, fuel).Some?
    ensures CodeOutcome(m, g, |g.body|, vars, b, st, ExecStmt(m, s, src, fuel).value, |LowerStmt(g, s).body|, st')
    decreases fuel, 2, s, 0
  {
    hide HasContinue, JumpsInLoops, LowerSeq, Reaches, ExecSeq, Fits, LabelsOnce, Finished, AcceptedSeq, Matches;
    var g1: Gen := g.(chain := g.chain + [s.scope]);
    BlockIsReady(g, s, vars, b);
    st' := SeqRuns(m, g1, s.stmts, vars, b, src, st, fuel);
  }

  lemma {:induction false} SeqRuns(m: Machine, g: Gen, ss: seq<Stmt>, vars: set<SymbolRef>, b: Body, src: State, st: State, fuel: nat)
    returns (st': State)
    requires Good(g) && AcceptedSeq(ss, vars) && Declared(g, vars) && LowerSeq(g, ss).body <= b && Finished(g, b)
    requires forall k :: 0 <= k < |ss| ==> !HasContinue(ss[k]) && JumpsInLoops(ss[k], g.loops != [])
    requires Matches(vars, src, st) && ExecSeq(m, ss, src, fuel).Some?
    ensures CodeOutcome(m, g, |g.body|, vars, b, st, ExecSeq(m, ss, src, fuel).value, |LowerSeq(g, ss).body|, st')
    decreases fuel, 2, ss, 0
  {
    hide Good, LabelsOnce, HasContinue, JumpsInLoops, LowerStmt, ExecStmt, FindLabel;
    st' := st;
    if ss == [] {
      ReachesSelf(m, b, At(|g.body|, st));
    } else {
      var g1 := LowerStmt(g, ss[0]);
      StmtIsGood(g, ss[0], vars);
      SeqIsGood(g1, ss[1..], vars);
      st' := StmtRuns(m, g, ss[0], vars, b, src, st, fuel);
      var o := ExecStmt(m, ss[0], src, fuel).value;
      if o.signal.Normal? {
        var st1 := st';
        st' := SeqRuns(m, g1, ss[1..], vars, b, o.st, st1, fuel);
        OutcomeAfter(m, g, |g.body|, |g1.body|, vars, b, st, st1, ExecSeq(m, ss[1..], o.st, fuel).value, |LowerSeq(g, ss).body|, st');
      }
    }
  }
}
