/** Generated code does what the source says: assignments, tests and jumps. */
module StatementProof {
  import opened Wrappers
  import opened IL
  import opened Source
  import opened Lowering
  import opened LoweringShape
  import opened LoweringProof

  /** The machine state holds the source state's values of the program's variables. */
  ghost predicate Matches(vars: set<SymbolRef>, src: State, st: State) {
    src.heap == st.heap && forall v :: v in vars ==> Read(src, v) == Read(st, v)
  }

  lemma MatchesAlike(g: Gen, vars: set<SymbolRef>, src: State, st: State, st': State)
    requires Declared(g, vars) && Matches(vars, src, st) && Alike(g.symbols, st, st')
    ensures Matches(vars, src, st')
  {
  }

  lemma EvalMatches(m: Machine, e: Expr, vars: set<SymbolRef>, src: State, st: State)
    requires Matches(vars, src, st) && VarsOf(e) <= vars
    ensures Eval(m, e, src) == Eval(m, e, st)
  {
    EvalAlike(m, e, src, st);
  }

  lemma LabelIsAt(b: Body, k: nat, target: Operand)
    requires LabelsOnce(b) && k < |b| && b[k] == Instr(Label, [target])
    ensures FindLabel(b, target.sym) == k
  {
    FindLabelIs(b, target.sym);
    var l := FindLabel(b, target.sym);
    assert IsLabel(b[k], target.sym);
  }

  lemma PassesLabel(m: Machine, b: Body, k: nat, target: Operand, st: State)
    requires k < |b| && b[k] == Instr(Label, [target])
    ensures Reaches(m, b, At(k, st), At(k + 1, st))
  {
    ReachesStep(m, b, At(k, st));
  }

  lemma TakesGoto(m: Machine, b: Body, k: nat, target: Operand, st: State)
    requires k < |b| && b[k] == Instr(Br, [target]) && FindLabel(b, target.sym) >= 0
    ensures Reaches(m, b, At(k, st), At(FindLabel(b, target.sym), st))
  {
    hide Exec, Reaches, FindLabel, Run;
    ReachesStep(m, b, At(k, st));
  }

  lemma TakesBranch(m: Machine, b: Body, k: nat, op: Opcode, o: Operand, target: Operand, st: State)
    requires op == BrZ || op == BrNz
    requires k < |b| && b[k] == Instr(op, [o, target]) && FindLabel(b, target.sym) >= 0
    ensures Reaches(m, b, At(k, st),
      At(if (ValueOf(o, st) == 0) == (op == BrZ) then FindLabel(b, target.sym) else k + 1, st))
  {
    ReachesStep(m, b, At(k, st));
  }

  /** Evaluating a test and branching on it. */
  lemma TestRuns(m: Machine, g: Gen, c: Expr, op: Opcode, target: Operand, vars: set<SymbolRef>, b: Body, src: State, st: State)
    returns (st': State)
    requires Good(g) && WellTyped(c) && VarsOf(c) <= vars && Declared(g, vars) && (op == BrZ || op == BrNz)
    requires Emit(LowerExpr(g, c).0, Instr(op, [LowerExpr(g, c).1, target])).body <= b
    requires FindLabel(b, target.sym) >= 0 && Matches(vars, src, st)
    ensures match Eval(m, c, src)
      case None => Reaches(m, b, At(|g.body|, st), Fault)
      case Some(v) =>
        Matches(vars, src, st') &&
        Reaches(m, b, At(|g.body|, st),
                At(if (v == 0) == (op == BrZ) then FindLabel(b, target.sym) else |LowerExpr(g, c).0.body| + 1, st'))
  {
    EvalMatches(m, c, vars, src, st);
    var (g1, o) := LowerExpr(g, c);
    st' := ExprRuns(m, g, c, b, st);
    if Eval(m, c, st).Some? {
      assert b[|g1.body|] == Instr(op, [o, target]);
      TakesBranch(m, b, |g1.body|, op, o, target, st');
      MatchesAlike(g, vars, src, st, st');
      ReachesTrans(m, b, At(|g.body|, st), At(|g1.body|, st'),
        At(if (ValueOf(o, st') == 0) == (op == BrZ) then FindLabel(b, target.sym) else |g1.body| + 1, st'));
    }
  }

  lemma MoveExec(m: Machine, target: SymbolRef, o: Operand, st: State)
    requires o.ty == I8
    ensures var il := Instr(Mov, [VariableOperand(I8, target), o]);
      !IsControl(il.op) && |il.args| >= Arity(il.op) &&
      Exec(m, il, st) == Some(Write(st, VariableOperand(I8, target), ValueOf(o, st)))
  {
  }

  lemma AssignmentRuns(m: Machine, g: Gen, a: Assignment, vars: set<SymbolRef>, b: Body, src: State, st: State)
    returns (st': State)
    requires Good(g) && WellTypedAssignment(a) && AssignmentVars(a) <= vars && Declared(g, vars)
    requires LowerAssignment(g, a).body <= b && Matches(vars, src, st)
    ensures var o := ExecAssignment(m, a, src);
      if o.signal.Trapped? then Reaches(m, b, At(|g.body|, st), Fault)
      else Reaches(m, b, At(|g.body|, st), At(|LowerAssignment(g, a).body|, st')) && Matches(vars, o.st, st')
  {
    hide Good, VarsOf, LowerExpr, Eval, WellTyped;
    EvalMatches(m, a.source, vars, src, st);
    var (g1, o) := LowerExpr(g, a.source);
    ExprIsGood(g, a.source);
    var st1 := ExprRuns(m, g, a.source, b, st);
    st' := st1;
    if Eval(m, a.source, st).Some? {
      MatchesAlike(g, vars, src, st, st1);
      MoveExec(m, a.target, o, st1);
      assert b[|g1.body|] == Instr(Mov, [VariableOperand(I8, a.target), o]);
      ReachesExec(m, b, |g1.body|, st1);
      st' := Write(st1, VariableOperand(I8, a.target), ValueOf(o, st1));
      ReachesTrans(m, b, At(|g.body|, st), At(|g1.body|, st1), At(|g1.body| + 1, st'));
    }
  }

  lemma OptionalRuns(m: Machine, g: Gen, a: Option<Assignment>, vars: set<SymbolRef>, b: Body, src: State, st: State)
    returns (st': State)
    requires Good(g) && (a.Some? ==> WellTypedAssignment(a.value) && AssignmentVars(a.value) <= vars) && Declared(g, vars)
    requires LowerOptional(g, a).body <= b && Matches(vars, src, st)
    ensures var o := ExecOptional(m, a, src);
      if o.signal.Trapped? then Reaches(m, b, At(|g.body|, st), Fault)
      else Reaches(m, b, At(|g.body|, st), At(|LowerOptional(g, a).body|, st')) && Matches(vars, o.st, st')
  {
    if a.None? {
      st' := st;
      ReachesSelf(m, b, At(|g.body|, st));
    } else {
      st' := AssignmentRuns(m, g, a.value, vars, b, src, st);
    }
  }

  /** The test at the head of a loop. */
  lemma TestBeforeRuns(m: Machine, g: Gen, c: Option<Expr>, after: bool, end: Operand, vars: set<SymbolRef>, b: Body, src: State, st: State)
    returns (st': State)
    requires Good(g) && (c.Some? ==> WellTyped(c.value) && VarsOf(c.value) <= vars) && Declared(g, vars)
    requires LowerTestBefore(g, c, after, end).body <= b && FindLabel(b, end.sym) >= 0 && Matches(vars, src, st)
    ensures match (if after then Some(true) else Holds(m, c, src))
      case None => Reaches(m, b, At(|g.body|, st), Fault)
      case Some(enter) =>
        Matches(vars, src, st') &&
        Reaches(m, b, At(|g.body|, st), At(if enter then |LowerTestBefore(g, c, after, end).body| else FindLabel(b, end.sym), st'))
  {
    if after || c.None? {
      st' := st;
      ReachesSelf(m, b, At(|g.body|, st));
    } else {
      st' := TestRuns(m, g, c.value, BrZ, end, vars, b, src, st);
    }
  }

  /** The jump at the foot of a loop. */
  lemma TestAfterRuns(m: Machine, g: Gen, c: Option<Expr>, after: bool, start: Operand, vars: set<SymbolRef>, b: Body, src: State, st: State)
    returns (st': State)
    requires Good(g) && (c.Some? ==> WellTyped(c.value) && VarsOf(c.value) <= vars) && Declared(g, vars)
    requires LowerTestAfter(g, c, after, start).body <= b && FindLabel(b, start.sym) >= 0 && Matches(vars, src, st)
    ensures match (if after then Holds(m, c, src) else Some(true))
      case None => Reaches(m, b, At(|g.body|, st), Fault)
      case Some(again) =>
        Matches(vars, src, st') &&
        Reaches(m, b, At(|g.body|, st), At(if again then FindLabel(b, start.sym) else |LowerTestAfter(g, c, after, start).body|, st'))
  {
    if after && c.Some? {
      st' := TestRuns(m, g, c.value, BrNz, start, vars, b, src, st);
    } else {
      st' := st;
      assert b[|g.body|] == Instr(Br, [start]);
      TakesGoto(m, b, |g.body|, start, st);
    }
  }
}
