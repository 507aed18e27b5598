/** What lowering keeps: generated code is only appended, each label is placed once,
    and every instruction satisfies the optimizer's side conditions. */
module LoweringShape {
  import opened Wrappers
  import opened IL
  import opened Source
  import opened Lowering
  import opened PeepholeSpec
  import opened PeepholeRewrite

  // ----- Instructions that agree with the symbol tables -----

  predicate OperandFits(symbols: map<SymbolRef, OperandType>, o: Operand) {
    WellFormedOperand(o) && (o.sym.Some? ==> o.sym.value in symbols && symbols[o.sym.value] == o.ty)
  }

  predicate Fits(symbols: map<SymbolRef, OperandType>, il: Instr) {
    Shaped(il) && |il.args| >= Arity(il.op) && il.op != Nop && il.op != Lda &&
    (forall k {:trigger OperandFits(symbols, il.args[k])} :: 0 <= k < |il.args| ==> OperandFits(symbols, il.args[k])) &&
    (IsCompare(il.op) || IsMove(il.op) || IsDefinition(il.op) || il.op == Label ==> il.args[0].kind == Variable) &&
    (IsCompare(il.op) ==> il.args[0].sym.Some? && il.args[0].sym.value.scope.kind == ScopeKind.Block)
  }

  predicate Includes(symbols: map<SymbolRef, OperandType>, symbols': map<SymbolRef, OperandType>) {
    forall v :: v in symbols ==> v in symbols' && symbols'[v] == symbols[v]
  }

  lemma FitsMore(symbols: map<SymbolRef, OperandType>, symbols': map<SymbolRef, OperandType>, il: Instr)
    requires Fits(symbols, il) && Includes(symbols, symbols')
    ensures Fits(symbols', il)
  {
    forall k | 0 <= k < |il.args|
      ensures OperandFits(symbols', il.args[k])
    {
      assert OperandFits(symbols, il.args[k]);
    }
  }

  predicate Unplaced(body: Body, target: Operand) {
    forall k {:trigger IsLabel(body[k], target.sym)} :: 0 <= k < |body| ==> !IsLabel(body[k], target.sym)
  }

  /** A label is placed at most once. */
  predicate LabelsOnce(body: Body) {
    forall i, j :: 0 <= i < j < |body| && body[i].op == Label && body[j].op == Label && |body[i].args| >= 1 ==>
      !IsLabel(body[j], body[i].args[0].sym)
  }

  predicate IsLabelOperand(symbols: map<SymbolRef, OperandType>, o: Operand) {
    o.kind == Variable && o.ty == I && OperandFits(symbols, o)
  }

  predicate LoopsFit(g: Gen) {
    forall k {:trigger g.loops[k]} :: 0 <= k < |g.loops| ==>
      IsLabelOperand(g.symbols, g.loops[k].breakLabel) && g.loops[k].continueLabel == g.loops[k].breakLabel
  }

  predicate Good(g: Gen) {
    Top(g).kind == ScopeKind.Block && LabelsOnce(g.body) && LoopsFit(g) &&
    forall k {:trigger Fits(g.symbols, g.body[k])} :: 0 <= k < |g.body| ==> Fits(g.symbols, g.body[k])
  }

  // ----- Growth -----

  /** `g` is `base` with code and symbols added; the labels placed since were made since. */
  predicate Extends(base: Gen, g: Gen) {
    base.body <= g.body && Includes(base.symbols, g.symbols) &&
    forall k {:trigger g.body[k]} :: |base.body| <= k < |g.body| ==> PlacesNoneOf(base.symbols, g.body[k])
  }

  predicate PlacesNoneOf(symbols: map<SymbolRef, OperandType>, il: Instr) {
    il.op == Label && |il.args| >= 1 && il.args[0].sym.Some? ==> il.args[0].sym.value !in symbols
  }

  predicate SameContext(g: Gen, g': Gen) {
    g.chain == g'.chain && g.loops == g'.loops
  }

  lemma ExtendsTrans(a: Gen, b: Gen, c: Gen)
    requires Extends(a, b) && Extends(b, c)
    ensures Extends(a, c)
  {
    forall k | |a.body| <= k < |c.body|
      ensures PlacesNoneOf(a.symbols, c.body[k])
    {
      if k < |b.body| { assert c.body[k] == b.body[k]; }
    }
  }

  lemma ExtendsMeans(g: Gen, g': Gen)
    requires Extends(g, g')
    ensures g.body <= g'.body && Includes(g.symbols, g'.symbols)
  {
  }

  lemma StaysUnplaced(g: Gen, g': Gen, target: Operand)
    requires Extends(g, g') && target.sym.Some? && target.sym.value in g.symbols && Unplaced(g.body, target)
    ensures Unplaced(g'.body, target)
  {
    forall k | 0 <= k < |g'.body|
      ensures !IsLabel(g'.body[k], target.sym)
    {
      if k < |g.body| {
        assert g'.body[k] == g.body[k];
        assert !IsLabel(g.body[k], target.sym);
      }
    }
  }

  lemma LoopsFitMore(g: Gen, g': Gen)
    requires LoopsFit(g) && g'.loops == g.loops && Includes(g.symbols, g'.symbols)
    ensures LoopsFit(g')
  {
  }

  lemma TempIsGood(g: Gen, ty: OperandType)
    requires Good(g)
    ensures var (g', t) := GenTemp(g, ty);
      Good(g') && Extends(g, g') && SameContext(g, g') && g'.body == g.body && OperandFits(g'.symbols, t) &&
      t.ty == ty && t.sym.value.scope.kind == ScopeKind.Block && Unplaced(g'.body, t) && g'.failed == g.failed
  {
    var (g', t) := GenTemp(g, ty);
    forall k | 0 <= k < |g.body|
      ensures Fits(g'.symbols, g.body[k]) && !IsLabel(g.body[k], t.sym)
    {
      assert Fits(g.symbols, g.body[k]);
      FitsMore(g.symbols, g'.symbols, g.body[k]);
      if |g.body[k].args| >= 1 { assert OperandFits(g.symbols, g.body[k].args[0]); }
    }
    LoopsFitMore(g, g');
  }

  lemma EmitIsGood(g: Gen, il: Instr)
    requires Good(g) && Fits(g.symbols, il) && il.op != Label
    ensures Good(Emit(g, il)) && Extends(g, Emit(g, il)) && SameContext(g, Emit(g, il))
  {
    var g' := Emit(g, il);
    forall k | 0 <= k < |g'.body|
      ensures Fits(g'.symbols, g'.body[k])
    {
      if k < |g.body| { assert Fits(g.symbols, g.body[k]); }
    }
  }

  lemma LabelFits(symbols: map<SymbolRef, OperandType>, target: Operand)
    requires IsLabelOperand(symbols, target)
    ensures Fits(symbols, Instr(Label, [target]))
  {
  }

  lemma PlaceIsGood(base: Gen, g: Gen, target: Operand)
    requires Good(g) && Extends(base, g) && IsLabelOperand(g.symbols, target)
    requires target.sym.value !in base.symbols && Unplaced(g.body, target)
    ensures var g' := Emit(g, Instr(Label, [target]));
      Good(g') && Extends(base, g') && SameContext(g, g')
  {
    var g' := Emit(g, Instr(Label, [target]));
    LabelFits(g.symbols, target);
    forall k | 0 <= k < |g'.body|
      ensures Fits(g'.symbols, g'.body[k])
    {
      if k < |g.body| { assert Fits(g.symbols, g.body[k]); }
    }
    forall i, j | 0 <= i < j < |g'.body| && g'.body[i].op == Label && g'.body[j].op == Label && |g'.body[i].args| >= 1
      ensures !IsLabel(g'.body[j], g'.body[i].args[0].sym)
    {
      if j == |g.body| { assert !IsLabel(g.body[i], target.sym); }
    }
  }

  // ----- Expressions -----

  /** The variables are in scope, as `long`s. */
  predicate Declared(g: Gen, vars: set<SymbolRef>) {
    forall v :: v in vars ==> v in g.symbols && g.symbols[v] == I8
  }

  predicate ResultFits(g: Gen, o: Operand, ty: OperandType) {
    OperandFits(g.symbols, o) && o.ty == ty
  }

  lemma ResultFitsMore(g: Gen, g': Gen, o: Operand, ty: OperandType)
    requires ResultFits(g, o, ty) && Includes(g.symbols, g'.symbols)
    ensures ResultFits(g', o, ty)
  {
  }

  lemma BinaryFits(symbols: map<SymbolRef, OperandType>, a: Action, t: Operand, left: Operand, right: Operand, ty: OperandType)
    requires OperandFits(symbols, t) && t.kind == Variable && t.sym.value.scope.kind == ScopeKind.Block
    requires OperandFits(symbols, left) && left.ty == ty
    requires OperandFits(symbols, right) && (right.ty == ty || right.sym.None?)
    ensures Fits(symbols, BinaryInstr(a, t, left, right, ty))
  {
    var il := BinaryInstr(a, t, left, right, ty);
    var right' := right.(ty := ty);
    assert left.(ty := ty) == left;
    assert OperandFits(symbols, right');
    assert il.args == [t, left, right'];
  }

  lemma TwoFits(symbols: map<SymbolRef, OperandType>, op: Opcode, t: Operand, o: Operand)
    requires op == Neg || op == Conv || op == Mov
    requires OperandFits(symbols, t) && t.kind == Variable && OperandFits(symbols, o)
    ensures Fits(symbols, Instr(op, [t, o]))
  {
  }

  lemma BranchFits(symbols: map<SymbolRef, OperandType>, op: Opcode, o: Operand, target: Operand)
    requires op == BrZ || op == BrNz
    requires OperandFits(symbols, o) && IsLabelOperand(symbols, target)
    ensures Fits(symbols, Instr(op, [o, target]))
  {
  }

  lemma GotoFits(symbols: map<SymbolRef, OperandType>, target: Operand)
    requires IsLabelOperand(symbols, target)
    ensures Fits(symbols, Instr(Br, [target]))
  {
  }

  lemma {:induction false} ExprIsGood(g: Gen, e: Expr)
    requires Good(g) && WellTyped(e) && Declared(g, VarsOf(e))
    ensures var (g', o) := LowerExpr(g, e);
      Good(g') && Extends(g, g') && SameContext(g, g') && ResultFits(g', o, TypeOf(e)) && (e.Const? ==> o.sym.None?) &&
      g'.failed == g.failed
    decreases e
  {
    match e
    case Const(_, _) =>
    case Var(v) =>
    case Binary(a, l, r) => BinaryIsGood(g, a, l, r);
    case Negate(x) =>
      ExprIsGood(g, x);
      TempThenEmit(LowerExpr(g, x).0, Neg, LowerExpr(g, x).1, TypeOf(x));
      ExtendsTrans(g, LowerExpr(g, x).0, LowerExpr(g, e).0);
    case Convert(ty, x) =>
      ExprIsGood(g, x);
      if ty != TypeOf(x) {
        TempThenEmit(LowerExpr(g, x).0, Conv, LowerExpr(g, x).1, ty);
        ExtendsTrans(g, LowerExpr(g, x).0, LowerExpr(g, e).0);
      }
  }

  lemma TempThenEmit(g: Gen, op: Opcode, o: Operand, ty: OperandType)
    requires Good(g) && (op == Neg || op == Conv) && OperandFits(g.symbols, o)
    ensures var (g1, t) := GenTemp(g, ty); var g2 := Emit(g1, Instr(op, [t, o]));
      Good(g2) && Extends(g, g2) && SameContext(g, g2) && ResultFits(g2, t, ty) && g2.failed == g.failed
  {
    var (g1, t) := GenTemp(g, ty);
    TempIsGood(g, ty);
    TwoFits(g1.symbols, op, t, o);
    EmitIsGood(g1, Instr(op, [t, o]));
    ExtendsTrans(g, g1, Emit(g1, Instr(op, [t, o])));
  }

  lemma {:induction false} BinaryIsGood(g: Gen, a: Action, l: Expr, r: Expr)
    requires Good(g) && WellTyped(Binary(a, l, r)) && Declared(g, VarsOf(Binary(a, l, r)))
    ensures var e := Binary(a, l, r); var (g', o) := LowerExpr(g, e);
      Good(g') && Extends(g, g') && SameContext(g, g') && ResultFits(g', o, TypeOf(e)) && g'.failed == g.failed
    decreases Binary(a, l, r), 0
  {
    hide LabelsOnce, LoopsFit, Fits, Extends;
    var e := Binary(a, l, r);
    var (g1, left) := LowerExpr(g, l);
    var (g2, right) := LowerExpr(g1, r);
    var (g3, t) := GenTemp(g2, TypeOf(e));
    ExprIsGood(g, l);
    ExtendsMeans(g, g1);
    ExprIsGood(g1, r);
    ExtendsMeans(g1, g2);
    TempIsGood(g2, TypeOf(e));
    ExtendsTrans(g, g1, g2);
    ExtendsTrans(g, g2, g3);
    ExtendsMeans(g2, g3);
    ResultFitsMore(g1, g3, left, TypeOf(l));
    ResultFitsMore(g2, g3, right, TypeOf(r));
    BinaryFits(g3.symbols, a, t, left, right, TypeOf(l));
    EmitIsGood(g3, BinaryInstr(a, t, left, right, TypeOf(l)));
    ExtendsTrans(g, g3, LowerExpr(g, e).0);
  }

  // ----- Statements -----

  lemma DeclaredMore(g: Gen, g': Gen, vars: set<SymbolRef>)
    requires Declared(g, vars) && Includes(g.symbols, g'.symbols)
    ensures Declared(g', vars)
  {
  }

  lemma AssignmentIsGood(g: Gen, a: Assignment)
    requires Good(g) && WellTypedAssignment(a) && Declared(g, AssignmentVars(a))
    ensures var g' := LowerAssignment(g, a);
      Good(g') && Extends(g, g') && SameContext(g, g') && g'.failed == g.failed
  {
    var (g1, o) := LowerExpr(g, a.source);
    ExprIsGood(g, a.source);
    var target := VariableOperand(I8, a.target);
    assert OperandFits(g1.symbols, target);
    TwoFits(g1.symbols, Mov, target, o);
    EmitIsGood(g1, Instr(Mov, [target, o]));
    ExtendsTrans(g, g1, LowerAssignment(g, a));
  }

  lemma OptionalIsGood(g: Gen, a: Option<Assignment>)
    requires Good(g) && (a.Some? ==> WellTypedAssignment(a.value) && Declared(g, AssignmentVars(a.value)))
    ensures var g' := LowerOptional(g, a);
      Good(g') && Extends(g, g') && SameContext(g, g') && g'.failed == g.failed
  {
    if a.Some? { AssignmentIsGood(g, a.value); }
  }

  lemma TestIsGood(g: Gen, c: Expr, op: Opcode, target: Operand)
    requires Good(g) && WellTyped(c) && Declared(g, VarsOf(c)) && (op == BrZ || op == BrNz) && IsLabelOperand(g.symbols, target)
    ensures var (g1, o) := LowerExpr(g, c); var g' := Emit(g1, Instr(op, [o, target]));
      Good(g') && Extends(g, g') && SameContext(g, g') && g'.failed == g.failed
  {
    var (g1, o) := LowerExpr(g, c);
    ExprIsGood(g, c);
    BranchFits(g1.symbols, op, o, target);
    EmitIsGood(g1, Instr(op, [o, target]));
    ExtendsTrans(g, g1, Emit(g1, Instr(op, [o, target])));
  }

  lemma TestBeforeIsGood(g: Gen, c: Option<Expr>, after: bool, end: Operand)
    requires Good(g) && (c.Some? ==> WellTyped(c.value) && Declared(g, VarsOf(c.value))) && IsLabelOperand(g.symbols, end)
    ensures var g' := LowerTestBefore(g, c, after, end);
      Good(g') && Extends(g, g') && SameContext(g, g') && g'.failed == g.failed
  {
    if !after && c.Some? { TestIsGood(g, c.value, BrZ, end); }
  }

  lemma TestAfterIsGood(g: Gen, c: Option<Expr>, after: bool, start: Operand)
    requires Good(g) && (c.Some? ==> WellTyped(c.value) && Declared(g, VarsOf(c.value))) && IsLabelOperand(g.symbols, start)
    ensures var g' := LowerTestAfter(g, c, after, start);
      Good(g') && Extends(g, g') && SameContext(g, g') && g'.failed == g.failed
  {
    if after && c.Some? {
      TestIsGood(g, c.value, BrNz, start);
    } else {
      GotoFits(g.symbols, start);
      EmitIsGood(g, Instr(Br, [start]));
    }
  }

  lemma {:induction false} StmtIsGood(g: Gen, s: Stmt, vars: set<SymbolRef>)
    requires Good(g) && Accepted(s, vars) && Declared(g, vars)
    ensures var g' := LowerStmt(g, s); Good(g') && Extends(g, g') && SameContext(g, g')
    decreases s, 2
  {
    match s
    case Skip =>
    case Assign(a) => AssignmentIsGood(g, a);
    case Block(scope, ss) => BlockIsGood(g, scope, ss, vars);
    case If(c, t, e) => IfIsGood(g, s, vars);
    case Loop(i, c, after, n, b) => LoopIsGood(g, s, vars);
    case Break => JumpIsGood(g);
    case Continue => JumpIsGood(g);
  }

  lemma {:induction false} BlockIsGood(g: Gen, scope: Scope, ss: seq<Stmt>, vars: set<SymbolRef>)
    requires Good(g) && Accepted(Stmt.Block(scope, ss), vars) && Declared(g, vars)
    ensures var g' := LowerStmt(g, Stmt.Block(scope, ss)); Good(g') && Extends(g, g') && SameContext(g, g')
    decreases Stmt.Block(scope, ss), 1
  {
    var g1: Gen := g.(chain := g.chain + [scope]);
    assert Good(g1);
    SeqIsGood(g1, ss, vars);
  }

  lemma {:induction false} JumpIsGood(g: Gen)
    requires Good(g)
    ensures var g' := LowerStmt(g, Break); Good(g') && Extends(g, g') && SameContext(g, g')
    ensures var g' := LowerStmt(g, Continue); Good(g') && Extends(g, g') && SameContext(g, g')
  {
    if g.loops != [] {
      var labels := g.loops[|g.loops| - 1];
      GotoFits(g.symbols, labels.breakLabel);
      EmitIsGood(g, Instr(Br, [labels.breakLabel]));
      EmitIsGood(g, Instr(Br, [labels.continueLabel]));
    }
  }

  lemma {:induction false} SeqIsGood(g: Gen, ss: seq<Stmt>, vars: set<SymbolRef>)
    requires Good(g) && AcceptedSeq(ss, vars) && Declared(g, vars)
    ensures var g' := LowerSeq(g, ss); Good(g') && Extends(g, g') && SameContext(g, g')
    decreases ss, 1
  {
    if ss != [] {
      var g1 := LowerStmt(g, ss[0]);
      StmtIsGood(g, ss[0], vars);
      SeqIsGood(g1, ss[1..], vars);
      ExtendsTrans(g, g1, LowerSeq(g1, ss[1..]));
    }
  }

  /** A label that has been made since `base` and is still to be placed. */
  predicate Awaits(base: Gen, g: Gen, target: Operand) {
    IsLabelOperand(g.symbols, target) && target.sym.value !in base.symbols && Unplaced(g.body, target)
  }

  lemma StillAwaits(base: Gen, g: Gen, g': Gen, target: Operand)
    requires Awaits(base, g, target) && Extends(g, g')
    ensures Awaits(base, g', target)
  {
    StaysUnplaced(g, g', target);
  }

  lemma AwaitsMeans(base: Gen, g: Gen, target: Operand)
    requires Awaits(base, g, target)
    ensures IsLabelOperand(g.symbols, target)
  {
  }

  lemma LabelStays(g: Gen, g': Gen, target: Operand)
    requires IsLabelOperand(g.symbols, target) && Includes(g.symbols, g'.symbols)
    ensures IsLabelOperand(g'.symbols, target)
  {
  }

  lemma AwaitsOther(base: Gen, g: Gen, placed: Operand, target: Operand)
    requires Awaits(base, g, target) && placed.sym != target.sym
    ensures Awaits(base, Emit(g, Instr(Label, [placed])), target)
  {
  }

  lemma IfHeadIsGood(g: Gen, c: Expr)
    requires Good(g) && WellTyped(c) && Declared(g, VarsOf(c))
    ensures var (h, yes) := LowerIfHead(g, c);
      Good(h) && Extends(g, h) && SameContext(g, h) && Awaits(g, h, yes)
  {
    var (g1, o) := LowerExpr(g, c);
    ExprIsGood(g, c);
    var (g2, yes) := GenTemp(g1, I);
    TempIsGood(g1, I);
    ExtendsTrans(g, g1, g2);
    ResultFitsMore(g1, g2, o, TypeOf(c));
    BranchFits(g2.symbols, BrNz, o, yes);
    var h := Emit(g2, Instr(BrNz, [o, yes]));
    EmitIsGood(g2, Instr(BrNz, [o, yes]));
    ExtendsTrans(g, g2, h);
    StaysUnplaced(g2, h, yes);
  }

  lemma IfMiddleIsGood(base: Gen, g: Gen, yes: Operand, end: Operand)
    requires Good(g) && Extends(base, g) && SameContext(base, g) && Awaits(base, g, yes) && Awaits(base, g, end) && yes.sym != end.sym
    ensures var g' := LowerIfMiddle(g, yes, end);
      Good(g') && Extends(base, g') && SameContext(base, g') && Awaits(base, g', end)
  {
    var jump := Instr(Br, [end]);
    GotoFits(g.symbols, end);
    EmitIsGood(g, jump);
    ExtendsTrans(base, g, Emit(g, jump));
    StillAwaits(base, g, Emit(g, jump), yes);
    StillAwaits(base, g, Emit(g, jump), end);
    PlaceIsGood(base, Emit(g, jump), yes);
    AwaitsOther(base, Emit(g, jump), yes, end);
  }

  lemma {:induction false} IfIsGood(g: Gen, s: Stmt, vars: set<SymbolRef>)
    requires s.If? && Good(g) && Accepted(s, vars) && Declared(g, vars)
    ensures var g' := LowerStmt(g, s); Good(g') && Extends(g, g') && SameContext(g, g')
    decreases s, 1
  {
    var (g1, end) := GenTemp(g, I);
    TempIsGood(g, I);
    var (h, yes) := LowerIfHead(g1, s.cond);
    IfHeadIsGood(g1, s.cond);
    ExtendsTrans(g, g1, h);
    StillAwaits(g, g1, h, end);
    var g4 := LowerStmt(h, s.els);
    StmtIsGood(h, s.els, vars);
    ExtendsTrans(g, h, g4);
    StillAwaits(g, h, g4, end);
    StillAwaits(g, h, g4, yes);
    var g5 := LowerIfMiddle(g4, yes, end);
    IfMiddleIsGood(g, g4, yes, end);
    StmtIsGood(g5, s.thn, vars);
    var g6 := LowerStmt(g5, s.thn);
    ExtendsTrans(g, g5, g6);
    StillAwaits(g, g5, g6, end);
    PlaceIsGood(g, g6, end);
  }

  predicate InLoop(base: Gen, g: Gen, end: Operand) {
    base.chain == g.chain && g.loops == base.loops + [LoopLabels(end, end)]
  }

  lemma LoopLabelsAreGood(g: Gen)
    requires Good(g)
    ensures var (h, start, next, end) := LowerLoopLabels(g);
      Good(h) && Extends(g, h) && InLoop(g, h, end) && h.body == g.body &&
      Awaits(g, h, start) && Awaits(g, h, next) && Awaits(g, h, end) &&
      start.sym != next.sym && start.sym != end.sym && next.sym != end.sym
  {
    var (g1, start) := GenTemp(g, I);
    TempIsGood(g, I);
    var (g2, next) := GenTemp(g1, I);
    TempIsGood(g1, I);
    var (g3, end) := GenTemp(g2, I);
    TempIsGood(g2, I);
    ExtendsTrans(g, g1, g2);
    ExtendsTrans(g, g2, g3);
    PushLoopIsGood(g3, end);
  }

  lemma PushLoopIsGood(g: Gen, end: Operand)
    requires Good(g) && IsLabelOperand(g.symbols, end)
    ensures Good(g.(loops := g.loops + [LoopLabels(end, end)]))
  {
  }

  lemma LoopEntryIsGood(base: Gen, h: Gen, init: Option<Assignment>, start: Operand, next: Operand, end: Operand)
    requires Good(h) && Extends(base, h) && InLoop(base, h, end)
    requires init.Some? ==> WellTypedAssignment(init.value) && Declared(h, AssignmentVars(init.value))
    requires Awaits(base, h, start) && Awaits(base, h, next) && Awaits(base, h, end) && start.sym != next.sym && start.sym != end.sym
    ensures var g' := LowerLoopEntry(h, init, start);
      Good(g') && Extends(base, g') && InLoop(base, g', end) && Awaits(base, g', next) && Awaits(base, g', end) &&
      IsLabelOperand(g'.symbols, start) && Good(LowerOptional(h, init))
  {
    var g := LowerOptional(h, init);
    OptionalIsGood(h, init);
    ExtendsTrans(base, h, g);
    StillAwaits(base, h, g, start);
    StillAwaits(base, h, g, next);
    StillAwaits(base, h, g, end);
    PlaceIsGood(base, g, start);
    AwaitsOther(base, g, start, next);
    AwaitsOther(base, g, start, end);
  }

  lemma LoopEndIsGood(base: Gen, g: Gen, c: Option<Expr>, after: bool, start: Operand, end: Operand)
    requires Good(g) && Extends(base, g) && InLoop(base, g, end) && LoopsFit(base)
    requires (c.Some? ==> WellTyped(c.value) && Declared(g, VarsOf(c.value))) && IsLabelOperand(g.symbols, start)
    requires Awaits(base, g, end)
    ensures var g' := LowerLoopEnd(base, g, c, after, start, end);
      Good(g') && Extends(base, g') && SameContext(base, g')
  {
    var g7 := LowerTestAfter(g, c, after, start);
    TestAfterIsGood(g, c, after, start);
    ExtendsTrans(base, g, g7);
    StillAwaits(base, g, g7, end);
    PlaceIsGood(base, g7, end);
    LoopsFitMore(base, Emit(g7, Instr(Label, [end])).(loops := base.loops));
  }

  /** The round's label, behind the loop's body. */
  lemma LoopNextIsGood(base: Gen, g: Gen, next: Operand, end: Operand)
    requires Good(g) && Extends(base, g) && InLoop(base, g, end)
    requires Awaits(base, g, next) && Awaits(base, g, end) && next.sym != end.sym
    ensures var g' := Emit(g, Instr(Label, [next]));
      Good(g') && Extends(base, g') && InLoop(base, g', end) && Awaits(base, g', end)
  {
    PlaceIsGood(base, g, next);
    AwaitsOther(base, g, next, end);
  }

  lemma {:induction false} LoopIsGood(g: Gen, s: Stmt, vars: set<SymbolRef>)
    requires s.Loop? && Good(g) && Accepted(s, vars) && Declared(g, vars)
    ensures var g' := LowerStmt(g, s); Good(g') && Extends(g, g') && SameContext(g, g')
    decreases s, 1
  {
    var (h, start, next, end) := LowerLoopLabels(g);
    LoopLabelsAreGood(g);
    var h' := LowerLoopEntry(h, s.init, start);
    LoopEntryIsGood(g, h, s.init, start, next, end);
    var g5 := LowerTestBefore(h', s.test, s.testAfter, end);
    TestBeforeIsGood(h', s.test, s.testAfter, end);
    var b := LowerStmt(g5, s.body);
    StmtIsGood(g5, s.body, vars);
    ExtendsTrans(h', g5, b);
    LoopTailIsGood(g, h', b, s, start, next, end);
  }

  lemma LoopTailIsGood(base: Gen, h: Gen, b: Gen, s: Stmt, start: Operand, next: Operand, end: Operand)
    requires s.Loop? && Good(b) && Extends(base, h) && Extends(h, b) && InLoop(base, b, end) && LoopsFit(base)
    requires s.test.Some? ==> WellTyped(s.test.value) && Declared(base, VarsOf(s.test.value))
    requires s.step.Some? ==> WellTypedAssignment(s.step.value) && Declared(base, AssignmentVars(s.step.value))
    requires IsLabelOperand(h.symbols, start) && Awaits(base, h, next) && Awaits(base, h, end) && next.sym != end.sym
    ensures var g6 := Emit(b, Instr(Label, [next]));
      var g' := LowerLoopEnd(base, LowerOptional(g6, s.step), s.test, s.testAfter, start, end);
      Good(g') && Extends(base, g') && SameContext(base, g')
  {
    ExtendsTrans(base, h, b);
    StillAwaits(base, h, b, next);
    StillAwaits(base, h, b, end);
    var g6 := Emit(b, Instr(Label, [next]));
    LoopNextIsGood(base, b, next, end);
    var n := LowerOptional(g6, s.step);
    OptionalIsGood(g6, s.step);
    ExtendsTrans(base, g6, n);
    StillAwaits(base, g6, n, end);
    LoopEndIsGood(base, n, s.test, s.testAfter, start, end);
  }
}
