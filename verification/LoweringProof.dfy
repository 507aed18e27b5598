/** Generated code does what the source says: the expressions. */
module LoweringProof {
  import opened Wrappers
  import opened IL
  import opened Source
  import opened Lowering
  import opened LoweringShape

  ghost predicate Reaches(m: Machine, b: Body, c: Config, d: Config) {
    exists n: nat :: Run(m, b, c, n) == d
  }

  lemma ReachesTrans(m: Machine, b: Body, c: Config, d: Config, e: Config)
    requires Reaches(m, b, c, d) && Reaches(m, b, d, e)
    ensures Reaches(m, b, c, e)
  {
    var i: nat :| Run(m, b, c, i) == d;
    var j: nat :| Run(m, b, d, j) == e;
    RunSplit(m, b, c, i, j);
  }

  lemma ReachesSelf(m: Machine, b: Body, c: Config)
    ensures Reaches(m, b, c, c)
  {
    assert Run(m, b, c, 0) == c;
  }

  lemma ReachesStep(m: Machine, b: Body, c: Config)
    ensures Reaches(m, b, c, Step(m, b, c))
  {
    assert Run(m, b, c, 1) == Run(m, b, Step(m, b, c), 0);
  }

  /** The instruction at `pc` runs to its end, or traps. */
  lemma ReachesExec(m: Machine, b: Body, pc: nat, st: State)
    requires pc < |b| && !IsControl(b[pc].op) && |b[pc].args| >= Arity(b[pc].op)
    ensures var r := Exec(m, b[pc], st);
      Reaches(m, b, At(pc, st), if r.None? then Fault else At(pc + 1, r.value))
  {
    ReachesStep(m, b, At(pc, st));
  }

  /** The states agree on every symbol of the tables. */
  ghost predicate Alike(symbols: map<SymbolRef, OperandType>, st: State, st': State) {
    st.heap == st'.heap && forall v :: v in symbols ==> Read(st, v) == Read(st', v)
  }

  lemma AlikeTrans(symbols: map<SymbolRef, OperandType>, symbols': map<SymbolRef, OperandType>, st: State, st': State, st'': State)
    requires Includes(symbols, symbols') && Alike(symbols, st, st') && Alike(symbols', st', st'')
    ensures Alike(symbols, st, st'')
  {
  }

  lemma WriteNewIsAlike(symbols: map<SymbolRef, OperandType>, st: State, t: Operand, n: int)
    requires t.sym.Some? && t.sym.value !in symbols
    ensures Alike(symbols, st, Write(st, t, n)) && ValueOf(t, Write(st, t, n)) == n
  {
  }

  lemma ValueStays(symbols: map<SymbolRef, OperandType>, st: State, st': State, o: Operand)
    requires Alike(symbols, st, st') && (o.sym.Some? ==> o.sym.value in symbols)
    ensures ValueOf(o, st) == ValueOf(o, st')
  {
  }

  /** Evaluation depends on the expression's variables only. */
  lemma {:induction false} EvalAlike(m: Machine, e: Expr, st: State, st': State)
    requires forall v :: v in VarsOf(e) ==> Read(st, v) == Read(st', v)
    ensures Eval(m, e, st) == Eval(m, e, st')
    decreases e
  {
    match e
    case Const(_, _) =>
    case Var(v) => assert v in VarsOf(e);
    case Binary(_, l, r) => EvalAlike(m, l, st, st'); EvalAlike(m, r, st, st');
    case Negate(x) => EvalAlike(m, x, st, st');
    case Convert(_, x) => EvalAlike(m, x, st, st');
  }

  lemma {:induction false} TypesAreSigned(e: Expr)
    requires WellTyped(e)
    ensures IsSigned(TypeOf(e))
    decreases e
  {
    match e
    case Const(_, _) =>
    case Var(_) =>
    case Binary(_, l, _) => TypesAreSigned(l);
    case Negate(x) => TypesAreSigned(x);
    case Convert(_, _) =>
  }

  lemma SignedValue(o: Operand, ty: OperandType, st: State)
    requires IsSigned(o.ty) && IsSigned(ty)
    ensures ValueOf(o.(ty := ty), st) == ValueOf(o, st)
  {
  }

  lemma BinaryExec(m: Machine, a: Action, t: Operand, left: Operand, right: Operand, ty: OperandType, resultTy: OperandType, st: State)
    requires IsSigned(left.ty) && IsSigned(right.ty) && IsSigned(ty) && t.ty == resultTy
    requires resultTy == if IsComparison(a) then I else ty
    ensures var il := BinaryInstr(a, t, left, right, ty);
      var v := if IsComparison(a) then Some(if Compare(OpcodeOf(a), ValueOf(left, st), ValueOf(right, st)) then 1 else 0)
               else m.binary(OpcodeOf(a), ty, ValueOf(left, st), ValueOf(right, st));
      !IsControl(il.op) && |il.args| >= Arity(il.op) &&
      Exec(m, il, st) == if v.None? then None else Some(Write(st, t, v.value))
  {
    SignedValue(left, ty, st);
    SignedValue(right, ty, st);
  }

  /** What is known of the operands of a binary expression once they are lowered. */
  predicate OperandsLowered(g: Gen, l: Expr, r: Expr) {
    var (g1, left) := LowerExpr(g, l);
    var (g2, right) := LowerExpr(g1, r);
    Good(g1) && Declared(g1, VarsOf(r)) && Includes(g.symbols, g1.symbols) && Includes(g1.symbols, g2.symbols) &&
    left.ty == TypeOf(l) && right.ty == TypeOf(r) && (left.sym.Some? ==> left.sym.value in g1.symbols) &&
    IsSigned(TypeOf(l)) && IsSigned(TypeOf(r)) && g1.body <= g2.body
  }

  lemma OperandsAreLowered(g: Gen, l: Expr, r: Expr)
    requires Good(g) && WellTyped(l) && WellTyped(r) && Declared(g, VarsOf(l)) && Declared(g, VarsOf(r))
    ensures OperandsLowered(g, l, r)
  {
    hide Fits, LabelsOnce, LoopsFit, WellTyped, VarsOf;
    ExprIsGood(g, l);
    ExprIsGood(LowerExpr(g, l).0, r);
    TypesAreSigned(l);
    TypesAreSigned(r);
  }

  lemma BinaryExtends(g: Gen, a: Action, l: Expr, r: Expr)
    ensures LowerExpr(LowerExpr(g, l).0, r).0.body <= LowerExpr(g, Binary(a, l, r)).0.body
  {
  }

  /** Both operands can be run: they are well-typed, their variables are declared, their code is part of `b`. */
  lemma OperandsAreReady(g: Gen, a: Action, l: Expr, r: Expr, b: Body)
    requires Good(g) && WellTyped(Binary(a, l, r)) && Declared(g, VarsOf(Binary(a, l, r)))
    requires LowerExpr(g, Binary(a, l, r)).0.body <= b
    ensures OperandsLowered(g, l, r) && WellTyped(l) && WellTyped(r) && Declared(g, VarsOf(l)) && Declared(g, VarsOf(r))
    ensures var g1 := LowerExpr(g, l).0;
      Good(g1) && Declared(g1, VarsOf(r)) && g1.body <= b && LowerExpr(g1, r).0.body <= b
  {
    hide Good, Includes, IsSigned, IsComparison;
    OperandsAreLowered(g, l, r);
    BinaryExtends(g, a, l, r);
    hide LowerExpr;
  }

  lemma LeftTraps(m: Machine, g: Gen, a: Action, l: Expr, r: Expr, b: Body, st: State, st1: State)
    requires Eval(m, l, st).None? && ExprOutcome(m, g, l, b, st, st1)
    ensures ExprOutcome(m, g, Binary(a, l, r), b, st, st1)
  {
    hide Reaches, Alike;
  }

  lemma {:induction false} BinaryRuns(m: Machine, g: Gen, a: Action, l: Expr, r: Expr, b: Body, st: State) returns (st': State)
    requires Good(g) && WellTyped(Binary(a, l, r)) && Declared(g, VarsOf(Binary(a, l, r)))
    requires LowerExpr(g, Binary(a, l, r)).0.body <= b
    ensures ExprOutcome(m, g, Binary(a, l, r), b, st, st')
    decreases Binary(a, l, r), 0
  {
    hide *;
    OperandsAreReady(g, a, l, r, b);
    st' := ExprRuns(m, g, l, b, st);
    if Eval(m, l, st).None? {
      LeftTraps(m, g, a, l, r, b, st, st');
    } else {
      var st1 := st';
      var st2 := ExprRuns(m, LowerExpr(g, l).0, r, b, st1);
      st' := BinaryTail(m, g, a, l, r, b, st, st1, st2);
    }
  }

  lemma BinaryTail(m: Machine, g: Gen, a: Action, l: Expr, r: Expr, b: Body, st: State, st1: State, st2: State)
    returns (st': State)
    requires OperandsLowered(g, l, r) && LowerExpr(g, Binary(a, l, r)).0.body <= b
    requires Declared(g, VarsOf(r)) && Eval(m, l, st).Some?
    requires ExprOutcome(m, g, l, b, st, st1) && ExprOutcome(m, LowerExpr(g, l).0, r, b, st1, st2)
    ensures ExprOutcome(m, g, Binary(a, l, r), b, st, st')
  {
    SameRight(m, g, r, st, st1, l, b);
    if Eval(m, r, st).None? {
      st' := st1;
      RightTraps(m, g, a, l, r, b, st, st1, st2);
    } else {
      st' := BothRun(m, g, a, l, r, b, st, st1, st2);
    }
  }

  lemma SameRight(m: Machine, g: Gen, r: Expr, st: State, st1: State, l: Expr, b: Body)
    requires Declared(g, VarsOf(r)) && Eval(m, l, st).Some? && ExprOutcome(m, g, l, b, st, st1)
    ensures Eval(m, r, st) == Eval(m, r, st1)
  {
    hide Reaches, LowerExpr, Eval;
    EvalAlike(m, r, st, st1);
  }

  lemma RightTraps(m: Machine, g: Gen, a: Action, l: Expr, r: Expr, b: Body, st: State, st1: State, st2: State)
    requires Eval(m, l, st).Some? && Eval(m, r, st).None? && Eval(m, r, st1).None?
    requires ExprOutcome(m, g, l, b, st, st1) && ExprOutcome(m, LowerExpr(g, l).0, r, b, st1, st2)
    ensures ExprOutcome(m, g, Binary(a, l, r), b, st, st1)
  {
    hide Reaches, LowerExpr, Alike;
    ReachesTrans(m, b, At(|g.body|, st), At(|LowerExpr(g, l).0.body|, st1), Fault);
  }

  lemma BothRun(m: Machine, g: Gen, a: Action, l: Expr, r: Expr, b: Body, st: State, st1: State, st2: State)
    returns (st': State)
    requires OperandsLowered(g, l, r) && LowerExpr(g, Binary(a, l, r)).0.body <= b
    requires Eval(m, l, st).Some? && Eval(m, r, st).Some? && Eval(m, r, st) == Eval(m, r, st1)
    requires ExprOutcome(m, g, l, b, st, st1) && ExprOutcome(m, LowerExpr(g, l).0, r, b, st1, st2)
    ensures ExprOutcome(m, g, Binary(a, l, r), b, st, st')
  {
    BinaryLength(g, a, l, r);
    EvalBinary(m, a, l, r, st);
    hide Good, Reaches, Alike, Declared, Eval, Includes, LowerExpr, TypeOf, IsSigned;
    var (g1, left) := LowerExpr(g, l);
    var (g2, right) := LowerExpr(g1, r);
    ValueStays(g1.symbols, st1, st2, left);
    AlikeTrans(g.symbols, g1.symbols, st, st1, st2);
    IncludesTrans(g.symbols, g1.symbols, g2.symbols);
    st' := BinaryFinishes(m, g, a, l, r, b, st, st2);
    var end := if Eval(m, Binary(a, l, r), st).None? then Fault else At(|g2.body| + 1, st');
    ReachesTrans(m, b, At(|g1.body|, st1), At(|g2.body|, st2), end);
    ReachesTrans(m, b, At(|g.body|, st), At(|g1.body|, st1), end);
  }

  lemma BinaryLength(g: Gen, a: Action, l: Expr, r: Expr)
    ensures |LowerExpr(g, Binary(a, l, r)).0.body| == |LowerExpr(LowerExpr(g, l).0, r).0.body| + 1
  {
  }

  lemma EvalBinary(m: Machine, a: Action, l: Expr, r: Expr, st: State)
    ensures Eval(m, Binary(a, l, r), st).Some? ==> Eval(m, l, st).Some? && Eval(m, r, st).Some?
  {
  }

  lemma IncludesTrans(a: map<SymbolRef, OperandType>, b: map<SymbolRef, OperandType>, c: map<SymbolRef, OperandType>)
    requires Includes(a, b) && Includes(b, c)
    ensures Includes(a, c)
  {
  }

  /** An instruction that computes `v` into the new temporary `t`, or traps. */
  lemma DefinesTemp(m: Machine, b: Body, pc: nat, t: Operand, v: Option<int>, symbols: map<SymbolRef, OperandType>, st: State)
    returns (st': State)
    requires pc < |b| && !IsControl(b[pc].op) && |b[pc].args| >= Arity(b[pc].op)
    requires Exec(m, b[pc], st) == if v.None? then None else Some(Write(st, t, v.value))
    requires t.sym.Some? && t.sym.value !in symbols
    ensures match v
      case None => Reaches(m, b, At(pc, st), Fault)
      case Some(n) => Reaches(m, b, At(pc, st), At(pc + 1, st')) && ValueOf(t, st') == n && Alike(symbols, st, st')
  {
    ReachesExec(m, b, pc, st);
    st' := if v.None? then st else Write(st, t, v.value);
    if v.Some? { WriteNewIsAlike(symbols, st, t, v.value); }
  }

  /** The instruction itself, with both operands evaluated. */
  lemma BinaryFinishes(m: Machine, g: Gen, a: Action, l: Expr, r: Expr, b: Body, st: State, st2: State) returns (st': State)
    requires IsSigned(TypeOf(l)) && IsSigned(TypeOf(r)) && LowerExpr(g, Binary(a, l, r)).0.body <= b
    requires var (g1, left) := LowerExpr(g, l); var (g2, right) := LowerExpr(g1, r);
      Includes(g.symbols, g2.symbols) && left.ty == TypeOf(l) && right.ty == TypeOf(r) &&
      Eval(m, l, st) == Some(ValueOf(left, st2)) && Eval(m, r, st) == Some(ValueOf(right, st2))
    requires Alike(g.symbols, st, st2)
    ensures var e := Binary(a, l, r); var (g', o) := LowerExpr(g, e); var g2 := LowerExpr(LowerExpr(g, l).0, r).0;
      match Eval(m, e, st)
      case None => Reaches(m, b, At(|g2.body|, st2), Fault)
      case Some(v) => Reaches(m, b, At(|g2.body|, st2), At(|g2.body| + 1, st')) && ValueOf(o, st') == v && Alike(g.symbols, st, st')
  {
    hide *;
    var e := Binary(a, l, r);
    var (g1, left) := LowerExpr(g, l);
    var (g2, right) := LowerExpr(g1, r);
    var t := GenTemp(g2, TypeOf(e)).1;
    BinaryUnfolds(g, a, l, r);
    EvalUnfolds(m, a, l, r, st);
    BinaryExec(m, a, t, left, right, TypeOf(l), TypeOf(e), st2);
    assert b[|g2.body|] == BinaryInstr(a, t, left, right, TypeOf(l));
    st' := DefinesTemp(m, b, |g2.body|, t, Eval(m, e, st), g2.symbols, st2);
    if Eval(m, e, st).Some? { AlikeTrans(g.symbols, g2.symbols, st, st2, st'); }
  }

  lemma BinaryUnfolds(g: Gen, a: Action, l: Expr, r: Expr)
    ensures var e := Binary(a, l, r); var (g1, left) := LowerExpr(g, l); var (g2, right) := LowerExpr(g1, r);
      var (g3, t) := GenTemp(g2, TypeOf(e));
      && TypeOf(e) == (if IsComparison(a) then I else TypeOf(l))
      && LowerExpr(g, e).1 == t && LowerExpr(g, e).0.body == g2.body + [BinaryInstr(a, t, left, right, TypeOf(l))]
      && t.ty == TypeOf(e) && t.sym.Some? && t.sym.value !in g2.symbols
  {
    hide IsComparison, BinaryInstr;
  }

  lemma EvalUnfolds(m: Machine, a: Action, l: Expr, r: Expr, st: State)
    requires Eval(m, l, st).Some? && Eval(m, r, st).Some?
    ensures var x, y := Eval(m, l, st).value, Eval(m, r, st).value;
      Eval(m, Binary(a, l, r), st) == if IsComparison(a) then Some(if Compare(OpcodeOf(a), x, y) then 1 else 0)
                                      else m.binary(OpcodeOf(a), TypeOf(l), x, y)
  {
    hide Compare, IsComparison, OpcodeOf;
  }

  /** The code of an expression leaves its value in the result operand and every
      earlier symbol as it was; it traps exactly if the expression does. */
  ghost predicate ExprOutcome(m: Machine, g: Gen, e: Expr, b: Body, st: State, st': State) {
    var (g', o) := LowerExpr(g, e);
    match Eval(m, e, st)
    case None => Reaches(m, b, At(|g.body|, st), Fault)
    case Some(v) => Reaches(m, b, At(|g.body|, st), At(|g'.body|, st')) && ValueOf(o, st') == v && Alike(g.symbols, st, st')
  }

  lemma {:induction false} ExprRuns(m: Machine, g: Gen, e: Expr, b: Body, st: State) returns (st': State)
    requires Good(g) && WellTyped(e) && Declared(g, VarsOf(e)) && LowerExpr(g, e).0.body <= b
    ensures ExprOutcome(m, g, e, b, st, st')
    decreases e, 1
  {
    match e
    case Const(_, n) =>
      st' := st;
      TypesAreSigned(e);
      ReachesSelf(m, b, At(|g.body|, st));
    case Var(_) =>
      st' := st;
      ReachesSelf(m, b, At(|g.body|, st));
    case Binary(a, l, r) =>
      ExprIsGood(g, l);
      ExprIsGood(LowerExpr(g, l).0, r);
      st' := BinaryRuns(m, g, a, l, r, b, st);
    case Negate(x) =>
      ExprIsGood(g, x);
      st' := ExprRuns(m, g, x, b, st);
      if Eval(m, x, st).Some? {
        st' := UnaryFinishes(m, g, e, Neg, x, TypeOf(x), b, st, st');
      }
    case Convert(ty, x) =>
      ExprIsGood(g, x);
      st' := ExprRuns(m, g, x, b, st);
      if Eval(m, x, st).Some? && ty != TypeOf(x) {
        st' := UnaryFinishes(m, g, e, Conv, x, ty, b, st, st');
      }
  }

  lemma UnaryExec(m: Machine, op: Opcode, t: Operand, o: Operand, st: State)
    requires op == Neg || (op == Conv && t.ty != o.ty)
    ensures var il := Instr(op, [t, o]);
      var v := if op == Neg then m.unary(Neg, t.ty, ValueOf(o, st)) else Some(m.convert(t.ty, o.ty, ValueOf(o, st)));
      !IsControl(op) && |il.args| >= Arity(op) &&
      Exec(m, il, st) == if v.None? then None else Some(Write(st, t, v.value))
  {
  }

  lemma UnaryFinishes(m: Machine, g: Gen, e: Expr, op: Opcode, x: Expr, ty: OperandType, b: Body, st: State, st1: State) returns (st': State)
    requires (e == Negate(x) && op == Neg && ty == TypeOf(x)) || (e == Convert(ty, x) && op == Conv && ty != TypeOf(x))
    requires Good(g) && LowerExpr(g, e).0.body <= b
    requires Extends(g, LowerExpr(g, x).0) && LowerExpr(g, x).1.ty == TypeOf(x)
    requires Eval(m, x, st).Some? && ExprOutcome(m, g, x, b, st, st1)
    ensures ExprOutcome(m, g, e, b, st, st')
  {
    hide *;
    UnaryUnfolds(m, g, e, op, x, ty, st);
    OutcomeMeans(m, g, x, b, st, st1);
    ExtendsIncludes(g, LowerExpr(g, x).0);
    var (g1, o) := LowerExpr(g, x);
    var t := GenTemp(g1, ty).1;
    UnaryExec(m, op, t, o, st1);
    assert b[|g1.body|] == Instr(op, [t, o]);
    st' := DefinesTemp(m, b, |g1.body|, t, Eval(m, e, st), g1.symbols, st1);
    if Eval(m, e, st).Some? {
      AlikeTrans(g.symbols, g1.symbols, st, st1, st');
      ReachesTrans(m, b, At(|g.body|, st), At(|g1.body|, st1), At(|g1.body| + 1, st'));
    } else {
      ReachesTrans(m, b, At(|g.body|, st), At(|g1.body|, st1), Fault);
    }
    OutcomeMeans(m, g, e, b, st, st');
  }

  lemma ExtendsIncludes(g: Gen, g': Gen)
    requires Extends(g, g')
    ensures Includes(g.symbols, g'.symbols)
  {
  }

  lemma OutcomeMeans(m: Machine, g: Gen, e: Expr, b: Body, st: State, st': State)
    ensures var (g', o) := LowerExpr(g, e); var v := Eval(m, e, st);
      ExprOutcome(m, g, e, b, st, st') <==>
      if v.None? then Reaches(m, b, At(|g.body|, st), Fault)
      else Reaches(m, b, At(|g.body|, st), At(|g'.body|, st')) && ValueOf(o, st') == v.value && Alike(g.symbols, st, st')
  {
    hide Reaches, Alike, LowerExpr, Eval, ValueOf;
  }

  lemma UnaryUnfolds(m: Machine, g: Gen, e: Expr, op: Opcode, x: Expr, ty: OperandType, st: State)
    requires (e == Negate(x) && op == Neg && ty == TypeOf(x)) || (e == Convert(ty, x) && op == Conv && ty != TypeOf(x))
    requires Eval(m, x, st).Some?
    ensures var (g1, o) := LowerExpr(g, x); var (g2, t) := GenTemp(g1, ty);
      && LowerExpr(g, e).1 == t && LowerExpr(g, e).0.body == g1.body + [Instr(op, [t, o])]
      && t.ty == ty && t.sym.Some? && t.sym.value !in g1.symbols
    ensures Eval(m, e, st) == if op == Neg then m.unary(Neg, ty, Eval(m, x, st).value)
                              else Some(m.convert(ty, TypeOf(x), Eval(m, x, st).value))
  {
  }
}
