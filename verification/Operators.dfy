/** The operators, spelled out one by one: what each computes in the source, which instruction it becomes, and that
    the instruction computes the same. */
module Operators {
  import opened Wrappers
  import opened IL
  import opened Source
  import opened Lowering
  import opened LoweringShape
  import opened LoweringProof

  predicate Compares(a: Action) {
    a in {Equals, NotEquals, Greater, GreaterOrEqual, Less, LessOrEqual}
  }

  /** The comparison of `x` with `y`. */
  predicate Related(a: Action, x: int, y: int)
    requires Compares(a)
  {
    (a == Equals ==> x == y) && (a == NotEquals ==> x != y) && (a == Greater ==> x > y) && (a == GreaterOrEqual ==> x >= y) &&
    (a == Less ==> x < y) && (a == LessOrEqual ==> x <= y)
  }

  /** The opcode of each operator. */
  predicate HasOpcode(a: Action, op: Opcode) {
    (a == Plus ==> op == Add) && (a == Minus ==> op == Sub) && (a == Times ==> op == Mul) && (a == Over ==> op == Div) &&
    (a == Modulo ==> op == Mod) && (a == AndBits ==> op == And) && (a == OrBits ==> op == Or) && (a == XorBits ==> op == Xor) &&
    (a == Equals ==> op == CompEq) && (a == NotEquals ==> op == CompNe) &&
    (a == Greater ==> op == CompGt) && (a == GreaterOrEqual ==> op == CompGe) &&
    (a == Less ==> op == CompLt) && (a == LessOrEqual ==> op == CompLe)
  }

  /** What the operator makes of `x` and `y`: a comparison 1 or 0, anything else what the machine's instruction of that
      name makes of them, which may be a trap. */
  ghost predicate Computes(m: Machine, a: Action, ty: OperandType, x: int, y: int, n: Option<int>) {
    if Compares(a) then n == Some(if Related(a, x, y) then 1 else 0)
    else exists op :: HasOpcode(a, op) && n == m.binary(op, ty, x, y)
  }

  // ----- The source -----

  lemma OpcodeIs(a: Action)
    ensures HasOpcode(a, OpcodeOf(a)) && (Compares(a) <==> IsComparison(a))
  {
  }

  lemma CompareIs(a: Action, x: int, y: int)
    requires Compares(a) && IsComparison(a)
    ensures Compare(OpcodeOf(a), x, y) <==> Related(a, x, y)
  {
  }

  /** A binary expression evaluates to what its operator computes, and traps if an operand does. */
  lemma OperatorValue(m: Machine, a: Action, l: Expr, r: Expr, st: State)
    ensures Eval(m, l, st).None? || Eval(m, r, st).None? ==> Eval(m, Binary(a, l, r), st).None?
    ensures Eval(m, l, st).Some? && Eval(m, r, st).Some? ==>
      Computes(m, a, TypeOf(l), Eval(m, l, st).value, Eval(m, r, st).value, Eval(m, Binary(a, l, r), st))
  {
    OpcodeIs(a);
    if Compares(a) && Eval(m, l, st).Some? && Eval(m, r, st).Some? {
      CompareIs(a, Eval(m, l, st).value, Eval(m, r, st).value);
    }
    hide OpcodeOf, HasOpcode, Compare, Related, TypeOf;
  }

  // ----- The code -----

  /** The type that an expression's result operand has. */
  lemma {:induction false} ResultType(g: Gen, e: Expr)
    ensures LowerExpr(g, e).1.ty == TypeOf(e)
    decreases e
  {
    match e
    case Convert(ty, x) => ResultType(g, x);
    case _ =>
  }

  /** One instruction has been appended, with the operator's opcode. Both operands take the left one's type; so does the
      result, except that comparisons have results of type I. */
  predicate Appended(a: Action, before: Body, after: Body, o: Operand, left: Operand, right: Operand) {
    |after| == |before| + 1 && after[..|before|] == before && HasOpcode(a, after[|before|].op) &&
    after[|before|].args == [o, left, right.(ty := left.ty)] && o.ty == if Compares(a) then I else left.ty
  }

  lemma InstrAppended(a: Action, g2: Gen, left: Operand, right: Operand)
    ensures var (g3, o) := GenTemp(g2, if IsComparison(a) then I else left.ty);
      Appended(a, g2.body, Emit(g3, BinaryInstr(a, o, left, right, left.ty)).body, o, left, right)
  {
    OpcodeIs(a);
    hide OpcodeOf, HasOpcode, Compares, IsComparison;
    assert left.(ty := left.ty) == left;
  }

  /** A binary expression becomes the code of its operands, left before right, and one instruction. */
  lemma {:induction false} BinaryCode(g: Gen, a: Action, l: Expr, r: Expr)
    ensures var (g1, left) := LowerExpr(g, l); var (g2, right) := LowerExpr(g1, r); var (g', o) := LowerExpr(g, Binary(a, l, r));
      Appended(a, g2.body, g'.body, o, left, right)
  {
    ResultType(g, l);
    var (g1, left) := LowerExpr(g, l);
    var (g2, right) := LowerExpr(g1, r);
    InstrAppended(a, g2, left, right);
    hide Appended, GenTemp, IsComparison, Emit, BinaryInstr;
  }

  /** The other expressions: a constant and a variable are operands as they are, a negation is one Neg on the operand's
      type, and a conversion is one Conv, or nothing if the operand has the type already. */
  lemma {:induction false} UnaryCode(g: Gen, t: OperandType, n: int, v: SymbolRef, x: Expr)
    ensures LowerExpr(g, Const(t, n)).0 == LowerExpr(g, Var(v)).0 == g
    ensures LowerExpr(g, Const(t, n)).1 ==
      Operand(Constant, t, n, if n < 0 then 0x1_0000_0000_0000_0000 + n else n, n as real, "", None, None)
    ensures LowerExpr(g, Var(v)).1 == Operand(Variable, I8, 0, 0, 0.0, "", Some(v), None)
    ensures var (g1, arg) := LowerExpr(g, x); var (g', o) := LowerExpr(g, Negate(x));
      g'.body == g1.body + [Instr(Neg, [o, arg])] && o.ty == arg.ty
    ensures var (g1, arg) := LowerExpr(g, x); var (g', o) := LowerExpr(g, Convert(t, x));
      if arg.ty == t then (g', o) == (g1, arg) else g'.body == g1.body + [Instr(Conv, [o, arg])] && o.ty == t
  {
    ResultType(g, x);
  }

  // ----- Both -----

  /** The generated code of a binary expression, placed anywhere, leaves in its result operand what the operator computes
      from the operands' values, or traps if that is a trap. */
  lemma {:induction false} OperatorRuns(m: Machine, g: Gen, a: Action, l: Expr, r: Expr, b: Body, st: State)
    returns (st': State, n: Option<int>)
    requires Good(g) && WellTyped(Binary(a, l, r)) && Declared(g, VarsOf(Binary(a, l, r)))
    requires LowerExpr(g, Binary(a, l, r)).0.body <= b
    requires Eval(m, l, st).Some? && Eval(m, r, st).Some?
    ensures Computes(m, a, LowerExpr(g, l).1.ty, Eval(m, l, st).value, Eval(m, r, st).value, n)
    ensures var (g', o) := LowerExpr(g, Binary(a, l, r));
      match n
      case None => Reaches(m, b, At(|g.body|, st), Fault)
      case Some(v) => Reaches(m, b, At(|g.body|, st), At(|g'.body|, st')) && ValueOf(o, st') == v
  {
    hide Good, WellTyped, Declared, VarsOf, LowerExpr, Reaches, Computes, Eval;
    ResultType(g, l);
    st' := ExprRuns(m, g, Binary(a, l, r), b, st);
    OperatorValue(m, a, l, r, st);
    n := Eval(m, Binary(a, l, r), st);
  }
}
