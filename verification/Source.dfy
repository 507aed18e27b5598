/** The source fragment, as the type deduction pass leaves it: assignments to `long`
    variables, blocks, conditionals, loops and jumps out of them. */
module Source {
  import opened Wrappers
  import opened IL

  datatype Action =
    | Plus | Minus | Times | Over | Modulo | AndBits | OrBits | XorBits
    | Equals | Greater | GreaterOrEqual | Less | LessOrEqual | NotEquals

  datatype Expr =
    | Const(constType: OperandType, value: int)
    | Var(v: SymbolRef)
    | Binary(action: Action, left: Expr, right: Expr)
    | Negate(operand: Expr)
    | Convert(target: OperandType, operand: Expr)

  datatype Assignment = Assignment(target: SymbolRef, source: Expr)

  datatype Stmt =
    | Skip
    | Assign(a: Assignment)
    | Block(scope: Scope, stmts: seq<Stmt>)
    | If(cond: Expr, thn: Stmt, els: Stmt)
    | Loop(init: Option<Assignment>, test: Option<Expr>, testAfter: bool, step: Option<Assignment>, body: Stmt)
    | Break
    | Continue

  predicate IsComparison(a: Action) {
    a.Equals? || a.Greater? || a.GreaterOrEqual? || a.Less? || a.LessOrEqual? || a.NotEquals?
  }

  function OpcodeOf(a: Action): (op: Opcode)
    ensures IsComparison(a) ==> IsCompare(op)
    ensures !IsComparison(a) ==> IsBinaryArithmetic(op)
  {
    match a
    case Plus => Add
    case Minus => Sub
    case Times => Mul
    case Over => Div
    case Modulo => Mod
    case AndBits => And
    case OrBits => Or
    case XorBits => Xor
    case Equals => CompEq
    case Greater => CompGt
    case GreaterOrEqual => CompGe
    case Less => CompLt
    case LessOrEqual => CompLe
    case NotEquals => CompNe
  }

  // ----- Types -----

  /** Signed integers, and `I`, the type of comparisons. */
  predicate IsSigned(t: OperandType) {
    t.I? || t.I1? || t.I2? || t.I4? || t.I8?
  }

  function TypeOf(e: Expr): OperandType {
    match e
    case Const(t, _) => t
    case Var(_) => I8
    case Binary(a, l, _) => if IsComparison(a) then I else TypeOf(l)
    case Negate(x) => TypeOf(x)
    case Convert(t, _) => t
  }

  /** Both operands have one type; comparisons also take a constant of another type on the right. */
  predicate WellTyped(e: Expr) {
    match e
    case Const(t, _) => IsSigned(t)
    case Var(_) => true
    case Binary(a, l, r) =>
      WellTyped(l) && WellTyped(r) && (TypeOf(l) == TypeOf(r) || (IsComparison(a) && r.Const?))
    case Negate(x) => WellTyped(x)
    case Convert(t, x) => IsSigned(t) && WellTyped(x)
  }

  predicate WellTypedAssignment(a: Assignment) {
    WellTyped(a.source) && TypeOf(a.source) == I8
  }

  function VarsOf(e: Expr): set<SymbolRef> {
    match e
    case Const(_, _) => {}
    case Var(v) => {v}
    case Binary(_, l, r) => VarsOf(l) + VarsOf(r)
    case Negate(x) => VarsOf(x)
    case Convert(_, x) => VarsOf(x)
  }

  function AssignmentVars(a: Assignment): set<SymbolRef> {
    {a.target} + VarsOf(a.source)
  }

  /** A program the earlier passes accept, all of whose variables are among `vars`. */
  predicate Accepted(s: Stmt, vars: set<SymbolRef>) {
    match s
    case Skip => true
    case Assign(a) => WellTypedAssignment(a) && AssignmentVars(a) <= vars
    case Block(scope, ss) => scope.kind == ScopeKind.Block && AcceptedSeq(ss, vars)
    case If(c, t, e) => WellTyped(c) && VarsOf(c) <= vars && Accepted(t, vars) && Accepted(e, vars)
    case Loop(i, c, _, n, b) =>
      (i.Some? ==> WellTypedAssignment(i.value) && AssignmentVars(i.value) <= vars) &&
      (c.Some? ==> WellTyped(c.value) && VarsOf(c.value) <= vars) &&
      (n.Some? ==> WellTypedAssignment(n.value) && AssignmentVars(n.value) <= vars) &&
      Accepted(b, vars)
    case Break => true
    case Continue => true
  }

  predicate AcceptedSeq(ss: seq<Stmt>, vars: set<SymbolRef>) {
    if ss == [] then true else Accepted(ss[0], vars) && AcceptedSeq(ss[1..], vars)
  }

  // ----- Meaning -----

  /** `None` is a trap. */
  function Eval(m: Machine, e: Expr, st: State): Option<int> {
    match e
    case Const(_, n) => Some(n)
    case Var(v) => Some(Read(st, v))
    case Binary(a, l, r) =>
      var x, y := Eval(m, l, st), Eval(m, r, st);
      if x.None? || y.None? then None
      else if IsComparison(a) then Some(if Compare(OpcodeOf(a), x.value, y.value) then 1 else 0)
      else m.binary(OpcodeOf(a), TypeOf(l), x.value, y.value)
    case Negate(x) =>
      var v := Eval(m, x, st);
      if v.None? then None else m.unary(Neg, TypeOf(x), v.value)
    case Convert(t, x) =>
      var v := Eval(m, x, st);
      if v.None? then None else Some(if t == TypeOf(x) then v.value else m.convert(t, TypeOf(x), v.value))
  }

  datatype Signal = Normal | Broke | Continued | Trapped

  datatype Outcome = Outcome(signal: Signal, st: State)

  function ExecAssignment(m: Machine, a: Assignment, st: State): Outcome {
    var v := Eval(m, a.source, st);
    if v.None? then Outcome(Trapped, st) else Outcome(Normal, st.(vars := st.vars[a.target := v.value]))
  }

  function ExecOptional(m: Machine, a: Option<Assignment>, st: State): Outcome {
    if a.None? then Outcome(Normal, st) else ExecAssignment(m, a.value, st)
  }

  /** Execution with at most `fuel` nested loop rounds and statements; `None` when that is not enough. */
  function ExecStmt(m: Machine, s: Stmt, st: State, fuel: nat): Option<Outcome>
    decreases fuel, 2, s
  {
    match s
    case Skip => Some(Outcome(Normal, st))
    case Assign(a) => Some(ExecAssignment(m, a, st))
    case Block(_, ss) => ExecSeq(m, ss, st, fuel)
    case If(c, t, e) =>
      var v := Eval(m, c, st);
      if v.None? then Some(Outcome(Trapped, st))
      else if v.value != 0 then ExecStmt(m, t, st, fuel) else ExecStmt(m, e, st, fuel)
    case Loop(i, c, after, n, b) =>
      var o := ExecOptional(m, i, st);
      if o.signal.Trapped? then Some(o) else ExecLoop(m, c, after, n, b, o.st, fuel)
    case Break => Some(Outcome(Broke, st))
    case Continue => Some(Outcome(Continued, st))
  }

  function ExecSeq(m: Machine, ss: seq<Stmt>, st: State, fuel: nat): Option<Outcome>
    decreases fuel, 2, ss
  {
    if ss == [] then Some(Outcome(Normal, st)) else
    match ExecStmt(m, ss[0], st, fuel)
    case None => None
    case Some(o) => if o.signal.Normal? then ExecSeq(m, ss[1..], o.st, fuel) else Some(o)
  }

  /** A test: whether it holds, or the trap it runs into. A missing test holds. */
  function Holds(m: Machine, c: Option<Expr>, st: State): Option<bool> {
    if c.None? then Some(true) else
    match Eval(m, c.value, st)
    case None => None
    case Some(v) => Some(v != 0)
  }

  function ExecLoop(m: Machine, c: Option<Expr>, after: bool, n: Option<Assignment>, b: Stmt, st: State, fuel: nat): Option<Outcome>
    decreases fuel, 1
  {
    if fuel == 0 then None else
    match (if after then Some(true) else Holds(m, c, st))
    case None => Some(Outcome(Trapped, st))
    case Some(enter) =>
      if !enter then Some(Outcome(Normal, st)) else
      match ExecStmt(m, b, st, fuel - 1)
      case None => None
      case Some(o) =>
        if o.signal.Trapped? then Some(o)
        else if o.signal.Broke? then Some(Outcome(Normal, o.st))
        else ExecRest(m, c, after, n, b, o.st, fuel)
  }

  /** The end of a round: the step, the test if it comes last, and the next round. */
  function ExecRest(m: Machine, c: Option<Expr>, after: bool, n: Option<Assignment>, b: Stmt, st: State, fuel: nat): Option<Outcome>
    requires fuel > 0
    decreases fuel, 0
  {
    var o := ExecOptional(m, n, st);
    if o.signal.Trapped? then Some(o) else
    match (if after then Holds(m, c, o.st) else Some(true))
    case None => Some(Outcome(Trapped, o.st))
    case Some(again) =>
      if again then ExecLoop(m, c, after, n, b, o.st, fuel - 1) else Some(Outcome(Normal, o.st))
  }

  // ----- What the generated code does with `continue` -----

  /** A loop's continue label is set to its break label, so both jumps leave the loop. */
  function ContinueAsBreak(s: Stmt): Stmt
    decreases s
  {
    match s
    case Block(scope, ss) => Stmt.Block(scope, ContinueAsBreakSeq(ss))
    case If(c, t, e) => If(c, ContinueAsBreak(t), ContinueAsBreak(e))
    case Loop(i, c, after, n, b) => Loop(i, c, after, n, ContinueAsBreak(b))
    case Continue => Break
    case _ => s
  }

  function ContinueAsBreakSeq(ss: seq<Stmt>): seq<Stmt>
    decreases ss
  {
    if ss == [] then [] else [ContinueAsBreak(ss[0])] + ContinueAsBreakSeq(ss[1..])
  }

  predicate HasContinue(s: Stmt)
    decreases s
  {
    match s
    case Block(_, ss) => exists k :: 0 <= k < |ss| && HasContinue(ss[k])
    case If(_, t, e) => HasContinue(t) || HasContinue(e)
    case Loop(_, _, _, _, b) => HasContinue(b)
    case Continue => true
    case _ => false
  }

  /** Every `break` and `continue` is inside a loop. */
  predicate JumpsInLoops(s: Stmt, inLoop: bool)
    decreases s
  {
    match s
    case Block(_, ss) => forall k :: 0 <= k < |ss| ==> JumpsInLoops(ss[k], inLoop)
    case If(_, t, e) => JumpsInLoops(t, inLoop) && JumpsInLoops(e, inLoop)
    case Loop(_, _, _, _, b) => JumpsInLoops(b, true)
    case Break => inLoop
    case Continue => inLoop
    case _ => true
  }
}
