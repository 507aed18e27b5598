/** Function calls as the code generator emits them, on a small stack machine: whatever tree of calls a
    function makes, it returns to its caller with the stack and the caller's frame as they were. */
module CallingConvention {
  import opened Wrappers

  const PTR: int := 8
  const PARAMETER_OFFSET: int := 16

  // ----- The machine -----

  /** The stack and frame pointers, two scratch registers, and where the current stack is. */
  datatype Register = SP | FP | R1 | R2 | StackBase | StackSize

  /** Addressing modes: an immediate, a register, and memory at a register plus a displacement. */
  datatype Operand = Imm(n: int) | Reg(r: Register) | Disp(base: Register, d: int)

  datatype Instr = Conv(src: Operand, dst: Operand) | Add(a: Operand, b: Operand, dst: Operand) | Sub(a: Operand, b: Operand, dst: Operand)

  /** Memory in words of eight bytes; every address used is a multiple of eight from the stack pointer. */
  datatype State = State(mem: map<int, int>, sp: int, fp: int, pc: int, r1: int, r2: int, stackBase: int, stackSize: int)

  function At(s: State, a: int): int {
    if a in s.mem then s.mem[a] else 0
  }

  function Put(s: State, a: int, v: int): State {
    s.(mem := s.mem[a := v])
  }

  function RegisterOf(s: State, r: Register): int {
    match r
    case SP => s.sp
    case FP => s.fp
    case R1 => s.r1
    case R2 => s.r2
    case StackBase => s.stackBase
    case StackSize => s.stackSize
  }

  function Value(s: State, o: Operand): int {
    match o
    case Imm(n) => n
    case Reg(r) => RegisterOf(s, r)
    case Disp(base, d) => At(s, RegisterOf(s, base) + d)
  }

  function Assign(s: State, o: Operand, v: int): State {
    match o
    case Imm(_) => s
    case Reg(SP) => s.(sp := v)
    case Reg(FP) => s.(fp := v)
    case Reg(R1) => s.(r1 := v)
    case Reg(R2) => s.(r2 := v)
    case Reg(StackBase) => s.(stackBase := v)
    case Reg(StackSize) => s.(stackSize := v)
    case Disp(base, d) => Put(s, RegisterOf(s, base) + d, v)
  }

  function Step(s: State, i: Instr): State {
    match i
    case Conv(src, dst) => Assign(s, dst, Value(s, src))
    case Add(a, b, dst) => Assign(s, dst, Value(s, a) + Value(s, b))
    case Sub(a, b, dst) => Assign(s, dst, Value(s, a) - Value(s, b))
  }

  function Steps(s: State, code: seq<Instr>): State
    decreases |code|
  {
    if code == [] then s else Steps(Step(s, code[0]), code[1..])
  }

  /** A jump to an address, or through memory. */
  function Jump(s: State, target: Operand): State {
    s.(pc := Value(s, target))
  }

  // ----- What the generator emits -----

  /** EnterFunction: saves the caller's frame pointer and makes room for `size` bytes of local variables. */
  function Prologue(size: int): seq<Instr> {
    [Conv(Reg(FP), Disp(SP, -PTR)), Sub(Reg(SP), Imm(PTR), Reg(FP)), Sub(Reg(SP), Imm(size + PTR), Reg(SP))]
  }

  /** VisitRet: stores the result, if there is one, and gives up the frame; a jump through the stack top follows. */
  function Epilogue(result: Option<Operand>): seq<Instr> {
    (if result.Some? then [Conv(result.value, Disp(FP, PARAMETER_OFFSET))] else []) +
    [Conv(Reg(FP), Reg(SP)), Conv(Disp(SP, 0), Reg(FP)), Add(Reg(SP), Imm(PTR), Reg(SP))]
  }

  function RetSize(hasRet: bool): int {
    if hasRet then PTR else 0
  }

  /** The bytes that a call pushes: the arguments, room for the result, and the return address. */
  function PushSize(n: nat, hasRet: bool): int {
    PTR * n + RetSize(hasRet) + PTR
  }

  /** The copies of arguments `k` and later to their places on the stack. */
  function PushArguments(args: seq<Operand>, k: nat, offset: int): seq<Instr>
    requires k <= |args|
    decreases |args| - k
  {
    if k == |args| then [] else [Conv(args[k], Disp(SP, offset))] + PushArguments(args, k + 1, offset + PTR)
  }

  /** VisitCall up to the branch; `ra` is the address of the instruction behind the branch. */
  function BeforeBranch(args: seq<Operand>, hasRet: bool, ra: int): seq<Instr> {
    [Sub(Reg(SP), Imm(PushSize(|args|, hasRet)), Reg(SP)), Conv(Imm(ra), Disp(SP, 0))] +
    PushArguments(args, 0, PTR + RetSize(hasRet))
  }

  /** VisitCall behind the branch: fetches the result and pops what was pushed. */
  function AfterBranch(n: nat, dest: Option<Operand>): seq<Instr> {
    (if dest.Some? then [Conv(Disp(SP, PTR), dest.value)] else []) + [Add(Reg(SP), Imm(PushSize(n, dest.Some?)), Reg(SP))]
  }

  // ----- Calls -----

  /** What a function does while it is active: it sets its own variables, to immediates for whatever it computes, and calls. */
  datatype Op =
    | Move(src: Operand, dst: Operand)
    | Call(callee: Activation, args: seq<Operand>, dest: Option<Operand>, ra: int, entry: int)

  /** One activation of a function, with everything it goes on to call. */
  datatype Activation = Activation(size: nat, params: nat, ops: seq<Op>, result: Option<Operand>)

  function ParametersBegin(act: Activation): int {
    PARAMETER_OFFSET + RetSize(act.result.Some?)
  }

  /** A local variable or a parameter, addressed from the frame pointer. */
  predicate OwnSlot(act: Activation, o: Operand) {
    o.Disp? && o.base == FP &&
    (0 - act.size <= o.d < 0 || ParametersBegin(act) <= o.d < ParametersBegin(act) + PTR * act.params) &&
    o.d % PTR == 0
  }

  predicate OwnOperand(act: Activation, o: Operand) {
    o.Imm? || OwnSlot(act, o)
  }

  predicate LegalOp(act: Activation, op: Op)
    decreases op, 0
  {
    match op
    case Move(src, dst) => OwnOperand(act, src) && OwnSlot(act, dst)
    case Call(callee, args, dest, _, _) =>
      Legal(callee) && |args| == callee.params && dest.Some? == callee.result.Some? &&
      (dest.Some? ==> OwnSlot(act, dest.value)) && forall k {:trigger args[k]} :: 0 <= k < |args| ==> OwnOperand(act, args[k])
  }

  /** Each activation in the tree reads and writes its own variables and parameters only, and calls agree with what they call. */
  predicate Legal(act: Activation)
    decreases act, 1
  {
    act.size % PTR == 0 && (act.result.Some? ==> OwnOperand(act, act.result.value)) &&
    forall k {:trigger act.ops[k]} :: 0 <= k < |act.ops| ==> LegalOp(act, act.ops[k])
  }

  function RunOp(s: State, op: Op): State
    decreases op, 0
  {
    match op
    case Move(src, dst) => Step(s, Conv(src, dst))
    case Call(callee, args, dest, ra, entry) =>
      var called := Jump(Steps(s, BeforeBranch(args, dest.Some?, ra)), Imm(entry));
      Steps(RunActivation(called, callee), AfterBranch(|args|, dest))
  }

  function RunOps(s: State, ops: seq<Op>): State
    decreases ops, 1
  {
    if ops == [] then s else RunOps(RunOp(s, ops[0]), ops[1..])
  }

  /** An activation up to its return. */
  function BodyEnd(s: State, act: Activation): State
    decreases act, 2
  {
    RunOps(Steps(s, Prologue(act.size)), act.ops)
  }

  function RunActivation(s: State, act: Activation): State
    decreases act, 3
  {
    Jump(Steps(BodyEnd(s, act), Epilogue(act.result)), Disp(SP, 0))
  }

  // ----- Straight-line code -----

  lemma {:induction false} StepsOne(s: State, i: Instr)
    ensures Steps(s, [i]) == Step(s, i)
  {
    assert [i][1..] == [];
  }

  lemma {:induction false} StepsCons(s: State, i: Instr, code: seq<Instr>)
    ensures Steps(s, [i] + code) == Steps(Step(s, i), code)
  {
    assert ([i] + code)[1..] == code;
  }

  lemma {:induction false} PrologueEffect(s: State, size: int)
    ensures Steps(s, Prologue(size)) == s.(mem := s.mem[s.sp - 8 := s.fp], sp := s.sp - 8 - size, fp := s.sp - 8)
  {
    var c := Prologue(size);
    assert c == [c[0]] + ([c[1]] + [c[2]]);
    StepsCons(s, c[0], [c[1]] + [c[2]]);
    StepsCons(Step(s, c[0]), c[1], [c[2]]);
    StepsOne(Step(Step(s, c[0]), c[1]), c[2]);
  }

  /** The state once the frame has been given up. */
  function FrameLeft(s: State): State {
    s.(sp := s.fp + PTR, fp := At(s, s.fp))
  }

  lemma {:induction false} LeaveEffect(s: State)
    ensures Steps(s, [Conv(Reg(FP), Reg(SP)), Conv(Disp(SP, 0), Reg(FP)), Add(Reg(SP), Imm(PTR), Reg(SP))]) == FrameLeft(s)
  {
    var a, b, c := Conv(Reg(FP), Reg(SP)), Conv(Disp(SP, 0), Reg(FP)), Add(Reg(SP), Imm(PTR), Reg(SP));
    assert [a, b, c] == [a] + ([b] + [c]);
    StepsCons(s, a, [b] + [c]);
    StepsCons(Step(s, a), b, [c]);
    StepsOne(Step(Step(s, a), b), c);
  }

  lemma {:induction false} EpilogueEffect(s: State, result: Option<Operand>)
    ensures Steps(s, Epilogue(result)) ==
      FrameLeft(if result.Some? then Put(s, s.fp + PARAMETER_OFFSET, Value(s, result.value)) else s)
    ensures var mem := if result.Some? then s.mem[s.fp + 16 := Value(s, result.value)] else s.mem;
      Steps(s, Epilogue(result)) == s.(mem := mem, sp := s.fp + 8, fp := if s.fp in mem then mem[s.fp] else 0)
  {
    var leave := [Conv(Reg(FP), Reg(SP)), Conv(Disp(SP, 0), Reg(FP)), Add(Reg(SP), Imm(PTR), Reg(SP))];
    if result.Some? {
      var store := Conv(result.value, Disp(FP, PARAMETER_OFFSET));
      StepsCons(s, store, leave);
      LeaveEffect(Step(s, store));
    } else {
      assert Epilogue(result) == leave;
      LeaveEffect(s);
    }
  }

  /** A value that does not change while memory below `limit` is written and the frame pointer stays. */
  predicate Above(s: State, o: Operand, limit: int) {
    o.Imm? || (o.Disp? && o.base == FP && s.fp + o.d >= limit)
  }

  /** Pushing arguments that lie above the stack writes each to its place and nothing else. */
  lemma {:induction false} PushEffect(s: State, args: seq<Operand>, k: nat, offset: int, limit: int)
    requires k <= |args| && s.sp + offset + PTR * (|args| - k) <= limit
    requires forall j {:trigger args[j]} :: k <= j < |args| ==> Above(s, args[j], limit)
    ensures var t := Steps(s, PushArguments(args, k, offset));
      t.sp == s.sp && t.fp == s.fp && t.pc == s.pc &&
      (forall a {:trigger At(t, a)} :: !(s.sp + offset <= a < s.sp + offset + PTR * (|args| - k)) ==> At(t, a) == At(s, a)) &&
      (forall j {:trigger args[j]} :: k <= j < |args| ==> At(t, s.sp + offset + PTR * (j - k)) == Value(s, args[j]))
    decreases |args| - k
  {
    if k < |args| {
      var i := Conv(args[k], Disp(SP, offset));
      var u := Step(s, i);
      StepsCons(s, i, PushArguments(args, k + 1, offset + PTR));
      PushEffect(u, args, k + 1, offset + PTR, limit);
      var t := Steps(s, PushArguments(args, k, offset));
      forall j | k <= j < |args|
        ensures At(t, s.sp + offset + PTR * (j - k)) == Value(s, args[j])
      {
        if j == k {
          assert At(t, s.sp + offset) == At(u, s.sp + offset);
        } else {
          assert s.sp + offset + PTR * (j - k) == u.sp + (offset + PTR) + PTR * (j - (k + 1));
          assert Above(s, args[j], limit);
        }
      }
    }
  }

  // ----- What an activation leaves alone -----

  /** Between `s` and `t` nothing from `limit` up has changed, except perhaps in `[lo, hi)`. */
  ghost predicate KeptAbove(s: State, t: State, limit: int, lo: int, hi: int) {
    forall a {:trigger At(t, a)} :: a >= limit && !(lo <= a < hi) ==> At(t, a) == At(s, a)
  }

  /** The active function's frame: the stack pointer is at its lower end. */
  predicate InFrame(s: State, act: Activation) {
    s.sp == s.fp - act.size
  }

  /** One operation changes the function's own variables at most: not the saved frame pointer, not the return address. */
  ghost predicate OpKeeps(s: State, t: State, act: Activation) {
    t.sp == s.sp && t.fp == s.fp &&
    KeptAbove(s, t, s.fp, s.fp + ParametersBegin(act), s.fp + ParametersBegin(act) + PTR * act.params)
  }

  /** What a call of `act` does for whoever branched to it with the return address on the stack top: control is back at
      that address, both pointers are what they were, and above the stack top only the result and the arguments may differ. */
  ghost predicate Returns(s: State, t: State, act: Activation) {
    t.sp == s.sp && t.fp == s.fp && t.pc == At(s, s.sp) &&
    KeptAbove(s, t, s.sp, s.sp + PTR, s.sp + PTR + RetSize(act.result.Some?) + PTR * act.params) &&
    (act.result.Some? ==> At(t, s.sp + PTR) == Value(BodyEnd(s, act), act.result.value))
  }

  lemma {:induction false} MoveKeeps(s: State, act: Activation, op: Op)
    requires op.Move? && LegalOp(act, op) && InFrame(s, act)
    ensures OpKeeps(s, RunOp(s, op), act)
  {
  }

  /** The stack as a caller prepares it. */
  lemma {:induction false} BeforeEffect(s: State, act: Activation, op: Op)
    requires op.Call? && LegalOp(act, op) && InFrame(s, act)
    ensures var t := Steps(s, BeforeBranch(op.args, op.dest.Some?, op.ra)); var push := PushSize(|op.args|, op.dest.Some?);
      t.sp == s.sp - push && t.fp == s.fp && KeptAbove(s, t, s.sp, 0, 0) && At(t, t.sp) == op.ra &&
      forall k {:trigger op.args[k]} :: 0 <= k < |op.args| ==>
        At(t, t.sp + PTR + RetSize(op.dest.Some?) + PTR * k) == Value(s, op.args[k])
  {
    hide Legal;
    var push, offset := PushSize(|op.args|, op.dest.Some?), PTR + RetSize(op.dest.Some?);
    var i, j := Sub(Reg(SP), Imm(push), Reg(SP)), Conv(Imm(op.ra), Disp(SP, 0));
    var rest := PushArguments(op.args, 0, offset);
    assert BeforeBranch(op.args, op.dest.Some?, op.ra) == [i] + ([j] + rest);
    StepsCons(s, i, [j] + rest);
    StepsCons(Step(s, i), j, rest);
    var u := Step(Step(s, i), j);
    forall k | 0 <= k < |op.args|
      ensures Above(u, op.args[k], s.sp) && Value(u, op.args[k]) == Value(s, op.args[k])
    {
      ArgumentIsAbove(s, u, act, op.args[k]);
    }
    PushEffect(u, op.args, 0, offset, s.sp);
  }

  /** At the branch the stack has grown by a word for the return address, one for the result if there is any, and one for
      each argument, and holds them in that order from its top on; nothing above has changed. */
  lemma {:induction false} StackAtBranch(s: State, act: Activation, op: Op)
    requires op.Call? && LegalOp(act, op) && InFrame(s, act)
    ensures var t := Steps(s, BeforeBranch(op.args, op.dest.Some?, op.ra)); var ret := if op.dest.Some? then 8 else 0;
      && t.sp == s.sp - 8 - ret - 8 * |op.args| && t.fp == s.fp
      && At(t, t.sp) == op.ra
      && (forall k {:trigger op.args[k]} :: 0 <= k < |op.args| ==> At(t, t.sp + 8 + ret + 8 * k) == Value(s, op.args[k]))
      && forall a {:trigger At(t, a)} :: a >= s.sp ==> At(t, a) == At(s, a)
  {
    hide Legal, BeforeBranch;
    BeforeEffect(s, act, op);
  }

  lemma {:induction false} ArgumentIsAbove(s: State, u: State, act: Activation, o: Operand)
    requires OwnOperand(act, o) && InFrame(s, act) && u.fp == s.fp && KeptAbove(s, u, s.sp, 0, 0)
    ensures Above(u, o, s.sp) && Value(u, o) == Value(s, o)
  {
    if o.Disp? { assert At(u, u.fp + o.d) == At(s, s.fp + o.d); }
  }

  lemma {:induction false} AfterEffect(s: State, n: nat, dest: Option<Operand>)
    requires dest.Some? ==> dest.value.Disp? && dest.value.base == FP
    ensures var t := Steps(s, AfterBranch(n, dest));
      t == (if dest.Some? then Put(s, s.fp + dest.value.d, At(s, s.sp + PTR)) else s).(sp := s.sp + PushSize(n, dest.Some?))
  {
    var pop := Add(Reg(SP), Imm(PushSize(n, dest.Some?)), Reg(SP));
    if dest.Some? {
      var fetch := Conv(Disp(SP, PTR), dest.value);
      StepsCons(s, fetch, [pop]);
      StepsOne(Step(s, fetch), pop);
    } else {
      assert AfterBranch(n, dest) == [pop];
      StepsOne(s, pop);
    }
  }

  /** The state in which the callee starts. */
  function CalledState(s: State, op: Op): State
    requires op.Call?
  {
    Jump(Steps(s, BeforeBranch(op.args, op.dest.Some?, op.ra)), Imm(op.entry))
  }

  /** A call that returns as it should keeps the caller's frame. */
  lemma {:induction false} CallKeeps(s: State, act: Activation, op: Op)
    requires op.Call? && LegalOp(act, op) && InFrame(s, act)
    requires Returns(CalledState(s, op), RunActivation(CalledState(s, op), op.callee), op.callee)
    ensures var t := RunOp(s, op);
      OpKeeps(s, t, act) && KeptAbove(s, t, s.sp, if op.dest.Some? then s.fp + op.dest.value.d else 0,
                                              if op.dest.Some? then s.fp + op.dest.value.d + 1 else 0)
    ensures RunActivation(CalledState(s, op), op.callee).pc == op.ra
    ensures op.dest.Some? ==> At(RunOp(s, op), s.fp + op.dest.value.d) ==
                              Value(BodyEnd(CalledState(s, op), op.callee), op.callee.result.value)
  {
    hide Legal, BeforeBranch, AfterBranch, RunActivation, BodyEnd;
    BeforeEffect(s, act, op);
    var c := CalledState(s, op);
    var r := RunActivation(c, op.callee);
    AfterEffect(r, |op.args|, op.dest);
    var pushed := Steps(s, BeforeBranch(op.args, op.dest.Some?, op.ra));
    forall a | a >= s.sp && !(op.dest.Some? && a == s.fp + op.dest.value.d)
      ensures At(RunOp(s, op), a) == At(s, a)
    {
      assert At(r, a) == At(c, a) == At(pushed, a) == At(s, a);
    }
  }

  lemma {:induction false} OpsKeepTrans(s: State, t: State, u: State, act: Activation)
    requires OpKeeps(s, t, act) && OpKeeps(t, u, act)
    ensures OpKeeps(s, u, act)
  {
  }

  lemma {:induction false} OpIsKept(s: State, act: Activation, op: Op)
    requires LegalOp(act, op) && InFrame(s, act)
    ensures OpKeeps(s, RunOp(s, op), act)
    decreases op, 0
  {
    if op.Move? {
      MoveKeeps(s, act, op);
    } else {
      ActivationReturns(CalledState(s, op), op.callee);
      CallKeeps(s, act, op);
    }
  }

  lemma {:induction false} OpsAreKept(s: State, act: Activation, ops: seq<Op>)
    requires (forall k {:trigger ops[k]} :: 0 <= k < |ops| ==> LegalOp(act, ops[k])) && InFrame(s, act)
    ensures OpKeeps(s, RunOps(s, ops), act)
    decreases ops, 1
  {
    hide LegalOp, RunOp, KeptAbove;
    if ops == [] {
      NothingChanged(s, act);
    } else {
      OpIsKept(s, act, ops[0]);
      var t := RunOp(s, ops[0]);
      OpsAreKept(t, act, ops[1..]);
      OpsKeepTrans(s, t, RunOps(t, ops[1..]), act);
    }
  }

  lemma {:induction false} NothingChanged(s: State, act: Activation)
    ensures OpKeeps(s, s, act)
  {
  }

  /** Every activation, however many calls it nests, returns to where it was called from. */
  lemma {:induction false} ActivationReturns(s: State, act: Activation)
    requires Legal(act)
    ensures Returns(s, RunActivation(s, act), act)
    decreases act, 3
  {
    PrologueEffect(s, act.size);
    var entered := Steps(s, Prologue(act.size));
    OpsAreKept(entered, act, act.ops);
    var last := BodyEnd(s, act);
    EpilogueEffect(last, act.result);
    ReturnEffect(s, entered, last, act);
  }

  lemma {:induction false} ReturnEffect(s: State, entered: State, last: State, act: Activation)
    requires entered == s.(mem := s.mem[s.sp - PTR := s.fp], sp := s.sp - PTR - act.size, fp := s.sp - PTR)
    requires OpKeeps(entered, last, act)
    ensures var t := Jump(FrameLeft(if act.result.Some? then Put(last, last.fp + PARAMETER_OFFSET, Value(last, act.result.value)) else last),
                          Disp(SP, 0));
      t.sp == s.sp && t.fp == s.fp && t.pc == At(s, s.sp) &&
      KeptAbove(s, t, s.sp, s.sp + PTR, s.sp + PTR + RetSize(act.result.Some?) + PTR * act.params) &&
      (act.result.Some? ==> At(t, s.sp + PTR) == Value(last, act.result.value))
  {
    assert At(last, s.sp - PTR) == At(entered, s.sp - PTR) == s.fp;
    assert At(last, s.sp) == At(entered, s.sp) == At(s, s.sp);
    forall a | a >= s.sp && !(s.sp + PTR <= a < s.sp + PTR + RetSize(act.result.Some?) + PTR * act.params)
      ensures At(last, a) == At(s, a)
    {
      assert At(last, a) == At(entered, a);
    }
  }

  // ----- The results -----

  /** After a call the stack and frame pointers are what they were, control has come back to the instruction behind the
      branch, the caller's variable holds the callee's result, and nothing else from the caller's frame up has changed. */
  lemma {:induction false} CallReturns(s: State, act: Activation, op: Op)
    requires op.Call? && LegalOp(act, op) && InFrame(s, act)
    ensures var t := RunOp(s, op); var c := CalledState(s, op);
      && t.sp == s.sp && t.fp == s.fp
      && RunActivation(c, op.callee).pc == op.ra
      && (op.dest.Some? ==> At(t, s.fp + op.dest.value.d) == Value(BodyEnd(c, op.callee), op.callee.result.value))
      && forall a {:trigger At(t, a)} :: a >= s.sp && (op.dest.Some? ==> a != s.fp + op.dest.value.d) ==> At(t, a) == At(s, a)
  {
    hide RunActivation, BodyEnd, CalledState, RunOp;
    ActivationReturns(CalledState(s, op), op.callee);
    CallKeeps(s, act, op);
  }

  /** The callee finds argument `k` where it looks for its parameter `k`. */
  lemma {:induction false} ArgumentsArrive(s: State, act: Activation, op: Op, k: nat)
    requires op.Call? && LegalOp(act, op) && InFrame(s, act) && k < |op.args|
    ensures var entered := Steps(CalledState(s, op), Prologue(op.callee.size));
      ParametersBegin(op.callee) == (if op.callee.result.Some? then 24 else 16) &&
      Value(entered, Disp(FP, ParametersBegin(op.callee) + 8 * k)) == Value(s, op.args[k])
  {
    hide Legal, BeforeBranch, Prologue;
    BeforeEffect(s, act, op);
    var c := CalledState(s, op);
    PrologueEffect(c, op.callee.size);
    assert At(c, c.sp + PTR + RetSize(op.dest.Some?) + PTR * k) == Value(s, op.args[k]);
  }
}
