/** Where callers and runners put arguments, and where functions look for them. */
module ParameterSlots {
  import opened Wrappers
  import opened CallingConvention

  function RoundUp(n: nat): (r: nat)
    ensures n <= r < n + 8 && r % 8 == 0
    ensures n % 8 == 0 <==> r == n
  {
    (n + 7) / 8 * 8
  }

  /** The rounded sizes of parameters `first` up to `last`, the latter not included. */
  function Rounded(sizes: seq<nat>, first: nat, last: nat): (r: nat)
    requires first <= last <= |sizes|
    ensures r % 8 == 0
    decreases last - first
  {
    if first == last then 0 else Rounded(sizes, first, last - 1) + RoundUp(sizes[last - 1])
  }

  /** VisitCall: argument `i`'s place above the stack top at the branch, with `ret` bytes of result. */
  function CallerOffset(sizes: seq<nat>, ret: nat, i: nat): nat
    requires i <= |sizes|
  {
    8 + RoundUp(ret) + Rounded(sizes, 0, i)
  }

  /** AllocateFunction: the position after `i` parameters. It is rounded up before the next size is added, but a
      parameter's address is taken before the rounding. */
  function ParameterAddress(sizes: seq<nat>, ret: nat, i: nat): nat
    requires i <= |sizes|
  {
    if i == 0 then 16 + RoundUp(ret) else RoundUp(ParameterAddress(sizes, ret, i - 1)) + sizes[i - 1]
  }

  predicate AllWords(sizes: seq<nat>, n: nat)
    requires n <= |sizes|
  {
    forall j {:trigger sizes[j]} :: 0 <= j < n ==> sizes[j] % 8 == 0
  }

  /** The frame pointer is one word below the stack top at the branch. */
  predicate SlotAgrees(sizes: seq<nat>, ret: nat, i: nat)
    requires i <= |sizes|
  {
    ParameterAddress(sizes, ret, i) == CallerOffset(sizes, ret, i) + 8
  }

  lemma {:induction false} WordsAdd(a: nat, b: nat)
    requires a % 8 == 0 && b % 8 == 0
    ensures (a + b) % 8 == 0
  {
  }

  lemma {:induction false} WordsAgree(sizes: seq<nat>, ret: nat, i: nat)
    requires i <= |sizes| && AllWords(sizes, i)
    ensures SlotAgrees(sizes, ret, i) && ParameterAddress(sizes, ret, i) % 8 == 0
  {
    hide RoundUp;
    if i > 0 {
      WordsAgree(sizes, ret, i - 1);
      assert sizes[i - 1] % 8 == 0;
      WordsAdd(ParameterAddress(sizes, ret, i - 1), sizes[i - 1]);
    } else {
      WordsAdd(16, RoundUp(ret));
    }
  }

  /** With a word for every parameter, and one or none for the result, argument `i` is put `i` words above the return address
      and the result, where the calling sequence puts it, and looked for `i` words above the two saved words and the result. */
  lemma {:induction false} WordSlots(sizes: seq<nat>, ret: nat, i: nat)
    requires i <= |sizes| && (ret == 0 || ret == 8) && forall j {:trigger sizes[j]} :: 0 <= j < i ==> sizes[j] == 8
    ensures CallerOffset(sizes, ret, i) == 8 + ret + 8 * i && ParameterAddress(sizes, ret, i) == 16 + ret + 8 * i
  {
    hide RoundUp;
    if i > 0 {
      WordSlots(sizes, ret, i - 1);
      assert sizes[i - 1] == 8;
    }
  }

  /** The first parameter that is not whole words displaces the next one. */
  lemma {:induction false} OddSizeDisagrees(sizes: seq<nat>, ret: nat, i: nat)
    requires i < |sizes| && AllWords(sizes, i) && sizes[i] % 8 != 0
    ensures !SlotAgrees(sizes, ret, i + 1)
  {
    WordsAgree(sizes, ret, i);
  }

  /** Callers and functions agree on every parameter exactly if all sizes but the last are whole words. */
  lemma {:induction false} SlotsAgreeIff(sizes: seq<nat>, ret: nat)
    requires sizes != []
    ensures (forall i :: 0 <= i < |sizes| ==> SlotAgrees(sizes, ret, i)) <==> AllWords(sizes, |sizes| - 1)
  {
    if AllWords(sizes, |sizes| - 1) {
      forall i | 0 <= i < |sizes|
        ensures SlotAgrees(sizes, ret, i)
      {
        WordsAgree(sizes, ret, i);
      }
    } else {
      var j := FirstOdd(sizes, |sizes| - 1);
      OddSizeDisagrees(sizes, ret, j);
    }
  }

  lemma {:induction false} FirstOdd(sizes: seq<nat>, n: nat) returns (j: nat)
    requires n <= |sizes| && !AllWords(sizes, n)
    ensures j < n && AllWords(sizes, j) && sizes[j] % 8 != 0
  {
    if AllWords(sizes, n - 1) {
      j := n - 1;
    } else {
      j := FirstOdd(sizes, n - 1);
    }
  }

  // ----- Runners -----

  /** What a spawner writes at the top of the new task's stack, from the last argument down: where `k` arguments
      are left to write, the cursor is above them. */
  function WriteArguments(s: State, cursor: int, sizes: seq<nat>, args: seq<int>, k: nat): State
    requires k <= |sizes| == |args|
    decreases k
  {
    if k == 0 then s else
    var at := cursor - RoundUp(sizes[k - 1]);
    WriteArguments(Put(s, at, args[k - 1]), at, sizes, args, k - 1)
  }

  /** The function's address, the size of the arguments, and the arguments. */
  function PrepareRunner(s: State, top: int, target: int, sizes: seq<nat>, args: seq<int>): State
    requires |sizes| == |args|
  {
    var withTarget := Put(s, top - 8, target);
    var withSize := Put(withTarget, top - 16, RoundUp(Rounded(sizes, 0, |sizes|)));
    WriteArguments(withSize, top - 16, sizes, args, |sizes|)
  }

  /** GenerateSpawn0: the code every new task starts with. `exit` is the address of the instruction behind it. */
  function StartUp(exit: int): seq<Instr> {
    [Add(Reg(StackBase), Reg(StackSize), Reg(R1)), Conv(Imm(0), Reg(FP)), Sub(Reg(R1), Imm(24), Reg(SP)),
     Sub(Reg(SP), Disp(R1, -16), Reg(SP)), Conv(Disp(R1, -8), Reg(R2)), Conv(Imm(exit), Disp(SP, 0))]
  }

  function StartRunner(s: State, exit: int): State {
    Jump(Steps(s, StartUp(exit)), Reg(R2))
  }

  /** Every argument is a word. */
  lemma {:induction false} RoundedSplit(sizes: seq<nat>, i: nat)
    requires i <= |sizes|
    ensures Rounded(sizes, 0, |sizes|) == Rounded(sizes, 0, i) + Rounded(sizes, i, |sizes|)
    decreases |sizes| - i
  {
    if i < |sizes| {
      RoundedSplit(sizes, i + 1);
      RoundedFirst(sizes, i, |sizes|);
    }
  }

  lemma {:induction false} RoundedFirst(sizes: seq<nat>, first: nat, last: nat)
    requires first < last <= |sizes|
    ensures Rounded(sizes, first, last) == RoundUp(sizes[first]) + Rounded(sizes, first + 1, last)
    decreases last
  {
    if last != first + 1 { RoundedFirst(sizes, first, last - 1); }
  }

  /** Each argument lies above those written after it. */
  lemma {:induction false} ArgumentsWritten(s: State, cursor: int, sizes: seq<nat>, args: seq<int>, k: nat)
    requires k <= |sizes| == |args| && forall j {:trigger sizes[j]} :: 0 <= j < k ==> sizes[j] > 0
    ensures var t := WriteArguments(s, cursor, sizes, args, k);
      t == s.(mem := t.mem) &&
      (forall a {:trigger At(t, a)} :: a >= cursor ==> At(t, a) == At(s, a)) &&
      forall i {:trigger args[i]} :: 0 <= i < k ==> At(t, cursor - Rounded(sizes, i, k)) == args[i]
    decreases k
  {
    hide RoundUp;
    if k > 0 {
      var at := cursor - RoundUp(sizes[k - 1]);
      var u := Put(s, at, args[k - 1]);
      ArgumentsWritten(u, at, sizes, args, k - 1);
      var t := WriteArguments(u, at, sizes, args, k - 1);
      assert At(t, at) == args[k - 1];
      assert sizes[k - 1] > 0 && at < cursor;
      forall a | a >= cursor
        ensures At(t, a) == At(s, a)
      {
        assert At(t, a) == At(u, a);
      }
      forall i | 0 <= i < k
        ensures At(t, cursor - Rounded(sizes, i, k)) == args[i]
      {
        if i == k - 1 {
          assert Rounded(sizes, i, k) == Rounded(sizes, i, i) + RoundUp(sizes[k - 1]);
        } else {
          assert cursor - Rounded(sizes, i, k) == at - Rounded(sizes, i, k - 1);
        }
      }
    }
  }

  lemma {:induction false} StartUpEffect(s: State, exit: int)
    ensures var top := s.stackBase + s.stackSize; var size := At(s, top - 16); var sp := top - 24 - size;
      StartRunner(s, exit) == Put(s, sp, exit).(r1 := top, fp := 0, sp := sp, r2 := At(s, top - 8), pc := At(s, top - 8))
  {
    var c := StartUp(exit);
    var s1 := Step(s, c[0]);
    var s2 := Step(s1, c[1]);
    var s3 := Step(s2, c[2]);
    var s4 := Step(s3, c[3]);
    var s5 := Step(s4, c[4]);
    assert c == [c[0]] + ([c[1]] + ([c[2]] + ([c[3]] + ([c[4]] + [c[5]]))));
    StepsCons(s, c[0], [c[1]] + ([c[2]] + ([c[3]] + ([c[4]] + [c[5]]))));
    StepsCons(s1, c[1], [c[2]] + ([c[3]] + ([c[4]] + [c[5]])));
    StepsCons(s2, c[2], [c[3]] + ([c[4]] + [c[5]]));
    StepsCons(s3, c[3], [c[4]] + [c[5]]);
    StepsCons(s4, c[4], [c[5]]);
    StepsOne(s5, c[5]);
  }

  /** The spawner's descending cursor and the start-up code meet: the new task runs the function that was named, with the
      address of the final exit on its stack top, and finds argument `i` where it looks for parameter `i`. */
  lemma {:induction false} RunnerArgumentsArrive(s: State, target: int, sizes: seq<nat>, args: seq<int>, exit: int, frame: nat, i: nat)
    requires i < |sizes| == |args| && forall j {:trigger sizes[j]} :: 0 <= j < |sizes| ==> sizes[j] == 8
    ensures var ready := PrepareRunner(s, s.stackBase + s.stackSize, target, sizes, args);
      var started := StartRunner(ready, exit);
      var entered := Steps(started, Prologue(frame));
      && started.pc == target && At(started, started.sp) == exit
      && Value(entered, Disp(FP, ParameterAddress(sizes, 0, i))) == args[i]
  {
    hide RoundUp, Rounded, ParameterAddress, StartRunner, Prologue, WriteArguments;
    var top := s.stackBase + s.stackSize;
    var ready := PrepareRunner(s, top, target, sizes, args);
    var total := Rounded(sizes, 0, |sizes|);
    var before := Put(Put(s, top - 8, target), top - 16, RoundUp(total));
    ArgumentsWritten(before, top - 16, sizes, args, |sizes|);
    assert At(ready, top - 8) == target && At(ready, top - 16) == total;
    StartUpEffect(ready, exit);
    var started := StartRunner(ready, exit);
    PrologueEffect(started, frame);
    RoundedSplit(sizes, i);
    WordsAgree(sizes, 0, i);
    var a := top - 16 - Rounded(sizes, i, |sizes|);
    assert At(ready, a) == args[i];
    assert a == started.sp - 8 + ParameterAddress(sizes, 0, i);
    assert a > started.sp;
  }
}
