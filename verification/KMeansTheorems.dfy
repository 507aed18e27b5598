/** Every interleaving of the k-means tasks computes what the sequential algorithm computes,
    never gets stuck, and commits a fixed number of times. */
module KMeansTheorems {
  import opened Wrappers
  import opened KMeansData
  import opened KMeansTasks
  import opened KMeansProtocol
  import opened KMeansInvariant

  /** The input has been read and the initial centroids have been taken. */
  predicate Started(s: System) {
    OnInit1Finished !in s.watchers
  }

  /** Whenever `iter` is k, the committed centroids are those of k rounds of the sequential algorithm; k never exceeds MAX_ITER. */
  lemma CentroidsAreSequential(cfg: Config, run: seq<System>, j: nat)
    requires IsRun(cfg, run) && j < |run| && Started(run[j])
    ensures var mem := run[j].mem;
      0 <= mem.iter <= MAX_ITER && mem.points == cfg.input && mem.cent == Rounds(cfg.input, cfg.k, mem.iter)
  {
    RunIsSafe(cfg, run, j);
  }

  // ----- Rounds advance one at a time -----

  predicate IsCommit(cfg: Config, s: System, e: Event)
    requires WellFormed(cfg, s) && Enabled(cfg, s, e)
  {
    e.Finish? && Commits(Execute(cfg, s.running[e.slot].task, s.running[e.slot].snap).verdict)
  }

  /** The counter and the centroids change only when the round's watcher commits; then every worker of the round has
      committed, and the step is one round of the sequential algorithm. */
  lemma RoundsAdvanceInOrder(cfg: Config, run: seq<System>, j: nat)
    requires IsRun(cfg, run) && j + 1 < |run| && Started(run[j])
    ensures var (s, s') := (run[j], run[j + 1]);
      Started(s') && Fits(cfg, s.mem) &&
      if s'.mem.iter == s.mem.iter then s'.mem.cent == s.mem.cent
      else s'.mem.iter == s.mem.iter + 1 && s'.mem.cent == Recentered(cfg.input, s.mem.cent) &&
           AllTriggers(s.mem, 2) && NoWorkers(cfg, s)
  {
    var s, s' := run[j], run[j + 1];
    RunIsSafe(cfg, run, j);
    RunIsSafe(cfg, run, j + 1);
    assert Next(cfg, s, s');
    var e :| Enabled(cfg, s, e) && s' == After(cfg, s, e);
    if IsCommit(cfg, s, e) {
      CommitAdvances(cfg, s, e.slot);
    } else {
      NoCommitKeeps(cfg, s, e);
    }
  }

  lemma NoCommitKeeps(cfg: Config, s: System, e: Event)
    requires Invariant(cfg, s) && Enabled(cfg, s, e) && !IsCommit(cfg, s, e)
    ensures After(cfg, s, e).mem == s.mem && After(cfg, s, e).watchers == s.watchers
  {
    hide Reading, Iterating, RunOnce;
    if e.Finish? { OnlyWatchersAbort(cfg, s, e.slot); }
  }

  lemma CommitAdvances(cfg: Config, s: System, i: nat)
    requires Invariant(cfg, s) && Enabled(cfg, s, Finish(i)) && IsCommit(cfg, s, Finish(i)) && Started(s)
    ensures var s' := After(cfg, s, Finish(i));
      Started(s') &&
      if s'.mem.iter == s.mem.iter then s'.mem.cent == s.mem.cent
      else s'.mem.iter == s.mem.iter + 1 && s'.mem.cent == Recentered(cfg.input, s.mem.cent) &&
           AllTriggers(s.mem, 2) && NoWorkers(cfg, s)
  {
    hide Merged, Nearest, Slice, Awake, Tracked, RunOnce, NoWorkers, MergedCentroids;
    CommitIs(cfg, s, i);
    match s.running[i].task
    case InitRunner(_) => InitRunnerIsSafe(cfg, s, i);
    case OnInit1Finished => OnInit1FinishedIsSafe(cfg, s, i);
    case ReclusterRunner(_) =>
    case OnReclusterFinished(_) => RoundAdvances(cfg, s, i);
  }

  /** No attempt at a watcher ever finds the counter short of the round it expects. */
  lemma NeverTooEarly(cfg: Config, run: seq<System>, j: nat, i: nat)
    requires IsRun(cfg, run) && j < |run| && i in run[j].running && run[j].running[i].task.OnReclusterFinished?
    ensures var a := run[j].running[i]; a.task.expected <= a.snap.iter <= run[j].mem.iter
  {
    RunIsSafe(cfg, run, j);
    hide Tracked, Awake, RunOnce, Slice, Rounds, Aggregated;
    assert SawItsRound(run[j].running[i], run[j].mem.iter);
  }

  // ----- Progress -----

  function Zeros(trigger: seq<int>): (n: nat)
    ensures n <= |trigger|
    ensures n == 0 <==> forall p :: 0 <= p < |trigger| ==> trigger[p] != 0
    ensures (forall p :: 0 <= p < |trigger| ==> trigger[p] == 0) ==> n == |trigger|
  {
    if trigger == [] then 0 else
    assert forall p :: 0 <= p < |trigger| - 1 ==> trigger[p] == trigger[..|trigger| - 1][p];
    Zeros(trigger[..|trigger| - 1]) + if trigger[|trigger| - 1] == 0 then 1 else 0
  }

  lemma {:induction false} ZerosUpdate(trigger: seq<int>, p: nat, value: int)
    requires p < |trigger| && trigger[p] == 0 && value != 0
    ensures Zeros(trigger[p := value]) == Zeros(trigger) - 1
  {
    var n := |trigger| - 1;
    if p < n {
      ZerosUpdate(trigger[..n], p, value);
      assert trigger[p := value][..n] == trigger[..n][p := value];
    } else {
      assert trigger[p := value][..n] == trigger[..n];
    }
  }

  /** A round is one commit per partition and one of the watcher. */
  function CommitsOf(cfg: Config, rounds: int): int {
    rounds * (cfg.parts + 1)
  }

  lemma {:induction false} OneRoundMore(cfg: Config, rounds: int)
    ensures CommitsOf(cfg, rounds + 1) == CommitsOf(cfg, rounds) + cfg.parts + 1
    ensures CommitsOf(cfg, 0) == 0
    ensures rounds >= 0 ==> CommitsOf(cfg, rounds) >= 0
  {
  }

  /** How many commits are still to come. */
  function Remaining(cfg: Config, s: System): int {
    if !Started(s) then Zeros(s.mem.trigger) + 1 + CommitsOf(cfg, MAX_ITER)
    else if s.mem.iter == MAX_ITER then 0
    else Zeros(s.mem.trigger) + 1 + CommitsOf(cfg, MAX_ITER - 1 - s.mem.iter)
  }

  lemma RemainingAfterRead(cfg: Config, s: System, i: nat)
    requires Invariant(cfg, s) && i in s.running && s.running[i].task.InitRunner?
    ensures var r := Execute(cfg, s.running[i].task, s.mem); Remaining(cfg, AfterCommit(s, i, r.mem, r)) == Remaining(cfg, s) - 1
  {
    InitRunnerIsSafe(cfg, s, i);
    hide RunOnce, Slice, Awake, CommitsOf;
    var p := s.running[i].task.part;
    assert Attempted(s, TaskOf(Read, p));
    ZerosUpdate(s.mem.trigger, p, 1);
  }

  lemma WorkerFinds(cfg: Config, s: System, i: nat)
    requires Invariant(cfg, s) && i in s.running && s.running[i].task.ReclusterRunner?
    ensures Started(s) && s.mem.iter < MAX_ITER && s.running[i].task.part < |s.mem.trigger| && s.mem.trigger[s.running[i].task.part] == 0
  {
    ReclusterRunnerIsSafe(cfg, s, i);
    hide RunOnce, Slice, Awake, Rounds, Aggregated;
    assert Attempted(s, TaskOf(Work, s.running[i].task.part));
  }

  lemma RemainingAfterWork(cfg: Config, s: System, i: nat)
    requires Invariant(cfg, s) && i in s.running && s.running[i].task.ReclusterRunner?
    ensures var r := Execute(cfg, s.running[i].task, s.mem); Remaining(cfg, AfterCommit(s, i, r.mem, r)) == Remaining(cfg, s) - 1
  {
    WorkerFinds(cfg, s, i);
    hide Reading, Iterating, RunOnce, Slice, LocalTallies, CommitsOf, Zeros;
    ZerosUpdate(s.mem.trigger, s.running[i].task.part, 2);
  }

  lemma RemainingAfterInit(cfg: Config, s: System, i: nat)
    requires Invariant(cfg, s) && i in s.running && s.running[i].task.OnInit1Finished?
    requires Commits(Execute(cfg, s.running[i].task, s.mem).verdict)
    ensures var r := Execute(cfg, s.running[i].task, s.mem); Remaining(cfg, AfterCommit(s, i, r.mem, r)) == Remaining(cfg, s) - 1
  {
    InputIsRead(cfg, s, i);
    hide RunOnce, Slice, Awake, Tracked, NoWorkers, CommitsOf;
    OneRoundMore(cfg, MAX_ITER - 1);
    var r := Execute(cfg, s.running[i].task, s.mem);
    assert r.mem.iter == 0 && Zeros(r.mem.trigger) == cfg.parts && Zeros(s.mem.trigger) == 0;
    assert AfterCommit(s, i, r.mem, r).watchers == {OnReclusterFinished(0)};
  }

  lemma WatcherFinds(cfg: Config, s: System, i: nat)
    requires Invariant(cfg, s) && i in s.running && s.running[i].task.OnReclusterFinished?
    requires Commits(Execute(cfg, s.running[i].task, s.mem).verdict)
    ensures s.mem.iter < MAX_ITER && s.watchers == {OnReclusterFinished(s.mem.iter)}
    ensures s.running[i].task == OnReclusterFinished(s.mem.iter) && Zeros(s.mem.trigger) == 0 && AllTriggers(s.mem, 2)
    ensures |s.mem.trigger| == cfg.parts
  {
    RoundAdvances(cfg, s, i);
    hide RunOnce, Slice, Awake, Tracked, NoWorkers, Rounds, MergedCentroids;
  }

  lemma RemainingAfterRound(cfg: Config, s: System, i: nat)
    requires Invariant(cfg, s) && i in s.running && s.running[i].task.OnReclusterFinished?
    requires Commits(Execute(cfg, s.running[i].task, s.mem).verdict)
    ensures var r := Execute(cfg, s.running[i].task, s.mem); Remaining(cfg, AfterCommit(s, i, r.mem, r)) == Remaining(cfg, s) - 1
  {
    WatcherFinds(cfg, s, i);
    hide Reading, Iterating, RunOnce, MergedCentroids, CommitsOf;
    var r := Execute(cfg, s.running[i].task, s.mem);
    assert s.mem.iter + 1 < MAX_ITER ==> Zeros(r.mem.trigger) == cfg.parts;
    OneRoundMore(cfg, MAX_ITER - 2 - s.mem.iter);
  }

  /** Every commit brings the end nearer by exactly one; nothing else changes the distance. */
  lemma CommitsCountDown(cfg: Config, s: System, e: Event)
    requires Invariant(cfg, s) && Enabled(cfg, s, e)
    ensures Remaining(cfg, After(cfg, s, e)) == Remaining(cfg, s) - if IsCommit(cfg, s, e) then 1 else 0
  {
    if IsCommit(cfg, s, e) {
      CommitIs(cfg, s, e.slot);
      hide Invariant, Remaining, Execute, WellFormed;
      match s.running[e.slot].task
      case InitRunner(_) => RemainingAfterRead(cfg, s, e.slot);
      case OnInit1Finished => RemainingAfterInit(cfg, s, e.slot);
      case ReclusterRunner(_) => RemainingAfterWork(cfg, s, e.slot);
      case OnReclusterFinished(_) => RemainingAfterRound(cfg, s, e.slot);
    } else {
      NoCommitKeeps(cfg, s, e);
    }
  }

  lemma SomeZero(trigger: seq<int>) returns (p: nat)
    requires Zeros(trigger) != 0
    ensures p < |trigger| && trigger[p] == 0
  {
    p :| p < |trigger| && trigger[p] == 0;
  }

  lemma AllTracked(cfg: Config, s: System, kind: PartTask, done: int)
    requires Fits(cfg, s.mem) && Tracked(cfg, s, kind, done) && Zeros(s.mem.trigger) == 0
    ensures AllTriggers(s.mem, done)
  {
    hide Unfinished;
    forall p: nat | p < cfg.parts
      ensures s.mem.trigger[p] == done
    {
      var t := TaskOf(kind, p);
    }
  }

  lemma AwakeIsUnfinished(s: System, watcher: Task, done: int)
    requires Awake(s, watcher, done) && AllTriggers(s.mem, done)
    ensures Unfinished(s, watcher)
  {
  }

  predicate CanCommit(cfg: Config, s: System, t: Task)
    requires WellFormed(cfg, s)
  {
    Unfinished(s, t) && ValidTask(cfg, t) && Commits(Execute(cfg, t, s.mem).verdict)
  }

  lemma ReadingIsNotStuck(cfg: Config, s: System) returns (t: Task)
    requires WellFormed(cfg, s) && Reading(cfg, s)
    ensures CanCommit(cfg, s, t)
  {
    hide Unfinished, Slice, Awake;
    if Zeros(s.mem.trigger) != 0 {
      var p := SomeZero(s.mem.trigger);
      t := TaskOf(Read, p);
    } else {
      t := OnInit1Finished;
      AllTracked(cfg, s, Read, 1);
      AwakeIsUnfinished(s, t, 1);
    }
  }

  lemma RoundIsNotStuck(cfg: Config, s: System) returns (t: Task)
    requires WellFormed(cfg, s) && Iterating(cfg, s) && s.mem.iter < MAX_ITER
    ensures CanCommit(cfg, s, t)
  {
    hide Unfinished, Slice, Awake, Rounds, Aggregated;
    if Zeros(s.mem.trigger) != 0 {
      var p := SomeZero(s.mem.trigger);
      t := TaskOf(Work, p);
    } else {
      t := OnReclusterFinished(s.mem.iter);
      AllTracked(cfg, s, Work, 2);
      AwakeIsUnfinished(s, t, 2);
    }
  }

  /** Until all rounds are done some task is unfinished whose execution commits: no activation is ever lost. */
  lemma NeverStuck(cfg: Config, run: seq<System>, j: nat)
    requires IsRun(cfg, run) && j < |run| && Remaining(cfg, run[j]) != 0
    ensures WellFormed(cfg, run[j]) && exists t :: CanCommit(cfg, run[j], t)
  {
    RunIsSafe(cfg, run, j);
    hide RunOnce, Slice, Rounds, Aggregated, Tracked, Awake, IsRun;
    if Started(run[j]) {
      var t := RoundIsNotStuck(cfg, run[j]);
    } else {
      var t := ReadingIsNotStuck(cfg, run[j]);
    }
  }

  // ----- Counting commits -----

  /** `events[j]` is the step from `run[j]`. */
  ghost predicate Follows(cfg: Config, run: seq<System>, events: seq<Event>) {
    IsRun(cfg, run) && |events| == |run| - 1 &&
    forall j :: 0 <= j < |events| ==>
      WellFormed(cfg, run[j]) && Enabled(cfg, run[j], events[j]) && run[j + 1] == After(cfg, run[j], events[j])
  }

  ghost function CommitsUpTo(cfg: Config, run: seq<System>, events: seq<Event>, j: nat): nat
    requires Follows(cfg, run, events) && j <= |events|
  {
    if j == 0 then 0 else CommitsUpTo(cfg, run, events, j - 1) + if IsCommit(cfg, run[j - 1], events[j - 1]) then 1 else 0
  }

  /** Commits so far and commits still to come add up to the same number in every interleaving:
      one round more than MAX_ITER, of one commit per partition and one of a watcher. */
  lemma {:induction false} CommitsAreCounted(cfg: Config, run: seq<System>, events: seq<Event>, j: nat)
    requires Follows(cfg, run, events) && j <= |events|
    ensures CommitsUpTo(cfg, run, events, j) + Remaining(cfg, run[j]) == (MAX_ITER + 1) * (cfg.parts + 1)
  {
    hide Remaining;
    if j == 0 {
      AtTheStart(cfg, run[0]);
    } else {
      CommitsAreCounted(cfg, run, events, j - 1);
      RunIsSafe(cfg, run, j - 1);
      CommitsCountDown(cfg, run[j - 1], events[j - 1]);
    }
  }

  lemma AtTheStart(cfg: Config, s: System)
    requires Initial(cfg, s)
    ensures Remaining(cfg, s) == (MAX_ITER + 1) * (cfg.parts + 1)
  {
    assert Zeros(s.mem.trigger) == cfg.parts;
  }

  /** A run is over exactly when all rounds have been done, and then the centroids are the sequential algorithm's. */
  lemma EndIsFinal(cfg: Config, run: seq<System>, j: nat)
    requires IsRun(cfg, run) && j < |run|
    ensures var s := run[j];
      && Remaining(cfg, s) >= 0
      && (Remaining(cfg, s) == 0 <==> Started(s) && s.mem.iter == MAX_ITER)
      && (Remaining(cfg, s) == 0 ==> s.mem.cent == Rounds(cfg.input, cfg.k, MAX_ITER))
  {
    RunIsSafe(cfg, run, j);
    hide RunOnce, Slice, Tracked, Awake, Aggregated, CommitsOf;
    OneRoundMore(cfg, MAX_ITER);
    OneRoundMore(cfg, MAX_ITER - 1 - run[j].mem.iter);
  }
}
