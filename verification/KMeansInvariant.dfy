/** What holds in every state of every interleaving of the k-means tasks. */
module KMeansInvariant {
  import opened Wrappers
  import opened KMeansData
  import opened KMeansTasks
  import opened KMeansProtocol

  predicate IsWatcher(t: Task) {
    t.OnInit1Finished? || t.OnReclusterFinished?
  }

  /** An instance is waiting or being attempted. */
  predicate Unfinished(s: System, t: Task) {
    t in s.ready || Attempted(s, t)
  }

  predicate Attempted(s: System, t: Task) {
    exists i :: i in s.running && s.running[i].task == t
  }

  /** Tasks that are not watchers have one instance: in the queue or in one attempt. */
  predicate RunOnce(s: System) {
    (forall i, j :: i in s.running && j in s.running && i != j && s.running[i].task == s.running[j].task ==>
       IsWatcher(s.running[i].task)) &&
    (forall i :: i in s.running && s.running[i].task in s.ready ==> IsWatcher(s.running[i].task))
  }

  /** The tasks that there is one of for each partition. */
  datatype PartTask = Read | Work

  function TaskOf(kind: PartTask, p: nat): Task {
    if kind == Read then InitRunner(p) else ReclusterRunner(p)
  }

  /** Each partition's trigger tells whether its task is unfinished; then the trigger is 0, and `done` afterwards. */
  predicate Tracked(cfg: Config, s: System, kind: PartTask, done: int)
    requires Fits(cfg, s.mem)
  {
    forall p: nat {:trigger TaskOf(kind, p)} :: p < cfg.parts ==>
      (s.mem.trigger[p] == 0 && Unfinished(s, TaskOf(kind, p))) || (s.mem.trigger[p] == done && !Unfinished(s, TaskOf(kind, p)))
  }

  /** If every partition is done, an instance of the watcher is waiting, or looking at exactly these triggers. */
  predicate Awake(s: System, watcher: Task, done: int) {
    AllTriggers(s.mem, done) ==>
      watcher in s.ready || exists i :: i in s.running && s.running[i].task == watcher && s.running[i].snap.trigger == s.mem.trigger
  }

  /** While the input is read. */
  predicate Reading(cfg: Config, s: System)
    requires WellFormed(cfg, s)
  {
    s.watchers == {OnInit1Finished} && Tracked(cfg, s, Read, 1) && Awake(s, OnInit1Finished, 1) &&
    (forall p: nat :: p < cfg.parts && s.mem.trigger[p] == 1 ==> Slice(cfg, s.mem.points, p) == Slice(cfg, cfg.input, p)) &&
    (forall t :: t in s.ready ==> t.InitRunner? || t.OnInit1Finished?) &&
    (forall i :: i in s.running ==> s.running[i].task.InitRunner? || s.running[i].task.OnInit1Finished?)
  }

  predicate TaskOfRound(t: Task, round: int) {
    t.ReclusterRunner? || t.OnInit1Finished? || (t.OnReclusterFinished? && t.expected <= round && t.expected < MAX_ITER)
  }

  /** An attempt of a round's watcher began when that round had been reached. */
  predicate SawItsRound(a: Attempt, round: int) {
    a.task.OnReclusterFinished? ==> a.task.expected <= a.snap.iter <= round
  }

  /** After `iter` rounds. */
  predicate Iterating(cfg: Config, s: System)
    requires WellFormed(cfg, s)
  {
    var mem := s.mem;
    0 <= mem.iter <= MAX_ITER && mem.points == cfg.input && mem.cent == Rounds(cfg.input, cfg.k, mem.iter) &&
    Tracked(cfg, s, Work, 2) &&
    (forall p: nat :: p < cfg.parts && mem.trigger[p] == 2 ==> mem.iter == MAX_ITER || Aggregated(cfg, mem, p)) &&
    (if mem.iter == MAX_ITER then s.watchers == {} && AllTriggers(mem, 2)
     else s.watchers == {OnReclusterFinished(mem.iter)} && Awake(s, OnReclusterFinished(mem.iter), 2)) &&
    (forall t :: t in s.ready ==> TaskOfRound(t, mem.iter)) &&
    (forall i :: i in s.running ==> TaskOfRound(s.running[i].task, mem.iter) && SawItsRound(s.running[i], mem.iter))
  }

  predicate Invariant(cfg: Config, s: System) {
    WellFormed(cfg, s) && RunOnce(s) && (Reading(cfg, s) || Iterating(cfg, s))
  }

  // ----- It holds initially -----

  lemma InitialInvariant(cfg: Config, s: System)
    requires Initial(cfg, s)
    ensures Invariant(cfg, s) && Reading(cfg, s)
  {
    forall p: nat | p < cfg.parts
      ensures s.mem.trigger[p] == 0 && Unfinished(s, TaskOf(Read, p))
    {
      assert InitRunner(p) in s.ready;
    }
    assert s.mem.trigger[0] == 0;
  }

  // ----- Starting, restarting and activating -----

  /** Everything but the attempts' snapshots, and who is waiting and who is running, stays. */
  lemma StartKeeps(cfg: Config, s: System, i: nat, t: Task)
    requires Invariant(cfg, s) && Enabled(cfg, s, Start(i, t))
    ensures var s' := After(cfg, s, Start(i, t));
      WellFormed(cfg, s') && RunOnce(s') && (forall u :: Unfinished(s', u) <==> Unfinished(s, u))
  {
    var s' := After(cfg, s, Start(i, t));
    forall u
      ensures Unfinished(s', u) <==> Unfinished(s, u)
    {
      if Unfinished(s, u) && u != t && u !in s.ready {
        var j :| j in s.running && s.running[j].task == u;
        assert s'.running[j].task == u;
      }
      if u == t { assert s'.running[i].task == t; }
    }
  }

  lemma RestartKeeps(cfg: Config, s: System, i: nat)
    requires Invariant(cfg, s) && Enabled(cfg, s, Restart(i))
    ensures var s' := After(cfg, s, Restart(i));
      WellFormed(cfg, s') && RunOnce(s') && (forall u :: Unfinished(s', u) <==> Unfinished(s, u))
  {
    var s' := After(cfg, s, Restart(i));
    forall u
      ensures Unfinished(s', u) <==> Unfinished(s, u)
    {
      if Attempted(s, u) {
        var j :| j in s.running && s.running[j].task == u;
        assert s'.running[j].task == u;
      }
      if Attempted(s', u) {
        var j :| j in s'.running && s'.running[j].task == u;
        assert s.running[j].task == u;
      }
    }
  }

  lemma TrackedStays(cfg: Config, s: System, s': System, kind: PartTask, done: int)
    requires Fits(cfg, s.mem) && s'.mem == s.mem && Tracked(cfg, s, kind, done)
    requires forall p: nat {:trigger TaskOf(kind, p)} :: p < cfg.parts ==> (Unfinished(s', TaskOf(kind, p)) <==> Unfinished(s, TaskOf(kind, p)))
    ensures Tracked(cfg, s', kind, done)
  {
    hide Unfinished;
    forall p: nat {:trigger TaskOf(kind, p)} | p < cfg.parts
      ensures (s'.mem.trigger[p] == 0 && Unfinished(s', TaskOf(kind, p))) || (s'.mem.trigger[p] == done && !Unfinished(s', TaskOf(kind, p)))
    {
      assert Unfinished(s', TaskOf(kind, p)) <==> Unfinished(s, TaskOf(kind, p));
    }
  }

  lemma StartIsSafe(cfg: Config, s: System, i: nat, t: Task)
    requires Invariant(cfg, s) && Enabled(cfg, s, Start(i, t))
    ensures Invariant(cfg, After(cfg, s, Start(i, t)))
  {
    var s' := After(cfg, s, Start(i, t));
    StartKeeps(cfg, s, i, t);
    hide Unfinished, RunOnce, Slice, Rounds, Aggregated, Fits;
    if Reading(cfg, s) {
      TrackedStays(cfg, s, s', Read, 1);
      StillAwake(s, s', OnInit1Finished, 1, i);
    } else {
      TrackedStays(cfg, s, s', Work, 2);
      if s.mem.iter < MAX_ITER { StillAwake(s, s', OnReclusterFinished(s.mem.iter), 2, i); }
    }
  }

  /** One attempt is new or has a new snapshot, and no other instance has gone. */
  lemma StillAwake(s: System, s': System, watcher: Task, done: int, i: nat)
    requires Awake(s, watcher, done) && s'.mem == s.mem
    requires i in s'.running && s'.running[i].snap == s.mem
    requires forall j :: j in s.running && j != i ==> j in s'.running && s'.running[j] == s.running[j]
    requires i in s.running ==> s'.running[i].task == s.running[i].task
    requires forall u :: u in s.ready && u !in s'.ready ==> u == s'.running[i].task
    ensures Awake(s', watcher, done)
  {
    if AllTriggers(s.mem, done) && watcher !in s.ready {
      var j :| j in s.running && s.running[j].task == watcher && s.running[j].snap.trigger == s.mem.trigger;
      assert s'.running[j].task == watcher;
    }
  }

  lemma RestartIsSafe(cfg: Config, s: System, i: nat)
    requires Invariant(cfg, s) && Enabled(cfg, s, Restart(i))
    ensures Invariant(cfg, After(cfg, s, Restart(i)))
  {
    var s' := After(cfg, s, Restart(i));
    RestartKeeps(cfg, s, i);
    hide Unfinished, RunOnce, Slice, Rounds, Aggregated, Fits;
    if Reading(cfg, s) {
      TrackedStays(cfg, s, s', Read, 1);
      StillAwake(s, s', OnInit1Finished, 1, i);
    } else {
      TrackedStays(cfg, s, s', Work, 2);
      if s.mem.iter < MAX_ITER { StillAwake(s, s', OnReclusterFinished(s.mem.iter), 2, i); }
    }
  }

  lemma ActivateIsSafe(cfg: Config, s: System, t: Task)
    requires Invariant(cfg, s) && Enabled(cfg, s, Activate(t))
    ensures Invariant(cfg, After(cfg, s, Activate(t)))
  {
    var s' := After(cfg, s, Activate(t));
    assert IsWatcher(t);
    forall u | u != t
      ensures Unfinished(s', u) <==> Unfinished(s, u)
    {
      assert Attempted(s', u) <==> Attempted(s, u);
    }
    hide Unfinished, Slice, Rounds, Aggregated, Fits;
    if Reading(cfg, s) {
      TrackedStays(cfg, s, s', Read, 1);
    } else {
      TrackedStays(cfg, s, s', Work, 2);
    }
  }

  // ----- Attempts that end without a commit -----

  /** After attempt `i` is gone, only its own task may have become finished, and it has if it is not a watcher. */
  lemma RemovalKeeps(s: System, i: nat, s': System)
    requires RunOnce(s) && i in s.running && s'.running == s.running - {i} && s.ready <= s'.ready
    requires forall t :: t in s'.ready && t !in s.ready ==> IsWatcher(t)
    ensures RunOnce(s')
    ensures forall u :: u != s.running[i].task && !IsWatcher(u) ==> (Unfinished(s', u) <==> Unfinished(s, u))
    ensures !IsWatcher(s.running[i].task) ==> !Unfinished(s', s.running[i].task)
  {
    forall u | u != s.running[i].task && !IsWatcher(u)
      ensures Unfinished(s', u) <==> Unfinished(s, u)
    {
      if Attempted(s, u) {
        var j :| j in s.running && s.running[j].task == u;
        assert j in s'.running;
      }
    }
  }

  /** An attempt at a watcher that has seen every partition done does not end in an abort. */
  lemma SightedAttemptsCommit(cfg: Config, s: System, i: nat, done: int)
    requires Invariant(cfg, s) && i in s.running && AllTriggers(s.mem, done) && s.running[i].snap.trigger == s.mem.trigger
    requires (Reading(cfg, s) && done == 1 && s.running[i].task == OnInit1Finished) ||
             (Iterating(cfg, s) && done == 2 && s.running[i].task == OnReclusterFinished(s.mem.iter))
    ensures Commits(Execute(cfg, s.running[i].task, s.running[i].snap).verdict)
  {
    assert s.running[i].task.OnReclusterFinished? ==> SawItsRound(s.running[i], s.mem.iter);
  }

  lemma AwakeAfterAbort(cfg: Config, s: System, s': System, i: nat, watcher: Task, done: int)
    requires Invariant(cfg, s) && Awake(s, watcher, done) && s'.mem == s.mem && s'.ready == s.ready
    requires i in s.running && s'.running == s.running - {i}
    requires (Reading(cfg, s) && done == 1 && watcher == OnInit1Finished) ||
             (Iterating(cfg, s) && done == 2 && watcher == OnReclusterFinished(s.mem.iter))
    requires !Commits(Execute(cfg, s.running[i].task, s.running[i].snap).verdict)
    ensures Awake(s', watcher, done)
  {
    hide Reading, Iterating, RunOnce, Execute, WellFormed;
    if AllTriggers(s.mem, done) && watcher !in s.ready {
      var j :| j in s.running && s.running[j].task == watcher && s.running[j].snap.trigger == s.mem.trigger;
      if j == i {
        SightedAttemptsCommit(cfg, s, i, done);
      } else {
        assert s'.running[j].task == watcher;
      }
    }
  }

  lemma OnlyWatchersAbort(cfg: Config, s: System, i: nat)
    requires Invariant(cfg, s) && i in s.running
    ensures var a := s.running[i]; var v := Execute(cfg, a.task, a.snap).verdict;
      && (!Commits(v) ==> IsWatcher(a.task))
      && (v == AbortD ==> a.task !in s.watchers)
  {
    hide Tracked, Awake, RunOnce, Slice, Rounds, Aggregated;
  }

  lemma AbortIsSafe(cfg: Config, s: System, i: nat)
    requires Invariant(cfg, s) && Enabled(cfg, s, Finish(i))
    requires !Commits(Execute(cfg, s.running[i].task, s.running[i].snap).verdict)
    ensures Invariant(cfg, After(cfg, s, Finish(i)))
  {
    var s' := After(cfg, s, Finish(i));
    OnlyWatchersAbort(cfg, s, i);
    RemovalKeeps(s, i, s');
    hide Unfinished, RunOnce, Slice, Rounds, Aggregated, Fits, Awake;
    assert s'.watchers == s.watchers;
    if Reading(cfg, s) {
      TrackedStays(cfg, s, s', Read, 1);
      AwakeAfterAbort(cfg, s, s', i, OnInit1Finished, 1);
    } else {
      TrackedStays(cfg, s, s', Work, 2);
      if s.mem.iter < MAX_ITER { AwakeAfterAbort(cfg, s, s', i, OnReclusterFinished(s.mem.iter), 2); }
    }
  }

  // ----- Commits -----

  /** A commit without conflict acts on the current memory. */
  lemma CommitIs(cfg: Config, s: System, i: nat)
    requires WellFormed(cfg, s) && Enabled(cfg, s, Finish(i))
    requires Commits(Execute(cfg, s.running[i].task, s.running[i].snap).verdict)
    ensures var r := Execute(cfg, s.running[i].task, s.mem);
      Commits(r.verdict) && After(cfg, s, Finish(i)) == AfterCommit(s, i, r.mem, r)
  {
    hide Execute, SameRanges, Committed;
    CommitsAreSerial(cfg, s.running[i].task, s.running[i].snap, s.mem);
  }

  lemma CommitIsWellFormed(cfg: Config, s: System, i: nat)
    requires WellFormed(cfg, s) && i in s.running
    ensures var r := Execute(cfg, s.running[i].task, s.mem);
      (r.verdict != AbortD && forall t :: t in s.watchers ==> ValidTask(cfg, t)) ==> WellFormed(cfg, AfterCommit(s, i, r.mem, r))
  {
    hide Execute;
    ExecuteFits(cfg, s.running[i].task, s.mem);
  }

  /** The slices make up the whole. */
  lemma AllSlices(cfg: Config, points: seq<Point>)
    requires ValidConfig(cfg) && |points| == |cfg.input|
    requires forall p: nat :: p < cfg.parts ==> Slice(cfg, points, p) == Slice(cfg, cfg.input, p)
    ensures points == cfg.input
  {
    forall n | 0 <= n < |points|
      ensures points[n] == cfg.input[n]
    {
      var p := n / cfg.size;
      PartOf(cfg, n);
      SliceBounds(cfg, p);
      assert Slice(cfg, points, p)[n - p * cfg.size] == points[n];
      assert Slice(cfg, cfg.input, p)[n - p * cfg.size] == cfg.input[n];
    }
  }

  lemma PartOf(cfg: Config, n: nat)
    requires ValidConfig(cfg) && n < |cfg.input|
    ensures 0 <= n / cfg.size < cfg.parts && n / cfg.size * cfg.size <= n < n / cfg.size * cfg.size + cfg.size
  {
    var p := WholeParts(n, cfg.size);
    ProductGrows(p, cfg.parts, cfg.size);
  }

  lemma WholeParts(n: nat, size: nat) returns (p: nat)
    requires size > 0
    ensures p == n / size && p * size <= n < p * size + size
  {
    p := n / size;
    assert n == p * size + n % size;
  }

  lemma ProductGrows(a: nat, b: nat, c: nat)
    ensures a >= b ==> a * c >= b * c
  {
  }

  /** The memory after one partition has been dealt with: its trigger is set, and no other. */
  lemma TrackedAfterPart(cfg: Config, s: System, s': System, i: nat, kind: PartTask, done: int, p: nat)
    requires Fits(cfg, s.mem) && Fits(cfg, s'.mem) && Tracked(cfg, s, kind, done) && RunOnce(s) && p < cfg.parts && done != 0
    requires i in s.running && s.running[i].task == TaskOf(kind, p)
    requires s'.running == s.running - {i} && s.ready <= s'.ready && forall t :: t in s'.ready && t !in s.ready ==> IsWatcher(t)
    requires s'.mem.trigger == s.mem.trigger[p := done]
    ensures Tracked(cfg, s', kind, done) && RunOnce(s') && s.mem.trigger[p] == 0
  {
    assert Attempted(s, TaskOf(kind, p));
    RemovalKeeps(s, i, s');
  }

  lemma InitRunnerIsSafe(cfg: Config, s: System, i: nat)
    requires Invariant(cfg, s) && i in s.running && s.running[i].task.InitRunner?
    ensures var r := Execute(cfg, s.running[i].task, s.mem); Reading(cfg, s) && Invariant(cfg, AfterCommit(s, i, r.mem, r))
  {
    var p := s.running[i].task.part;
    var r := Execute(cfg, InitRunner(p), s.mem);
    var s' := AfterCommit(s, i, r.mem, r);
    CommitIsWellFormed(cfg, s, i);
    TrackedAfterPart(cfg, s, s', i, Read, 1, p);
    forall q: nat | q < cfg.parts && s'.mem.trigger[q] == 1
      ensures Slice(cfg, s'.mem.points, q) == Slice(cfg, cfg.input, q)
    {
      SliceWithin(cfg, s.mem.points, p, cfg.input, q);
    }
    assert s'.mem.trigger[p] == 1;
    assert s'.watchers == s.watchers;
  }

  lemma ReclusterRunnerIsSafe(cfg: Config, s: System, i: nat)
    requires Invariant(cfg, s) && i in s.running && s.running[i].task.ReclusterRunner?
    ensures var r := Execute(cfg, s.running[i].task, s.mem);
      Iterating(cfg, s) && s.mem.iter < MAX_ITER && Invariant(cfg, AfterCommit(s, i, r.mem, r))
  {
    hide Slice, Rounds, LocalTallies;
    var p := s.running[i].task.part;
    var r := Execute(cfg, ReclusterRunner(p), s.mem);
    var s' := AfterCommit(s, i, r.mem, r);
    CommitIsWellFormed(cfg, s, i);
    TrackedAfterPart(cfg, s, s', i, Work, 2, p);
    assert s.mem.trigger[p] == 0;
    assert s'.mem.trigger[p] == 2;
    assert s'.watchers == s.watchers;
    assert forall q: nat :: q < cfg.parts && q != p ==> (Aggregated(cfg, s'.mem, q) <==> Aggregated(cfg, s.mem, q));
    assert Aggregated(cfg, s'.mem, p);
  }

  // ----- Commits of watchers -----

  predicate NoWorkers(cfg: Config, s: System) {
    forall p: nat {:trigger TaskOf(Work, p)} :: p < cfg.parts ==> !Unfinished(s, TaskOf(Work, p))
  }

  /** The start of a round: every worker is queued, once, and every trigger is reset. */
  lemma RoundStarts(cfg: Config, s: System, i: nat, s': System)
    requires RunOnce(s) && NoWorkers(cfg, s) && i in s.running && IsWatcher(s.running[i].task)
    requires s'.running == s.running - {i} && s'.ready == s.ready + Workers(cfg)
    requires ValidConfig(cfg) && Fits(cfg, s'.mem) && AllTriggers(s'.mem, 0)
    ensures RunOnce(s') && Tracked(cfg, s', Work, 2) && !AllTriggers(s'.mem, 2)
  {
    assert s'.mem.trigger[0] == 0;
    forall t | t in Workers(cfg)
      ensures !Attempted(s, t)
    {
      assert t == TaskOf(Work, t.part);
    }
    assert forall p: nat {:trigger TaskOf(Work, p)} :: p < cfg.parts ==> TaskOf(Work, p) in Workers(cfg);
    forall j | j in s'.running && s'.running[j].task in s'.ready
      ensures IsWatcher(s'.running[j].task)
    {
      assert Attempted(s, s'.running[j].task);
    }
  }

  lemma InputIsRead(cfg: Config, s: System, i: nat)
    requires Invariant(cfg, s) && i in s.running && s.running[i].task.OnInit1Finished? && AllTriggers(s.mem, 1)
    ensures Reading(cfg, s) && s.mem.points == cfg.input && NoWorkers(cfg, s)
    ensures forall t :: t in s.ready ==> t.OnInit1Finished?
    ensures forall j :: j in s.running ==> s.running[j].task.OnInit1Finished?
  {
    hide Slice, RunOnce, Awake;
    assert s.mem.trigger[0] == 1 && TaskOf(Work, 0) == ReclusterRunner(0);
    NoneWorksWhileReading(cfg, s);
    AllSlices(cfg, s.mem.points);
    assert forall p: nat {:trigger InitRunner(p)} :: p < cfg.parts ==> !Unfinished(s, TaskOf(Read, p));
    assert forall j :: j in s.running ==> Unfinished(s, s.running[j].task);
  }

  lemma OnInit1FinishedIsSafe(cfg: Config, s: System, i: nat)
    requires Invariant(cfg, s) && i in s.running && s.running[i].task.OnInit1Finished?
    requires Commits(Execute(cfg, s.running[i].task, s.mem).verdict)
    ensures var r := Execute(cfg, s.running[i].task, s.mem); Reading(cfg, s) && Invariant(cfg, AfterCommit(s, i, r.mem, r))
  {
    hide RunOnce, Tracked, NoWorkers, Workers, Awake, Slice, Aggregated;
    var r := Execute(cfg, OnInit1Finished, s.mem);
    var s' := AfterCommit(s, i, r.mem, r);
    CommitIsWellFormed(cfg, s, i);
    InputIsRead(cfg, s, i);
    assert s.watchers - {OnInit1Finished} == {};
    RoundStarts(cfg, s, i, s');
    WorkersOnly(cfg);
    AsleepAtFirst(s', OnReclusterFinished(0));
    assert s'.mem.points[..cfg.k] == Rounds(cfg.input, cfg.k, 0);
  }

  lemma WorkersOnly(cfg: Config)
    ensures forall t :: t in Workers(cfg) ==> t.ReclusterRunner?
  {
  }

  lemma AsleepAtFirst(s: System, watcher: Task)
    requires !AllTriggers(s.mem, 2)
    ensures Awake(s, watcher, 2)
  {
  }

  lemma NoneWorksWhileReading(cfg: Config, s: System)
    requires WellFormed(cfg, s) && Reading(cfg, s)
    ensures NoWorkers(cfg, s)
  {
  }

  lemma NoneWorksWhenDone(cfg: Config, s: System)
    requires Fits(cfg, s.mem) && Tracked(cfg, s, Work, 2) && AllTriggers(s.mem, 2)
    ensures NoWorkers(cfg, s)
  {
  }

  /** What a round's watcher finds when it commits, and what it makes of the centroids. */
  lemma RoundAdvances(cfg: Config, s: System, i: nat)
    requires Invariant(cfg, s) && i in s.running && s.running[i].task.OnReclusterFinished?
    requires Commits(Execute(cfg, s.running[i].task, s.mem).verdict)
    ensures Iterating(cfg, s) && s.mem.iter < MAX_ITER && s.running[i].task == OnReclusterFinished(s.mem.iter)
    ensures AllTriggers(s.mem, 2) && NoWorkers(cfg, s)
    ensures MergedCentroids(cfg, s.mem) == Rounds(cfg.input, cfg.k, s.mem.iter + 1)
  {
    assert TaskOfRound(s.running[i].task, s.mem.iter);
    NoneWorksWhenDone(cfg, s);
    forall p: nat | p < cfg.parts
      ensures Aggregated(cfg, s.mem, p)
    {
      assert s.mem.trigger[p] == 2;
    }
    TwoLevelsAreOnePass(cfg, s.mem);
  }

  lemma RecentersRunning(cfg: Config, s: System, s': System, i: nat)
    requires WellFormed(cfg, s) && Iterating(cfg, s) && s'.running == s.running - {i} && s'.mem.iter == s.mem.iter + 1
    ensures forall j :: j in s'.running ==>
      TaskOfRound(s'.running[j].task, s'.mem.iter) && SawItsRound(s'.running[j], s'.mem.iter)
    ensures forall t :: t in s.ready ==> TaskOfRound(t, s'.mem.iter)
  {
  }

  lemma OnReclusterFinishedIsSafe(cfg: Config, s: System, i: nat)
    requires Invariant(cfg, s) && i in s.running && s.running[i].task.OnReclusterFinished?
    requires Commits(Execute(cfg, s.running[i].task, s.mem).verdict)
    ensures var r := Execute(cfg, s.running[i].task, s.mem); Invariant(cfg, AfterCommit(s, i, r.mem, r))
  {
    hide MergedCentroids, Rounds, RunOnce, Awake, NoWorkers, Workers, Aggregated;
    var r := Execute(cfg, s.running[i].task, s.mem);
    var s' := AfterCommit(s, i, r.mem, r);
    CommitIsWellFormed(cfg, s, i);
    RoundAdvances(cfg, s, i);
    WorkersOnly(cfg);
    RecentersRunning(cfg, s, s', i);
    assert s.watchers - {s.running[i].task} == {};
    if r.mem.iter < MAX_ITER {
      RoundStarts(cfg, s, i, s');
      AsleepAtFirst(s', OnReclusterFinished(r.mem.iter));
    } else {
      LastRoundEnds(cfg, s, i, s');
    }
  }

  lemma LastRoundEnds(cfg: Config, s: System, i: nat, s': System)
    requires Fits(cfg, s.mem) && Fits(cfg, s'.mem) && RunOnce(s) && NoWorkers(cfg, s) && AllTriggers(s.mem, 2)
    requires i in s.running && s'.running == s.running - {i} && s'.ready == s.ready && s'.mem.trigger == s.mem.trigger
    ensures RunOnce(s') && Tracked(cfg, s', Work, 2)
  {
    forall p: nat | p < cfg.parts
      ensures !Unfinished(s', TaskOf(Work, p))
    {
      assert !Unfinished(s, TaskOf(Work, p));
    }
  }

  // ----- Every step -----

  lemma CommitIsSafe(cfg: Config, s: System, i: nat)
    requires Invariant(cfg, s) && Enabled(cfg, s, Finish(i))
    requires Commits(Execute(cfg, s.running[i].task, s.running[i].snap).verdict)
    ensures Invariant(cfg, After(cfg, s, Finish(i)))
  {
    CommitIs(cfg, s, i);
    hide Invariant, Execute, After, Enabled, WellFormed;
    match s.running[i].task
    case InitRunner(_) => InitRunnerIsSafe(cfg, s, i);
    case OnInit1Finished => OnInit1FinishedIsSafe(cfg, s, i);
    case ReclusterRunner(_) => ReclusterRunnerIsSafe(cfg, s, i);
    case OnReclusterFinished(_) => OnReclusterFinishedIsSafe(cfg, s, i);
  }

  lemma NextIsSafe(cfg: Config, s: System, s': System)
    requires Invariant(cfg, s) && Next(cfg, s, s')
    ensures Invariant(cfg, s')
  {
    hide Invariant, Enabled, After, Execute;
    var e :| Enabled(cfg, s, e) && s' == After(cfg, s, e);
    match e
    case Start(i, t) => StartIsSafe(cfg, s, i, t);
    case Restart(i) => RestartIsSafe(cfg, s, i);
    case Activate(t) => ActivateIsSafe(cfg, s, t);
    case Finish(i) =>
      FinishNeedsAttempt(cfg, s, i);
      if Commits(Execute(cfg, s.running[i].task, s.running[i].snap).verdict) {
        CommitIsSafe(cfg, s, i);
      } else {
        AbortIsSafe(cfg, s, i);
      }
  }

  lemma FinishNeedsAttempt(cfg: Config, s: System, i: nat)
    requires WellFormed(cfg, s) && Enabled(cfg, s, Finish(i))
    ensures i in s.running && Fits(cfg, s.running[i].snap) && ValidTask(cfg, s.running[i].task)
  {
  }

  lemma {:induction false} RunIsSafe(cfg: Config, run: seq<System>, j: nat)
    requires IsRun(cfg, run) && j < |run|
    ensures Invariant(cfg, run[j])
  {
    if j == 0 {
      InitialInvariant(cfg, run[0]);
    } else {
      RunIsSafe(cfg, run, j - 1);
      NextIsSafe(cfg, run[j - 1], run[j]);
    }
  }
}
