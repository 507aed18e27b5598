/** The k-means program as a system of tasks: attempts run on snapshots, commit atomically if nothing
    they name has changed, and watchers are activated by commits to what they watch. */
module KMeansProtocol {
  import opened Wrappers
  import opened KMeansData
  import opened KMeansTasks

  /** A running task instance and the memory as it was when it started. */
  datatype Attempt = Attempt(task: Task, snap: Mem)

  /** `ready` holds the instances waiting in the queue, `running` the attempts by processor, and
      `watchers` the depending tasks that wait for changes. */
  datatype System = System(mem: Mem, ready: set<Task>, running: map<nat, Attempt>, watchers: set<Task>)

  predicate WellFormed(cfg: Config, s: System) {
    ValidConfig(cfg) && Fits(cfg, s.mem) && (forall t :: t in s.ready ==> ValidTask(cfg, t)) &&
    forall i :: i in s.running ==> Fits(cfg, s.running[i].snap) && ValidTask(cfg, s.running[i].task)
  }

  // ----- Transactions -----

  /** The memories agree on everything that `t` names in its `using` and `watching` clauses. */
  predicate SameRanges(cfg: Config, t: Task, a: Mem, b: Mem)
    requires ValidConfig(cfg) && Fits(cfg, a) && Fits(cfg, b) && ValidTask(cfg, t)
  {
    match t
    case InitRunner(p) => Slice(cfg, a.points, p) == Slice(cfg, b.points, p) && a.trigger[p] == b.trigger[p]
    case OnInit1Finished =>
      a.cent == b.cent && a.points[..cfg.k] == b.points[..cfg.k] && a.trigger == b.trigger && a.iter == b.iter
    case ReclusterRunner(p) =>
      Slice(cfg, a.points, p) == Slice(cfg, b.points, p) && a.cent == b.cent && a.trigger[p] == b.trigger[p] &&
      a.local[p] == b.local[p]
    case OnReclusterFinished(_) => a.iter == b.iter && a.cent == b.cent && a.local == b.local && a.trigger == b.trigger
  }

  /** `mem` with the ranges that `t` names as the attempt has left them. */
  function Committed(cfg: Config, t: Task, mem: Mem, result: Mem): Mem
    requires ValidConfig(cfg) && Fits(cfg, mem) && Fits(cfg, result) && ValidTask(cfg, t)
  {
    match t
    case InitRunner(p) =>
      mem.(points := WithSlice(cfg, mem.points, p, result.points), trigger := mem.trigger[p := result.trigger[p]])
    case OnInit1Finished =>
      mem.(cent := result.cent, points := result.points[..cfg.k] + mem.points[cfg.k..], trigger := result.trigger, iter := result.iter)
    case ReclusterRunner(p) =>
      mem.(points := WithSlice(cfg, mem.points, p, result.points), cent := result.cent,
           trigger := mem.trigger[p := result.trigger[p]], local := mem.local[p := result.local[p]])
    case OnReclusterFinished(_) =>
      mem.(iter := result.iter, cent := result.cent, local := result.local, trigger := result.trigger)
  }

  predicate Commits(v: Verdict) {
    v == Commit || v == CommitD
  }

  lemma SliceWithin(cfg: Config, points: seq<Point>, p: nat, from: seq<Point>, q: nat)
    requires ValidConfig(cfg) && |points| == |cfg.input| == |from| && p < cfg.parts && q < cfg.parts
    ensures Slice(cfg, WithSlice(cfg, points, p, from), q) == Slice(cfg, if p == q then from else points, q)
  {
    SliceBounds(cfg, p);
    SliceBounds(cfg, q);
    if p < q { SlicesInOrder(cfg, p, q); }
    if q < p { SlicesInOrder(cfg, q, p); }
  }

  lemma SlicesInOrder(cfg: Config, p: nat, q: nat)
    requires p < q
    ensures p * cfg.size + cfg.size <= q * cfg.size
  {
    assert (p + 1) * cfg.size <= q * cfg.size;
  }

  lemma SameSliceIsKept(cfg: Config, points: seq<Point>, p: nat, from: seq<Point>)
    requires ValidConfig(cfg) && |points| == |cfg.input| == |from| && p < cfg.parts
    requires Slice(cfg, points, p) == Slice(cfg, from, p)
    ensures WithSlice(cfg, points, p, from) == points
  {
    SliceBounds(cfg, p);
  }

  lemma ExecuteFits(cfg: Config, t: Task, mem: Mem)
    requires ValidConfig(cfg) && Fits(cfg, mem) && ValidTask(cfg, t)
    ensures var r := Execute(cfg, t, mem);
      Fits(cfg, r.mem) && (forall u :: u in r.tasks ==> ValidTask(cfg, u)) && (r.watcher.Some? ==> ValidTask(cfg, r.watcher.value))
  {
  }

  /** A commit without conflict is the execution of `t`, at once, on the memory it commits to. */
  lemma CommitsAreSerial(cfg: Config, t: Task, snap: Mem, mem: Mem)
    requires ValidConfig(cfg) && Fits(cfg, snap) && Fits(cfg, mem) && ValidTask(cfg, t) && SameRanges(cfg, t, snap, mem)
    ensures var (r, e) := (Execute(cfg, t, snap), Execute(cfg, t, mem));
      r.verdict == e.verdict && r.tasks == e.tasks && r.watcher == e.watcher && Fits(cfg, r.mem) &&
      (Commits(r.verdict) ==> Committed(cfg, t, mem, r.mem) == e.mem)
  {
    hide WithSlice, Slice, LocalTallies, Merged, FromTally;
    ExecuteFits(cfg, t, snap);
    match t
    case InitRunner(p) => SlicesCommitted(cfg, p, snap, mem);
    case OnInit1Finished => assert snap.points[..cfg.k] + mem.points[cfg.k..] == mem.points;
    case ReclusterRunner(p) => SameSliceIsKept(cfg, mem.points, p, snap.points);
    case OnReclusterFinished(_) => assert Fits(cfg, mem);
  }

  lemma SlicesCommitted(cfg: Config, p: nat, snap: Mem, mem: Mem)
    requires ValidConfig(cfg) && Fits(cfg, snap) && Fits(cfg, mem) && p < cfg.parts
    ensures WithSlice(cfg, mem.points, p, WithSlice(cfg, snap.points, p, cfg.input)) == WithSlice(cfg, mem.points, p, cfg.input)
  {
    SliceWithin(cfg, snap.points, p, cfg.input, p);
  }

  // ----- Steps -----

  /** What can happen next: an instance is taken from the queue; the runtime aborts an attempt and executes it
      again; an attempt ends; a watcher is activated. */
  datatype Event = Start(slot: nat, task: Task) | Restart(slot: nat) | Finish(slot: nat) | Activate(watcher: Task)

  predicate Enabled(cfg: Config, s: System, e: Event)
    requires WellFormed(cfg, s)
  {
    match e
    case Start(i, t) => t in s.ready && i !in s.running
    case Restart(i) => i in s.running
    case Activate(t) => t in s.watchers
    case Finish(i) =>
      i in s.running &&
      var a := s.running[i];
      (Commits(Execute(cfg, a.task, a.snap).verdict) ==> SameRanges(cfg, a.task, a.snap, s.mem))
  }

  /** A commit: its changes, the tasks it spawns, the watchers it activates, and the watcher it creates. */
  function AfterCommit(s: System, i: nat, mem': Mem, r: Ending): System
    requires i in s.running
  {
    var kept := if r.verdict == CommitD then s.watchers - {s.running[i].task} else s.watchers;
    System(mem', s.ready + r.tasks + (if mem'.trigger != s.mem.trigger then kept else {}), s.running - {i},
           kept + if r.watcher.Some? then {r.watcher.value} else {})
  }

  function After(cfg: Config, s: System, e: Event): System
    requires WellFormed(cfg, s) && Enabled(cfg, s, e)
  {
    match e
    case Start(i, t) => s.(ready := s.ready - {t}, running := s.running[i := Attempt(t, s.mem)])
    case Restart(i) => s.(running := s.running[i := Attempt(s.running[i].task, s.mem)])
    case Activate(t) => s.(ready := s.ready + {t})
    case Finish(i) =>
      var a := s.running[i];
      var r := Execute(cfg, a.task, a.snap);
      ExecuteFits(cfg, a.task, a.snap);
      if Commits(r.verdict) then AfterCommit(s, i, Committed(cfg, a.task, s.mem, r.mem), r)
      else s.(running := s.running - {i}, watchers := if r.verdict == AbortD then s.watchers - {a.task} else s.watchers)
  }

  /** The system once the program has reset the triggers and spawned the tasks that read the input. */
  predicate Initial(cfg: Config, s: System) {
    ValidConfig(cfg) && Fits(cfg, s.mem) && AllTriggers(s.mem, 0) &&
    s.ready == (set p: nat | p < cfg.parts :: InitRunner(p)) && s.running == map[] && s.watchers == {OnInit1Finished}
  }

  ghost predicate Next(cfg: Config, s: System, s': System) {
    WellFormed(cfg, s) && exists e :: Enabled(cfg, s, e) && s' == After(cfg, s, e)
  }

  /** A finite interleaving from an initial system. */
  ghost predicate IsRun(cfg: Config, run: seq<System>) {
    run != [] && Initial(cfg, run[0]) && forall j :: 0 <= j < |run| - 1 ==> Next(cfg, run[j], run[j + 1])
  }
}
