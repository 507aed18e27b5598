/** The shared memory of the k-means program, and what each of its tasks does to it. */
module KMeansTasks {
  import opened Wrappers
  import opened KMeansData

  /** The compile-time constants N/PSIZE, PSIZE and K, and the points the program reads. */
  datatype Config = Config(parts: nat, size: nat, k: nat, input: seq<Point>)

  const MAX_ITER: int := 6

  /** PSIZE divides N, and there are at least as many points as centroids. */
  predicate ValidConfig(cfg: Config) {
    cfg.parts > 0 && cfg.size > 0 && |cfg.input| == cfg.parts * cfg.size && 0 < cfg.k <= |cfg.input| < TWO63
  }

  /** The sums and the count a worker keeps for one centroid. */
  datatype Tally = Tally(n: int, sum: Point)

  /** `points` is the arrays x, y, z, w; `cent` is cx, cy, cz, cw; `local` is lcx, lcy, lcz, lcw, lcn, by
      partition and centroid; `trigger` holds the one cell used of each partition's trigger page. */
  datatype Mem = Mem(points: seq<Point>, cent: seq<Point>, local: seq<seq<Tally>>, trigger: seq<int>, iter: int)

  predicate Fits(cfg: Config, mem: Mem) {
    |mem.points| == |cfg.input| && |mem.cent| == cfg.k && |mem.local| == cfg.parts && |mem.trigger| == cfg.parts &&
    forall p :: 0 <= p < cfg.parts ==> |mem.local[p]| == cfg.k
  }

  lemma SliceBounds(cfg: Config, p: nat)
    requires ValidConfig(cfg) && p < cfg.parts
    ensures 0 <= p * cfg.size <= p * cfg.size + cfg.size <= |cfg.input|
    ensures p * cfg.size + cfg.size == (p + 1) * cfg.size
  {
    assert (p + 1) * cfg.size <= cfg.parts * cfg.size;
  }

  /** The points of partition `p`. */
  function Slice(cfg: Config, points: seq<Point>, p: nat): (r: seq<Point>)
    requires ValidConfig(cfg) && |points| == |cfg.input| && p < cfg.parts
    ensures |r| == cfg.size
  {
    SliceBounds(cfg, p);
    points[p * cfg.size..p * cfg.size + cfg.size]
  }

  /** `points` with partition `p` as `from` has it. */
  function WithSlice(cfg: Config, points: seq<Point>, p: nat, from: seq<Point>): (r: seq<Point>)
    requires ValidConfig(cfg) && |points| == |cfg.input| == |from| && p < cfg.parts
    ensures |r| == |points|
  {
    SliceBounds(cfg, p);
    points[..p * cfg.size] + Slice(cfg, from, p) + points[p * cfg.size + cfg.size..]
  }

  // ----- Aggregation on two levels -----

  function TallyOf(own: seq<Point>): Tally {
    Tally(|own|, Wrapped(Sum(own)))
  }

  /** What a worker leaves in its local arrays. */
  function LocalTallies(slice: seq<Point>, cent: seq<Point>): (r: seq<Tally>)
    requires cent != []
    ensures |r| == |cent|
  {
    seq(|cent|, i requires 0 <= i < |cent| => TallyOf(Assigned(slice, cent, i)))
  }

  function AddTally(a: Tally, b: Tally): Tally {
    Tally(W64(a.n + b.n), Wrapped(Plus(a.sum, b.sum)))
  }

  /** The watcher's sum over the first `j` partitions. */
  function Merged(cfg: Config, local: seq<seq<Tally>>, i: nat, j: nat): Tally
    requires |local| == cfg.parts && (forall p :: 0 <= p < cfg.parts ==> |local[p]| == cfg.k) && i < cfg.k && j <= cfg.parts
  {
    if j == 0 then Tally(0, ORIGIN) else AddTally(Merged(cfg, local, i, j - 1), local[j - 1][i])
  }

  function FromTally(t: Tally): Point {
    if t.n != 0 then Divided(t.sum, t.n) else DISABLED
  }

  function MergedCentroids(cfg: Config, mem: Mem): (r: seq<Point>)
    requires Fits(cfg, mem)
    ensures |r| == cfg.k
  {
    seq(cfg.k, i requires 0 <= i < cfg.k => FromTally(Merged(cfg, mem.local, i, cfg.parts)))
  }

  // ----- Tasks -----

  datatype Task =
    | InitRunner(part: nat)
    | OnInit1Finished
    | ReclusterRunner(part: nat)
    | OnReclusterFinished(expected: int)

  datatype Verdict = Commit | Abort | CommitD | AbortD

  /** How a task ends: its verdict, the memory as it leaves it, the tasks it spawns and the watcher it creates. */
  datatype Ending = Ending(verdict: Verdict, mem: Mem, tasks: set<Task>, watcher: Option<Task>)

  predicate AllTriggers(mem: Mem, value: int) {
    forall p :: 0 <= p < |mem.trigger| ==> mem.trigger[p] == value
  }

  function Workers(cfg: Config): set<Task> {
    set p: nat | p < cfg.parts :: ReclusterRunner(p)
  }

  /** Resets every trigger, spawns one worker per partition, and creates the watcher of the round. */
  function StartIteration(cfg: Config, mem: Mem): Ending {
    Ending(CommitD, mem.(trigger := seq(|mem.trigger|, _ => 0)), Workers(cfg), Some(OnReclusterFinished(mem.iter)))
  }

  predicate ValidTask(cfg: Config, t: Task) {
    (t.InitRunner? || t.ReclusterRunner?) ==> t.part < cfg.parts
  }

  function Execute(cfg: Config, t: Task, mem: Mem): Ending
    requires ValidConfig(cfg) && Fits(cfg, mem) && ValidTask(cfg, t)
  {
    match t
    case InitRunner(p) =>
      Ending(Commit, mem.(points := WithSlice(cfg, mem.points, p, cfg.input), trigger := mem.trigger[p := 1]), {}, None)
    case OnInit1Finished =>
      if !AllTriggers(mem, 1) then Ending(Abort, mem, {}, None)
      else StartIteration(cfg, mem.(cent := mem.points[..cfg.k], iter := 0))
    case ReclusterRunner(p) =>
      Ending(CommitD, mem.(local := mem.local[p := LocalTallies(Slice(cfg, mem.points, p), mem.cent)],
                           trigger := mem.trigger[p := 2]), {}, None)
    case OnReclusterFinished(expected) =>
      if expected < mem.iter then Ending(AbortD, mem, {}, None)
      else if expected > mem.iter || !AllTriggers(mem, 2) then Ending(Abort, mem, {}, None)
      else
        var mem' := mem.(cent := MergedCentroids(cfg, mem), iter := mem.iter + 1);
        if mem'.iter < MAX_ITER then StartIteration(cfg, mem') else Ending(CommitD, mem', {}, None)
  }

  // ----- The two levels of aggregation equal one pass -----

  lemma TallyOfConcat(a: seq<Point>, b: seq<Point>)
    requires |a| + |b| < TWO63
    ensures AddTally(TallyOf(a), TallyOf(b)) == TallyOf(a + b)
  {
    assert W64(|a| + |b|) == |a| + |b|;
    hide W64, Sum;
    SumConcat(a, b);
    WrappedPlus(Sum(a), Sum(b));
  }

  /** The points of the first `n` partitions. */
  function FirstParts(cfg: Config, n: nat): (r: seq<Point>)
    requires ValidConfig(cfg) && n <= cfg.parts
    ensures |r| <= |cfg.input|
  {
    assert n * cfg.size <= cfg.parts * cfg.size;
    cfg.input[..n * cfg.size]
  }

  lemma {:induction false} FirstPartsAre(cfg: Config)
    requires ValidConfig(cfg)
    ensures FirstParts(cfg, 0) == [] && FirstParts(cfg, cfg.parts) == cfg.input
  {
  }

  lemma {:induction false} OnePartMore(cfg: Config, p: nat)
    requires ValidConfig(cfg) && p < cfg.parts
    ensures FirstParts(cfg, p) + Slice(cfg, cfg.input, p) == FirstParts(cfg, p + 1)
  {
    SliceBounds(cfg, p);
  }

  predicate Aggregated(cfg: Config, mem: Mem, p: nat)
    requires ValidConfig(cfg) && Fits(cfg, mem) && p < cfg.parts
  {
    mem.local[p] == LocalTallies(Slice(cfg, cfg.input, p), mem.cent)
  }

  /** Adding up the local arrays of the first partitions gives what one pass over their points gives. */
  lemma {:induction false} MergedIsOnePass(cfg: Config, mem: Mem, i: nat, j: nat)
    requires ValidConfig(cfg) && Fits(cfg, mem) && i < cfg.k && j <= cfg.parts
    requires forall p: nat :: p < cfg.parts ==> Aggregated(cfg, mem, p)
    ensures Merged(cfg, mem.local, i, j) == TallyOf(Assigned(FirstParts(cfg, j), mem.cent, i))
  {
    hide W64, Assigned, Aggregated, FirstParts, TallyOf;
    FirstPartsAre(cfg);
    if j == 0 {
      NoneAssigned(mem.cent, i);
    } else {
      MergedIsOnePass(cfg, mem, i, j - 1);
      assert Aggregated(cfg, mem, j - 1);
      MergeOne(cfg, mem, i, j - 1);
    }
  }

  lemma NoneAssigned(cent: seq<Point>, i: nat)
    requires cent != []
    ensures TallyOf(Assigned([], cent, i)) == Tally(0, ORIGIN)
  {
  }

  lemma AddSlice(a: seq<Point>, b: seq<Point>, cent: seq<Point>, i: nat)
    requires i < |cent| && |a| + |b| < TWO63
    ensures AddTally(TallyOf(Assigned(a, cent, i)), LocalTallies(b, cent)[i]) == TallyOf(Assigned(a + b, cent, i))
  {
    hide W64, Nearest, Sum;
    AssignedConcat(a, b, cent, i);
    TallyOfConcat(Assigned(a, cent, i), Assigned(b, cent, i));
  }

  lemma {:induction false} MergeOne(cfg: Config, mem: Mem, i: nat, p: nat)
    requires ValidConfig(cfg) && Fits(cfg, mem) && i < cfg.k && p < cfg.parts && Aggregated(cfg, mem, p)
    requires Merged(cfg, mem.local, i, p) == TallyOf(Assigned(FirstParts(cfg, p), mem.cent, i))
    ensures Merged(cfg, mem.local, i, p + 1) == TallyOf(Assigned(FirstParts(cfg, p + 1), mem.cent, i))
  {
    hide W64, Assigned, AddTally, FirstParts, Slice, TallyOf, LocalTallies;
    OnePartMore(cfg, p);
    AddSlice(FirstParts(cfg, p), Slice(cfg, cfg.input, p), mem.cent, i);
  }

  /** The watcher's new centroids are those of one sequential step over all points. */
  lemma TwoLevelsAreOnePass(cfg: Config, mem: Mem)
    requires ValidConfig(cfg) && Fits(cfg, mem)
    requires forall p: nat :: p < cfg.parts ==> Aggregated(cfg, mem, p)
    ensures MergedCentroids(cfg, mem) == Recentered(cfg.input, mem.cent)
  {
    hide W64, Nearest, IsNearest, Merged, Assigned, Sum, Aggregated, Divided, FirstParts;
    forall i | 0 <= i < cfg.k
      ensures FromTally(Merged(cfg, mem.local, i, cfg.parts)) == Centroid(Assigned(cfg.input, mem.cent, i))
    {
      MergedIsOnePass(cfg, mem, i, cfg.parts);
      FirstPartsAre(cfg);
    }
  }

  /** The watcher's total of the first `n` centroids' counts. */
  function MergedCount(cfg: Config, mem: Mem, n: nat): int
    requires Fits(cfg, mem) && n <= cfg.k
  {
    if n == 0 then 0 else MergedCount(cfg, mem, n - 1) + Merged(cfg, mem.local, n - 1, cfg.parts).n
  }

  lemma {:induction false} MergedCountIsAssigned(cfg: Config, mem: Mem, n: nat)
    requires ValidConfig(cfg) && Fits(cfg, mem) && n <= cfg.k
    requires forall p: nat :: p < cfg.parts ==> Aggregated(cfg, mem, p)
    ensures MergedCount(cfg, mem, n) == AssignedTo(cfg.input, mem.cent, n)
  {
    hide Assigned, Merged, Aggregated, FirstParts;
    if n > 0 {
      MergedCountIsAssigned(cfg, mem, n - 1);
      MergedIsOnePass(cfg, mem, n - 1, cfg.parts);
      FirstPartsAre(cfg);
    }
  }

  /** No point is lost or counted twice: the counts the watcher adds up total N. */
  lemma MergedCountsTotal(cfg: Config, mem: Mem)
    requires ValidConfig(cfg) && Fits(cfg, mem)
    requires forall p: nat :: p < cfg.parts ==> Aggregated(cfg, mem, p)
    ensures MergedCount(cfg, mem, cfg.k) == |cfg.input|
  {
    MergedCountIsAssigned(cfg, mem, cfg.k);
    EveryPointIsAssigned(cfg.input, mem.cent);
  }
}
