/** The k-means tasks as the program runs them: loops over the shared arrays. */
module KMeansPrograms {
  import opened Wrappers
  import opened KMeansData
  import opened KMeansTasks

  /** Longs per page: partitions are kept a page apart. */
  const N_LONG_PAGE: nat := 512

  function Cell(k: nat, p: nat, i: nat): (r: nat) {
    (k + N_LONG_PAGE) * p + i
  }

  function TriggerCell(p: nat): nat {
    p * N_LONG_PAGE
  }

  lemma ProductGrows(a: nat, b: nat, c: nat)
    requires a < b
    ensures c * a + c <= c * b
  {
    assert c * (a + 1) <= c * b;
  }

  lemma CellInRange(k: nat, p: nat, i: nat, parts: nat)
    requires p < parts && i < k
    ensures Cell(k, p, i) < (k + N_LONG_PAGE) * parts
  {
    ProductGrows(p, parts, k + N_LONG_PAGE);
  }

  lemma CellsDiffer(k: nat, p: nat, i: nat, q: nat, j: nat)
    requires i < k && j < k && (p != q || i != j)
    ensures Cell(k, p, i) != Cell(k, q, j)
  {
    if p < q { ProductGrows(p, q, k + N_LONG_PAGE); }
    if q < p { ProductGrows(q, p, k + N_LONG_PAGE); }
  }

  /** The local arrays, by partition and centroid. */
  function Unflattened(cfg: Config, flat: seq<Tally>): (r: seq<seq<Tally>>)
    requires |flat| == (cfg.k + N_LONG_PAGE) * cfg.parts
    ensures |r| == cfg.parts && forall p :: 0 <= p < cfg.parts ==> |r[p]| == cfg.k
  {
    seq(cfg.parts, p requires 0 <= p < cfg.parts => Row(cfg, flat, p))
  }

  function Row(cfg: Config, flat: seq<Tally>, p: nat): (r: seq<Tally>)
    requires |flat| == (cfg.k + N_LONG_PAGE) * cfg.parts && p < cfg.parts
    ensures |r| == cfg.k
  {
    seq(cfg.k, i requires 0 <= i < cfg.k => (CellInRange(cfg.k, p, i, cfg.parts); flat[Cell(cfg.k, p, i)]))
  }

  function Triggers(cfg: Config, flat: seq<int>): (r: seq<int>)
    requires |flat| == (cfg.parts + 1) * N_LONG_PAGE
    ensures |r| == cfg.parts
  {
    seq(cfg.parts, p requires 0 <= p < cfg.parts => flat[TriggerCell(p)])
  }

  lemma RowAt(cfg: Config, flat: seq<Tally>, p: nat, i: nat)
    requires |flat| == (cfg.k + N_LONG_PAGE) * cfg.parts && p < cfg.parts && i < cfg.k
    ensures Cell(cfg.k, p, i) < |flat| && Row(cfg, flat, p)[i] == flat[Cell(cfg.k, p, i)]
  {
    CellInRange(cfg.k, p, i, cfg.parts);
  }

  lemma RowUpdate(cfg: Config, flat: seq<Tally>, p: nat, i: nat, t: Tally, q: nat)
    requires |flat| == (cfg.k + N_LONG_PAGE) * cfg.parts && p < cfg.parts && i < cfg.k && q < cfg.parts
    ensures Cell(cfg.k, p, i) < |flat|
    ensures Row(cfg, flat[Cell(cfg.k, p, i) := t], q) == if p == q then Row(cfg, flat, p)[i := t] else Row(cfg, flat, q)
  {
    hide Cell, Row;
    RowAt(cfg, flat, p, i);
    var flat' := flat[Cell(cfg.k, p, i) := t];
    var row := if p == q then Row(cfg, flat, p)[i := t] else Row(cfg, flat, q);
    forall j | 0 <= j < cfg.k
      ensures Row(cfg, flat', q)[j] == row[j]
    {
      RowAt(cfg, flat, q, j);
      RowAt(cfg, flat', q, j);
      if q != p || i != j { CellsDiffer(cfg.k, p, i, q, j); }
    }
  }

  /** One more point in a worker's local arrays. */
  lemma TalliesWithPoint(slice: seq<Point>, p: Point, cent: seq<Point>)
    requires cent != [] && |slice| + 1 < TWO63
    ensures var m := Nearest(p, cent); var t := LocalTallies(slice, cent)[m];
      LocalTallies(slice + [p], cent) == LocalTallies(slice, cent)[m := AddTally(t, Tally(1, p))]
  {
    hide Nearest, Assigned, AddTally, W64, TallyOf;
    var m := Nearest(p, cent);
    TallyWithPoint(Assigned(slice, cent, m), p);
    forall i | 0 <= i < |cent|
      ensures Assigned(slice + [p], cent, i) == if i == m then Assigned(slice, cent, i) + [p] else Assigned(slice, cent, i)
    {
      AssignedWithPoint(slice, p, cent, i);
    }
  }

  lemma AssignedWithPoint(slice: seq<Point>, p: Point, cent: seq<Point>, i: nat)
    requires cent != []
    ensures Assigned(slice + [p], cent, i) ==
      if i == Nearest(p, cent) then Assigned(slice, cent, i) + [p] else Assigned(slice, cent, i)
  {
    hide Nearest;
    assert (slice + [p])[..|slice|] == slice;
  }

  lemma TallyWithPoint(own: seq<Point>, p: Point)
    requires |own| + 1 < TWO63
    ensures AddTally(TallyOf(own), Tally(1, p)) == TallyOf(own + [p])
  {
    assert W64(|own| + 1) == |own| + 1;
    hide W64;
    assert (own + [p])[..|own|] == own;
    WrappedPlus(Sum(own), p);
  }

  class Space {
    const cfg: Config
    const points: array<Point>
    const cent: array<Point>
    const local: array<Tally>
    const trigger: array<int>
    var iter: int

    ghost predicate Valid()
      reads this
    {
      ValidConfig(cfg) && points.Length == |cfg.input| && cent.Length == cfg.k && points != cent &&
      local.Length == (cfg.k + N_LONG_PAGE) * cfg.parts && trigger.Length == (cfg.parts + 1) * N_LONG_PAGE
    }

    ghost function Snapshot(): (r: Mem)
      reads this, points, cent, local, trigger
      requires Valid()
      ensures Fits(cfg, r)
    {
      Mem(points[..], cent[..], Unflattened(cfg, local[..]), Triggers(cfg, trigger[..]), iter)
    }

    /** Where the arrays hold what: a partition's local elements begin a page and K elements behind the previous one's, and
        its trigger a page. */
    lemma {:induction false} SnapshotIs(p: nat, i: nat)
      requires Valid() && p < cfg.parts && i < cfg.k
      ensures 0 <= (cfg.k + 512) * p + i < local.Length && Snapshot().local[p][i] == local[(cfg.k + 512) * p + i]
      ensures 512 * p < trigger.Length && Snapshot().trigger[p] == trigger[512 * p]
      ensures Snapshot().points == points[..] && Snapshot().cent == cent[..] && Snapshot().iter == iter
    {
      RowAt(cfg, local[..], p, i);
    }

    /** The first of the centroids nearest to a point. */
    method FindNearest(p: Point) returns (mini: nat)
      requires Valid()
      ensures mini < cent.Length && mini == Nearest(p, cent[..])
    {
      var j, mind := 1, Distance(p, cent[0]);
      mini := 0;
      while j < cent.Length
        invariant 1 <= j <= cent.Length && mini < j && mind == Distance(p, cent[mini])
        invariant forall l :: 0 <= l < j ==> mind <= Distance(p, cent[l])
        invariant forall l :: 0 <= l < mini ==> mind < Distance(p, cent[l])
      {
        var d := Distance(p, cent[j]);
        if d < mind {
          mind := d;
          mini := j;
        }
        j := j + 1;
      }
      NearestIsUnique(p, cent[..], mini);
    }

    /** One element of a worker's local arrays is overwritten. */
    method SetLocal(p: nat, i: nat, t: Tally)
      requires Valid() && p < cfg.parts && i < cfg.k
      modifies local
      ensures Valid() && Snapshot() == old(Snapshot()).(local := old(Snapshot().local)[p := old(Snapshot().local)[p][i := t]])
    {
      ghost var flat := local[..];
      CellInRange(cfg.k, p, i, cfg.parts);
      local[Cell(cfg.k, p, i)] := t;
      assert local[..] == flat[Cell(cfg.k, p, i) := t];
      forall q | 0 <= q < cfg.parts
        ensures Unflattened(cfg, local[..])[q] == Unflattened(cfg, flat)[p := Unflattened(cfg, flat)[p][i := t]][q]
      {
        RowUpdate(cfg, flat, p, i, t, q);
      }
    }

    method SetTrigger(p: nat, value: int)
      requires Valid() && p < cfg.parts
      modifies trigger
      ensures Valid() && Snapshot() == old(Snapshot()).(trigger := old(Snapshot().trigger)[p := value])
    {
      trigger[p * N_LONG_PAGE] := value;
      assert Triggers(cfg, trigger[..]) == old(Triggers(cfg, trigger[..]))[p := value];
    }

    /** Clears a worker's local arrays. */
    method ClearLocal(p: nat)
      requires Valid() && p < cfg.parts
      modifies local
      ensures Valid()
      ensures var m := old(Snapshot()); Snapshot() == m.(local := m.local[p := LocalTallies([], m.cent)])
    {
      ghost var m := Snapshot();
      for i := 0 to cent.Length
        invariant Valid() && Snapshot() == m.(local := m.local[p := Snapshot().local[p]])
        invariant forall j :: 0 <= j < i ==> Snapshot().local[p][j] == Tally(0, ORIGIN)
      {
        SetLocal(p, i, Tally(0, ORIGIN));
      }
      assert Snapshot().local[p] == LocalTallies([], m.cent);
    }

    /** Assigns the points of one partition to their nearest centroids and adds them up. */
    method ReclusterRunner(start: nat, end: nat) returns (verdict: Verdict)
      requires Valid() && start / cfg.size < cfg.parts && start == start / cfg.size * cfg.size && end == start + cfg.size
      modifies local, trigger
      ensures Valid()
      ensures var r := Execute(cfg, Task.ReclusterRunner(start / cfg.size), old(Snapshot()));
        verdict == r.verdict && Snapshot() == r.mem
    {
      hide LocalTallies, AddTally, Nearest, W64;
      var p := start / cfg.size;
      ghost var m := Snapshot();
      SliceBounds(cfg, p);
      ClearLocal(p);
      assert points[start..start] == [];
      for i := start to end
        invariant Valid() && Snapshot() == m.(local := m.local[p := LocalTallies(m.points[start..i], m.cent)])
      {
        var mini := FindNearest(points[i]);
        CellInRange(cfg.k, p, mini, cfg.parts);
        RowAt(cfg, local[..], p, mini);
        var t := local[Cell(cfg.k, p, mini)];
        TalliesWithPoint(m.points[start..i], points[i], m.cent);
        assert m.points[start..i + 1] == m.points[start..i] + [points[i]];
        SetLocal(p, mini, AddTally(t, Tally(1, points[i])));
      }
      SetTrigger(start / cfg.size, 2);
      verdict := CommitD;
    }

    method ReadPoints(start: nat, end: nat)
      requires Valid() && start <= end <= points.Length
      modifies points
      ensures Valid()
      ensures var m := old(Snapshot()); Snapshot() == m.(points := m.points[..start] + cfg.input[start..end] + m.points[end..])
    {
      ghost var ps := points[..];
      for i := start to end
        invariant Valid() && forall k :: 0 <= k < points.Length ==> points[k] == if start <= k < i then cfg.input[k] else ps[k]
      {
        points[i] := cfg.input[i];
      }
      assert points[..] == ps[..start] + cfg.input[start..end] + ps[end..];
    }

    /** Reads one partition of the input. */
    method InitRunner(start: nat, end: nat) returns (verdict: Verdict)
      requires Valid() && start / cfg.size < cfg.parts && start == start / cfg.size * cfg.size && end == start + cfg.size
      modifies points, trigger
      ensures Valid()
      ensures var r := Execute(cfg, Task.InitRunner(start / cfg.size), old(Snapshot()));
        verdict == r.verdict && Snapshot() == r.mem
    {
      SliceBounds(cfg, start / cfg.size);
      ghost var m := Snapshot();
      ReadPoints(start, end);
      SetTrigger(start / cfg.size, 1);
      verdict := Commit;
    }

    /** Resets every trigger and names the tasks to run: a worker per partition and the round's watcher. */
    method StartIteration() returns (tasks: set<Task>, watcher: Task)
      requires Valid()
      modifies trigger
      ensures Valid()
      ensures var r := KMeansTasks.StartIteration(cfg, old(Snapshot()));
        Snapshot() == r.mem && tasks == r.tasks && r.watcher == Some(watcher)
    {
      ghost var m := Snapshot();
      tasks := {};
      var i, p := 0, 0;
      while i < points.Length
        invariant Valid() && 0 <= p <= cfg.parts && i == p * cfg.size
        invariant Snapshot() == m.(trigger := Snapshot().trigger)
        invariant forall q :: 0 <= q < p ==> Snapshot().trigger[q] == 0
        invariant tasks == set q: nat | q < p :: Task.ReclusterRunner(q)
        decreases cfg.parts - p
      {
        PartOfStart(p, cfg.size, cfg.parts);
        SetTrigger(i / cfg.size, 0);
        tasks := tasks + {Task.ReclusterRunner(i / cfg.size)};
        i, p := i + cfg.size, p + 1;
      }
      ProductInjective(p, cfg.parts, cfg.size);
      watcher := Task.OnReclusterFinished(iter);
    }

    /** Whether every partition's trigger has a value. */
    method CheckTriggers(value: int) returns (all: bool)
      requires Valid()
      ensures all <==> AllTriggers(Snapshot(), value)
    {
      all := true;
      for i := 0 to cfg.parts
        invariant forall q :: 0 <= q < i ==> Snapshot().trigger[q] == value
      {
        if trigger[i * N_LONG_PAGE] != value {
          assert Snapshot().trigger[i] != value;
          all := false;
          return;
        }
      }
    }

    method TakeFirstPoints()
      requires Valid()
      modifies cent
      ensures Valid() && Snapshot() == old(Snapshot()).(cent := old(Snapshot()).points[..cfg.k])
    {
      ghost var m := Snapshot();
      for i := 0 to cent.Length
        invariant Valid() && points[..] == m.points && cent[..i] == m.points[..i]
      {
        cent[i] := points[i];
      }
      assert cent[..] == cent[..cfg.k];
    }

    /** The watcher of the input: once every partition has been read, takes the first points as centroids. */
    method OnInit1Finished() returns (verdict: Verdict, tasks: set<Task>, watcher: Option<Task>)
      requires Valid()
      modifies this, cent, trigger
      ensures Valid()
      ensures Execute(cfg, Task.OnInit1Finished, old(Snapshot())) == Ending(verdict, Snapshot(), tasks, watcher)
    {
      verdict, tasks, watcher := Abort, {}, None;
      var all := CheckTriggers(1);
      if !all {
        return;
      }
      SetTrigger(0, 3);
      TakeFirstPoints();
      iter := 0;
      var t, w := StartIteration();
      verdict, tasks, watcher := CommitD, t, Some(w);
    }

    /** Adds up the local arrays of all partitions, in memory of its own. */
    method MergeLocal() returns (sums: array<Tally>)
      requires Valid()
      ensures fresh(sums) && sums.Length == cfg.k
      ensures forall i :: 0 <= i < cfg.k ==> sums[i] == Merged(cfg, Snapshot().local, i, cfg.parts)
    {
      hide AddTally, Cell;
      sums := new Tally[cfg.k](_ => Tally(0, ORIGIN));
      ghost var all := Snapshot().local;
      for j := 0 to cfg.parts
        invariant Unflattened(cfg, local[..]) == all
        invariant forall i :: 0 <= i < cfg.k ==> sums[i] == Merged(cfg, all, i, j)
      {
        for i := 0 to cfg.k
          invariant Unflattened(cfg, local[..]) == all
          invariant forall l :: 0 <= l < i ==> sums[l] == AddTally(Merged(cfg, all, l, j), all[j][l])
          invariant forall l :: i <= l < cfg.k ==> sums[l] == Merged(cfg, all, l, j)
        {
          RowAt(cfg, local[..], j, i);
          sums[i] := AddTally(sums[i], local[Cell(cfg.k, j, i)]);
        }
      }
    }

    method Recenter(sums: array<Tally>)
      requires Valid() && sums.Length == cfg.k
      requires forall i :: 0 <= i < cfg.k ==> sums[i] == Merged(cfg, Snapshot().local, i, cfg.parts)
      modifies cent
      ensures Valid() && Snapshot() == old(Snapshot()).(cent := MergedCentroids(cfg, old(Snapshot())))
    {
      ghost var m := Snapshot();
      hide Merged, Divided;
      for i := 0 to cent.Length
        invariant Valid() && points[..] == m.points && forall l :: 0 <= l < i ==> cent[l] == MergedCentroids(cfg, m)[l]
      {
        if sums[i].n != 0 {
          cent[i] := Divided(sums[i].sum, sums[i].n);
        } else {
          cent[i] := DISABLED;
        }
      }
      assert cent[..] == MergedCentroids(cfg, m);
    }

    /** The watcher of a round: once every worker has committed, merges their sums and begins the next round. */
    method OnReclusterFinished(expected: int) returns (verdict: Verdict, tasks: set<Task>, watcher: Option<Task>)
      requires Valid()
      modifies this, cent, trigger
      ensures Valid()
      ensures Execute(cfg, Task.OnReclusterFinished(expected), old(Snapshot())) == Ending(verdict, Snapshot(), tasks, watcher)
    {
      verdict, tasks, watcher := Abort, {}, None;
      if expected < iter {
        verdict := AbortD;
        return;
      }
      if expected > iter {
        return;
      }
      var all := CheckTriggers(2);
      if !all {
        return;
      }
      var sums := MergeLocal();
      Recenter(sums);
      iter := iter + 1;
      if iter < MAX_ITER {
        var t, w := StartIteration();
        tasks, watcher := t, Some(w);
      }
      verdict := CommitD;
    }
  }

  lemma PartOfStart(p: nat, size: nat, parts: nat)
    requires size > 0 && p <= parts && p * size < parts * size
    ensures p < parts && p * size / size == p && (p + 1) * size == p * size + size
  {
    ProductInjective(p, parts, size);
  }

  lemma ProductInjective(a: nat, b: nat, c: nat)
    requires c > 0
    ensures a * c == b * c ==> a == b
    ensures a * c / c == a
    ensures a * c >= b * c ==> a >= b
  {
  }
}
