/** One round of k-means in the plainest terms, independent of how the program and its specification compute it: exact
    squared distances and coordinate sums, each taken to the 64 bits of a `long`, and quotients by their remainders. */
module KMeansReference {
  import opened KMeansData
  import opened KMeansTasks
  import opened KMeansProtocol
  import opened KMeansInvariant
  import opened KMeansTheorems

  // ----- The reference -----

  datatype Axis = X | Y | Z | W

  function On(p: Point, axis: Axis): int {
    match axis
    case X => p.x
    case Y => p.y
    case Z => p.z
    case W => p.w
  }

  function Exact(p: Point, c: Point): int {
    (p.x - c.x) * (p.x - c.x) + (p.y - c.y) * (p.y - c.y) + (p.z - c.z) * (p.z - c.z) + (p.w - c.w) * (p.w - c.w)
  }

  /** Centroid `i` is nearer to `p` than any before it, and no farther than any behind it. */
  predicate Wins(p: Point, cent: seq<Point>, i: nat) {
    i < |cent| &&
    (forall j :: 0 <= j < i ==> W64(Exact(p, cent[i])) < W64(Exact(p, cent[j]))) &&
    (forall j :: i < j < |cent| ==> W64(Exact(p, cent[i])) <= W64(Exact(p, cent[j])))
  }

  /** The points that go to centroid `i`. */
  function Own(points: seq<Point>, cent: seq<Point>, i: nat): seq<Point> {
    if points == [] then [] else (if Wins(points[0], cent, i) then [points[0]] else []) + Own(points[1..], cent, i)
  }

  function Total(points: seq<Point>, axis: Axis): int {
    if points == [] then 0 else On(points[0], axis) + Total(points[1..], axis)
  }

  /** `q` is `sum` divided by `n`, rounded toward zero: the remainder is smaller than `n` and has the sign of `sum`. */
  predicate IsQuotient(q: int, sum: int, n: int) {
    var r := sum - q * n;
    -n < r < n && (r > 0 ==> sum > 0) && (r < 0 ==> sum < 0)
  }

  predicate IsMean(c: Point, own: seq<Point>) {
    forall axis :: IsQuotient(On(c, axis), W64(Total(own, axis)), |own|)
  }

  /** The mean of its own points, or, without any, the place far away. */
  predicate IsCentroid(c: Point, own: seq<Point>) {
    if own == [] then forall axis :: On(c, axis) == 0x7FF_FFFF_FFFF_FFFF else IsMean(c, own)
  }

  predicate IsRound(points: seq<Point>, cent: seq<Point>, next: seq<Point>) {
    |next| == |cent| && forall i {:trigger next[i]} :: 0 <= i < |next| ==> IsCentroid(next[i], Own(points, cent, i))
  }

  /** The first `k` points, and then one round after the other. */
  predicate IsHistory(points: seq<Point>, k: nat, history: seq<seq<Point>>) {
    k <= |points| && history != [] && history[0] == points[..k] &&
    forall j {:trigger history[j]} :: 0 < j < |history| ==> IsRound(points, history[j - 1], history[j])
  }

  // ----- Distances -----

  lemma {:induction false} MultipleOf(k: int)
    ensures TWO64 * k % TWO64 == 0
  {
  }

  /** Wrapping before squaring changes the square by a multiple of 2^64. */
  lemma {:induction false} SquareCongruent(a: int)
    ensures (a * a - W64(a) * W64(a)) % TWO64 == 0
  {
    W64Congruent(a);
    var w := W64(a);
    hide W64;
    var k := (a - w) / TWO64;
    assert a - w == TWO64 * k;
    assert a * a - w * w == (a - w) * (a + w) == TWO64 * (k * (a + w)) by { Product(a, w, k); }
    MultipleOf(k * (a + w));
  }

  lemma {:induction false} Product(a: int, w: int, k: int)
    requires a - w == TWO64 * k
    ensures a * a - w * w == (a - w) * (a + w) == TWO64 * (k * (a + w))
  {
  }

  /** The program's distance is the exact one in 64 bits, although it wraps at every step. */
  lemma {:induction false} DistanceIs(p: Point, c: Point)
    ensures Distance(p, c) == W64(Exact(p, c))
  {
    var x, y, z, w := p.x - c.x, p.y - c.y, p.z - c.z, p.w - c.w;
    SquareCongruent(x);
    SquareCongruent(y);
    SquareCongruent(z);
    SquareCongruent(w);
    SumCongruent(x * x, y * y, z * z, w * w, W64(x) * W64(x), W64(y) * W64(y), W64(z) * W64(z), W64(w) * W64(w));
  }

  lemma {:induction false} SumCongruent(a: int, b: int, c: int, d: int, a': int, b': int, c': int, d': int)
    requires (a - a') % TWO64 == 0 && (b - b') % TWO64 == 0 && (c - c') % TWO64 == 0 && (d - d') % TWO64 == 0
    ensures W64(a' + b' + c' + d') == W64(a + b + c + d)
  {
    var s, s' := a + b + c + d, a' + b' + c' + d';
    SumOfMultiples(a - a', b - b');
    SumOfMultiples(c - c', d - d');
    SumOfMultiples(a - a' + b - b', c - c' + d - d');
    W64Congruent(s');
    SumOfMultiples(s - s', s' - W64(s'));
    W64Unique(s, W64(s'));
  }

  // ----- Assignment -----

  lemma {:induction false} WinsIsNearest(p: Point, cent: seq<Point>, i: nat)
    requires cent != []
    ensures Wins(p, cent, i) <==> Nearest(p, cent) == i
  {
    forall j | 0 <= j < |cent|
      ensures Distance(p, cent[j]) == W64(Exact(p, cent[j]))
    {
      DistanceIs(p, cent[j]);
    }
    hide Distance, W64, Exact, Nearest;
    var m := Nearest(p, cent);
    if Wins(p, cent, i) {
      NearestIsUnique(p, cent, i);
    }
  }

  lemma {:induction false} OwnIsAssigned(points: seq<Point>, cent: seq<Point>, i: nat)
    requires cent != []
    ensures Own(points, cent, i) == Assigned(points, cent, i)
  {
    hide Wins, Nearest, IsNearest;
    if points != [] {
      var p, rest := points[0], points[1..];
      assert points == [p] + rest && [p][..0] == [];
      AssignedConcat([p], rest, cent, i);
      OwnIsAssigned(rest, cent, i);
      WinsIsNearest(p, cent, i);
    }
  }

  // ----- Means -----

  lemma {:induction false} SumIsTotal(points: seq<Point>, axis: Axis)
    ensures On(Sum(points), axis) == Total(points, axis)
  {
    if points != [] {
      var p, rest := points[0], points[1..];
      assert points == [p] + rest && [p][..0] == [];
      SumConcat([p], rest);
      SumIsTotal(rest, axis);
    }
  }

  lemma {:induction false} Divides(a: nat, n: nat) returns (k: int)
    requires n > 0
    ensures k == a / n && 0 <= k * n <= a < k * n + n
  {
    k := a / n;
  }

  lemma {:induction false} RoundsToZero(k: int, m: int, n: int)
    requires 0 <= k * n <= m < k * n + n
    ensures IsQuotient(k, m, n) && IsQuotient(-k, -m, n)
  {
    assert (-k) * n == -(k * n);
  }

  lemma {:induction false} QuotientIs(sum: int, n: nat)
    requires n > 0
    ensures IsQuotient(Quotient(sum, n), sum, n)
  {
    var k := Divides(Magnitude(sum), n);
    assert Quotient(sum, n) == if sum >= 0 then k else -k;
    hide Quotient, IsQuotient;
    RoundsToZero(k, Magnitude(sum), n);
  }

  /** The mean of a centroid's points, coordinate by coordinate. */
  lemma {:induction false} CentroidIsMean(own: seq<Point>)
    requires own != []
    ensures IsMean(Centroid(own), own)
  {
    var sum := Sum(own);
    forall axis
      ensures IsQuotient(On(Centroid(own), axis), W64(Total(own, axis)), |own|)
    {
      SumIsTotal(own, axis);
      QuotientIs(W64(On(sum, axis)), |own|);
      hide IsQuotient, Quotient, W64, Sum;
    }
  }

  lemma {:induction false} CentroidIs(own: seq<Point>)
    ensures IsCentroid(Centroid(own), own)
  {
    if own != [] { CentroidIsMean(own); }
  }

  /** What the sequential algorithm does in a round is the reference's round ... */
  lemma {:induction false} RecenteredIsRound(points: seq<Point>, cent: seq<Point>)
    requires cent != []
    ensures IsRound(points, cent, Recentered(points, cent))
  {
    var next := Recentered(points, cent);
    hide IsCentroid, Centroid, Assigned, Own;
    forall i {:trigger next[i]} | 0 <= i < |next|
      ensures IsCentroid(next[i], Own(points, cent, i))
    {
      OwnIsAssigned(points, cent, i);
      CentroidIs(Assigned(points, cent, i));
    }
  }

  lemma {:induction false} OneQuotient(q: int, q': int, sum: int, n: int)
    requires n > 0 && IsQuotient(q, sum, n) && IsQuotient(q', sum, n)
    ensures q == q'
  {
    if q < q' { Apart(q, q', n); }
    if q' < q { Apart(q', q, n); }
  }

  lemma {:induction false} Apart(q: int, q': int, n: int)
    requires q < q' && n > 0
    ensures q * n + n <= q' * n
  {
    assert (q + 1) * n <= q' * n;
  }

  /** ... and there is no other: a round is determined by the points and the centroids before it. */
  lemma {:induction false} OneRound(points: seq<Point>, cent: seq<Point>, a: seq<Point>, b: seq<Point>)
    requires IsRound(points, cent, a) && IsRound(points, cent, b)
    ensures a == b
  {
    forall i | 0 <= i < |a|
      ensures a[i] == b[i]
    {
      OneCentroid(a[i], b[i], Own(points, cent, i));
    }
  }

  lemma {:induction false} OneCentroid(a: Point, b: Point, own: seq<Point>)
    requires IsCentroid(a, own) && IsCentroid(b, own)
    ensures a == b
  {
    forall axis
      ensures On(a, axis) == On(b, axis)
    {
      if own != [] {
        assert IsQuotient(On(a, axis), W64(Total(own, axis)), |own|) && IsQuotient(On(b, axis), W64(Total(own, axis)), |own|);
        OneQuotient(On(a, axis), On(b, axis), W64(Total(own, axis)), |own|);
      }
    }
    assert On(a, X) == On(b, X) && On(a, Y) == On(b, Y) && On(a, Z) == On(b, Z) && On(a, W) == On(b, W);
  }

  // ----- Whole runs -----

  lemma {:induction false} RoundsAreHistory(points: seq<Point>, n: nat, k: nat) returns (history: seq<seq<Point>>)
    requires 0 < n <= |points|
    ensures |history| == k + 1 && history[k] == Rounds(points, n, k) && IsHistory(points, n, history)
  {
    if k == 0 {
      history := [points[..n]];
    } else {
      hide IsRound, Recentered;
      var before := RoundsAreHistory(points, n, k - 1);
      RecenteredIsRound(points, before[k - 1]);
      history := before + [Recentered(points, before[k - 1])];
    }
  }

  /** In every interleaving the committed centroids are the last of `iter` reference rounds from the first points on, of
      which there are at most six; once nothing remains to commit there have been six. */
  lemma {:induction false} CommittedCentroids(cfg: Config, run: seq<System>, j: nat) returns (history: seq<seq<Point>>)
    requires IsRun(cfg, run) && j < |run| && Started(run[j])
    ensures var mem := run[j].mem;
      0 <= mem.iter <= 6 && |history| == mem.iter + 1 && IsHistory(cfg.input, cfg.k, history) && history[mem.iter] == mem.cent
    ensures Remaining(cfg, run[j]) == 0 <==> run[j].mem.iter == 6
  {
    hide IsRun, Started, Remaining, Rounds, IsHistory;
    CentroidsAreSequential(cfg, run, j);
    EndIsFinal(cfg, run, j);
    RunIsSafe(cfg, run, j);
    history := RoundsAreHistory(cfg.input, cfg.k, run[j].mem.iter);
  }
}
