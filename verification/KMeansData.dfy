/** Points, 64-bit arithmetic, and one step of k-means as the textbook says it. */
module KMeansData {
  // ----- 64-bit integers -----

  const TWO64: int := 0x1_0000_0000_0000_0000
  const TWO63: int := 0x8000_0000_0000_0000

  /** The value a `long` holds after an operation whose exact result is `n`. */
  function W64(n: int): (r: int)
    ensures -TWO63 <= r < TWO63
    ensures -TWO63 <= n < TWO63 ==> r == n
  {
    (n + TWO63) % TWO64 - TWO63
  }

  lemma {:induction false} W64Congruent(n: int)
    ensures (n - W64(n)) % TWO64 == 0
  {
  }

  /** The one `long` that differs from `n` by a multiple of 2^64. */
  lemma W64Unique(n: int, r: int)
    requires -TWO63 <= r < TWO63 && (n - r) % TWO64 == 0
    ensures W64(n) == r
  {
  }

  /** Wrapping an operand first does not change a wrapped sum. */
  lemma W64Add(a: int, b: int)
    ensures W64(W64(a) + b) == W64(a + b)
  {
    W64Congruent(a);
    W64Congruent(W64(a) + b);
    SumOfMultiples(a - W64(a), W64(a) + b - W64(W64(a) + b));
    W64Unique(a + b, W64(W64(a) + b));
    hide W64;
  }

  lemma {:induction false} SumOfMultiples(x: int, y: int)
    requires x % TWO64 == 0 && y % TWO64 == 0
    ensures (x + y) % TWO64 == 0
  {
    var i, j := x / TWO64, y / TWO64;
    assert x + y == TWO64 * (i + j);
  }

  lemma W64Sum(a: int, b: int)
    ensures W64(W64(a) + b) == W64(a + b) && W64(W64(a) + W64(b)) == W64(a + b)
  {
    W64Add(a, b);
    W64Add(b, W64(a));
  }

  function Magnitude(n: int): nat {
    if n >= 0 then n else -n
  }

  /** C's division truncates toward zero. */
  function Quotient(a: int, b: int): int
    requires b != 0
  {
    if (a >= 0) == (b > 0) then Magnitude(a) / Magnitude(b) else -(Magnitude(a) / Magnitude(b))
  }

  // ----- Points -----

  datatype Point = Point(x: int, y: int, z: int, w: int)

  const ORIGIN := Point(0, 0, 0, 0)

  function Plus(a: Point, b: Point): Point {
    Point(a.x + b.x, a.y + b.y, a.z + b.z, a.w + b.w)
  }

  function Wrapped(p: Point): Point {
    Point(W64(p.x), W64(p.y), W64(p.z), W64(p.w))
  }

  lemma WrappedPlus(a: Point, b: Point)
    ensures Wrapped(Plus(Wrapped(a), b)) == Wrapped(Plus(a, b))
    ensures Wrapped(Plus(Wrapped(a), Wrapped(b))) == Wrapped(Plus(a, b))
  {
    hide W64;
    W64Sum(a.x, b.x);
    W64Sum(a.y, b.y);
    W64Sum(a.z, b.z);
    W64Sum(a.w, b.w);
  }

  /** The squared distance, as the 64-bit machine computes it. */
  function Distance(p: Point, c: Point): int {
    var dx, dy, dz, dw := W64(p.x - c.x), W64(p.y - c.y), W64(p.z - c.z), W64(p.w - c.w);
    W64(dx * dx + dy * dy + dz * dz + dw * dw)
  }

  /** What a centroid without points is set to. */
  const FAR: int := 0x7FF_FFFF_FFFF_FFFF
  const DISABLED := Point(FAR, FAR, FAR, FAR)

  // ----- Nearest centroids -----

  /** `m` is the first of the nearest centroids. */
  predicate IsNearest(p: Point, cent: seq<Point>, m: nat) {
    m < |cent| &&
    (forall j :: 0 <= j < |cent| ==> Distance(p, cent[m]) <= Distance(p, cent[j])) &&
    (forall j :: 0 <= j < m ==> Distance(p, cent[m]) < Distance(p, cent[j]))
  }

  function Nearest(p: Point, cent: seq<Point>): (m: nat)
    requires cent != []
    ensures IsNearest(p, cent, m)
  {
    if |cent| == 1 then 0 else
    var rest := cent[..|cent| - 1];
    var best := Nearest(p, rest);
    assert forall j :: 0 <= j < |rest| ==> cent[j] == rest[j];
    if Distance(p, cent[|cent| - 1]) < Distance(p, cent[best]) then |cent| - 1 else best
  }

  lemma NearestIsUnique(p: Point, cent: seq<Point>, m: nat)
    requires cent != [] && IsNearest(p, cent, m)
    ensures m == Nearest(p, cent)
  {
  }

  // ----- One step of k-means -----

  /** The points whose nearest centroid is the `i`-th. */
  function Assigned(points: seq<Point>, cent: seq<Point>, i: nat): (r: seq<Point>)
    requires cent != []
    ensures |r| <= |points|
  {
    if points == [] then [] else
    var p := points[|points| - 1];
    Assigned(points[..|points| - 1], cent, i) + if Nearest(p, cent) == i then [p] else []
  }

  function Sum(points: seq<Point>): Point {
    if points == [] then ORIGIN else Plus(Sum(points[..|points| - 1]), points[|points| - 1])
  }

  function Divided(p: Point, n: int): Point
    requires n != 0
  {
    Point(Quotient(p.x, n), Quotient(p.y, n), Quotient(p.z, n), Quotient(p.w, n))
  }

  /** The mean of the assigned points, in 64-bit arithmetic. */
  function Centroid(own: seq<Point>): Point {
    if own == [] then DISABLED else Divided(Wrapped(Sum(own)), |own|)
  }

  function Recentered(points: seq<Point>, cent: seq<Point>): (r: seq<Point>)
    requires cent != []
    ensures |r| == |cent|
    ensures forall i :: 0 <= i < |r| ==> r[i] == Centroid(Assigned(points, cent, i))
  {
    seq(|cent|, i requires 0 <= i < |cent| => Centroid(Assigned(points, cent, i)))
  }

  /** The centroids after `k` rounds of the sequential algorithm, which starts from the first points. */
  function Rounds(points: seq<Point>, n: nat, k: nat): (r: seq<Point>)
    requires 0 < n <= |points|
    ensures |r| == n
  {
    if k == 0 then points[..n] else Recentered(points, Rounds(points, n, k - 1))
  }

  // ----- Assignment and sums distribute over concatenation -----

  lemma {:induction false} AssignedConcat(a: seq<Point>, b: seq<Point>, cent: seq<Point>, i: nat)
    requires cent != []
    ensures Assigned(a + b, cent, i) == Assigned(a, cent, i) + Assigned(b, cent, i)
  {
    hide IsNearest, Nearest;
    if b == [] {
      assert a + b == a;
    } else {
      var front, p := b[..|b| - 1], b[|b| - 1];
      AssignedConcat(a, front, cent, i);
      assert (a + b)[..|a + b| - 1] == a + front && (a + b)[|a + b| - 1] == p;
      var own := if Nearest(p, cent) == i then [p] else [];
      assert Assigned(a, cent, i) + Assigned(front, cent, i) + own == Assigned(a, cent, i) + (Assigned(front, cent, i) + own);
    }
  }

  lemma {:induction false} SumConcat(a: seq<Point>, b: seq<Point>)
    ensures Sum(a + b) == Plus(Sum(a), Sum(b))
  {
    if b == [] {
      assert a + b == a;
    } else {
      SumConcat(a, b[..|b| - 1]);
      assert (a + b)[..|a + b| - 1] == a + b[..|b| - 1];
    }
  }

  /** How many points the first `n` centroids have been assigned. */
  function AssignedTo(points: seq<Point>, cent: seq<Point>, n: nat): nat
    requires cent != []
  {
    if n == 0 then 0 else AssignedTo(points, cent, n - 1) + |Assigned(points, cent, n - 1)|
  }

  lemma AssignedLast(points: seq<Point>, cent: seq<Point>, i: nat)
    requires cent != [] && points != []
    ensures |Assigned(points, cent, i)| ==
      |Assigned(points[..|points| - 1], cent, i)| + if Nearest(points[|points| - 1], cent) == i then 1 else 0
  {
    hide Nearest, IsNearest;
  }

  lemma {:induction false} AssignedToLast(points: seq<Point>, cent: seq<Point>, n: nat)
    requires cent != [] && points != []
    ensures AssignedTo(points, cent, n) ==
      AssignedTo(points[..|points| - 1], cent, n) + if Nearest(points[|points| - 1], cent) < n then 1 else 0
  {
    hide Nearest, IsNearest, Assigned;
    if n > 0 {
      AssignedToLast(points, cent, n - 1);
      AssignedLast(points, cent, n - 1);
    }
  }

  /** Every point is assigned to exactly one centroid. */
  lemma {:induction false} EveryPointIsAssigned(points: seq<Point>, cent: seq<Point>)
    requires cent != []
    ensures AssignedTo(points, cent, |cent|) == |points|
  {
    if points == [] {
      NothingAssigned(cent, |cent|);
    } else {
      EveryPointIsAssigned(points[..|points| - 1], cent);
      AssignedToLast(points, cent, |cent|);
    }
  }

  lemma {:induction false} NothingAssigned(cent: seq<Point>, n: nat)
    requires cent != []
    ensures AssignedTo([], cent, n) == 0
  {
    if n > 0 { NothingAssigned(cent, n - 1); }
  }
}
