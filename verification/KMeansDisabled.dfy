/** A centroid without points is moved to a far-away place meant to take it out of the competition.
    In 64-bit arithmetic its squared distances wrap around; this says exactly when it still wins. */
module KMeansDisabled {
  import opened KMeansData

  const LIMIT: int := 0x1000_0000
  const STEP: int := 0x1000_0000_0000_0000

  /** Coordinates whose exact squared distances fit in 60 bits. */
  predicate Small(p: Point) {
    -LIMIT < p.x < LIMIT && -LIMIT < p.y < LIMIT && -LIMIT < p.z < LIMIT && -LIMIT < p.w < LIMIT
  }

  function Square(n: int): (r: int) {
    n * n
  }

  /** The sum of the coordinates, each plus one, modulo 16. */
  function Residue(p: Point): int {
    (p.x + p.y + p.z + p.w + 4) % 16
  }

  /** The exact squared distance to (-1, -1, -1, -1). */
  function FromMinusOne(p: Point): int {
    Square(p.x + 1) + Square(p.y + 1) + Square(p.z + 1) + Square(p.w + 1)
  }

  lemma SquareBound(n: int, b: int)
    requires -b <= n <= b
    ensures 0 <= Square(n) <= b * b
  {
  }

  lemma FarSquare(x: int)
    requires -LIMIT < x < LIMIT
    ensures W64(x - FAR) == x - FAR
    ensures Square(x - FAR) == Square(x + 1) - STEP * (x + 1) + TWO64 * 0x40_0000_0000_0000
  {
    var u, h := x + 1, 0x800_0000_0000_0000;
    assert x - FAR == u - h;
    assert Square(u - h) == Square(u) - 2 * h * u + h * h;
  }

  lemma Multiple(m: int)
    ensures TWO64 * m % TWO64 == 0
  {
  }

  /** The exact squared distance to the disabled centroid, before it wraps. */
  lemma FarSum(p: Point)
    requires Small(p)
    ensures Distance(p, DISABLED) ==
      W64(FromMinusOne(p) - STEP * (p.x + p.y + p.z + p.w + 4) + TWO64 * 0x100_0000_0000_0000)
  {
    FarSquare(p.x);
    FarSquare(p.y);
    FarSquare(p.z);
    FarSquare(p.w);
    hide W64;
  }

  /** What the program takes for the squared distance of a small point to the disabled centroid. */
  lemma DisabledDistance(p: Point)
    requires Small(p)
    ensures 0 <= FromMinusOne(p) < STEP
    ensures Distance(p, DISABLED) == FromMinusOne(p) + STEP * (if Residue(p) <= 8 then -Residue(p) else 16 - Residue(p))
  {
    SquareBound(p.x + 1, LIMIT);
    SquareBound(p.y + 1, LIMIT);
    SquareBound(p.z + 1, LIMIT);
    SquareBound(p.w + 1, LIMIT);
    var q, sum := FromMinusOne(p), p.x + p.y + p.z + p.w + 4;
    FarSum(p);
    WrapResidue(q, sum);
  }

  lemma WrapResidue(q: int, sum: int)
    requires 0 <= q < STEP
    ensures W64(q - STEP * sum + TWO64 * 0x100_0000_0000_0000) ==
      q + STEP * (if sum % 16 <= 8 then -(sum % 16) else 16 - sum % 16)
  {
    var s, t := sum % 16, sum / 16;
    var r := q + STEP * (if s <= 8 then -s else 16 - s);
    Multiple(0x100_0000_0000_0000 - t - if s <= 8 then 0 else 1);
    W64Unique(q - STEP * sum + TWO64 * 0x100_0000_0000_0000, r);
  }

  lemma DifferenceBound(a: int, b: int)
    requires -LIMIT < a < LIMIT && -LIMIT < b < LIMIT
    ensures W64(a - b) == a - b && 0 <= Square(a - b) && 4 * Square(a - b) < STEP
  {
    SquareBound(a - b, 2 * LIMIT - 1);
  }

  /** Distances between small points are exact. */
  lemma SmallDistance(p: Point, c: Point)
    requires Small(p) && Small(c)
    ensures Distance(p, c) == Square(p.x - c.x) + Square(p.y - c.y) + Square(p.z - c.z) + Square(p.w - c.w)
    ensures 0 <= Distance(p, c) < STEP
  {
    DifferenceBound(p.x, c.x);
    DifferenceBound(p.y, c.y);
    DifferenceBound(p.z, c.z);
    DifferenceBound(p.w, c.w);
  }

  /** A disabled centroid is not out of the competition: whether it beats a real one depends on the sum
      of the point's coordinates modulo 16. */
  lemma DisabledIsNearerIff(p: Point, c: Point)
    requires Small(p) && Small(c)
    ensures Distance(p, DISABLED) < Distance(p, c) <==>
      1 <= Residue(p) <= 8 || (Residue(p) == 0 && FromMinusOne(p) < Distance(p, c))
  {
    hide Distance, Residue, FromMinusOne;
    DisabledDistance(p);
    SmallDistance(p, c);
    assert 0 <= Residue(p) < 16 by { ResidueRange(p); }
  }

  lemma ResidueRange(p: Point)
    ensures 0 <= Residue(p) < 16
  {
  }

  /** The origin itself is assigned to the disabled centroid although a real one lies on it. */
  lemma OriginGoesToDisabled()
    ensures Nearest(ORIGIN, [ORIGIN, DISABLED]) == 1
  {
    DisabledIsNearerIff(ORIGIN, ORIGIN);
    assert Residue(ORIGIN) == 4;
    NearestIsUnique(ORIGIN, [ORIGIN, DISABLED], 1);
  }
}
