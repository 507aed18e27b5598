/** The partitioning loop that sorting and selection share, on index sequences. */
module Partition {
  // ----- Rearrangements -----

  function Swap(s: seq<int>, i: nat, j: nat): (r: seq<int>)
    requires i < |s| && j < |s|
    ensures |r| == |s|
  {
    s[i := s[j]][j := s[i]]
  }

  /** `t` is `s` with the entries from `lo` up to `hi` in another order. */
  ghost predicate Rearranged(s: seq<int>, t: seq<int>, lo: int, hi: int) {
    |s| == |t| && multiset(s) == multiset(t) &&
    forall k {:trigger t[k]} :: 0 <= k < |s| && !(lo <= k < hi) ==> s[k] == t[k]
  }

  lemma SwapRearranges(s: seq<int>, i: nat, j: nat, lo: int, hi: int)
    requires lo <= i < hi && lo <= j < hi && i < |s| && j < |s|
    ensures Rearranged(s, Swap(s, i, j), lo, hi)
  {
  }

  lemma RearrangedTrans(s: seq<int>, t: seq<int>, u: seq<int>, lo: int, hi: int)
    requires Rearranged(s, t, lo, hi) && Rearranged(t, u, lo, hi)
    ensures Rearranged(s, u, lo, hi)
  {
  }

  lemma RearrangedWider(s: seq<int>, t: seq<int>, lo: int, hi: int, lo': int, hi': int)
    requires Rearranged(s, t, lo, hi) && lo' <= lo && hi <= hi'
    ensures Rearranged(s, t, lo', hi')
  {
  }

  lemma CancelEnds(a: multiset<int>, x: multiset<int>, y: multiset<int>, b: multiset<int>)
    requires a + x + b == a + y + b
    ensures x == y
  {
    forall e
      ensures x[e] == y[e]
    {
      assert (a + x + b)[e] == (a + y + b)[e];
    }
  }

  /** Every entry of the range after a rearrangement comes from the range before it. */
  lemma ComesFrom(s: seq<int>, t: seq<int>, lo: nat, hi: nat, k: nat) returns (j: nat)
    requires Rearranged(s, t, lo, hi) && lo <= k < hi <= |s|
    ensures lo <= j < hi && t[k] == s[j]
  {
    assert s == s[..lo] + s[lo..hi] + s[hi..];
    assert t == t[..lo] + t[lo..hi] + t[hi..];
    assert s[..lo] == t[..lo] && s[hi..] == t[hi..];
    assert multiset(s) == multiset(s[..lo]) + multiset(s[lo..hi]) + multiset(s[hi..]);
    assert multiset(t) == multiset(t[..lo]) + multiset(t[lo..hi]) + multiset(t[hi..]);
    CancelEnds(multiset(s[..lo]), multiset(s[lo..hi]), multiset(t[lo..hi]), multiset(s[hi..]));
    assert t[lo..hi][k - lo] in multiset(t[lo..hi]);
    j :| lo <= j < hi && s[j] == t[k];
  }

  /** The indices are those of entries of `value`. */
  predicate Indexes(s: seq<int>, value: seq<real>) {
    forall k :: 0 <= k < |s| ==> 0 <= s[k] < |value|
  }

  // ----- The loop -----

  function ValueAt(s: seq<int>, value: seq<real>, k: int): real {
    if 0 <= k < |s| && 0 <= s[k] < |value| then value[s[k]] else 0.0
  }

  /** The loop from `i` on: entries below the pivot are moved to the front, and at last the pivot behind them. */
  function Scan(s: seq<int>, i: nat, p: nat, end: nat, value: seq<real>, pivot: real): (r: (seq<int>, nat))
    requires p <= i <= end < |s|
    ensures |r.0| == |s|
    decreases end - i
  {
    if i == end then (Swap(s, p, end), p)
    else if ValueAt(s, value, i) < pivot then Scan(Swap(s, p, i), i + 1, p + 1, end, value, pivot)
    else Scan(s, i + 1, p, end, value, pivot)
  }

  function Partitioned(s: seq<int>, start: nat, end: nat, value: seq<real>): (r: (seq<int>, nat))
    requires start <= end < |s|
    ensures |r.0| == |s|
  {
    Scan(s, start, start, end, value, ValueAt(s, value, end))
  }

  predicate AllBelow(s: seq<int>, lo: int, hi: int, value: seq<real>, pivot: real) {
    forall k {:trigger s[k]} {:trigger ValueAt(s, value, k)} :: lo <= k < hi && 0 <= k < |s| ==> ValueAt(s, value, k) < pivot
  }

  predicate NoneBelow(s: seq<int>, lo: int, hi: int, value: seq<real>, pivot: real) {
    forall k {:trigger s[k]} {:trigger ValueAt(s, value, k)} :: lo <= k < hi && 0 <= k < |s| ==> ValueAt(s, value, k) >= pivot
  }

  /** One swap of the loop: the entry at `i` is below the pivot and moves to `p`. */
  lemma SwapSplits(s: seq<int>, start: nat, i: nat, p: nat, end: nat, value: seq<real>, pivot: real)
    requires start <= p <= i < end < |s| && ValueAt(s, value, i) < pivot
    requires AllBelow(s, start, p, value, pivot) && NoneBelow(s, p, i, value, pivot)
    ensures var t := Swap(s, p, i);
      AllBelow(t, start, p + 1, value, pivot) && NoneBelow(t, p + 1, i + 1, value, pivot) &&
      ValueAt(t, value, end) == ValueAt(s, value, end)
  {
    assert p < i ==> ValueAt(s, value, p) >= pivot;
  }

  lemma FinalSwapSplits(s: seq<int>, start: nat, p: nat, end: nat, value: seq<real>, pivot: real)
    requires start <= p <= end < |s| && ValueAt(s, value, end) == pivot
    requires AllBelow(s, start, p, value, pivot) && NoneBelow(s, p, end, value, pivot)
    ensures var t := Swap(s, p, end);
      AllBelow(t, start, p, value, pivot) && NoneBelow(t, p, end + 1, value, pivot) && ValueAt(t, value, p) == pivot
  {
    assert p < end ==> ValueAt(s, value, p) >= pivot;
  }

  lemma {:induction false} ScanPartitions(s: seq<int>, start: nat, i: nat, p: nat, end: nat, value: seq<real>, pivot: real)
    requires start <= p <= i <= end < |s| && ValueAt(s, value, end) == pivot
    requires AllBelow(s, start, p, value, pivot) && NoneBelow(s, p, i, value, pivot)
    ensures var (r, q) := Scan(s, i, p, end, value, pivot);
      && start <= q <= end && Rearranged(s, r, start, end + 1)
      && AllBelow(r, start, q, value, pivot) && NoneBelow(r, q, end + 1, value, pivot) && ValueAt(r, value, q) == pivot
    decreases end - i
  {
    hide AllBelow, Rearranged, ValueAt, Swap;
    if i == end {
      FinalSwapSplits(s, start, p, end, value, pivot);
      SwapRearranges(s, p, end, start, end + 1);
    } else if ValueAt(s, value, i) < pivot {
      var t := Swap(s, p, i);
      SwapRearranges(s, p, i, start, end + 1);
      SwapSplits(s, start, i, p, end, value, pivot);
      ScanPartitions(t, start, i + 1, p + 1, end, value, pivot);
      RearrangedTrans(s, t, Scan(s, i, p, end, value, pivot).0, start, end + 1);
    } else {
      ScanPartitions(s, start, i + 1, p, end, value, pivot);
    }
  }

  /** The range is rearranged around its last entry: smaller ones before it, the others behind it. */
  lemma PartitionedSplits(s: seq<int>, start: nat, end: nat, value: seq<real>)
    requires start <= end < |s|
    ensures var (r, p) := Partitioned(s, start, end, value); var pivot := ValueAt(s, value, end);
      && start <= p <= end && Rearranged(s, r, start, end + 1)
      && AllBelow(r, start, p, value, pivot) && NoneBelow(r, p, end + 1, value, pivot) && ValueAt(r, value, p) == pivot
  {
    ScanPartitions(s, start, start, start, end, value, ValueAt(s, value, end));
  }

  /** The loop on an array. */
  method PartitionRange(idx: array<int>, start: int, end: int, value: array<real>) returns (p: int)
    requires 0 <= start <= end < idx.Length && Indexes(idx[..], value[..])
    modifies idx
    ensures (idx[..], p) == Partitioned(old(idx[..]), start, end, old(value[..]))
    ensures start <= p <= end && Indexes(idx[..], value[..])
  {
    ghost var s := idx[..];
    var pivot := value[idx[end]];
    p := start;
    for i := start to end
      invariant start <= p <= i && value[..] == old(value[..]) && Indexes(idx[..], value[..])
      invariant Scan(idx[..], i, p, end, value[..], pivot) == Partitioned(s, start, end, value[..])
    {
      if value[idx[i]] < pivot {
        ghost var before := idx[..];
        idx[p], idx[i] := idx[i], idx[p];
        assert idx[..] == Swap(before, p, i);
        p := p + 1;
      }
    }
    ghost var before := idx[..];
    idx[p], idx[end] := idx[end], idx[p];
    assert idx[..] == Swap(before, p, end);
  }

  /** In terms of the entries themselves. */
  lemma PartitionedIs(s: seq<int>, start: nat, end: nat, value: seq<real>)
    requires start <= end < |s| && Indexes(s, value)
    ensures var (r, p) := Partitioned(s, start, end, value);
      && start <= p <= end && r[p] == s[end] && multiset(r) == multiset(s) && Indexes(r, value)
      && (forall k {:trigger r[k]} :: start <= k < p ==> value[r[k]] < value[r[p]])
      && (forall k {:trigger r[k]} :: p <= k <= end ==> value[r[k]] >= value[r[p]])
      && forall k {:trigger r[k]} :: 0 <= k < |r| && !(start <= k <= end) ==> r[k] == s[k]
  {
    PartitionedSplits(s, start, end, value);
    ScanMoves(s, start, start, end, value, ValueAt(s, value, end));
    hide Partitioned;
    var (r, p) := Partitioned(s, start, end, value);
    forall k | 0 <= k < |r|
      ensures 0 <= r[k] < |value|
    {
      assert r[k] in multiset(r);
    }
    assert ValueAt(r, value, p) == value[r[p]];
  }

  /** The last entry goes to the place that is returned. */
  lemma {:induction false} ScanMoves(s: seq<int>, i: nat, p: nat, end: nat, value: seq<real>, pivot: real)
    requires p <= i <= end < |s|
    ensures var (r, q) := Scan(s, i, p, end, value, pivot); 0 <= q < |r| && r[q] == s[end]
    decreases end - i
  {
    if i < end {
      if ValueAt(s, value, i) < pivot { ScanMoves(Swap(s, p, i), i + 1, p + 1, end, value, pivot); } else { ScanMoves(s, i + 1, p, end, value, pivot); }
    }
  }
}
