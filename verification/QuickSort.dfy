/** The iterative quicksort: pending ranges are kept on an explicit stack of bounded size. */
module QuickSort {
  import opened Wrappers
  import opened Partition

  const SORT_STACK_LEN: nat := 10240

  /** A pending range, both ends included; empty if `hi` is `lo - 1`. */
  datatype Segment = Segment(lo: int, hi: int) {
    function Len(): int {
      hi - lo + 1
    }

    predicate Holds(k: int) {
      lo <= k <= hi
    }
  }

  predicate InBounds(seg: Segment, n: nat) {
    0 <= seg.lo <= seg.hi + 1 <= n
  }

  predicate Bounded(stack: seq<Segment>, n: nat) {
    forall j {:trigger stack[j]} :: 0 <= j < |stack| ==> InBounds(stack[j], n)
  }

  /** Each pending range of length n weighs 2n + 1. */
  function Weight(stack: seq<Segment>): (w: int)
    ensures (forall j {:trigger stack[j]} :: 0 <= j < |stack| ==> stack[j].Len() >= 0) ==> w >= 0
  {
    if stack == [] then 0 else Weight(stack[..|stack| - 1]) + 2 * stack[|stack| - 1].Len() + 1
  }

  lemma WeightOf(rest: seq<Segment>, seg: Segment)
    ensures Weight(rest + [seg]) == Weight(rest) + 2 * seg.Len() + 1
  {
    assert (rest + [seg])[..|rest|] == rest;
  }

  function Split(rest: seq<Segment>, seg: Segment, p: int): seq<Segment> {
    rest + [Segment(p + 1, seg.hi)] + [Segment(seg.lo, p - 1)]
  }

  lemma PopIsLighter(rest: seq<Segment>, seg: Segment, n: nat)
    requires Bounded(rest + [seg], n)
    ensures Bounded(rest, n) && InBounds(seg, n) && 0 <= Weight(rest) < Weight(rest + [seg])
  {
    assert (rest + [seg])[|rest|] == seg;
    forall j | 0 <= j < |rest|
      ensures InBounds(rest[j], n)
    {
      assert (rest + [seg])[j] == rest[j];
    }
    WeightOf(rest, seg);
  }

  lemma SplitIsLighter(rest: seq<Segment>, seg: Segment, p: int, n: nat)
    requires Bounded(rest + [seg], n) && seg.lo <= p <= seg.hi
    ensures Bounded(Split(rest, seg, p), n) && 0 <= Weight(Split(rest, seg, p)) < Weight(rest + [seg])
  {
    PopIsLighter(rest, seg, n);
    WeightOf(rest, seg);
    WeightOf(rest, Segment(p + 1, seg.hi));
    WeightOf(rest + [Segment(p + 1, seg.hi)], Segment(seg.lo, p - 1));
  }

  /** The loop, from a stack of pending ranges; `None` if the stack outgrows its array of `cap` entries. */
  function SortFrom(s: seq<int>, stack: seq<Segment>, value: seq<real>, cap: nat): (r: Option<seq<int>>)
    requires Bounded(stack, |s|)
    ensures r.Some? ==> |r.value| == |s|
    decreases Weight(stack)
  {
    if stack == [] then Some(s) else
    var rest, seg := stack[..|stack| - 1], stack[|stack| - 1];
    assert stack == rest + [seg];
    PopIsLighter(rest, seg, |s|);
    if seg.hi - seg.lo > 0 then
      var (t, p) := Partitioned(s, seg.lo, seg.hi, value);
      PartitionedSplits(s, seg.lo, seg.hi, value);
      SplitIsLighter(rest, seg, p, |s|);
      if 2 * |Split(rest, seg, p)| > cap then None else SortFrom(t, Split(rest, seg, p), value, cap)
    else SortFrom(s, rest, value, cap)
  }

  /** One round of the loop. */
  lemma SortStep(s: seq<int>, rest: seq<Segment>, seg: Segment, value: seq<real>, cap: nat)
    requires Bounded(rest + [seg], |s|)
    ensures Bounded(rest, |s|) && InBounds(seg, |s|)
    ensures seg.hi - seg.lo <= 0 ==> SortFrom(s, rest + [seg], value, cap) == SortFrom(s, rest, value, cap)
    ensures seg.hi - seg.lo > 0 ==>
      var (t, p) := Partitioned(s, seg.lo, seg.hi, value);
      seg.lo <= p <= seg.hi && Bounded(Split(rest, seg, p), |s|) &&
      SortFrom(s, rest + [seg], value, cap) ==
        if 2 * |Split(rest, seg, p)| > cap then None else SortFrom(t, Split(rest, seg, p), value, cap)
  {
    PopIsLighter(rest, seg, |s|);
    assert (rest + [seg])[..|rest|] == rest;
    if seg.hi - seg.lo > 0 {
      PartitionedSplits(s, seg.lo, seg.hi, value);
      SplitIsLighter(rest, seg, Partitioned(s, seg.lo, seg.hi, value).1, |s|);
    }
  }

  // ----- The result is sorted -----

  predicate Before(s: seq<int>, a: int, b: int, value: seq<real>) {
    ValueAt(s, value, a) <= ValueAt(s, value, b)
  }

  predicate Sorted(s: seq<int>, lo: int, hi: int, value: seq<real>) {
    forall a, b {:trigger Before(s, a, b, value)} :: lo <= a < b <= hi ==> Before(s, a, b, value)
  }

  predicate Together(stack: seq<Segment>, a: int, b: int) {
    exists j :: 0 <= j < |stack| && stack[j].Holds(a) && stack[j].Holds(b)
  }

  predicate Disjoint(stack: seq<Segment>) {
    forall i, j {:trigger stack[i], stack[j]} :: 0 <= i < j < |stack| ==> stack[i].hi < stack[j].lo || stack[j].hi < stack[i].lo
  }

  predicate Within(stack: seq<Segment>, lo: int, hi: int) {
    forall j {:trigger stack[j]} :: 0 <= j < |stack| ==> lo <= stack[j].lo && stack[j].hi <= hi
  }

  /** All of the range is in order, except for entries that are in one pending range. */
  predicate Almost(s: seq<int>, stack: seq<Segment>, lo: int, hi: int, value: seq<real>) {
    forall a, b {:trigger Before(s, a, b, value)} :: lo <= a < b <= hi ==> Before(s, a, b, value) || Together(stack, a, b)
  }

  predicate Pending(s: seq<int>, stack: seq<Segment>, lo: int, hi: int, value: seq<real>) {
    Bounded(stack, |s|) && Disjoint(stack) && Within(stack, lo, hi) && Almost(s, stack, lo, hi, value)
  }

  lemma PopKeepsPending(s: seq<int>, rest: seq<Segment>, seg: Segment, lo: int, hi: int, value: seq<real>)
    requires Pending(s, rest + [seg], lo, hi, value) && seg.hi - seg.lo <= 0
    ensures Pending(s, rest, lo, hi, value)
  {
    PopIsLighter(rest, seg, |s|);
    var stack := rest + [seg];
    forall i, j | 0 <= i < j < |rest|
      ensures rest[i].hi < rest[j].lo || rest[j].hi < rest[i].lo
    {
      assert stack[i] == rest[i] && stack[j] == rest[j];
    }
    forall j | 0 <= j < |rest|
      ensures lo <= rest[j].lo && rest[j].hi <= hi
    {
      assert stack[j] == rest[j];
    }
    forall a, b | lo <= a < b <= hi
      ensures Before(s, a, b, value) || Together(rest, a, b)
    {
      assert Before(s, a, b, value) || Together(stack, a, b);
      PopTogether(rest, seg, a, b);
    }
  }

  lemma PopTogether(rest: seq<Segment>, seg: Segment, a: int, b: int)
    ensures Together(rest + [seg], a, b) <==> Together(rest, a, b) || (seg.Holds(a) && seg.Holds(b))
  {
    var stack := rest + [seg];
    if Together(rest, a, b) {
      var j :| 0 <= j < |rest| && rest[j].Holds(a) && rest[j].Holds(b);
      assert stack[j] == rest[j];
    }
    if seg.Holds(a) && seg.Holds(b) { assert stack[|rest|] == seg; }
  }

  lemma SplitTogether(rest: seq<Segment>, seg: Segment, p: int, a: int, b: int)
    requires Together(rest, a, b) ||
      (Segment(p + 1, seg.hi).Holds(a) && Segment(p + 1, seg.hi).Holds(b)) ||
      (Segment(seg.lo, p - 1).Holds(a) && Segment(seg.lo, p - 1).Holds(b))
    ensures Together(Split(rest, seg, p), a, b)
  {
    PopTogether(rest, Segment(p + 1, seg.hi), a, b);
    PopTogether(rest + [Segment(p + 1, seg.hi)], Segment(seg.lo, p - 1), a, b);
  }

  /** The pending ranges stay apart, and inside the whole. */
  lemma SplitIsApart(rest: seq<Segment>, seg: Segment, p: int, lo: int, hi: int)
    requires Disjoint(rest + [seg]) && Within(rest + [seg], lo, hi) && seg.lo <= p <= seg.hi
    ensures Disjoint(Split(rest, seg, p)) && Within(Split(rest, seg, p), lo, hi)
  {
    var stack, stack' := rest + [seg], Split(rest, seg, p);
    assert stack[|rest|] == seg;
    forall j | 0 <= j < |rest|
      ensures stack'[j] == rest[j] == stack[j]
    {
    }
    assert stack'[|rest|] == Segment(p + 1, seg.hi) && stack'[|rest| + 1] == Segment(seg.lo, p - 1);
  }

  lemma NotTogetherAcross(rest: seq<Segment>, seg: Segment, a: int, b: int)
    requires Disjoint(rest + [seg]) && ((seg.Holds(a) && !seg.Holds(b)) || (!seg.Holds(a) && seg.Holds(b)))
    ensures !Together(rest + [seg], a, b)
  {
    var stack := rest + [seg];
    assert stack[|rest|] == seg;
  }

  /** What one round does to a range: the facts of partitioning. */
  predicate Parted(s: seq<int>, t: seq<int>, seg: Segment, p: int, value: seq<real>) {
    |s| == |t| && seg.lo <= p <= seg.hi && InBounds(seg, |s|) &&
    AllBelow(t, seg.lo, p, value, ValueAt(t, value, p)) && NoneBelow(t, p, seg.hi + 1, value, ValueAt(t, value, p))
  }

  lemma PairInside(s: seq<int>, t: seq<int>, rest: seq<Segment>, seg: Segment, p: int, value: seq<real>, a: int, b: int)
    requires Parted(s, t, seg, p, value) && seg.lo <= a < b <= seg.hi
    ensures Before(t, a, b, value) || Together(Split(rest, seg, p), a, b)
  {
    if b < p || p < a {
      SplitTogether(rest, seg, p, a, b);
    } else {
      assert ValueAt(t, value, b) >= ValueAt(t, value, p);
      assert a < p ==> ValueAt(t, value, a) < ValueAt(t, value, p);
    }
  }

  lemma PairOutside(s: seq<int>, t: seq<int>, rest: seq<Segment>, seg: Segment, p: int, value: seq<real>, a: int, b: int)
    requires Rearranged(s, t, seg.lo, seg.hi + 1) && !seg.Holds(a) && !seg.Holds(b)
    requires 0 <= a < |s| && 0 <= b < |s|
    requires Before(s, a, b, value) || Together(rest + [seg], a, b)
    ensures Before(t, a, b, value) || Together(Split(rest, seg, p), a, b)
  {
    assert s[a] == t[a] && s[b] == t[b];
    if Together(rest + [seg], a, b) {
      PopTogether(rest, seg, a, b);
      SplitTogether(rest, seg, p, a, b);
    }
  }

  lemma PairAcross(s: seq<int>, t: seq<int>, stack: seq<Segment>, rest: seq<Segment>, seg: Segment, lo: int, hi: int,
                   value: seq<real>, a: int, b: int)
    requires stack == rest + [seg] && Pending(s, stack, lo, hi, value) && Rearranged(s, t, seg.lo, seg.hi + 1)
    requires lo <= a < b <= hi && 0 <= lo && hi < |s| && InBounds(seg, |s|) && seg.Holds(a) != seg.Holds(b)
    ensures Before(t, a, b, value)
  {
    assert stack[|rest|] == seg;
    if seg.Holds(a) {
      var a' := ComesFrom(s, t, seg.lo, seg.hi + 1, a);
      assert t[b] == s[b];
      NotTogetherAcross(rest, seg, a', b);
      assert Before(s, a', b, value);
    } else {
      var b' := ComesFrom(s, t, seg.lo, seg.hi + 1, b);
      assert t[a] == s[a];
      NotTogetherAcross(rest, seg, a, b');
      assert Before(s, a, b', value);
    }
  }

  lemma SplitKeepsPending(s: seq<int>, t: seq<int>, rest: seq<Segment>, seg: Segment, p: int, lo: int, hi: int, value: seq<real>)
    requires Pending(s, rest + [seg], lo, hi, value) && 0 <= lo && hi < |s|
    requires Parted(s, t, seg, p, value) && Rearranged(s, t, seg.lo, seg.hi + 1)
    ensures Pending(t, Split(rest, seg, p), lo, hi, value)
  {
    hide Rearranged, Parted, Together;
    PartedMeans(s, t, seg, p, value);
    SplitIsApart(rest, seg, p, lo, hi);
    SplitIsLighter(rest, seg, p, |s|);
    forall a, b | lo <= a < b <= hi
      ensures Before(t, a, b, value) || Together(Split(rest, seg, p), a, b)
    {
      assert Before(s, a, b, value) || Together(rest + [seg], a, b);
      if seg.Holds(a) && seg.Holds(b) {
        PairInside(s, t, rest, seg, p, value, a, b);
      } else if !seg.Holds(a) && !seg.Holds(b) {
        PairOutside(s, t, rest, seg, p, value, a, b);
      } else {
        PairAcross(s, t, rest + [seg], rest, seg, lo, hi, value, a, b);
      }
    }
  }

  lemma PartedMeans(s: seq<int>, t: seq<int>, seg: Segment, p: int, value: seq<real>)
    requires Parted(s, t, seg, p, value)
    ensures |s| == |t| && seg.lo <= p <= seg.hi && InBounds(seg, |s|)
  {
  }

  /** Once the stack is empty everything is in order, and the entries are those there were. */
  lemma {:induction false} SortFromSorts(s: seq<int>, stack: seq<Segment>, lo: int, hi: int, value: seq<real>, cap: nat)
    requires Pending(s, stack, lo, hi, value) && 0 <= lo && hi < |s|
    ensures var r := SortFrom(s, stack, value, cap);
      r.Some? ==> Sorted(r.value, lo, hi, value) && Rearranged(s, r.value, lo, hi + 1)
    decreases Weight(stack)
  {
    hide SortFrom, Almost, Disjoint, Rearranged, AllBelow, NoneBelow, Within;
    if stack == [] {
      EmptyStack(s, lo, hi, value, cap);
    } else {
      var rest, seg := stack[..|stack| - 1], stack[|stack| - 1];
      assert stack == rest + [seg];
      SortStep(s, rest, seg, value, cap);
      PopIsLighter(rest, seg, |s|);
      if seg.hi - seg.lo > 0 {
        var (t, p) := Partitioned(s, seg.lo, seg.hi, value);
        PartitionedSplits(s, seg.lo, seg.hi, value);
        SplitKeepsPending(s, t, rest, seg, p, lo, hi, value);
        SplitIsLighter(rest, seg, p, |s|);
        SortFromSorts(t, Split(rest, seg, p), lo, hi, value, cap);
        LastIsWithin(rest, seg, lo, hi);
        RearrangedWider(s, t, seg.lo, seg.hi + 1, lo, hi + 1);
        var r := SortFrom(t, Split(rest, seg, p), value, cap);
        if r.Some? { RearrangedTrans(s, t, r.value, lo, hi + 1); }
      } else {
        PopKeepsPending(s, rest, seg, lo, hi, value);
        SortFromSorts(s, rest, lo, hi, value, cap);
      }
    }
  }

  lemma LastIsWithin(rest: seq<Segment>, seg: Segment, lo: int, hi: int)
    requires Within(rest + [seg], lo, hi)
    ensures lo <= seg.lo && seg.hi <= hi
  {
    assert (rest + [seg])[|rest|] == seg;
  }

  lemma EmptyStack(s: seq<int>, lo: int, hi: int, value: seq<real>, cap: nat)
    requires Almost(s, [], lo, hi, value)
    ensures SortFrom(s, [], value, cap) == Some(s) && Sorted(s, lo, hi, value) && Rearranged(s, s, lo, hi + 1)
  {
    assert forall a, b :: !Together([], a, b);
  }

  /** Sorting a range, unless the stack overflows, puts it in order and changes nothing else. */
  lemma SortedRange(s: seq<int>, start: int, end: int, value: seq<real>, cap: nat)
    requires 0 <= start <= end + 1 <= |s|
    ensures Bounded([Segment(start, end)], |s|)
    ensures var r := SortFrom(s, [Segment(start, end)], value, cap);
      r.Some? ==> Sorted(r.value, start, end, value) && Rearranged(s, r.value, start, end + 1)
  {
    var stack := [Segment(start, end)];
    forall a, b | start <= a < b <= end
      ensures Before(s, a, b, value) || Together(stack, a, b)
    {
      assert stack[0].Holds(a) && stack[0].Holds(b);
    }
    SortFromSorts(s, stack, start, end, value, cap);
  }

  // ----- The stack -----

  /** The j-th pending range is so short that there is room for the ones it will be split into. */
  predicate Roomy(stack: seq<Segment>, total: int) {
    forall j {:trigger stack[j]} :: 0 <= j < |stack| ==> 0 <= stack[j].Len() && j + stack[j].Len() <= total
  }

  lemma SplitIsRoomy(rest: seq<Segment>, seg: Segment, p: int, total: int)
    requires Roomy(rest + [seg], total) && seg.lo <= p <= seg.hi && seg.hi - seg.lo > 0
    ensures Roomy(Split(rest, seg, p), total) && |Split(rest, seg, p)| <= total
  {
    var stack, stack' := rest + [seg], Split(rest, seg, p);
    assert stack[|rest|] == seg;
    assert forall j :: 0 <= j < |rest| ==> stack'[j] == rest[j] == stack[j];
  }

  /** A stack with two entries for each element of the range never overflows. */
  lemma {:induction false} RoomyStackSuffices(s: seq<int>, stack: seq<Segment>, value: seq<real>, cap: nat, total: int)
    requires Bounded(stack, |s|) && Roomy(stack, total) && 2 * total <= cap
    ensures SortFrom(s, stack, value, cap).Some?
    decreases Weight(stack)
  {
    hide SortFrom, Partitioned;
    if stack == [] {
      assert SortFrom(s, stack, value, cap) == Some(s) by { EmptyStackSorts(s, value, cap); }
    } else {
      var rest, seg := stack[..|stack| - 1], stack[|stack| - 1];
      assert stack == rest + [seg];
      SortStep(s, rest, seg, value, cap);
      PopIsLighter(rest, seg, |s|);
      if seg.hi - seg.lo > 0 {
        var (t, p) := Partitioned(s, seg.lo, seg.hi, value);
        SplitIsRoomy(rest, seg, p, total);
        SplitIsLighter(rest, seg, p, |s|);
        RoomyStackSuffices(t, Split(rest, seg, p), value, cap, total);
      } else {
        assert forall j :: 0 <= j < |rest| ==> rest[j] == stack[j];
        RoomyStackSuffices(s, rest, value, cap, total);
      }
    }
  }

  lemma EmptyStackSorts(s: seq<int>, value: seq<real>, cap: nat)
    ensures SortFrom(s, [], value, cap) == Some(s)
  {
  }

  predicate Ascending(s: seq<int>, lo: int, hi: int, value: seq<real>) {
    forall a, b {:trigger ValueAt(s, value, a), ValueAt(s, value, b)} ::
      lo <= a < b <= hi ==> ValueAt(s, value, a) < ValueAt(s, value, b)
  }

  lemma {:induction false} ScanOfAscending(s: seq<int>, i: nat, end: nat, value: seq<real>, pivot: real)
    requires i <= end < |s| && forall k {:trigger ValueAt(s, value, k)} :: i <= k < end ==> ValueAt(s, value, k) < pivot
    ensures Scan(s, i, i, end, value, pivot) == (s, end)
    decreases end - i
  {
    hide ValueAt;
    assert Swap(s, i, i) == s;
    if i < end {
      ScanOfAscending(s, i + 1, end, value, pivot);
    }
  }

  /** A range in ascending order loses one element to every round, and its stack grows by one range each time. */
  lemma {:induction false} AscendingOverflows(s: seq<int>, rest: seq<Segment>, lo: nat, hi: nat, value: seq<real>, cap: nat)
    requires Bounded(rest + [Segment(lo, hi)], |s|) && lo < hi < |s| && Ascending(s, lo, hi, value)
    requires 2 * (|rest| + 1 + hi - lo) > cap
    ensures SortFrom(s, rest + [Segment(lo, hi)], value, cap).None?
    decreases hi - lo
  {
    hide SortFrom;
    ScanOfAscending(s, lo, hi, value, ValueAt(s, value, hi));
    var seg := Segment(lo, hi);
    SortStep(s, rest, seg, value, cap);
    assert Split(rest, seg, hi) == (rest + [Segment(hi + 1, hi)]) + [Segment(lo, hi - 1)];
    if hi - 1 > lo {
      AscendingOverflows(s, rest + [Segment(hi + 1, hi)], lo, hi - 1, value, cap);
    }
  }

  /** Ranges of at most half the stack array's size are always sorted ... */
  lemma SortNeverOverflows(s: seq<int>, start: int, end: int, value: seq<real>, cap: nat)
    requires 0 <= start <= end + 1 <= |s| && 2 * (end - start + 1) <= cap
    ensures Bounded([Segment(start, end)], |s|)
    ensures SortFrom(s, [Segment(start, end)], value, cap).Some?
  {
    RoomyStackSuffices(s, [Segment(start, end)], value, cap, end - start + 1);
  }

  /** ... and every longer range makes the program abort if it is in ascending order already. */
  lemma SortOverflows(s: seq<int>, start: nat, end: nat, value: seq<real>, cap: nat)
    requires start < end < |s| && 2 * (end - start + 1) > cap && Ascending(s, start, end, value)
    ensures Bounded([Segment(start, end)], |s|)
    ensures SortFrom(s, [Segment(start, end)], value, cap).None?
  {
    assert [] + [Segment(start, end)] == [Segment(start, end)];
    AscendingOverflows(s, [], start, end, value, cap);
  }

  /** Sorting the range from `start` to `end` of `s`, with a stack array of `cap` entries. */
  function SortRange(s: seq<int>, start: int, end: int, value: seq<real>, cap: nat): Option<seq<int>>
    requires 0 <= start <= end + 1 <= |s|
  {
    SortFrom(s, [Segment(start, end)], value, cap)
  }

  function Identity(n: nat): (s: seq<int>)
    ensures |s| == n && forall k :: 0 <= k < n ==> s[k] == k
  {
    seq(n, k => k)
  }

  function Increasing(n: nat): (s: seq<real>)
    ensures |s| == n && forall k :: 0 <= k < n ==> s[k] == k as real
  {
    seq(n, k requires 0 <= k < n => k as real)
  }

  /** Ranges of `n` elements are sorted whatever they hold exactly if the stack array has room for `2n` entries. */
  lemma SortSucceedsIff(n: nat, cap: nat)
    requires n >= 2
    ensures (forall s, start, end, value {:trigger SortRange(s, start, end, value, cap)} ::
               0 <= start <= end + 1 <= |s| && end - start + 1 == n ==> SortRange(s, start, end, value, cap).Some?) <==>
            2 * n <= cap
  {
    hide SortFrom;
    if 2 * n <= cap {
      forall s: seq<int>, start, end, value: seq<real> | 0 <= start <= end + 1 <= |s| && end - start + 1 == n
        ensures SortRange(s, start, end, value, cap).Some?
      {
        SortNeverOverflows(s, start, end, value, cap);
      }
    } else {
      SortOverflows(Identity(n), 0, n - 1, Increasing(n), cap);
      assert SortRange(Identity(n), 0, n - 1, Increasing(n), cap).None?;
    }
  }

  // ----- The program -----

  /** The first `stop` entries of the stack array, as ranges. */
  function Segments(stack: seq<int>, stop: nat): (r: seq<Segment>)
    requires stop <= |stack| && stop % 2 == 0
    ensures |r| == stop / 2
  {
    seq(stop / 2, j requires 0 <= j < stop / 2 => Segment(stack[2 * j], stack[2 * j + 1]))
  }

  lemma SegmentsPop(stack: seq<int>, stop: nat)
    requires 2 <= stop <= |stack| && stop % 2 == 0
    ensures Segments(stack, stop) == Segments(stack, stop - 2) + [Segment(stack[stop - 2], stack[stop - 1])]
  {
  }

  lemma FirstSegment(stack: seq<int>)
    requires |stack| >= 2
    ensures Segments(stack, 2) == [Segment(stack[0], stack[1])] && Segments(stack, 0) == []
  {
  }

  lemma SegmentsPush(stack: seq<int>, stack': seq<int>, stop: nat, p: int, seg: Segment)
    requires stop + 4 <= |stack| == |stack'| && stop % 2 == 0
    requires stack' == stack[stop := p + 1][stop + 1 := seg.hi][stop + 2 := seg.lo][stop + 3 := p - 1]
    ensures Segments(stack', stop + 4) == Split(Segments(stack, stop), seg, p)
  {
    assert forall j :: 0 <= j < stop / 2 ==> stack'[2 * j] == stack[2 * j] && stack'[2 * j + 1] == stack[2 * j + 1];
    SegmentsPop(stack', stop + 4);
    SegmentsPop(stack', stop + 2);
    assert Segments(stack', stop) == Segments(stack, stop);
  }

  /** Pushes both parts of a range, the left one on top. */
  method Push(stack: array<int>, stop: nat, p: int, seg: Segment) returns (top: nat)
    requires stop + 4 <= stack.Length && stop % 2 == 0
    modifies stack
    ensures top == stop + 4 && Segments(stack[..], top) == Split(old(Segments(stack[..], stop)), seg, p)
  {
    ghost var before := stack[..];
    stack[stop] := p + 1;
    stack[stop + 1] := seg.hi;
    stack[stop + 2] := seg.lo;
    stack[stop + 3] := p - 1;
    SegmentsPush(before, stack[..], stop, p, seg);
    top := stop + 4;
  }

  /** Sorts a range by value, or aborts if too many ranges are pending; up to 5120 entries always fit. */
  method Sort(idx: array<int>, start: int, end: int, value: array<real>) returns (ok: bool)
    requires 0 <= start <= end + 1 <= idx.Length && Indexes(idx[..], value[..])
    modifies idx
    ensures var r := SortRange(old(idx[..]), start, end, old(value[..]), SORT_STACK_LEN);
      (ok <==> r.Some?) && (ok ==> idx[..] == r.value)
    ensures Indexes(idx[..], value[..])
    ensures ok ==> forall a, b {:trigger idx[a], idx[b]} :: start <= a < b <= end ==> value[idx[a]] <= value[idx[b]]
    ensures ok ==> multiset(idx[..]) == multiset(old(idx[..]))
    ensures ok ==> forall k {:trigger idx[k]} :: 0 <= k < idx.Length && !(start <= k <= end) ==> idx[k] == old(idx[k])
    ensures end - start + 1 <= 5120 ==> ok
    ensures end - start + 1 > 5120 && Ascending(old(idx[..]), start, end, value[..]) ==> !ok
  {
    hide SortFrom, Sorted, Rearranged;
    ghost var s := idx[..];
    ok := SortLoop(idx, start, end, value);
    if end - start + 1 <= 5120 {
      SortNeverOverflows(s, start, end, value[..], SORT_STACK_LEN);
    } else if Ascending(s, start, end, value[..]) {
      SortOverflows(s, start, end, value[..], SORT_STACK_LEN);
    }
    if ok { SortedIs(s, idx[..], start, end, value[..], SORT_STACK_LEN); }
  }

  /** The loop with its stack array. The overflow check follows the writes, so the array needs two more entries
      than the check allows. */
  method SortLoop(idx: array<int>, start: int, end: int, value: array<real>) returns (ok: bool)
    requires 0 <= start <= end + 1 <= idx.Length && Indexes(idx[..], value[..])
    modifies idx
    ensures var r := SortRange(old(idx[..]), start, end, old(value[..]), SORT_STACK_LEN);
      (ok <==> r.Some?) && (ok ==> idx[..] == r.value)
    ensures Indexes(idx[..], value[..])
  {
    hide SortFrom, Partitioned, ValueAt, Split, Segments;
    ghost var s := idx[..];
    var stack := new int[SORT_STACK_LEN + 2];
    stack[0], stack[1] := start, end;
    var stop := 2;
    ok := true;
    FirstSegment(stack[..]);
    while stop > 0
      invariant 0 <= stop <= SORT_STACK_LEN && stop % 2 == 0 && fresh(stack) && stack.Length == SORT_STACK_LEN + 2
      invariant value[..] == old(value[..]) && Indexes(idx[..], value[..])
      invariant Bounded(Segments(stack[..], stop), idx.Length)
      invariant SortFrom(idx[..], Segments(stack[..], stop), value[..], SORT_STACK_LEN) ==
                SortRange(s, start, end, value[..], SORT_STACK_LEN)
      decreases Weight(Segments(stack[..], stop))
    {
      SegmentsPop(stack[..], stop);
      stop := stop - 2;
      var lo, hi := stack[stop], stack[stop + 1];
      var seg := Segment(lo, hi);
      ghost var rest := Segments(stack[..], stop);
      PopIsLighter(rest, seg, idx.Length);
      SortStep(idx[..], rest, seg, value[..], SORT_STACK_LEN);
      if hi - lo > 0 {
        var p := PartitionRange(idx, lo, hi, value);
        SplitIsLighter(rest, seg, p, idx.Length);
        stop := Push(stack, stop, p, seg);
        if stop > SORT_STACK_LEN {
          ok := false;
          return;
        }
      }
    }
    EmptyStackSorts(idx[..], value[..], SORT_STACK_LEN);
  }

  /** In terms of the entries themselves. */
  lemma SortedIs(s: seq<int>, r: seq<int>, start: int, end: int, value: seq<real>, cap: nat)
    requires 0 <= start <= end + 1 <= |s| && SortRange(s, start, end, value, cap) == Some(r) && Indexes(r, value)
    ensures |s| == |r| && multiset(r) == multiset(s)
    ensures forall a, b {:trigger r[a], r[b]} :: start <= a < b <= end ==> value[r[a]] <= value[r[b]]
    ensures forall k {:trigger r[k]} :: 0 <= k < |r| && !(start <= k <= end) ==> r[k] == s[k]
  {
    hide SortFrom;
    SortedRange(s, start, end, value, cap);
    forall a, b | start <= a < b <= end
      ensures value[r[a]] <= value[r[b]]
    {
      assert Before(r, a, b, value);
    }
  }
}
