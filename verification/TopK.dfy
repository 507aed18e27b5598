/** In-place selection of the k largest entries, and their listing in order. */
module TopK {
  import opened Wrappers
  import opened Partition
  import opened QuickSort

  /** The loop on the range from `start` to `end`. */
  function SelectFrom(s: seq<int>, start: int, end: int, value: seq<real>, k: nat): (r: seq<int>)
    requires 0 <= start <= end + 1 <= |s|
    ensures |r| == |s|
    decreases end - start + 1
  {
    if end - start + 1 <= k then s else
    var (t, p) := Partitioned(s, start, end, value);
    PartitionedSplits(s, start, end, value);
    var i := end - p + 1;
    if i == k then t
    else if i < k then SelectFrom(t, start, p - 1, value, k - i)
    else SelectFrom(t, p + 1, end, value, k)
  }

  /** No entry of the range before `cut` is larger than one from `cut` on. */
  predicate Cut(s: seq<int>, start: int, cut: int, end: int, value: seq<real>) {
    forall a, b {:trigger Before(s, a, b, value)} :: start <= a < cut <= b <= end ==> Before(s, a, b, value)
  }

  /** Bounds on the values of a range survive its rearrangement. */
  lemma StaysAbove(s: seq<int>, t: seq<int>, lo: int, hi: int, value: seq<real>, pivot: real)
    requires 0 <= lo <= hi <= |s| && Rearranged(s, t, lo, hi) && NoneBelow(s, lo, hi, value, pivot)
    ensures NoneBelow(t, lo, hi, value, pivot)
  {
    forall k | lo <= k < hi
      ensures ValueAt(t, value, k) >= pivot
    {
      var j := ComesFrom(s, t, lo, hi, k);
      assert ValueAt(t, value, k) == ValueAt(s, value, j);
    }
  }

  lemma StaysBelow(s: seq<int>, t: seq<int>, lo: int, hi: int, value: seq<real>, pivot: real)
    requires 0 <= lo <= hi <= |s| && Rearranged(s, t, lo, hi) && AllBelow(s, lo, hi, value, pivot)
    ensures AllBelow(t, lo, hi, value, pivot)
  {
    forall k | lo <= k < hi
      ensures ValueAt(t, value, k) < pivot
    {
      var j := ComesFrom(s, t, lo, hi, k);
      assert ValueAt(t, value, k) == ValueAt(s, value, j);
    }
  }

  lemma Elsewhere(s: seq<int>, t: seq<int>, lo: int, hi: int, value: seq<real>, k: int)
    requires Rearranged(s, t, lo, hi) && !(lo <= k < hi)
    ensures ValueAt(t, value, k) == ValueAt(s, value, k)
  {
    if 0 <= k < |s| { assert s[k] == t[k]; }
  }

  lemma AroundPivot(t: seq<int>, start: int, p: int, end: int, value: seq<real>)
    requires 0 <= start <= p <= end < |t|
    requires AllBelow(t, start, p, value, ValueAt(t, value, p)) && NoneBelow(t, p, end + 1, value, ValueAt(t, value, p))
    ensures Cut(t, start, p, end, value)
  {
    forall a, b | start <= a < p <= b <= end
      ensures Before(t, a, b, value)
    {
      assert ValueAt(t, value, a) < ValueAt(t, value, p) <= ValueAt(t, value, b);
    }
  }

  /** Too few entries from the pivot on: the rest is selected from those before it. */
  lemma CutBefore(t: seq<int>, r: seq<int>, start: int, p: int, end: int, value: seq<real>, cut: int)
    requires 0 <= start <= p <= end < |t|
    requires AllBelow(t, start, p, value, ValueAt(t, value, p)) && NoneBelow(t, p, end + 1, value, ValueAt(t, value, p))
    requires Rearranged(t, r, start, p) && Cut(r, start, cut, p - 1, value) && cut <= p
    ensures Cut(r, start, cut, end, value)
  {
    var pivot := ValueAt(t, value, p);
    StaysBelow(t, r, start, p, value, pivot);
    forall a, b | start <= a < cut <= b <= end
      ensures Before(r, a, b, value)
    {
      if p <= b {
        Elsewhere(t, r, start, p, value, b);
        assert ValueAt(t, value, b) >= pivot;
        assert ValueAt(r, value, a) < pivot;
      }
    }
  }

  /** Too many: they are selected from those behind the pivot. */
  lemma CutBehind(t: seq<int>, r: seq<int>, start: int, p: int, end: int, value: seq<real>, cut: int)
    requires 0 <= start <= p <= end < |t|
    requires AllBelow(t, start, p, value, ValueAt(t, value, p)) && NoneBelow(t, p, end + 1, value, ValueAt(t, value, p))
    requires Rearranged(t, r, p + 1, end + 1) && Cut(r, p + 1, cut, end, value) && p < cut
    ensures Cut(r, start, cut, end, value)
  {
    var pivot := ValueAt(t, value, p);
    StaysAbove(t, r, p + 1, end + 1, value, pivot);
    forall a, b | start <= a < cut <= b <= end
      ensures Before(r, a, b, value)
    {
      if a <= p {
        Elsewhere(t, r, p + 1, end + 1, value, a);
        assert ValueAt(t, value, a) <= pivot;
        assert ValueAt(r, value, b) >= pivot;
      }
    }
  }

  /** Selection permutes the range so that none of its last `k` entries is smaller than one before them. */
  lemma {:induction false} SelectedAreLargest(s: seq<int>, start: int, end: int, value: seq<real>, k: nat)
    requires 0 <= start <= end + 1 <= |s|
    ensures var r := SelectFrom(s, start, end, value, k);
      Rearranged(s, r, start, end + 1) && Cut(r, start, end + 1 - k, end, value)
    decreases end - start + 1
  {
    hide AllBelow, NoneBelow, Rearranged, Cut;
    if end - start + 1 <= k {
      NothingToSelect(s, start, end, value, k);
    } else {
      var (t, p) := Partitioned(s, start, end, value);
      PartitionedSplits(s, start, end, value);
      AroundPivot(t, start, p, end, value);
      var i := end - p + 1;
      var r := SelectFrom(s, start, end, value, k);
      if i < k {
        SelectedAreLargest(t, start, p - 1, value, k - i);
        CutBefore(t, r, start, p, end, value, end + 1 - k);
        RearrangedWider(t, r, start, p, start, end + 1);
        RearrangedTrans(s, t, r, start, end + 1);
      } else if i > k {
        SelectedAreLargest(t, p + 1, end, value, k);
        CutBehind(t, r, start, p, end, value, end + 1 - k);
        RearrangedWider(t, r, p + 1, end + 1, start, end + 1);
        RearrangedTrans(s, t, r, start, end + 1);
      }
    }
  }

  lemma NothingToSelect(s: seq<int>, start: int, end: int, value: seq<real>, k: nat)
    requires end - start + 1 <= k
    ensures Rearranged(s, s, start, end + 1) && Cut(s, start, end + 1 - k, end, value)
  {
  }

  /** Moves the `k` largest entries of a range to its end. */
  method SelectTopk(idx: array<int>, start: int, end: int, value: array<real>, k: nat)
    requires 0 <= start <= end + 1 <= idx.Length && Indexes(idx[..], value[..])
    modifies idx
    ensures idx[..] == SelectFrom(old(idx[..]), start, end, old(value[..]), k)
    ensures Indexes(idx[..], value[..])
    ensures forall a, b {:trigger idx[a], idx[b]} :: start <= a < end + 1 - k <= b <= end ==> value[idx[a]] <= value[idx[b]]
    ensures multiset(idx[..]) == multiset(old(idx[..]))
    ensures forall j {:trigger idx[j]} :: 0 <= j < idx.Length && !(start <= j <= end) ==> idx[j] == old(idx[j])
  {
    SelectLoop(idx, start, end, value, k);
    SelectedIs(old(idx[..]), idx[..], start, end, value[..], k);
    hide SelectFrom;
  }

  /** In terms of the entries themselves. */
  lemma SelectedIs(s: seq<int>, r: seq<int>, start: int, end: int, value: seq<real>, k: nat)
    requires 0 <= start <= end + 1 <= |s| && r == SelectFrom(s, start, end, value, k) && Indexes(r, value)
    ensures |s| == |r| && multiset(r) == multiset(s)
    ensures forall a, b {:trigger r[a], r[b]} :: start <= a < end + 1 - k <= b <= end ==> value[r[a]] <= value[r[b]]
    ensures forall j {:trigger r[j]} :: 0 <= j < |r| && !(start <= j <= end) ==> r[j] == s[j]
  {
    hide SelectFrom;
    SelectedAreLargest(s, start, end, value, k);
    forall a, b | start <= a < end + 1 - k <= b <= end
      ensures value[r[a]] <= value[r[b]]
    {
      assert Before(r, a, b, value);
    }
  }

  /** The loop on an array. */
  method SelectLoop(idx: array<int>, start: int, end: int, value: array<real>, k: nat)
    requires 0 <= start <= end + 1 <= idx.Length && Indexes(idx[..], value[..])
    modifies idx
    ensures idx[..] == SelectFrom(old(idx[..]), start, end, old(value[..]), k)
    ensures Indexes(idx[..], value[..])
  {
    hide Partitioned;
    ghost var s := idx[..];
    var lo, hi, left := start, end, k;
    while true
      invariant 0 <= lo <= hi + 1 <= idx.Length && 0 <= left
      invariant value[..] == old(value[..]) && Indexes(idx[..], value[..])
      invariant SelectFrom(idx[..], lo, hi, value[..], left) == SelectFrom(s, start, end, value[..], k)
      decreases hi - lo + 1
    {
      if hi - lo + 1 <= left {
        return;
      }
      var p := PartitionRange(idx, lo, hi, value);
      var i := hi - p + 1;
      if i == left {
        return;
      } else if i < left {
        hi := p - 1;
        left := left - i;
      } else {
        lo := p + 1;
      }
    }
  }

  // ----- Listing the largest entries -----

  /** Selection of the last `k` entries and then sorting them, as the program's final task does. */
  function TopkFrom(s: seq<int>, value: seq<real>, k: nat, cap: nat): Option<seq<int>>
    requires k <= |s|
  {
    SortRange(SelectFrom(s, 0, |s| - 1, value, k), |s| - k, |s| - 1, value, cap)
  }

  lemma CutStays(s: seq<int>, r: seq<int>, cut: nat, value: seq<real>)
    requires Cut(s, 0, cut, |s| - 1, value) && Rearranged(s, r, cut, |s|) && cut <= |s|
    ensures Cut(r, 0, cut, |s| - 1, value)
  {
    forall a, b | 0 <= a < cut <= b <= |s| - 1
      ensures Before(r, a, b, value)
    {
      Elsewhere(s, r, cut, |s|, value, a);
      var b' := ComesFrom(s, r, cut, |s|, b);
      assert Before(s, a, b', value);
    }
  }

  /** The listing is a permutation whose last `k` entries are in order and no smaller than any of the others. */
  lemma TopkIsRight(s: seq<int>, value: seq<real>, k: nat, cap: nat)
    requires k <= |s|
    ensures var r := TopkFrom(s, value, k, cap);
      (2 * k <= cap ==> r.Some?) &&
      (r.Some? ==>
         |r.value| == |s| && multiset(r.value) == multiset(s) && Sorted(r.value, |s| - k, |s| - 1, value) &&
         Cut(r.value, 0, |s| - k, |s| - 1, value))
  {
    hide SortFrom, SelectFrom, Cut, Sorted;
    var t := SelectFrom(s, 0, |s| - 1, value, k);
    SelectedAreLargest(s, 0, |s| - 1, value, k);
    SortedRange(t, |s| - k, |s| - 1, value, cap);
    if 2 * k <= cap { SortNeverOverflows(t, |s| - k, |s| - 1, value, cap); }
    var r := SortRange(t, |s| - k, |s| - 1, value, cap);
    if r.Some? { CutStays(t, r.value, |s| - k, value); }
  }

  const TOPK_K: nat := 100

  /** The program's listing. It takes at least TOPK_K vertices for granted; `false` is an abort. */
  method Topk(value: array<real>) returns (idx: array<int>, ok: bool)
    requires value.Length >= TOPK_K
    ensures fresh(idx) && idx.Length == value.Length && ok
    ensures multiset(idx[..]) == multiset(Identity(value.Length))
    ensures Sorted(idx[..], idx.Length - TOPK_K, idx.Length - 1, value[..])
    ensures Cut(idx[..], 0, idx.Length - TOPK_K, idx.Length - 1, value[..])
    ensures multiset(idx[..]) == multiset(seq(value.Length, i => i)) && Indexes(idx[..], value[..])
    ensures forall a, b {:trigger idx[a], idx[b]} :: 0 <= a < b < idx.Length && b >= idx.Length - 100 ==> value[idx[a]] <= value[idx[b]]
  {
    hide SortFrom, SelectFrom, Cut, Sorted;
    idx := new int[value.Length](i => i);
    assert idx[..] == Identity(value.Length);
    SelectTopk(idx, 0, idx.Length - 1, value, TOPK_K);
    ok := Sort(idx, idx.Length - TOPK_K, idx.Length - 1, value);
    TopkIsRight(Identity(value.Length), value[..], TOPK_K, SORT_STACK_LEN);
    ListedIs(idx[..], value[..]);
  }

  /** In terms of the entries themselves. */
  lemma ListedIs(r: seq<int>, value: seq<real>)
    requires |r| >= 100 && Indexes(r, value) && Sorted(r, |r| - 100, |r| - 1, value) && Cut(r, 0, |r| - 100, |r| - 1, value)
    ensures forall a, b {:trigger r[a], r[b]} :: 0 <= a < b < |r| && b >= |r| - 100 ==> value[r[a]] <= value[r[b]]
  {
    forall a, b | 0 <= a < b < |r| && b >= |r| - 100
      ensures value[r[a]] <= value[r[b]]
    {
      assert Before(r, a, b, value);
    }
  }
}
