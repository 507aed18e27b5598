/** How local variables are laid out in a frame: nested blocks below their parents, blocks side by side on the
    same memory. */
module FrameLayout {
  import opened ParameterSlots

  /** A symbol of a block. Types, labels and functions have no address, but take up their size all the same. */
  datatype Sym = Sym(size: nat, addressed: bool)

  /** A scope's symbols in the order of their table, and its children. */
  datatype Scope = Scope(isBlock: bool, symbols: seq<Sym>, children: seq<Scope>)

  /** What allocation assigns: the symbols' addresses, the same for each child, and the memory size. */
  datatype Layout = Layout(addresses: seq<int>, children: seq<Layout>, size: nat)

  // ----- Allocation, as a function -----

  /** The rounded sizes of the first `n` symbols. */
  function SizeUpTo(symbols: seq<Sym>, n: nat): (r: nat)
    requires n <= |symbols|
    ensures r % 8 == 0
  {
    if n == 0 then 0 else SizeUpTo(symbols, n - 1) + RoundUp(symbols[n - 1].size)
  }

  function AddressOf(symbols: seq<Sym>, start: int, i: nat): int
    requires i < |symbols|
  {
    if symbols[i].addressed then start - SizeUpTo(symbols, i + 1) else 0
  }

  function Larger(a: nat, b: nat): nat {
    if a > b then a else b
  }

  function ChildLayouts(children: seq<Scope>, pos: int): (r: seq<Layout>)
    ensures |r| == |children|
    decreases children
  {
    if children == [] then [] else
    var n := |children| - 1;
    ChildLayouts(children[..n], pos) + [if children[n].isBlock then LayoutOf(children[n], pos) else Layout([], [], 0)]
  }

  function LargestChild(layouts: seq<Layout>): nat {
    if layouts == [] then 0 else Larger(LargestChild(layouts[..|layouts| - 1]), layouts[|layouts| - 1].size)
  }

  function LayoutOf(scope: Scope, start: int): (r: Layout)
    ensures |r.addresses| == |scope.symbols| && |r.children| == |scope.children|
    decreases scope
  {
    var own := SizeUpTo(scope.symbols, |scope.symbols|);
    var children := ChildLayouts(scope.children, start - own);
    Layout(seq(|scope.symbols|, i requires 0 <= i < |scope.symbols| => AddressOf(scope.symbols, start, i)),
           children, own + LargestChild(children))
  }

  lemma {:induction false} OneMoreChild(children: seq<Scope>, i: nat, pos: int, layouts: seq<Layout>, child: Layout)
    requires i < |children| && layouts == ChildLayouts(children[..i], pos)
    requires child == if children[i].isBlock then LayoutOf(children[i], pos) else Layout([], [], 0)
    ensures layouts + [child] == ChildLayouts(children[..i + 1], pos)
    ensures LargestChild(layouts + [child]) == Larger(LargestChild(layouts), child.size)
  {
    hide LayoutOf;
    assert children[..i + 1][..i] == children[..i];
    assert (layouts + [child])[..i] == layouts;
  }

  // ----- Allocation, as the program does it -----

  method AllocateBlock(scope: Scope, startOffset: int) returns (layout: Layout)
    ensures layout == LayoutOf(scope, startOffset)
    decreases scope
  {
    hide RoundUp;
    var totalSize, pos := 0, startOffset;
    var addresses := [];
    for i := 0 to |scope.symbols|
      invariant totalSize == SizeUpTo(scope.symbols, i) && pos == startOffset - totalSize && |addresses| == i
      invariant forall j :: 0 <= j < i ==> addresses[j] == AddressOf(scope.symbols, startOffset, j)
    {
      var size := RoundUp(scope.symbols[i].size);
      pos := pos - size;
      addresses := addresses + [if scope.symbols[i].addressed then pos else 0];
      totalSize := totalSize + size;
    }
    var maxChildSize := 0;
    var layouts := [];
    for i := 0 to |scope.children|
      invariant layouts == ChildLayouts(scope.children[..i], pos) && maxChildSize == LargestChild(layouts)
    {
      var child := Layout([], [], 0);
      if scope.children[i].isBlock {
        child := AllocateBlock(scope.children[i], pos);
      }
      if child.size > maxChildSize {
        maxChildSize := child.size;
      }
      OneMoreChild(scope.children, i, pos, layouts, child);
      layouts := layouts + [child];
    }
    assert scope.children[..|scope.children|] == scope.children;
    layout := Layout(addresses, layouts, totalSize + maxChildSize);
  }

  lemma {:induction false} ChildLayoutAt(children: seq<Scope>, pos: int, i: nat)
    requires i < |children|
    ensures ChildLayouts(children, pos)[i] == if children[i].isBlock then LayoutOf(children[i], pos) else Layout([], [], 0)
    decreases |children|
  {
    hide LayoutOf;
    if i < |children| - 1 { ChildLayoutAt(children[..|children| - 1], pos, i); }
  }

  lemma {:induction false} LargestIsReached(layouts: seq<Layout>)
    ensures forall i :: 0 <= i < |layouts| ==> layouts[i].size <= LargestChild(layouts)
    ensures layouts != [] ==> exists i :: 0 <= i < |layouts| && layouts[i].size == LargestChild(layouts)
    ensures layouts == [] ==> LargestChild(layouts) == 0
  {
    if layouts != [] {
      var front := layouts[..|layouts| - 1];
      LargestIsReached(front);
      assert forall i :: 0 <= i < |front| ==> layouts[i] == front[i];
      if front != [] && LargestChild(front) >= layouts[|layouts| - 1].size {
        var i :| 0 <= i < |front| && front[i].size == LargestChild(front);
        assert layouts[i].size == LargestChild(layouts);
      } else {
        assert layouts[|layouts| - 1].size == LargestChild(layouts);
      }
    }
  }

  // ----- Blocks by their paths -----

  /** The steps lead from a scope to one of the blocks nested in it. */
  predicate IsPath(scope: Scope, path: seq<nat>)
    decreases path
  {
    path == [] || (path[0] < |scope.children| && scope.children[path[0]].isBlock && IsPath(scope.children[path[0]], path[1..]))
  }

  function BlockAt(scope: Scope, path: seq<nat>): Scope
    requires IsPath(scope, path)
    decreases path
  {
    if path == [] then scope else BlockAt(scope.children[path[0]], path[1..])
  }

  function LayoutAt(scope: Scope, start: int, path: seq<nat>): (r: Layout)
    requires IsPath(scope, path)
    ensures |r.addresses| == |BlockAt(scope, path).symbols|
    decreases path
  {
    if path == [] then LayoutOf(scope, start) else
    LayoutAt(scope.children[path[0]], start - SizeUpTo(scope.symbols, |scope.symbols|), path[1..])
  }

  /** The rounded sizes of all symbols on the way. */
  function PathSize(scope: Scope, path: seq<nat>): (r: nat)
    requires IsPath(scope, path)
    ensures r % 8 == 0
    decreases path
  {
    SizeUpTo(scope.symbols, |scope.symbols|) + if path == [] then 0 else PathSize(scope.children[path[0]], path[1..])
  }

  /** The part of a layout that a path leads to. */
  function PartAt(layout: Layout, path: seq<nat>): Layout
    decreases path
  {
    if path == [] || path[0] >= |layout.children| then layout else PartAt(layout.children[path[0]], path[1..])
  }

  /** The addresses that a nested block has in the whole layout are those it gets when its parent's position is reached. */
  lemma {:induction false} LayoutAtIsPart(scope: Scope, start: int, path: seq<nat>)
    requires IsPath(scope, path)
    ensures LayoutAt(scope, start, path) == PartAt(LayoutOf(scope, start), path)
    decreases path
  {
    hide SizeUpTo, ChildLayouts, LargestChild, AddressOf;
    if path != [] {
      var pos := start - SizeUpTo(scope.symbols, |scope.symbols|);
      ChildLayoutAt(scope.children, pos, path[0]);
      LayoutAtIsPart(scope.children[path[0]], pos, path[1..]);
    }
  }

  /** The memory size is what the largest path takes up ... */
  lemma {:induction false} PathsFit(scope: Scope, start: int, path: seq<nat>)
    requires IsPath(scope, path)
    ensures PathSize(scope, path) <= LayoutOf(scope, start).size
    decreases path
  {
    hide SizeUpTo, ChildLayouts, LargestChild;
    if path != [] {
      var pos := start - SizeUpTo(scope.symbols, |scope.symbols|);
      var children := ChildLayouts(scope.children, pos);
      PathsFit(scope.children[path[0]], pos, path[1..]);
      ChildLayoutAt(scope.children, pos, path[0]);
      LargestIsReached(children);
      assert children[path[0]].size <= LargestChild(children);
    }
  }

  /** ... and some path takes up all of it. */
  lemma {:induction false} SomePathFills(scope: Scope, start: int) returns (path: seq<nat>)
    ensures IsPath(scope, path) && PathSize(scope, path) == LayoutOf(scope, start).size
    decreases scope
  {
    hide SizeUpTo, ChildLayouts, LargestChild, AddressOf;
    var pos := start - SizeUpTo(scope.symbols, |scope.symbols|);
    var children := ChildLayouts(scope.children, pos);
    LargestIsReached(children);
    if LargestChild(children) == 0 {
      path := [];
    } else {
      var i :| 0 <= i < |children| && children[i].size == LargestChild(children);
      ChildLayoutAt(scope.children, pos, i);
      var rest := SomePathFills(scope.children[i], pos);
      path := [i] + rest;
      assert path[1..] == rest;
    }
  }

  // ----- Slots -----

  lemma {:induction false} SizesGrow(symbols: seq<Sym>, i: nat, j: nat)
    requires i <= j <= |symbols|
    ensures SizeUpTo(symbols, i) <= SizeUpTo(symbols, j)
    decreases j
  {
    if i < j { SizesGrow(symbols, i, j - 1); }
  }

  /** A block's slots lie directly below the memory of the blocks around it. */
  lemma {:induction false} SlotPosition(scope: Scope, start: int, path: seq<nat>, i: nat)
    requires IsPath(scope, path)
    requires var b := BlockAt(scope, path); i < |b.symbols| && b.symbols[i].addressed
    ensures var b := BlockAt(scope, path);
      LayoutAt(scope, start, path).addresses[i] ==
        start - PathSize(scope, path) + SizeUpTo(b.symbols, |b.symbols|) - SizeUpTo(b.symbols, i + 1)
    ensures SizeUpTo(BlockAt(scope, path).symbols, |BlockAt(scope, path).symbols|) <= PathSize(scope, path)
    decreases path
  {
    if path != [] {
      SlotPosition(scope.children[path[0]], start - SizeUpTo(scope.symbols, |scope.symbols|), path[1..], i);
    }
  }

  /** Every slot is aligned and inside the frame. */
  lemma {:induction false} SlotsAreInFrame(scope: Scope, start: int, path: seq<nat>, i: nat)
    requires IsPath(scope, path) && start % 8 == 0
    requires var b := BlockAt(scope, path); i < |b.symbols| && b.symbols[i].addressed
    ensures var at := LayoutAt(scope, start, path).addresses[i]; var size := RoundUp(BlockAt(scope, path).symbols[i].size);
      at % 8 == 0 && start - LayoutOf(scope, start).size <= at && at + size <= start
  {
    hide LayoutOf, LayoutAt, RoundUp, SizeUpTo, PathSize;
    var b := BlockAt(scope, path);
    SlotPosition(scope, start, path, i);
    Aligned(start, PathSize(scope, path), SizeUpTo(b.symbols, |b.symbols|), SizeUpTo(b.symbols, i + 1));
    PathsFit(scope, start, path);
    SizesGrow(b.symbols, i + 1, |b.symbols|);
    SizeStep(b.symbols, i);
  }

  lemma {:induction false} Aligned(a: int, b: int, c: int, d: int)
    requires a % 8 == 0 && b % 8 == 0 && c % 8 == 0 && d % 8 == 0
    ensures (a - b + c - d) % 8 == 0
  {
  }

  lemma {:induction false} SizeStep(symbols: seq<Sym>, i: nat)
    requires i < |symbols|
    ensures SizeUpTo(symbols, i + 1) == SizeUpTo(symbols, i) + RoundUp(symbols[i].size)
  {
  }

  /** A nested block lies below the symbols of the blocks around it. */
  lemma {:induction false} NestedIsBelow(scope: Scope, path: seq<nat>, more: seq<nat>)
    requires IsPath(scope, path + more) && more != []
    ensures IsPath(scope, path)
    ensures var inner := BlockAt(scope, path + more);
      PathSize(scope, path) <= PathSize(scope, path + more) - SizeUpTo(inner.symbols, |inner.symbols|)
    decreases path
  {
    if path == [] {
      assert path + more == more;
      InnermostFits(scope.children[more[0]], more[1..]);
    } else {
      assert (path + more)[1..] == path[1..] + more;
      NestedIsBelow(scope.children[path[0]], path[1..], more);
    }
  }

  lemma {:induction false} InnermostFits(scope: Scope, path: seq<nat>)
    requires IsPath(scope, path)
    ensures SizeUpTo(BlockAt(scope, path).symbols, |BlockAt(scope, path).symbols|) <= PathSize(scope, path)
    decreases path
  {
    if path != [] { InnermostFits(scope.children[path[0]], path[1..]); }
  }

  /** Two variables of the same block, or of a block and one nested in it, never share memory. */
  lemma {:induction false} SlotsAreDisjoint(scope: Scope, start: int, path: seq<nat>, more: seq<nat>, i: nat, j: nat)
    requires IsPath(scope, path) && IsPath(scope, path + more)
    requires i < |BlockAt(scope, path).symbols| && BlockAt(scope, path).symbols[i].addressed
    requires j < |BlockAt(scope, path + more).symbols| && BlockAt(scope, path + more).symbols[j].addressed
    requires more == [] ==> i < j
    ensures var a := LayoutAt(scope, start, path).addresses[i];
      var b := LayoutAt(scope, start, path + more).addresses[j];
      b + RoundUp(BlockAt(scope, path + more).symbols[j].size) <= a
  {
    hide LayoutOf, LayoutAt, PathSize, RoundUp;
    var outer, inner := BlockAt(scope, path), BlockAt(scope, path + more);
    SlotPosition(scope, start, path, i);
    SlotPosition(scope, start, path + more, j);
    assert SizeUpTo(inner.symbols, j + 1) == SizeUpTo(inner.symbols, j) + RoundUp(inner.symbols[j].size);
    if more == [] {
      assert path + more == path;
      SizesGrow(outer.symbols, i + 1, j);
    } else {
      NestedIsBelow(scope, path, more);
      SizesGrow(outer.symbols, i + 1, |outer.symbols|);
    }
  }
}
