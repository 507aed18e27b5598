/** The compressed adjacency index of a graph: in-degrees, offsets, and the sources of each vertex's incoming edges. */
module GraphIndex {
  // ----- Record layouts -----

  const EDGE_SIZE: nat := 2
  const VERTEX_SIZE: nat := 3
  const INDEGREE: nat := 0
  const OUTDEGREE: nat := 1
  const IN_NEIGHBORS: nat := 2

  /** The source and the destination of edge `i`. */
  function Src(edges: seq<int>, i: nat): int
    requires i * EDGE_SIZE < |edges|
  {
    edges[i * EDGE_SIZE]
  }

  function Dst(edges: seq<int>, i: nat): int
    requires i * EDGE_SIZE + 1 < |edges|
  {
    edges[i * EDGE_SIZE + 1]
  }

  /** The sources of the first `n` edges that lead to `v`, in the order of the edges. */
  function Sources(edges: seq<int>, n: nat, v: int): (r: seq<int>)
    requires n * EDGE_SIZE <= |edges|
    ensures |r| <= n
  {
    if n == 0 then [] else Sources(edges, n - 1, v) + if Dst(edges, n - 1) == v then [Src(edges, n - 1)] else []
  }

  /** The total in-degree of the vertices below `v`. */
  function Offset(edges: seq<int>, n: nat, v: nat): nat
    requires n * EDGE_SIZE <= |edges|
  {
    if v == 0 then 0 else Offset(edges, n, v - 1) + |Sources(edges, n, v - 1)|
  }

  predicate DestinationsBelow(edges: seq<int>, n: nat, cnt: int)
    requires n * EDGE_SIZE <= |edges|
  {
    forall i {:trigger Dst(edges, i)} :: 0 <= i < n ==> 0 <= Dst(edges, i) < cnt
  }

  // ----- Edges, counted as a set -----

  /** The edges with a given source, by their numbers; edge `i` is the source at 2i and the destination behind it. */
  function EdgesFrom(edges: seq<int>, n: nat, u: int): set<nat>
    requires 2 * n <= |edges|
  {
    set i: nat | i < n && edges[2 * i] == u
  }

  function EdgesTo(edges: seq<int>, n: nat, v: int): set<nat>
    requires 2 * n <= |edges|
  {
    set i: nat | i < n && edges[2 * i + 1] == v
  }

  function EdgesBelow(edges: seq<int>, n: nat, v: int): set<nat>
    requires 2 * n <= |edges|
  {
    set i: nat | i < n && 0 <= edges[2 * i + 1] < v
  }

  lemma {:induction false} OneEdgeFrom(edges: seq<int>, n: nat, u: int)
    requires 2 * n + 2 <= |edges|
    ensures |EdgesFrom(edges, n + 1, u)| == |EdgesFrom(edges, n, u)| + if edges[2 * n] == u then 1 else 0
  {
    var before := EdgesFrom(edges, n, u);
    assert EdgesFrom(edges, n + 1, u) == if edges[2 * n] == u then before + {n} else before;
  }

  /** The in-degree is the number of edges that lead to the vertex. */
  lemma {:induction false} InDegreeIs(edges: seq<int>, n: nat, v: int)
    requires 2 * n <= |edges|
    ensures |Sources(edges, n, v)| == |EdgesTo(edges, n, v)|
  {
    if n == 0 {
      assert EdgesTo(edges, 0, v) == {};
    } else {
      InDegreeIs(edges, n - 1, v);
      OneEdgeTo(edges, n - 1, v);
      assert Dst(edges, n - 1) == edges[2 * (n - 1) + 1];
      hide EdgesTo, Dst;
    }
  }

  lemma {:induction false} OneEdgeTo(edges: seq<int>, n: nat, v: int)
    requires 2 * n + 2 <= |edges|
    ensures |EdgesTo(edges, n + 1, v)| == |EdgesTo(edges, n, v)| + if edges[2 * n + 1] == v then 1 else 0
  {
    var before := EdgesTo(edges, n, v);
    assert EdgesTo(edges, n + 1, v) == if edges[2 * n + 1] == v then before + {n} else before;
  }

  function EdgesBetween(edges: seq<int>, n: nat, u: int, v: int): set<nat>
    requires 2 * n <= |edges|
  {
    set i: nat | i < n && edges[2 * i] == u && edges[2 * i + 1] == v
  }

  lemma {:induction false} OneEdgeBetween(edges: seq<int>, n: nat, u: int, v: int)
    requires 2 * n + 2 <= |edges|
    ensures |EdgesBetween(edges, n + 1, u, v)| == |EdgesBetween(edges, n, u, v)| + if edges[2 * n] == u && edges[2 * n + 1] == v then 1 else 0
  {
    var before := EdgesBetween(edges, n, u, v);
    assert EdgesBetween(edges, n + 1, u, v) == if edges[2 * n] == u && edges[2 * n + 1] == v then before + {n} else before;
  }

  /** Each vertex occurs among the sources as often as there are edges from it. */
  lemma {:induction false} SourcesAre(edges: seq<int>, n: nat, u: int, v: int)
    requires 2 * n <= |edges|
    ensures multiset(Sources(edges, n, v))[u] == |EdgesBetween(edges, n, u, v)|
  {
    hide EdgesBetween, Sources;
    if n == 0 {
      NoSources(edges, u, v);
    } else {
      SourcesAre(edges, n - 1, u, v);
      OneEdgeBetween(edges, n - 1, u, v);
      OneSourceMore(edges, n, u, v);
    }
  }

  lemma {:induction false} NoSources(edges: seq<int>, u: int, v: int)
    ensures multiset(Sources(edges, 0, v))[u] == 0 && |EdgesBetween(edges, 0, u, v)| == 0
  {
    assert EdgesBetween(edges, 0, u, v) == {};
  }

  lemma {:induction false} OneSourceMore(edges: seq<int>, n: nat, u: int, v: int)
    requires 0 < n && 2 * n <= |edges|
    ensures multiset(Sources(edges, n, v))[u] ==
      multiset(Sources(edges, n - 1, v))[u] + if edges[2 * (n - 1)] == u && edges[2 * (n - 1) + 1] == v then 1 else 0
  {
    var before, src := Sources(edges, n - 1, v), edges[2 * (n - 1)];
    assert Sources(edges, n, v) == before + if edges[2 * (n - 1) + 1] == v then [src] else [];
    hide Sources;
    assert multiset(before + [src]) == multiset(before) + multiset{src};
  }

  lemma {:induction false} Together(a: set<nat>, b: set<nat>)
    requires a !! b
    ensures |a + b| == |a| + |b|
  {
  }

  /** The offset is the number of edges that lead to lower vertices. */
  lemma {:induction false} OffsetIs(edges: seq<int>, n: nat, v: nat)
    requires 2 * n <= |edges|
    ensures Offset(edges, n, v) == |EdgesBelow(edges, n, v)|
  {
    if v == 0 {
      assert EdgesBelow(edges, n, 0) == {};
    } else {
      OffsetIs(edges, n, v - 1);
      InDegreeIs(edges, n, v - 1);
      BelowSplit(edges, n, v);
      hide EdgesBelow, EdgesTo, Sources;
    }
  }

  lemma {:induction false} BelowSplit(edges: seq<int>, n: nat, v: nat)
    requires 2 * n <= |edges| && v > 0
    ensures |EdgesBelow(edges, n, v)| == |EdgesBelow(edges, n, v - 1)| + |EdgesTo(edges, n, v - 1)|
  {
    var lower, last := EdgesBelow(edges, n, v - 1), EdgesTo(edges, n, v - 1);
    Together(lower, last);
    assert EdgesBelow(edges, n, v) == lower + last;
  }

  // ----- Slices -----

  lemma {:induction false} SourcesGrow(edges: seq<int>, i: nat, n: nat, v: int)
    requires i <= n && n * EDGE_SIZE <= |edges|
    ensures Sources(edges, i, v) <= Sources(edges, n, v)
    decreases n
  {
    if i < n { SourcesGrow(edges, i, n - 1, v); }
  }

  /** There is a free place in its slice for every edge. */
  lemma RoomForEdge(edges: seq<int>, i: nat, n: nat)
    requires i < n && n * EDGE_SIZE <= |edges|
    ensures var v := Dst(edges, i); |Sources(edges, i, v)| < |Sources(edges, n, v)|
  {
    SourcesGrow(edges, i + 1, n, Dst(edges, i));
  }

  /** Slices follow each other without overlap. */
  lemma {:induction false} SlicesInOrder(edges: seq<int>, n: nat, u: nat, v: nat)
    requires n * EDGE_SIZE <= |edges| && u < v
    ensures Offset(edges, n, u) + |Sources(edges, n, u)| <= Offset(edges, n, v)
    decreases v
  {
    if u < v - 1 { SlicesInOrder(edges, n, u, v - 1); }
  }

  lemma PlacesApart(edges: seq<int>, n: nat, u: nat, v: nat, b: nat)
    requires n * EDGE_SIZE <= |edges| && u != v && b < |Sources(edges, n, v)|
    ensures var place := Offset(edges, n, v) + b;
      place < Offset(edges, n, u) || place >= Offset(edges, n, u) + |Sources(edges, n, u)|
  {
    if u < v { SlicesInOrder(edges, n, u, v); } else { SlicesInOrder(edges, n, v, u); }
  }

  // ----- The slices hold every edge exactly once -----

  lemma {:induction false} OffsetWithEdge(edges: seq<int>, n: nat, v: nat)
    requires n > 0 && n * EDGE_SIZE <= |edges|
    ensures Offset(edges, n, v) == Offset(edges, n - 1, v) + if 0 <= Dst(edges, n - 1) < v then 1 else 0
  {
    if v > 0 { OffsetWithEdge(edges, n, v - 1); }
  }

  lemma {:induction false} NoEdges(edges: seq<int>, v: nat)
    ensures Offset(edges, 0, v) == 0
  {
    if v > 0 { NoEdges(edges, v - 1); }
  }

  lemma {:induction false} OffsetBounded(edges: seq<int>, n: nat, cnt: nat)
    requires n * EDGE_SIZE <= |edges|
    ensures Offset(edges, n, cnt) <= n
    ensures Offset(edges, n, cnt) == n <==> DestinationsBelow(edges, n, cnt)
  {
    if n == 0 {
      NoEdges(edges, cnt);
    } else {
      OffsetBounded(edges, n - 1, cnt);
      OffsetWithEdge(edges, n, cnt);
      DestinationsWithEdge(edges, n, cnt);
      hide Offset, DestinationsBelow;
    }
  }

  lemma {:induction false} DestinationsWithEdge(edges: seq<int>, n: nat, cnt: int)
    requires n > 0 && n * EDGE_SIZE <= |edges|
    ensures DestinationsBelow(edges, n, cnt) <==> DestinationsBelow(edges, n - 1, cnt) && 0 <= Dst(edges, n - 1) < cnt
  {
    hide Dst;
  }

  /** The slices of the first `cnt` vertices cover all edges exactly if all destinations are among these vertices. */
  lemma IndexCoversIff(edges: seq<int>, n: nat, cnt: nat)
    requires n * EDGE_SIZE <= |edges|
    ensures Offset(edges, n, cnt) == n <==> DestinationsBelow(edges, n, cnt)
  {
    OffsetBounded(edges, n, cnt);
  }

  /** Where an edge is filled in, in every state of the filling loop, lies within the index. */
  lemma PlaceInRange(edges: seq<int>, i: nat, n: nat, cnt: nat)
    requires i < n && n * EDGE_SIZE <= |edges| && DestinationsBelow(edges, n, cnt)
    ensures var v := Dst(edges, i); 0 <= v < cnt && Offset(edges, n, v) + |Sources(edges, i, v)| < n
  {
    var v := Dst(edges, i);
    RoomForEdge(edges, i, n);
    SlicesInOrder(edges, n, v, cnt);
    OffsetBounded(edges, n, cnt);
  }

  // ----- The program -----

  /** The index is complete: in-degrees, offsets and slices of the first `cnt` vertices. */
  ghost predicate Indexed(edges: seq<int>, n: nat, cnt: nat, vertices: seq<int>, neighbors: seq<int>)
    requires n * EDGE_SIZE <= |edges| && cnt * VERTEX_SIZE <= |vertices|
  {
    forall v {:trigger Offset(edges, n, v)} :: 0 <= v < cnt ==>
      vertices[v * VERTEX_SIZE + INDEGREE] == |Sources(edges, n, v)| &&
      vertices[v * VERTEX_SIZE + IN_NEIGHBORS] == Offset(edges, n, v) &&
      Offset(edges, n, v) + |Sources(edges, n, v)| <= |neighbors| &&
      neighbors[Offset(edges, n, v)..Offset(edges, n, v) + |Sources(edges, n, v)|] == Sources(edges, n, v)
  }

  predicate Degrees(edges: seq<int>, i: nat, cnt: nat, vertices: seq<int>)
    requires i * EDGE_SIZE <= |edges| && cnt * VERTEX_SIZE <= |vertices|
  {
    forall v {:trigger Sources(edges, i, v)} :: 0 <= v < cnt ==> vertices[v * VERTEX_SIZE + INDEGREE] == |Sources(edges, i, v)|
  }

  /** Each vertex's second cell is the number of edges from it. */
  predicate OutDegrees(edges: seq<int>, i: nat, cnt: nat, vertices: seq<int>)
    requires 2 * i <= |edges| && cnt * 3 <= |vertices|
  {
    forall v {:trigger EdgesFrom(edges, i, v)} :: 0 <= v < cnt ==> vertices[3 * v + 1] == |EdgesFrom(edges, i, v)|
  }

  /** The index in plain terms: a vertex has three cells, of which the first is the number of edges to it and the last the place
      of its slice, behind one place for each edge to a lower vertex; the slice has each vertex as often as there are
      edges from it. */
  ghost predicate Exact(edges: seq<int>, n: nat, cnt: nat, vertices: seq<int>, neighbors: seq<int>)
    requires 2 * n <= |edges| && cnt * 3 <= |vertices|
  {
    forall v: nat {:trigger ExactAt(edges, n, v, vertices, neighbors)} :: v < cnt ==> ExactAt(edges, n, v, vertices, neighbors)
  }

  ghost predicate ExactAt(edges: seq<int>, n: nat, v: nat, vertices: seq<int>, neighbors: seq<int>)
    requires 2 * n <= |edges| && 3 * v + 3 <= |vertices|
  {
    var at, degree := |EdgesBelow(edges, n, v)|, |EdgesTo(edges, n, v)|;
    vertices[3 * v] == degree && vertices[3 * v + 2] == at && at + degree <= |neighbors| &&
    forall u :: multiset(neighbors[at..at + degree])[u] == |EdgesBetween(edges, n, u, v)|
  }

  lemma {:induction false} IndexedIsExact(edges: seq<int>, n: nat, cnt: nat, vertices: seq<int>, neighbors: seq<int>)
    requires 2 * n <= |edges| && cnt * 3 <= |vertices| && Indexed(edges, n, cnt, vertices, neighbors)
    ensures Exact(edges, n, cnt, vertices, neighbors)
  {
    hide Sources, Offset, EdgesTo, EdgesBetween, EdgesBelow;
    forall v: nat | v < cnt
      ensures ExactAt(edges, n, v, vertices, neighbors)
    {
      InDegreeIs(edges, n, v);
      OffsetIs(edges, n, v);
      assert Offset(edges, n, v) == |EdgesBelow(edges, n, v)|;
      forall u
        ensures multiset(Sources(edges, n, v))[u] == |EdgesBetween(edges, n, u, v)|
      {
        SourcesAre(edges, n, u, v);
      }
    }
  }

  lemma {:induction false} NothingCounted(edges: seq<int>, cnt: nat, vertices: seq<int>)
    requires cnt * VERTEX_SIZE <= |vertices|
    requires forall v :: 0 <= v < cnt ==> vertices[v * VERTEX_SIZE + INDEGREE] == vertices[v * VERTEX_SIZE + OUTDEGREE] == 0
    ensures Degrees(edges, 0, cnt, vertices) && OutDegrees(edges, 0, cnt, vertices)
  {
    forall v | 0 <= v < cnt
      ensures vertices[v * VERTEX_SIZE + INDEGREE] == |Sources(edges, 0, v)| && vertices[3 * v + 1] == |EdgesFrom(edges, 0, v)|
    {
      assert vertices[v * VERTEX_SIZE + INDEGREE] == vertices[v * VERTEX_SIZE + OUTDEGREE] == 0;
      assert EdgesFrom(edges, 0, v) == {};
    }
  }

  lemma {:induction false} DegreesWithEdge(edges: seq<int>, i: nat, cnt: nat, before: seq<int>, after: seq<int>)
    requires 2 * i + 2 <= |edges| && cnt * 3 <= |before| == |after| && Degrees(edges, i, cnt, before)
    requires forall v {:trigger after[3 * v]} :: 0 <= v < cnt ==> after[3 * v] == before[3 * v] + if edges[2 * i + 1] == v then 1 else 0
    ensures Degrees(edges, i + 1, cnt, after)
  {
    forall v | 0 <= v < cnt
      ensures after[v * VERTEX_SIZE + INDEGREE] == |Sources(edges, i + 1, v)|
    {
      assert after[3 * v] == before[v * VERTEX_SIZE + INDEGREE] + if edges[2 * i + 1] == v then 1 else 0;
      assert before[v * VERTEX_SIZE + INDEGREE] == |Sources(edges, i, v)|;
    }
  }

  /** The cells of the edge's ends count it, and no other cell has changed. */
  lemma {:induction false} OutDegreesWithEdge(edges: seq<int>, i: nat, cnt: nat, before: seq<int>, after: seq<int>)
    requires 2 * i + 2 <= |edges| && cnt * 3 <= |before| == |after| && OutDegrees(edges, i, cnt, before)
    requires forall v {:trigger after[3 * v + 1]} :: 0 <= v < cnt ==> after[3 * v + 1] == before[3 * v + 1] + if edges[2 * i] == v then 1 else 0
    ensures OutDegrees(edges, i + 1, cnt, after)
  {
    hide EdgesFrom;
    forall v | 0 <= v < cnt
      ensures after[3 * v + 1] == |EdgesFrom(edges, i + 1, v)|
    {
      OneEdgeFrom(edges, i, v);
    }
  }

  method CountDegrees(edges: array<int>, n: nat, cnt: nat, vertices: array<int>)
    requires n * EDGE_SIZE <= edges.Length && cnt * VERTEX_SIZE <= vertices.Length && edges != vertices
    requires DestinationsBelow(edges[..], n, cnt)
    requires forall i {:trigger Src(edges[..], i)} :: 0 <= i < n ==> 0 <= Src(edges[..], i) && Src(edges[..], i) * VERTEX_SIZE + OUTDEGREE < vertices.Length
    modifies vertices
    ensures Degrees(edges[..], n, cnt, vertices[..]) && OutDegrees(edges[..], n, cnt, vertices[..])
  {
    for i := 0 to cnt
      invariant forall v :: 0 <= v < i ==> vertices[v * VERTEX_SIZE + INDEGREE] == vertices[v * VERTEX_SIZE + OUTDEGREE] == 0
    {
      vertices[i * VERTEX_SIZE + INDEGREE] := 0;
      vertices[i * VERTEX_SIZE + OUTDEGREE] := 0;
      vertices[i * VERTEX_SIZE + IN_NEIGHBORS] := 0;
    }
    NothingCounted(edges[..], cnt, vertices[..]);
    hide EdgesFrom, OutDegrees, Degrees, Sources;
    for i := 0 to n
      invariant edges[..] == old(edges[..])
      invariant Degrees(edges[..], i, cnt, vertices[..]) && OutDegrees(edges[..], i, cnt, vertices[..])
    {
      ghost var before := vertices[..];
      assert 0 <= Src(edges[..], i) && 0 <= Dst(edges[..], i) < cnt;
      var src, dst := edges[i * EDGE_SIZE], edges[i * EDGE_SIZE + 1];
      vertices[VERTEX_SIZE * src + OUTDEGREE] := vertices[VERTEX_SIZE * src + OUTDEGREE] + 1;
      vertices[VERTEX_SIZE * dst + INDEGREE] := vertices[VERTEX_SIZE * dst + INDEGREE] + 1;
      DegreesWithEdge(edges[..], i, cnt, before, vertices[..]);
      OutDegreesWithEdge(edges[..], i, cnt, before, vertices[..]);
    }
  }

  method PlaceSlices(ghost edges: seq<int>, ghost n: nat, cnt: nat, vertices: array<int>)
    requires n * EDGE_SIZE <= |edges| && cnt * VERTEX_SIZE <= vertices.Length && Degrees(edges, n, cnt, vertices[..])
    modifies vertices
    ensures Degrees(edges, n, cnt, vertices[..])
    ensures forall v {:trigger Offset(edges, n, v)} :: 0 <= v < cnt ==> vertices[v * VERTEX_SIZE + IN_NEIGHBORS] == Offset(edges, n, v)
  {
    var next := 0;
    for i := 0 to cnt
      invariant Degrees(edges, n, cnt, vertices[..]) && next == Offset(edges, n, i)
      invariant forall v {:trigger Offset(edges, n, v)} :: 0 <= v < i ==> vertices[v * VERTEX_SIZE + IN_NEIGHBORS] == Offset(edges, n, v)
    {
      vertices[VERTEX_SIZE * i + IN_NEIGHBORS] := next;
      assert vertices[i * VERTEX_SIZE + INDEGREE] == |Sources(edges, n, i)|;
      next := next + vertices[VERTEX_SIZE * i + INDEGREE];
    }
  }

  /** The slice of `v` holds the sources of the edges filled in so far. */
  predicate SliceFilled(edges: seq<int>, i: nat, n: nat, v: nat, neighbors: seq<int>)
    requires i * EDGE_SIZE <= |edges| && n * EDGE_SIZE <= |edges|
  {
    var at, own := Offset(edges, n, v), Sources(edges, i, v);
    at + |own| <= |neighbors| && forall k {:trigger own[k]} :: 0 <= k < |own| ==> neighbors[at + k] == own[k]
  }

  predicate Filled(edges: seq<int>, i: nat, n: nat, cnt: nat, neighbors: seq<int>)
    requires i * EDGE_SIZE <= |edges| && n * EDGE_SIZE <= |edges|
  {
    forall v {:trigger SliceFilled(edges, i, n, v, neighbors)} :: 0 <= v < cnt ==> SliceFilled(edges, i, n, v, neighbors)
  }

  lemma OwnSliceFilled(edges: seq<int>, i: nat, n: nat, neighbors: seq<int>)
    requires i < n && n * EDGE_SIZE <= |edges| && Dst(edges, i) >= 0 && SliceFilled(edges, i, n, Dst(edges, i), neighbors)
    requires Offset(edges, n, Dst(edges, i)) + |Sources(edges, i, Dst(edges, i))| < |neighbors|
    ensures var v := Dst(edges, i); var at := Offset(edges, n, v) + |Sources(edges, i, v)|;
      SliceFilled(edges, i + 1, n, v, neighbors[at := Src(edges, i)])
  {
    var v := Dst(edges, i);
    assert Sources(edges, i + 1, v) == Sources(edges, i, v) + [Src(edges, i)];
  }

  lemma OtherSliceFilled(edges: seq<int>, i: nat, n: nat, u: nat, v: nat, neighbors: seq<int>, src: int)
    requires i < n && n * EDGE_SIZE <= |edges| && Dst(edges, i) == v != u && SliceFilled(edges, i, n, u, neighbors)
    requires Offset(edges, n, v) + |Sources(edges, i, v)| < |neighbors|
    ensures SliceFilled(edges, i + 1, n, u, neighbors[Offset(edges, n, v) + |Sources(edges, i, v)| := src])
  {
    hide Sources, Offset, Dst;
    OtherSourcesStay(edges, i, n, u);
    PlacesApart(edges, n, u, v, |Sources(edges, i, v)|);
    UpdatedElsewhere(neighbors, Offset(edges, n, u), Sources(edges, i, u), Offset(edges, n, v) + |Sources(edges, i, v)|, src);
  }

  lemma OtherSourcesStay(edges: seq<int>, i: nat, n: nat, u: nat)
    requires i < n && n * EDGE_SIZE <= |edges| && Dst(edges, i) != u
    ensures Sources(edges, i + 1, u) == Sources(edges, i, u) && |Sources(edges, i, u)| <= |Sources(edges, n, u)|
    ensures |Sources(edges, i, Dst(edges, i))| < |Sources(edges, n, Dst(edges, i))|
  {
    RoomForEdge(edges, i, n);
    SourcesGrow(edges, i, n, u);
    assert Sources(edges, i + 1, u) == Sources(edges, i, u) + [];
  }

  lemma UpdatedElsewhere(neighbors: seq<int>, at: nat, own: seq<int>, p: nat, x: int)
    requires at + |own| <= |neighbors| && p < |neighbors| && (p < at || p >= at + |own|)
    requires forall k {:trigger own[k]} :: 0 <= k < |own| ==> neighbors[at + k] == own[k]
    ensures forall k {:trigger own[k]} :: 0 <= k < |own| ==> neighbors[p := x][at + k] == own[k]
  {
  }

  lemma FilledWithEdge(edges: seq<int>, i: nat, n: nat, cnt: nat, neighbors: seq<int>)
    requires i < n && n * EDGE_SIZE <= |edges| && DestinationsBelow(edges, n, cnt) && n <= |neighbors|
    requires Filled(edges, i, n, cnt, neighbors)
    ensures var v := Dst(edges, i); 0 <= v < cnt && var at := Offset(edges, n, v) + |Sources(edges, i, v)|;
      at < |neighbors| && Filled(edges, i + 1, n, cnt, neighbors[at := Src(edges, i)])
  {
    hide Sources, Offset, SliceFilled;
    PlaceInRange(edges, i, n, cnt);
    var v := Dst(edges, i);
    var neighbors' := neighbors[Offset(edges, n, v) + |Sources(edges, i, v)| := Src(edges, i)];
    forall u {:trigger SliceFilled(edges, i + 1, n, u, neighbors')} | 0 <= u < cnt
      ensures SliceFilled(edges, i + 1, n, u, neighbors')
    {
      assert SliceFilled(edges, i, n, u, neighbors);
      if u == v { OwnSliceFilled(edges, i, n, neighbors); } else { OtherSliceFilled(edges, i, n, u, v, neighbors, Src(edges, i)); }
    }
  }

  /** Fills in the edges one after the other, counting in `filled` how many each vertex has. */
  method FillNeighbors(edges: array<int>, n: nat, cnt: nat, vertices: array<int>, neighbors: array<int>)
    requires n * EDGE_SIZE <= edges.Length && cnt * VERTEX_SIZE <= vertices.Length && n <= neighbors.Length
    requires edges != neighbors && vertices != neighbors && DestinationsBelow(edges[..], n, cnt)
    requires forall v {:trigger Offset(edges[..], n, v)} :: 0 <= v < cnt ==>
      vertices[v * VERTEX_SIZE + IN_NEIGHBORS] == Offset(edges[..], n, v)
    modifies neighbors
    ensures Filled(edges[..], n, n, cnt, neighbors[..])
  {
    hide SliceFilled, Offset;
    ghost var es := edges[..];
    var filled := new int[cnt](_ => 0);
    NothingFilled(es, n, cnt, neighbors[..]);
    for i := 0 to n
      invariant edges[..] == es && vertices[..] == old(vertices[..]) && fresh(filled)
      invariant forall v {:trigger Sources(es, i, v)} :: 0 <= v < cnt ==> filled[v] == |Sources(es, i, v)|
      invariant Filled(es, i, n, cnt, neighbors[..])
    {
      FilledWithEdge(es, i, n, cnt, neighbors[..]);
      var src, dst := edges[i * EDGE_SIZE], edges[i * EDGE_SIZE + 1];
      assert src == Src(es, i) && dst == Dst(es, i);
      assert Sources(es, i, dst) == Sources(es, i, dst);
      var at := vertices[VERTEX_SIZE * dst + IN_NEIGHBORS];
      assert at == Offset(es, n, dst);
      ghost var before := neighbors[..];
      neighbors[at + filled[dst]] := src;
      assert neighbors[..] == before[at + filled[dst] := src];
      filled[dst] := filled[dst] + 1;
    }
  }

  lemma NothingFilled(edges: seq<int>, n: nat, cnt: nat, neighbors: seq<int>)
    requires n * EDGE_SIZE <= |edges| && DestinationsBelow(edges, n, cnt) && n <= |neighbors|
    ensures Filled(edges, 0, n, cnt, neighbors)
  {
    forall v | 0 <= v < cnt
      ensures SliceFilled(edges, 0, n, v, neighbors)
    {
      SlicesInOrder(edges, n, v, cnt);
      OffsetBounded(edges, n, cnt);
    }
  }

  lemma FilledIsIndexed(edges: seq<int>, n: nat, cnt: nat, vertices: seq<int>, neighbors: seq<int>)
    requires n * EDGE_SIZE <= |edges| && cnt * VERTEX_SIZE <= |vertices|
    requires Degrees(edges, n, cnt, vertices) && Filled(edges, n, n, cnt, neighbors)
    requires forall v {:trigger Offset(edges, n, v)} :: 0 <= v < cnt ==> vertices[v * VERTEX_SIZE + IN_NEIGHBORS] == Offset(edges, n, v)
    ensures Indexed(edges, n, cnt, vertices, neighbors)
  {
    forall v | 0 <= v < cnt
      ensures vertices[v * VERTEX_SIZE + INDEGREE] == |Sources(edges, n, v)|
      ensures vertices[v * VERTEX_SIZE + IN_NEIGHBORS] == Offset(edges, n, v)
      ensures Offset(edges, n, v) + |Sources(edges, n, v)| <= |neighbors|
      ensures neighbors[Offset(edges, n, v)..Offset(edges, n, v) + |Sources(edges, n, v)|] == Sources(edges, n, v)
    {
      assert SliceFilled(edges, n, n, v, neighbors);
    }
  }

  /** Builds the index. The number of vertices is the source of the last edge; without one the program aborts. */
  method BuildGraph(edges: array<int>, edgesCnt: nat, vertices: array<int>, neighbors: array<int>) returns (cnt: int)
    requires 0 < edgesCnt && edgesCnt * EDGE_SIZE <= edges.Length && edgesCnt <= neighbors.Length
    requires edges != vertices && edges != neighbors && vertices != neighbors
    requires var cnt := Src(edges[..], edgesCnt - 1); cnt > 0 ==> DestinationsBelow(edges[..], edgesCnt, cnt)
    requires forall i {:trigger Src(edges[..], i)} :: 0 <= i < edgesCnt ==>
      0 <= Src(edges[..], i) && Src(edges[..], i) * VERTEX_SIZE + IN_NEIGHBORS < vertices.Length
    modifies vertices, neighbors
    ensures cnt == Src(old(edges[..]), edgesCnt - 1) && edges[..] == old(edges[..])
    ensures cnt > 0 ==> cnt * VERTEX_SIZE <= vertices.Length && Indexed(edges[..], edgesCnt, cnt, vertices[..], neighbors[..])
    ensures cnt > 0 ==> Offset(edges[..], edgesCnt, cnt) == edgesCnt && Exact(edges[..], edgesCnt, cnt, vertices[..], neighbors[..])
    ensures cnt <= 0 ==> vertices[..] == old(vertices[..]) && neighbors[..] == old(neighbors[..])
  {
    hide Sources, Offset, Degrees, Filled, Indexed, Exact, OutDegrees;
    ghost var es := edges[..];
    cnt := edges[(edgesCnt - 1) * EDGE_SIZE];
    assert cnt == Src(es, edgesCnt - 1);
    if cnt <= 0 {
      return;
    }
    CountDegrees(edges, edgesCnt, cnt, vertices);
    PlaceSlices(es, edgesCnt, cnt, vertices);
    FillNeighbors(edges, edgesCnt, cnt, vertices, neighbors);
    FilledIsIndexed(es, edgesCnt, cnt, vertices[..], neighbors[..]);
    IndexCoversIff(es, edgesCnt, cnt);
    IndexedIsExact(es, edgesCnt, cnt, vertices[..], neighbors[..]);
  }
}
