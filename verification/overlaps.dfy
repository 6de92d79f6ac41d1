/** Overlap detection (`FindOverlappingChunks` in
    `HighResolutionOrthoImagery.py`, `find_overlapping_chunks` in
    `main_arch.py`). The projected polygons are represented by what the
    algorithm asks of them: each footprint's area, whether two footprints
    intersect, and the area of their intersection. The R-tree is represented
    by the candidate list its query returns for each footprint. */
module Overlaps {
  import opened Wrappers

  /** An overlap edge `(i, j, ratio)`. */
  datatype Edge = Edge(i: nat, j: nat, ratio: real)

  /** Geometry of `n` projected footprints: `area[i]`, `meets[i][j]`
      (`intersects`), and `shared[i][j]` (the intersection's area). */
  datatype Geometry = Geometry(area: seq<real>, meets: seq<seq<bool>>, shared: seq<seq<real>>)

  function Count(g: Geometry): nat {
    |g.area|
  }

  /** Areas are non-negative and both relations are square and symmetric. */
  predicate WellFormed(g: Geometry) {
    && |g.meets| == Count(g) && |g.shared| == Count(g)
    && (forall i :: 0 <= i < Count(g) ==> |g.meets[i]| == Count(g) && |g.shared[i]| == Count(g))
    && (forall i :: 0 <= i < Count(g) ==> g.area[i] >= 0.0)
    && (forall i, j :: 0 <= i < Count(g) && 0 <= j < Count(g) ==> g.meets[i][j] == g.meets[j][i])
    && (forall i, j :: 0 <= i < Count(g) && 0 <= j < Count(g) ==> g.shared[i][j] == g.shared[j][i])
  }

  /** The R-tree returns, for every footprint, indices of stored footprints. */
  predicate IndexWithin(g: Geometry, index: seq<seq<nat>>) {
    && |index| == Count(g)
    && forall i, k :: 0 <= i < |index| && 0 <= k < |index[i]| ==> index[i][k] < Count(g)
  }

  /** The R-tree query for footprint `i` returns at least every footprint that
      truly intersects it (its bounding box intersects theirs). */
  predicate CoversIntersecting(g: Geometry, index: seq<seq<nat>>)
    requires WellFormed(g) && IndexWithin(g, index)
  {
    forall i, j :: 0 <= i < Count(g) && 0 <= j < Count(g) && g.meets[i][j] ==> j in index[i]
  }

  /** `min(poly.area, poly_j.area)`. */
  function MinArea(g: Geometry, i: nat, j: nat): real
    requires WellFormed(g) && i < Count(g) && j < Count(g)
  {
    if g.area[j] < g.area[i] then g.area[j] else g.area[i]
  }

  /** The edges the source promises: `i < j`, the footprints intersect, the
      smaller area is non-zero, the ratio is the intersection area over the
      smaller area, and it reaches the threshold (inclusively). */
  predicate IsOverlapEdge(g: Geometry, threshold: real, e: Edge)
    requires WellFormed(g)
  {
    && e.i < e.j < Count(g)
    && g.meets[e.i][e.j]
    && MinArea(g, e.i, e.j) != 0.0
    && e.ratio == g.shared[e.i][e.j] / MinArea(g, e.i, e.j)
    && e.ratio >= threshold
  }

  /** The body of the inner loop for the candidate pair `(i, j)`. */
  function TestPair(g: Geometry, threshold: real, i: nat, j: nat): Option<Edge>
    requires WellFormed(g) && i < Count(g) && j < Count(g)
  {
    if i >= j then None
    else if !g.meets[i][j] then None
    else
      var minArea := MinArea(g, i, j);
      if minArea == 0.0 then None
      else
        var ratio := g.shared[i][j] / minArea;
        if ratio >= threshold then Some(Edge(i, j, ratio)) else None
  }


  /** The inner loop over the candidates of footprint `i`. */
  function ScanRow(g: Geometry, threshold: real, i: nat, candidates: seq<nat>): (r: seq<Edge>)
    requires WellFormed(g) && i < Count(g)
    requires forall k :: 0 <= k < |candidates| ==> candidates[k] < Count(g)
    ensures forall e :: e in r ==> IsOverlapEdge(g, threshold, e) && e.i == i
    ensures forall e :: IsOverlapEdge(g, threshold, e) && e.i == i && e.j in candidates ==> e in r
    decreases |candidates|
  {
    if |candidates| == 0 then []
    else
      var here := match TestPair(g, threshold, i, candidates[0])
                  case Some(e) => [e]
                  case None => [];
      here + ScanRow(g, threshold, i, candidates[1..])
  }

  /** The outer loop, over footprints `i` onward. */
  function ScanRows(g: Geometry, threshold: real, index: seq<seq<nat>>, i: nat): (r: seq<Edge>)
    requires WellFormed(g) && IndexWithin(g, index) && i <= Count(g)
    ensures forall e :: e in r ==> IsOverlapEdge(g, threshold, e) && e.i >= i
    ensures forall e :: IsOverlapEdge(g, threshold, e) && e.i >= i && e.j in index[e.i] ==> e in r
    decreases Count(g) - i
  {
    if i == Count(g) then []
    else ScanRow(g, threshold, i, index[i]) + ScanRows(g, threshold, index, i + 1)
  }

  /** Every value occurs at most once. */
  ghost predicate Distinct<T>(s: seq<T>) {
    forall a, b :: 0 <= a < b < |s| ==> s[a] != s[b]
  }

  /** The edges as a Python set: each one once. */
  function Dedup(s: seq<Edge>): (r: seq<Edge>)
    ensures Distinct(r)
    ensures forall e :: e in r <==> e in s
  {
    if |s| == 0 then []
    else
      var rest := Dedup(s[1..]);
      if s[0] in rest then rest else [s[0]] + rest
  }

  predicate SortedByRatio(s: seq<Edge>) {
    forall a, b :: 0 <= a < b < |s| ==> s[a].ratio >= s[b].ratio
  }

  function Insert(e: Edge, s: seq<Edge>): (r: seq<Edge>)
    requires SortedByRatio(s)
    ensures SortedByRatio(r)
    ensures multiset(r) == multiset(s) + multiset{e}
  {
    if |s| == 0 then [e]
    else if e.ratio >= s[0].ratio then [e] + s
    else
      var rest := Insert(e, s[1..]);
      assert s == [s[0]] + s[1..];
      InsertBelowHead(e, s, rest);
      [s[0]] + rest
  }

  lemma InsertBelowHead(e: Edge, s: seq<Edge>, rest: seq<Edge>)
    requires |s| > 0 && SortedByRatio(s) && e.ratio < s[0].ratio
    requires SortedByRatio(rest) && multiset(rest) == multiset(s[1..]) + multiset{e}
    ensures SortedByRatio([s[0]] + rest)
  {
    forall x | x in rest
      ensures x.ratio <= s[0].ratio
    {
      assert x in multiset(rest);
      if x != e {
        assert x in multiset(s[1..]);
        var k :| 0 <= k < |s[1..]| && s[1..][k] == x;
        assert s[k + 1] == x;
      }
    }
    var t := [s[0]] + rest;
    forall a, b | 0 <= a < b < |t|
      ensures t[a].ratio >= t[b].ratio
    {
      if a == 0 {
        assert t[b] == rest[b - 1];
        assert t[b] in rest;
      } else {
        assert t[a] == rest[a - 1] && t[b] == rest[b - 1];
      }
    }
  }

  /** `sorted(..., key=lambda x: -x[2])`: non-increasing ratio. */
  function SortByRatio(s: seq<Edge>): (r: seq<Edge>)
    ensures SortedByRatio(r)
    ensures multiset(r) == multiset(s)
  {
    if |s| == 0 then []
    else
      assert s == [s[0]] + s[1..];
      Insert(s[0], SortByRatio(s[1..]))
  }

  lemma DistinctByMultiset<T>(s: seq<T>, r: seq<T>)
    requires Distinct(s) && multiset(r) == multiset(s)
    ensures Distinct(r)
  {
    forall a, b | 0 <= a < b < |r|
      ensures r[a] != r[b]
    {
      if r[a] == r[b] {
        assert r == r[..b] + r[b..];
        assert r[a] in r[..b];
        assert r[b] in r[b..];
        assert multiset(r)[r[a]] == multiset(r[..b])[r[a]] + multiset(r[b..])[r[a]];
        assert multiset(s)[r[a]] >= 2;
        CountAtMostOne(s, r[a]);
      }
    }
  }

  lemma {:induction false} CountAtMostOne<T>(s: seq<T>, x: T)
    requires Distinct(s)
    ensures multiset(s)[x] <= 1
  {
    if |s| > 0 {
      assert s == [s[0]] + s[1..];
      CountAtMostOne(s[1..], x);
      if s[0] == x {
        assert x !in s[1..];
      }
    }
  }

  /** `FindOverlappingChunks`: the overlap edges, each once, by non-increasing
      ratio. Every returned edge satisfies `IsOverlapEdge`, and when the index
      covers every intersecting pair every such edge is returned. No pair
      `(i, j)` appears twice. */
  function FindOverlappingChunks(g: Geometry, index: seq<seq<nat>>, threshold: real): (r: seq<Edge>)
    requires WellFormed(g) && IndexWithin(g, index)
    ensures SortedByRatio(r)
    ensures forall e :: e in r ==> IsOverlapEdge(g, threshold, e)
    ensures CoversIntersecting(g, index) ==> forall e :: IsOverlapEdge(g, threshold, e) ==> e in r
    ensures forall a, b :: 0 <= a < b < |r| ==> (r[a].i, r[a].j) != (r[b].i, r[b].j)
  {
    var found := Dedup(ScanRows(g, threshold, index, 0));
    var sorted := SortByRatio(found);
    DistinctByMultiset(found, sorted);
    assert forall e :: e in sorted <==> e in multiset(found);
    PairsDistinct(g, threshold, sorted);
    sorted
  }

  /** Distinct overlap edges have distinct pairs: the ratio is a function of
      the pair. */
  lemma PairsDistinct(g: Geometry, threshold: real, s: seq<Edge>)
    requires WellFormed(g) && Distinct(s)
    requires forall e :: e in s ==> IsOverlapEdge(g, threshold, e)
    ensures forall a, b :: 0 <= a < b < |s| ==> (s[a].i, s[a].j) != (s[b].i, s[b].j)
  {
    forall a, b | 0 <= a < b < |s|
      ensures (s[a].i, s[a].j) != (s[b].i, s[b].j)
    {
      assert s[a] in s && s[b] in s;
    }
  }

  /** The edge set does not depend on which covering index the R-tree
      produced: two covering indices yield the same edges. */
  lemma EdgesIndependentOfIndex(g: Geometry, index1: seq<seq<nat>>, index2: seq<seq<nat>>, threshold: real)
    requires WellFormed(g) && IndexWithin(g, index1) && IndexWithin(g, index2)
    requires CoversIntersecting(g, index1) && CoversIntersecting(g, index2)
    ensures forall e :: e in FindOverlappingChunks(g, index1, threshold) <==> e in FindOverlappingChunks(g, index2, threshold)
  {
  }
}
