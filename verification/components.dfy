/** Grouping overlapping tiles (`GroupOverlappingChunks` in
    `HighResolutionOrthoImagery.py`, `group_overlapping_chunks` in
    `main_arch.py`): the connected components of the overlap graph, found by
    a depth-first search started from every index `0..n-1` not yet visited.

    The recursive search is modelled by a worklist exploration. Groups are
    sets, so the order in which a search visits its nodes does not show in
    the result. */
module Components {
  import opened Overlaps

  /** `graph[a]` holds `b`: some edge joins `a` and `b`, in either direction. */
  ghost predicate Adjacent(edges: seq<Edge>, a: nat, b: nat) {
    exists k :: 0 <= k < |edges| && ((edges[k].i == a && edges[k].j == b) || (edges[k].i == b && edges[k].j == a))
  }

  lemma AdjacentSymmetric(edges: seq<Edge>, a: nat, b: nat)
    requires Adjacent(edges, a, b)
    ensures Adjacent(edges, b, a)
  {
    var k :| 0 <= k < |edges| && ((edges[k].i == a && edges[k].j == b) || (edges[k].i == b && edges[k].j == a));
  }

  /** The adjacency set `graph[node]` of the `defaultdict(set)` built from
      the edges (empty for a node no edge touches). */
  function Neighbors(edges: seq<Edge>, node: nat): (r: set<nat>)
    ensures forall b :: b in r <==> Adjacent(edges, node, b)
  {
    var r := (set k | 0 <= k < |edges| && edges[k].i == node :: edges[k].j)
           + (set k | 0 <= k < |edges| && edges[k].j == node :: edges[k].i);
    assert forall b :: Adjacent(edges, node, b) ==> b in r by {
      forall b | Adjacent(edges, node, b)
        ensures b in r
      {
        var k :| 0 <= k < |edges| && ((edges[k].i == node && edges[k].j == b) || (edges[k].i == b && edges[k].j == node));
      }
    }
    r
  }

  /** Every node some edge touches. */
  function Nodes(edges: seq<Edge>): set<nat> {
    (set k | 0 <= k < |edges| :: edges[k].i) + (set k | 0 <= k < |edges| :: edges[k].j)
  }

  lemma NeighborsWithinNodes(edges: seq<Edge>, node: nat)
    ensures Neighbors(edges, node) <= Nodes(edges)
  {
    forall b | b in Neighbors(edges, node)
      ensures b in Nodes(edges)
    {
      var k :| 0 <= k < |edges| && ((edges[k].i == node && edges[k].j == b) || (edges[k].i == b && edges[k].j == node));
      if edges[k].j == b {
        assert b in (set k | 0 <= k < |edges| :: edges[k].j);
      } else {
        assert b in (set k | 0 <= k < |edges| :: edges[k].i);
      }
    }
  }

  /** A walk along edges. */
  ghost predicate IsPath(edges: seq<Edge>, p: seq<nat>) {
    |p| > 0 && forall k :: 0 <= k < |p| - 1 ==> Adjacent(edges, p[k], p[k + 1])
  }

  /** `b` is reachable from `a` by a walk along edges. */
  ghost predicate Reachable(edges: seq<Edge>, a: nat, b: nat) {
    exists p :: IsPath(edges, p) && p[0] == a && p[|p| - 1] == b
  }

  lemma ReachableSymmetric(edges: seq<Edge>, a: nat, b: nat)
    requires Reachable(edges, a, b)
    ensures Reachable(edges, b, a)
  {
    var p :| IsPath(edges, p) && p[0] == a && p[|p| - 1] == b;
    var q := seq(|p|, k requires 0 <= k < |p| => p[|p| - 1 - k]);
    forall k | 0 <= k < |q| - 1
      ensures Adjacent(edges, q[k], q[k + 1])
    {
      AdjacentSymmetric(edges, p[|p| - 2 - k], p[|p| - 1 - k]);
    }
    assert IsPath(edges, q) && q[0] == b && q[|q| - 1] == a;
  }

  lemma ReachableTransitive(edges: seq<Edge>, a: nat, b: nat, c: nat)
    requires Reachable(edges, a, b) && Reachable(edges, b, c)
    ensures Reachable(edges, a, c)
  {
    var p :| IsPath(edges, p) && p[0] == a && p[|p| - 1] == b;
    var q :| IsPath(edges, q) && q[0] == b && q[|q| - 1] == c;
    var w := p + q[1..];
    forall k | 0 <= k < |w| - 1
      ensures Adjacent(edges, w[k], w[k + 1])
    {
      if k < |p| - 1 {
        assert w[k] == p[k] && w[k + 1] == p[k + 1];
      } else {
        assert w[k] == q[k - |p| + 1] && w[k + 1] == q[k - |p| + 2];
      }
    }
    assert IsPath(edges, w) && w[0] == a && w[|w| - 1] == c;
  }

  /** One more edge extends a walk. */
  lemma ReachableStep(edges: seq<Edge>, a: nat, b: nat, c: nat)
    requires Reachable(edges, a, b) && Adjacent(edges, b, c)
    ensures Reachable(edges, a, c)
  {
    var p :| IsPath(edges, p) && p[0] == a && p[|p| - 1] == b;
    var w := p + [c];
    forall k | 0 <= k < |w| - 1
      ensures Adjacent(edges, w[k], w[k + 1])
    {
      if k < |p| - 1 {
        assert w[k] == p[k] && w[k + 1] == p[k + 1];
      }
    }
    assert IsPath(edges, w) && w[0] == a && w[|w| - 1] == c;
  }

  lemma ReachableSelf(edges: seq<Edge>, a: nat)
    ensures Reachable(edges, a, a)
  {
    assert IsPath(edges, [a]);
  }

  /** No edge leaves `s`. */
  ghost predicate Closed(edges: seq<Edge>, s: set<nat>) {
    forall x, y :: x in s && Adjacent(edges, x, y) ==> y in s
  }

  /** A set closed under the edges holds every node a walk from it reaches. */
  lemma {:induction false} ClosedHoldsWalk(edges: seq<Edge>, s: set<nat>, p: seq<nat>)
    requires Closed(edges, s) && IsPath(edges, p) && p[0] in s
    ensures p[|p| - 1] in s
    decreases |p|
  {
    if |p| > 1 {
      var front := p[..|p| - 1];
      assert IsPath(edges, front) by {
        forall k | 0 <= k < |front| - 1
          ensures Adjacent(edges, front[k], front[k + 1])
        {
          assert front[k] == p[k] && front[k + 1] == p[k + 1];
        }
      }
      ClosedHoldsWalk(edges, s, front);
      assert Adjacent(edges, p[|p| - 2], p[|p| - 1]);
    }
  }

  lemma ClosedHoldsReachable(edges: seq<Edge>, s: set<nat>, a: nat, b: nat)
    requires Closed(edges, s) && a in s && Reachable(edges, a, b)
    ensures b in s
  {
    var p :| IsPath(edges, p) && p[0] == a && p[|p| - 1] == b;
    ClosedHoldsWalk(edges, s, p);
  }

  /** The state of one search: `group` holds the nodes found so far, all
      reachable from `start` and none visited before; `work` holds those
      whose neighbours are still to be looked at. */
  ghost predicate SearchState(edges: seq<Edge>, start: nat, visited: set<nat>, group: set<nat>, work: set<nat>) {
    && work <= group && start in group && (forall y :: y in group ==> y !in visited)
    && (forall y :: y in group ==> Reachable(edges, start, y))
    && (forall x, y :: x in group && x !in work && Adjacent(edges, x, y) ==> y in group || y in visited)
  }

  /** Looking at the neighbours of one node keeps the search state. */
  lemma SearchStep(edges: seq<Edge>, start: nat, visited: set<nat>, group: set<nat>, work: set<nat>, x: nat)
    requires SearchState(edges, start, visited, group, work) && x in work
    ensures var found := Neighbors(edges, x) - group - visited;
            SearchState(edges, start, visited, group + found, work - {x} + found)
  {
    var found := Neighbors(edges, x) - group - visited;
    forall y | y in found
      ensures Reachable(edges, start, y)
    {
      ReachableStep(edges, start, x, y);
    }
  }

  /** A search with nothing left to look at has found a closed group that is
      exactly the set of nodes reachable from its start. */
  lemma SearchDone(edges: seq<Edge>, start: nat, visited: set<nat>, group: set<nat>)
    requires SearchState(edges, start, visited, group, {}) && Closed(edges, visited)
    ensures Closed(edges, group)
    ensures forall y :: y in group <==> Reachable(edges, start, y)
  {
    forall x, y | x in group && Adjacent(edges, x, y)
      ensures y in group
    {
      AdjacentSymmetric(edges, x, y);
    }
    forall y | Reachable(edges, start, y)
      ensures y in group
    {
      ClosedHoldsReachable(edges, group, start, y);
    }
  }

  /** `dfs(start, group)` with the shared `visited` set: the search never
      enters a visited node. Since the visited nodes form closed groups that
      do not contain `start`, the group found is exactly the set of nodes
      reachable from `start`, and it is closed. */
  method Explore(edges: seq<Edge>, start: nat, visited: set<nat>) returns (group: set<nat>)
    requires start !in visited && Closed(edges, visited)
    ensures start in group && forall y :: y in group ==> y !in visited
    ensures Closed(edges, group)
    ensures forall y :: y in group <==> Reachable(edges, start, y)
  {
    group := {start};
    var work := {start};
    ghost var universe := Nodes(edges) + {start};
    ReachableSelf(edges, start);
    while work != {}
      invariant group <= universe
      invariant SearchState(edges, start, visited, group, work)
      decreases |universe - group|, |work|
    {
      var x :| x in work;
      NeighborsWithinNodes(edges, x);
      var found := Neighbors(edges, x) - group - visited;
      SearchStep(edges, start, visited, group, work, x);
      if found != {} {
        var y :| y in found;
        assert y in universe - group && y !in universe - (group + found);
        assert universe - (group + found) < universe - group;
      }
      group := group + found;
      work := work - {x} + found;
    }
    SearchDone(edges, start, visited, group);
  }

  /** Node `x` is in some group. */
  ghost predicate Grouped(groups: seq<set<nat>>, x: nat) {
    exists g :: 0 <= g < |groups| && x in groups[g]
  }

  /** The groups cover `0..n-1`. */
  ghost predicate Covers(n: nat, groups: seq<set<nat>>) {
    forall i :: 0 <= i < n ==> Grouped(groups, i)
  }

  /** No node is in two groups. */
  ghost predicate Disjoint(groups: seq<set<nat>>) {
    forall g1, g2, x :: 0 <= g1 < g2 < |groups| && x in groups[g1] ==> x !in groups[g2]
  }

  /** Group `g` holds one of the indices `0..n-1`, so it is not empty. */
  ghost predicate Rooted(n: nat, group: set<nat>) {
    exists i :: 0 <= i < n && i in group
  }

  /** Every group holds one of the indices `0..n-1`, is closed under the
      edges, and any two of its members reach each other. */
  ghost predicate Components(edges: seq<Edge>, n: nat, groups: seq<set<nat>>) {
    && (forall g :: 0 <= g < |groups| ==> Rooted(n, groups[g]))
    && (forall g :: 0 <= g < |groups| ==> Closed(edges, groups[g]))
    && (forall g, x, y :: 0 <= g < |groups| && x in groups[g] && y in groups[g] ==> Reachable(edges, x, y))
  }

  /** The groups are the connected components of the overlap graph that meet
      `0..n-1`, each once. */
  ghost predicate IsGrouping(edges: seq<Edge>, n: nat, groups: seq<set<nat>>) {
    Covers(n, groups) && Disjoint(groups) && Components(edges, n, groups)
  }

  /** Members of a group reached from one start reach each other. */
  lemma ConnectedFromStart(edges: seq<Edge>, start: nat, group: set<nat>)
    requires forall y :: y in group ==> Reachable(edges, start, y)
    ensures forall x, y :: x in group && y in group ==> Reachable(edges, x, y)
  {
    forall x, y | x in group && y in group
      ensures Reachable(edges, x, y)
    {
      ReachableSymmetric(edges, start, x);
      ReachableTransitive(edges, x, start, y);
    }
  }

  /** What holds of the groups found by the searches started below `i`. */
  ghost predicate LoopState(edges: seq<Edge>, n: nat, i: nat, visited: set<nat>, groups: seq<set<nat>>, starts: seq<nat>) {
    && i <= n && |starts| == |groups| <= i
    && (forall x :: x in visited <==> Grouped(groups, x))
    && (forall j :: 0 <= j < i ==> j in visited)
    && Closed(edges, visited)
    && Disjoint(groups) && Components(edges, n, groups)
    && (forall g :: 0 <= g < |groups| ==> starts[g] < i && starts[g] in groups[g])
    && (forall g, x :: 0 <= g < |groups| && x in groups[g] && x < n ==> starts[g] <= x)
    && (forall g1, g2 :: 0 <= g1 < g2 < |groups| ==> starts[g1] < starts[g2])
  }

  /** Appending the group of a new search from the unvisited index `i`. */
  lemma AppendGroup(edges: seq<Edge>, n: nat, i: nat, visited: set<nat>, groups: seq<set<nat>>, starts: seq<nat>, group: set<nat>)
    requires LoopState(edges, n, i, visited, groups, starts) && i < n && i !in visited
    requires i in group && (forall y :: y in group ==> y !in visited) && Closed(edges, group)
    requires forall y :: y in group ==> Reachable(edges, i, y)
    ensures LoopState(edges, n, i + 1, visited + group, groups + [group], starts + [i])
  {
    ConnectedFromStart(edges, i, group);
    var groups' := groups + [group];
    var visited' := visited + group;
    forall x | x in visited'
      ensures Grouped(groups', x)
    {
      if x in group {
        assert x in groups'[|groups'| - 1];
      } else {
        assert Grouped(groups, x);
        var g :| 0 <= g < |groups| && x in groups[g];
        assert x in groups'[g];
      }
    }
    forall x | Grouped(groups', x)
      ensures x in visited'
    {
      var g :| 0 <= g < |groups'| && x in groups'[g];
      if g < |groups| {
        assert Grouped(groups, x);
      }
    }
    forall g, x | 0 <= g < |groups| && x in groups[g]
      ensures x !in group
    {
      assert Grouped(groups, x);
      assert x in visited;
    }
    forall x | x in group && x < n
      ensures i <= x
    {
      assert x < i ==> x in visited;
    }
    assert Rooted(n, groups'[|groups| ]);
    assert Components(edges, n, groups');
  }

  /** `GroupOverlappingChunks(overlapPairs, numChunks)`. A search starts from
      each index not yet visited, in increasing order, and its group is
      appended (the `if group:` test always passes, as a group holds its
      start). The ghost `starts` are those indices: each is the least index
      below `n` in its group, and they increase. */
  method GroupOverlapping(edges: seq<Edge>, n: nat) returns (groups: seq<set<nat>>, ghost starts: seq<nat>)
    ensures IsGrouping(edges, n, groups)
    ensures |starts| == |groups| <= n
    ensures forall g :: 0 <= g < |groups| ==> starts[g] < n && starts[g] in groups[g]
    ensures forall g, x :: 0 <= g < |groups| && x in groups[g] && x < n ==> starts[g] <= x
    ensures forall g1, g2 :: 0 <= g1 < g2 < |groups| ==> starts[g1] < starts[g2]
  {
    var visited: set<nat> := {};
    groups := [];
    starts := [];
    var i := 0;
    while i < n
      invariant LoopState(edges, n, i, visited, groups, starts)
    {
      if i !in visited {
        var group := Explore(edges, i, visited);
        AppendGroup(edges, n, i, visited, groups, starts, group);
        groups := groups + [group];
        starts := starts + [i];
        visited := visited + group;
      }
      i := i + 1;
    }
    assert Covers(n, groups) by {
      forall j | 0 <= j < n
        ensures Grouped(groups, j)
      {
        assert j in visited;
      }
    }
  }

  /** Two indices share a group exactly when a walk along overlap edges
      joins them: overlap merges transitively. */
  lemma SameGroupIffReachable(edges: seq<Edge>, n: nat, groups: seq<set<nat>>, g: nat, a: nat, b: nat)
    requires IsGrouping(edges, n, groups) && g < |groups| && a in groups[g]
    ensures b in groups[g] <==> Reachable(edges, a, b)
  {
    if Reachable(edges, a, b) {
      ClosedHoldsReachable(edges, groups[g], a, b);
    }
  }

  /** Each index below `n` is in exactly one group. */
  lemma PartitionsIndices(edges: seq<Edge>, n: nat, groups: seq<set<nat>>, i: nat)
    requires IsGrouping(edges, n, groups) && i < n
    ensures exists g :: 0 <= g < |groups| && i in groups[g]
    ensures forall g1, g2 :: 0 <= g1 < |groups| && 0 <= g2 < |groups| && i in groups[g1] && i in groups[g2] ==> g1 == g2
  {
    assert Grouped(groups, i);
  }

  /** An index that no edge touches is a group of its own. */
  lemma IsolatedIsSingleton(edges: seq<Edge>, n: nat, groups: seq<set<nat>>, g: nat, i: nat)
    requires IsGrouping(edges, n, groups) && g < |groups| && i in groups[g]
    requires forall k :: 0 <= k < |edges| ==> edges[k].i != i && edges[k].j != i
    ensures groups[g] == {i}
  {
    assert Closed(edges, {i});
    forall y | y in groups[g]
      ensures y == i
    {
      assert Reachable(edges, i, y);
      ClosedHoldsReachable(edges, {i}, i, y);
    }
  }

  /** With no edges every group is a singleton `{i}` with `i < n`: grouping
      an edge-free set of tiles leaves every tile alone. */
  lemma NoEdgesAllSingletons(n: nat, groups: seq<set<nat>>)
    requires IsGrouping([], n, groups)
    ensures forall g: int, x: nat :: 0 <= g < |groups| && x in groups[g] ==> x < n && groups[g] == {x}
  {
    forall g: int, x: nat {:trigger x in groups[g]} | 0 <= g < |groups| && x in groups[g]
      ensures x < n && groups[g] == {x}
    {
      NoEdgesSingleton(n, groups, g, x);
    }
  }

  lemma NoEdgesSingleton(n: nat, groups: seq<set<nat>>, g: nat, x: nat)
    requires IsGrouping([], n, groups) && g < |groups| && x in groups[g]
    ensures x < n && groups[g] == {x}
  {
    assert Rooted(n, groups[g]);
    var i :| 0 <= i < n && i in groups[g];
    IsolatedIsSingleton([], n, groups, g, i);
    assert x in {i};
  }

  /** Three tiles where 0 overlaps 1 and 1 overlaps 2 (but 0 and 2 need not
      overlap) form one group. */
  lemma ChainMergesIntoOneGroup(r1: real, r2: real, groups: seq<set<nat>>)
    requires IsGrouping([Edge(0, 1, r1), Edge(1, 2, r2)], 3, groups)
    ensures |groups| == 1 && groups[0] == {0, 1, 2}
  {
    var edges := [Edge(0, 1, r1), Edge(1, 2, r2)];
    assert Grouped(groups, 0);
    var g :| 0 <= g < |groups| && 0 in groups[g];
    assert edges[0].i == 0 && edges[0].j == 1 && edges[1].i == 1 && edges[1].j == 2;
    assert Adjacent(edges, 0, 1) && Adjacent(edges, 1, 2);
    assert 1 in groups[g] && 2 in groups[g];
    forall h | 0 <= h < |groups|
      ensures h == g && groups[h] == groups[g]
    {
      assert Rooted(3, groups[h]);
      var i :| 0 <= i < 3 && i in groups[h];
      PartitionsIndices(edges, 3, groups, i);
    }
    assert groups[0] == groups[g] && groups[|groups| - 1] == groups[g];
    var s := {0, 1, 2};
    assert Closed(edges, s) by {
      forall x, z | x in s && Adjacent(edges, x, z)
        ensures z in s
      {
        var k :| 0 <= k < |edges| && ((edges[k].i == x && edges[k].j == z) || (edges[k].i == z && edges[k].j == x));
      }
    }
    forall y | y in groups[0]
      ensures y in s
    {
      assert Reachable(edges, 0, y);
      ClosedHoldsReachable(edges, s, 0, y);
    }
  }

  /** When every edge joins two indices below `n`, so do the groups: no
      group holds an index outside `0..n-1`. */
  lemma GroupsStayBelow(edges: seq<Edge>, n: nat, groups: seq<set<nat>>)
    requires IsGrouping(edges, n, groups)
    requires forall k :: 0 <= k < |edges| ==> edges[k].i < n && edges[k].j < n
    ensures forall g, x :: 0 <= g < |groups| && x in groups[g] ==> x < n
  {
    forall g, x | 0 <= g < |groups| && x in groups[g]
      ensures x < n
    {
      assert Rooted(n, groups[g]);
      var i :| 0 <= i < n && i in groups[g];
      assert Reachable(edges, i, x);
      var p :| IsPath(edges, p) && p[0] == i && p[|p| - 1] == x;
      if |p| > 1 {
        assert Adjacent(edges, p[|p| - 2], p[|p| - 1]);
      }
    }
  }
}
