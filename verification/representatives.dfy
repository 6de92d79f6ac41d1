/** Choosing one tile per group (`SelectRepresentatives` in
    `HighResolutionOrthoImagery.py`, `select_representatives` in
    `main_arch.py`). The projected area of each tile is an input. */
module Representatives {
  import opened Wrappers
  import opened Overlaps
  import opened Components

  const MIN_INDEX := "min_index"
  const MAX_AREA := "max_area"

  /** `min(group)`: the least member. */
  method MinOf(group: set<nat>) returns (m: nat)
    requires group != {}
    ensures m in group && forall x :: x in group ==> m <= x
  {
    m :| m in group;
    var rest := group - {m};
    while rest != {}
      invariant rest <= group && m in group
      invariant forall x :: x in group && x !in rest ==> m <= x
      decreases |rest|
    {
      var x :| x in rest;
      if x < m {
        m := x;
      }
      rest := rest - {x};
    }
  }

  /** `max(group, key=area)`: a member of greatest area. Python keeps the
      first maximal member in set iteration order; here ties go to the least
      index. */
  method MaxAreaOf(group: set<nat>, areas: seq<real>) returns (m: nat)
    requires group != {} && forall x :: x in group ==> x < |areas|
    ensures m in group && forall x :: x in group ==> areas[x] <= areas[m]
    ensures forall x :: x in group && areas[x] == areas[m] ==> m <= x
  {
    m :| m in group;
    var rest := group - {m};
    while rest != {}
      invariant rest <= group && m in group
      invariant forall x :: x in group && x !in rest ==> areas[x] < areas[m] || (areas[x] == areas[m] && m <= x)
      decreases |rest|
    {
      var x :| x in rest;
      if areas[x] > areas[m] || (areas[x] == areas[m] && x < m) {
        m := x;
      }
      rest := rest - {x};
    }
  }

  /** The group can be handled under `criteria`: the criterion is known, the
      group is not empty (`min`/`max` of an empty set raise), and for
      `max_area` every member indexes the bounds list. */
  predicate Selectable(criteria: string, group: set<nat>, areas: seq<real>) {
    && (criteria == MIN_INDEX || criteria == MAX_AREA)
    && group != {}
    && (criteria == MAX_AREA ==> forall x :: x in group ==> x < |areas|)
  }

  /** The exception raised for a group that is not selectable. */
  function Failure(criteria: string, group: set<nat>, areas: seq<real>): (e: Error)
    requires !Selectable(criteria, group, areas)
    ensures criteria != MIN_INDEX && criteria != MAX_AREA ==> e == ValueError("Unknown criteria")
    ensures e.ValueError? || e.IndexError?
  {
    if criteria != MIN_INDEX && criteria != MAX_AREA then ValueError("Unknown criteria")
    else if group == {} then ValueError((if criteria == MIN_INDEX then "min" else "max") + "() arg is an empty sequence")
    else IndexError("list index out of range")
  }

  /** `chosen` is what `criteria` asks of a member of `group`. */
  predicate Chosen(criteria: string, group: set<nat>, areas: seq<real>, chosen: nat) {
    && chosen in group
    && (criteria == MIN_INDEX ==> forall x :: x in group ==> chosen <= x)
    && (criteria == MAX_AREA ==> chosen < |areas| && forall x :: x in group && x < |areas| ==> areas[x] <= areas[chosen])
  }

  /** `SelectRepresentatives(groups, boundsList, criteria)`: one member per
      group, in group order, or the exception of the first group that cannot
      be handled. An empty list of groups selects nothing whatever the
      criterion. */
  method SelectRepresentatives(groups: seq<set<nat>>, areas: seq<real>, criteria: string) returns (r: Result<seq<nat>>)
    ensures r.Ok? <==> forall g :: 0 <= g < |groups| ==> Selectable(criteria, groups[g], areas)
    ensures r.Ok? ==> |r.value| == |groups|
    ensures r.Ok? ==> forall g :: 0 <= g < |groups| ==> Chosen(criteria, groups[g], areas, r.value[g])
    ensures r.Err? ==> exists g :: 0 <= g < |groups| && !Selectable(criteria, groups[g], areas)
                         && (forall h :: 0 <= h < g ==> Selectable(criteria, groups[h], areas))
                         && r.error == Failure(criteria, groups[g], areas)
  {
    var selected: seq<nat> := [];
    var g := 0;
    while g < |groups|
      invariant 0 <= g <= |groups| && |selected| == g
      invariant forall h :: 0 <= h < g ==> Selectable(criteria, groups[h], areas)
      invariant forall h :: 0 <= h < g ==> Chosen(criteria, groups[h], areas, selected[h])
    {
      if !Selectable(criteria, groups[g], areas) {
        return Err(Failure(criteria, groups[g], areas));
      }
      var chosen;
      if criteria == MIN_INDEX {
        chosen := MinOf(groups[g]);
      } else {
        chosen := MaxAreaOf(groups[g], areas);
      }
      selected := selected + [chosen];
      g := g + 1;
    }
    return Ok(selected);
  }

  /** Index `i` is reached from one of the chosen indices. */
  ghost predicate ReachedFromSome(edges: seq<Edge>, selected: seq<nat>, i: nat) {
    exists k :: 0 <= k < |selected| && Reachable(edges, selected[k], i)
  }

  /** One index per connected component: no two chosen indices reach each
      other, and every index below `n` is reached from exactly one of them. */
  ghost predicate OnePerGroup(edges: seq<Edge>, n: nat, selected: seq<nat>) {
    && (forall a, b :: 0 <= a < |selected| && 0 <= b < |selected| && a != b ==> !Reachable(edges, selected[a], selected[b]))
    && (forall i :: 0 <= i < n ==> ReachedFromSome(edges, selected, i))
    && (forall i, k1, k2 :: 0 <= k1 < |selected| && 0 <= k2 < |selected| && Reachable(edges, selected[k1], i) && Reachable(edges, selected[k2], i) ==> k1 == k2)
  }

  /** A member taken from each group of a grouping is one index per
      connected component. */
  lemma MembersArePerGroup(edges: seq<Edge>, n: nat, groups: seq<set<nat>>, selected: seq<nat>)
    requires IsGrouping(edges, n, groups) && |selected| == |groups|
    requires forall g :: 0 <= g < |groups| ==> selected[g] in groups[g]
    ensures OnePerGroup(edges, n, selected)
  {
    forall a, b | 0 <= a < |selected| && 0 <= b < |selected| && a != b
      ensures !Reachable(edges, selected[a], selected[b])
    {
      SameGroupIffReachable(edges, n, groups, a, selected[a], selected[b]);
      assert selected[b] in groups[b];
    }
    forall i | 0 <= i < n
      ensures ReachedFromSome(edges, selected, i)
    {
      PartitionsIndices(edges, n, groups, i);
      var g :| 0 <= g < |groups| && i in groups[g];
      SameGroupIffReachable(edges, n, groups, g, selected[g], i);
    }
    forall i, k1, k2 | 0 <= k1 < |selected| && 0 <= k2 < |selected| && Reachable(edges, selected[k1], i) && Reachable(edges, selected[k2], i)
      ensures k1 == k2
    {
      SameGroupIffReachable(edges, n, groups, k1, selected[k1], i);
      SameGroupIffReachable(edges, n, groups, k2, selected[k2], i);
    }
  }

  /** Under `min_index`, each chosen index is below everything it reaches. */
  lemma MinIndexIsLeastReached(edges: seq<Edge>, n: nat, groups: seq<set<nat>>, areas: seq<real>, selected: seq<nat>)
    requires IsGrouping(edges, n, groups) && |selected| == |groups|
    requires forall g :: 0 <= g < |groups| ==> Chosen(MIN_INDEX, groups[g], areas, selected[g])
    ensures forall i, k :: 0 <= k < |selected| && Reachable(edges, selected[k], i) ==> selected[k] <= i
  {
    forall i, k | 0 <= k < |selected| && Reachable(edges, selected[k], i)
      ensures selected[k] <= i
    {
      SameGroupIffReachable(edges, n, groups, k, selected[k], i);
    }
  }

  /** Under `max_area`, each chosen index has the largest area of everything
      it reaches. */
  lemma MaxAreaIsLargestReached(edges: seq<Edge>, n: nat, groups: seq<set<nat>>, areas: seq<real>, selected: seq<nat>)
    requires IsGrouping(edges, n, groups) && |selected| == |groups|
    requires forall g :: 0 <= g < |groups| ==> Chosen(MAX_AREA, groups[g], areas, selected[g])
    ensures forall k :: 0 <= k < |selected| ==> selected[k] < |areas|
    ensures forall i, k :: 0 <= k < |selected| && 0 <= i < |areas| && Reachable(edges, selected[k], i) ==> areas[i] <= areas[selected[k]]
  {
    assert forall k :: 0 <= k < |selected| ==> Chosen(MAX_AREA, groups[k], areas, selected[k]);
    forall i, k | 0 <= k < |selected| && 0 <= i < |areas| && Reachable(edges, selected[k], i)
      ensures areas[i] <= areas[selected[k]]
    {
      SameGroupIffReachable(edges, n, groups, k, selected[k], i);
    }
  }
}
