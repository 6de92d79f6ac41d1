/** The older copy of the deduplication pipeline in `main_arch.py`:
    `find_overlapping_chunks`, `group_overlapping_chunks` and
    `select_representatives`, which share their logic with the overlap,
    grouping and selection modules. What differs is `to_polygon`, which
    reads the raw corner attributes without the range checks of
    `get_lon`/`get_lat`. */
module MainArch {
  import opened Wrappers
  import opened Json
  import TerrainArea
  import Footprint
  import opened Overlaps
  import opened Components
  import opened Representatives
  import OrthoRequests

  /** The default `threshold` of `find_overlapping_chunks`. */
  const DEFAULT_THRESHOLD := 0.3

  /** The `(lon, lat)` of a corner as stored. */
  function RawCorner(c: TerrainArea.WorldCoordinates): (Json, Json) {
    (c.lon, c.lat)
  }

  /** `to_polygon(bounds)`: the ring of raw corner values, which never
      raises. */
  function RawRing(b: Footprint.Bounds): (r: seq<(Json, Json)>)
    ensures |r| == 5 && r[0] == r[4]
  {
    [RawCorner(b.northWest), RawCorner(b.northEast), RawCorner(b.southEast), RawCorner(b.southWest), RawCorner(b.northWest)]
  }

  /** Where the checked ring of `HighResolutionOrthoImagery.toPolygon` is
      built, the raw ring holds the same numbers: both pipelines see the
      same polygon, and `main_arch.py` differs only on footprints the other
      rejects. */
  lemma RawRingAgreesWithChecked(b: Footprint.Bounds)
    requires OrthoRequests.PolygonRing(b).Ok?
    ensures forall k :: 0 <= k < 5 ==>
              && TerrainArea.ToFloat(RawRing(b)[k].0) == Ok(OrthoRequests.PolygonRing(b).value[k].0)
              && TerrainArea.ToFloat(RawRing(b)[k].1) == Ok(OrthoRequests.PolygonRing(b).value[k].1)
  {
    var ring := OrthoRequests.PolygonRing(b).value;
    var raw := RawRing(b);
    var corners := [b.northWest, b.northEast, b.southEast, b.southWest, b.northWest];
    forall k | 0 <= k < 5
      ensures TerrainArea.ToFloat(raw[k].0) == Ok(ring[k].0) && TerrainArea.ToFloat(raw[k].1) == Ok(ring[k].1)
    {
      var c := corners[k];
      assert raw[k] == RawCorner(c);
      assert ring[k] == OrthoRequests.LonLat(c).value;
    }
  }

  /** A corner with latitude 95 is rejected by the checked ring and kept by
      the raw one. */
  lemma OutOfRangeOnlyRejectedByChecked(b: Footprint.Bounds)
    requires b.northWest == TerrainArea.WorldCoordinates(JNum(95.0), JNum(10.0))
    ensures OrthoRequests.PolygonRing(b).Err?
    ensures RawRing(b)[0] == (JNum(10.0), JNum(95.0))
  {
    OrthoRequests.PresentButOutOfRange(b);
  }

  /** The three stages run one after the other on `n = Count(g)` footprints:
      the overlap edges, their connected components over `0..n-1`, and one
      representative per component. */
  method Deduplicate(g: Geometry, index: seq<seq<nat>>, threshold: real, criteria: string) returns (edges: seq<Edge>, r: Result<seq<nat>>)
    requires WellFormed(g) && IndexWithin(g, index)
    ensures edges == FindOverlappingChunks(g, index, threshold)
    ensures r.Ok? <==> Count(g) == 0 || criteria == MIN_INDEX || criteria == MAX_AREA
    ensures r.Err? ==> r.error == ValueError("Unknown criteria")
    ensures r.Ok? ==> (forall k :: 0 <= k < |r.value| ==> r.value[k] < Count(g)) && OnePerGroup(edges, Count(g), r.value)
    ensures r.Ok? && criteria == MIN_INDEX ==>
              forall i, k :: 0 <= k < |r.value| && Reachable(edges, r.value[k], i) ==> r.value[k] <= i
    ensures r.Ok? && criteria == MAX_AREA ==>
              forall i, k :: 0 <= k < |r.value| && 0 <= i < Count(g) && Reachable(edges, r.value[k], i) ==> g.area[i] <= g.area[r.value[k]]
  {
    edges := FindOverlappingChunks(g, index, threshold);
    forall k | 0 <= k < |edges|
      ensures edges[k].i < Count(g) && edges[k].j < Count(g)
    {
      assert edges[k] in edges;
    }
    r := GroupAndSelect(edges, Count(g), g.area, criteria);
  }

  /** `select_representatives(group_overlapping_chunks(overlaps, n), areas,
      criteria)` over edges between indices below `n`. */
  method GroupAndSelect(edges: seq<Edge>, n: nat, areas: seq<real>, criteria: string) returns (r: Result<seq<nat>>)
    requires forall k :: 0 <= k < |edges| ==> edges[k].i < n && edges[k].j < n
    requires |areas| == n
    ensures r.Ok? <==> n == 0 || criteria == MIN_INDEX || criteria == MAX_AREA
    ensures r.Err? ==> r.error == ValueError("Unknown criteria")
    ensures r.Ok? ==> (forall k :: 0 <= k < |r.value| ==> r.value[k] < n) && OnePerGroup(edges, n, r.value)
    ensures r.Ok? && criteria == MIN_INDEX ==>
              forall i, k :: 0 <= k < |r.value| && Reachable(edges, r.value[k], i) ==> r.value[k] <= i
    ensures r.Ok? && criteria == MAX_AREA ==>
              forall i, k :: 0 <= k < |r.value| && 0 <= i < n && Reachable(edges, r.value[k], i) ==> areas[i] <= areas[r.value[k]]
  {
    var groups;
    ghost var starts;
    groups, starts := GroupOverlapping(edges, n);
    GroupsStayBelow(edges, n, groups);
    assert forall h :: 0 <= h < |groups| ==> groups[h] != {} by {
      forall h | 0 <= h < |groups|
        ensures groups[h] != {}
      {
        assert starts[h] in groups[h];
      }
    }
    if n > 0 {
      PartitionsIndices(edges, n, groups, 0);
    }
    r := SelectRepresentatives(groups, areas, criteria);
    if r.Ok? {
      assert forall h :: 0 <= h < |groups| ==> r.value[h] in groups[h] by {
        forall h | 0 <= h < |groups|
          ensures r.value[h] in groups[h]
        {
          assert Chosen(criteria, groups[h], areas, r.value[h]);
        }
      }
      MembersArePerGroup(edges, n, groups, r.value);
      if criteria == MIN_INDEX {
        MinIndexIsLeastReached(edges, n, groups, areas, r.value);
      } else if criteria == MAX_AREA {
        MaxAreaIsLargestReached(edges, n, groups, areas, r.value);
      }
    }
  }
}
