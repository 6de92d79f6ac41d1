/** The tile selection of `HighResolutionOrthoImagery.getDownloadRequests`:
    every scene's footprint is extracted, overlapping footprints are grouped,
    the least index of each group is kept, and one data info is built per
    kept scene. The scene search itself and the projected geometry are
    inputs. */
module OrthoRequests {
  import opened Wrappers
  import opened Json
  import TerrainArea
  import Footprint
  import Sidecar
  import opened Overlaps
  import opened Components
  import Representatives
  import DownloadTask

  const OVERLAP_THRESHOLD := 0.3

  /** A scene of the `scene-search` reply: its `entityId` (None when the key
      is missing) and its metadata fields. */
  datatype Scene = Scene(entityId: Option<Json>, metadata: seq<Footprint.MetaField>)

  /** The loop building `allChunks`: each scene's bounds, in order; the first
      scene without complete corners raises. */
  function ChunkBounds(scenes: seq<Scene>): (r: Result<seq<Footprint.Bounds>>)
    ensures r.Ok? <==> forall k :: 0 <= k < |scenes| ==> Footprint.ExtractBounds(scenes[k].metadata).Ok?
    ensures r.Ok? ==> |r.value| == |scenes|
                      && forall k :: 0 <= k < |scenes| ==> r.value[k] == Footprint.ExtractBounds(scenes[k].metadata).value
    decreases |scenes|
  {
    if |scenes| == 0 then Ok([])
    else
      var first :- Footprint.ExtractBounds(scenes[0].metadata);
      var rest :- ChunkBounds(scenes[1..]);
      assert forall k :: 1 <= k < |scenes| ==> scenes[1..][k - 1] == scenes[k];
      Ok([first] + rest)
  }

  /** `(get_lon(), get_lat())` of one corner, longitude read first. */
  function LonLat(c: TerrainArea.WorldCoordinates): (r: Result<(real, real)>)
    ensures r.Ok? <==> TerrainArea.GetLon(c).Ok? && TerrainArea.GetLat(c).Ok?
    ensures TerrainArea.GetLon(c).Err? ==> r == Err(TerrainArea.GetLon(c).error)
    ensures r.Ok? ==> r.value == (TerrainArea.GetLon(c).value, TerrainArea.GetLat(c).value)
  {
    var lon :- TerrainArea.GetLon(c);
    var lat :- TerrainArea.GetLat(c);
    Ok((lon, lat))
  }

  /** The ring `toPolygon` builds: north-west, north-east, south-east,
      south-west and north-west again. The centre is not read, so only the
      four outer corners are range-checked. */
  function PolygonRing(b: Footprint.Bounds): (r: Result<seq<(real, real)>>)
    ensures r.Ok? <==> LonLat(b.northWest).Ok? && LonLat(b.northEast).Ok? && LonLat(b.southEast).Ok? && LonLat(b.southWest).Ok?
    ensures LonLat(b.northWest).Err? ==> r == Err(LonLat(b.northWest).error)
    ensures r.Ok? ==> |r.value| == 5 && r.value[0] == r.value[4]
    ensures r.Ok? ==> forall k :: 0 <= k < 5 ==> -180.0 <= r.value[k].0 <= 180.0 && -90.0 <= r.value[k].1 <= 90.0
  {
    var nw :- LonLat(b.northWest);
    var ne :- LonLat(b.northEast);
    var se :- LonLat(b.southEast);
    var sw :- LonLat(b.southWest);
    Ok([nw, ne, se, sw, nw])
  }

  /** The polygons of all chunks, in order; the first unreadable corner
      raises. */
  function AllRings(bounds: seq<Footprint.Bounds>): (r: Result<seq<seq<(real, real)>>>)
    ensures r.Ok? <==> forall k :: 0 <= k < |bounds| ==> PolygonRing(bounds[k]).Ok?
    decreases |bounds|
  {
    if |bounds| == 0 then Ok([])
    else
      var first :- PolygonRing(bounds[0]);
      var rest :- AllRings(bounds[1..]);
      assert forall k :: 1 <= k < |bounds| ==> bounds[1..][k - 1] == bounds[k];
      Ok([first] + rest)
  }

  /** A footprint whose corners are present but out of range passes
      `ExtractBounds` and is rejected when its polygon is built. */
  lemma PresentButOutOfRange(b: Footprint.Bounds)
    requires b.northWest == TerrainArea.WorldCoordinates(JNum(95.0), JNum(10.0))
    ensures PolygonRing(b) == Err(ValueError(TerrainArea.LATITUDE_OUT_OF_RANGE))
  {
  }

  /** The data info built for a kept scene. */
  function InfoFor(s: Scene): DownloadTask.DataInfo
    requires s.entityId.Some? && Footprint.ExtractBounds(s.metadata).Ok?
  {
    DownloadTask.NewDataInfo(s.entityId.value, Sidecar.NewWriter(Footprint.ExtractBounds(s.metadata).value))
  }

  /** `SelectRepresentatives(GroupOverlappingChunks(overlaps, n), ...)`
      with the default `min_index` criterion: the least index of each group,
      in increasing order. Every group holds an index below `n`, so the
      selection cannot fail. */
  method KeepLeastOfEachGroup(edges: seq<Edge>, n: nat, areas: seq<real>) returns (selected: seq<nat>)
    ensures forall k :: 0 <= k < |selected| ==> selected[k] < n
    ensures forall a, b :: 0 <= a < b < |selected| ==> selected[a] < selected[b]
    ensures Representatives.OnePerGroup(edges, n, selected)
    ensures forall i, k :: 0 <= k < |selected| && Reachable(edges, selected[k], i) ==> selected[k] <= i
  {
    var groups;
    ghost var starts;
    groups, starts := GroupOverlapping(edges, n);
    assert forall h :: 0 <= h < |groups| ==> Representatives.Selectable(Representatives.MIN_INDEX, groups[h], areas) by {
      forall h | 0 <= h < |groups|
        ensures Representatives.Selectable(Representatives.MIN_INDEX, groups[h], areas)
      {
        assert starts[h] in groups[h];
      }
    }
    var chosen := Representatives.SelectRepresentatives(groups, areas, Representatives.MIN_INDEX);
    selected := chosen.value;
    assert forall h :: 0 <= h < |groups| ==> selected[h] == starts[h] by {
      forall h | 0 <= h < |groups|
        ensures selected[h] == starts[h]
      {
        assert Representatives.Chosen(Representatives.MIN_INDEX, groups[h], areas, selected[h]);
        assert selected[h] <= starts[h];
      }
    }
    Representatives.MembersArePerGroup(edges, n, groups, selected);
    Representatives.MinIndexIsLeastReached(edges, n, groups, areas, selected);
  }

  /** The selection part of `getDownloadRequests`: `selected` holds the kept
      scene indices, and the result the data infos built for them, in
      order. A scene kept without an `entityId` is a KeyError. */
  method SelectTiles(scenes: seq<Scene>, g: Geometry, index: seq<seq<nat>>) returns (r: Result<seq<DownloadTask.DataInfo>>, selected: seq<nat>)
    requires WellFormed(g) && IndexWithin(g, index) && Count(g) == |scenes|
    ensures ChunkBounds(scenes).Err? ==> r == Err(ChunkBounds(scenes).error)
    ensures ChunkBounds(scenes).Ok? && AllRings(ChunkBounds(scenes).value).Err? ==> r == Err(AllRings(ChunkBounds(scenes).value).error)
    ensures ChunkBounds(scenes).Ok? && AllRings(ChunkBounds(scenes).value).Ok? ==>
              && (forall k :: 0 <= k < |selected| ==> selected[k] < |scenes|)
              && (forall a, b :: 0 <= a < b < |selected| ==> selected[a] < selected[b])
              && Representatives.OnePerGroup(FindOverlappingChunks(g, index, OVERLAP_THRESHOLD), |scenes|, selected)
              && (forall i, k :: 0 <= k < |selected| && Reachable(FindOverlappingChunks(g, index, OVERLAP_THRESHOLD), selected[k], i) ==> selected[k] <= i)
              && (r.Ok? <==> forall k :: 0 <= k < |selected| ==> scenes[selected[k]].entityId.Some?)
              && (r.Err? ==> r.error == KeyError("entityId"))
    ensures r.Ok? ==> |r.value| == |selected|
                      && forall k :: 0 <= k < |selected| ==> selected[k] < |scenes| && r.value[k] == InfoFor(scenes[selected[k]])
  {
    selected := [];
    var bounds :- ChunkBounds(scenes);
    var rings :- AllRings(bounds);
    selected := KeepLeastOfEachGroup(FindOverlappingChunks(g, index, OVERLAP_THRESHOLD), |scenes|, g.area);
    r := InfosFor(scenes, selected);
  }

  /** The data infos of the kept scenes, in order; the first kept scene
      without an `entityId` is a KeyError. */
  method InfosFor(scenes: seq<Scene>, selected: seq<nat>) returns (r: Result<seq<DownloadTask.DataInfo>>)
    requires forall k :: 0 <= k < |selected| ==> selected[k] < |scenes| && Footprint.ExtractBounds(scenes[selected[k]].metadata).Ok?
    ensures r.Ok? <==> forall k :: 0 <= k < |selected| ==> scenes[selected[k]].entityId.Some?
    ensures r.Err? ==> r.error == KeyError("entityId")
    ensures r.Ok? ==> |r.value| == |selected| && forall k :: 0 <= k < |selected| ==> r.value[k] == InfoFor(scenes[selected[k]])
  {
    var infos: seq<DownloadTask.DataInfo> := [];
    var k := 0;
    while k < |selected|
      invariant 0 <= k <= |selected| && |infos| == k
      invariant forall m :: 0 <= m < k ==> scenes[selected[m]].entityId.Some?
      invariant forall m :: 0 <= m < k ==> infos[m] == InfoFor(scenes[selected[m]])
    {
      var s := scenes[selected[k]];
      if s.entityId.None? {
        r := Err(KeyError("entityId"));
        return;
      }
      infos := infos + [InfoFor(s)];
      k := k + 1;
    }
    r := Ok(infos);
  }
}
