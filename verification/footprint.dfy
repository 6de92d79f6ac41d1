/** Tile footprints (`Bounds` and `ExtractBounds` in
    `HighResolutionOrthoImagery.py`): five corner coordinates read from a
    scene's metadata fields. */
module Footprint {
  import opened Wrappers
  import opened Json
  import opened TerrainArea

  datatype Bounds = Bounds(
    northEast: WorldCoordinates,
    southEast: WorldCoordinates,
    southWest: WorldCoordinates,
    northWest: WorldCoordinates,
    center: WorldCoordinates)

  /** `Bounds.isValid`: every corner has both components. */
  predicate IsValid(b: Bounds) {
    && TerrainArea.IsValid(b.northEast)
    && TerrainArea.IsValid(b.southEast)
    && TerrainArea.IsValid(b.southWest)
    && TerrainArea.IsValid(b.northWest)
    && TerrainArea.IsValid(b.center)
  }

  /** `World_Coordinates.fromDict(data[key])`: the corner is the object
      under `key`, and its components are that object's `lat` and `lon`. */
  function CornerFromDict(d: Json, key: string): (r: Result<WorldCoordinates>)
    ensures r.Ok? <==> HasKey(d, key) && HasKey(Get(d, key).value, "lat") && HasKey(Get(d, key).value, "lon")
    ensures r.Ok? ==> && Get(Get(d, key).value, "lat") == Ok(r.value.lat)
                      && Get(Get(d, key).value, "lon") == Ok(r.value.lon)
    ensures !HasKey(d, key) ==> r == Get(d, key).PropagateFailure()
  {
    var v :- Get(d, key);
    TerrainArea.FromDict(v)
  }

  /** `Bounds.fromDict`: the corners are read centre first, then NE, SE, SW, NW. */
  function FromDict(d: Json): (r: Result<Bounds>)
    ensures r.Ok? <==>
      && CornerFromDict(d, "center").Ok? && CornerFromDict(d, "northEast").Ok?
      && CornerFromDict(d, "southEast").Ok? && CornerFromDict(d, "southWest").Ok?
      && CornerFromDict(d, "northWest").Ok?
    ensures r.Ok? ==>
      && Ok(r.value.center) == CornerFromDict(d, "center")
      && Ok(r.value.northEast) == CornerFromDict(d, "northEast")
      && Ok(r.value.southEast) == CornerFromDict(d, "southEast")
      && Ok(r.value.southWest) == CornerFromDict(d, "southWest")
      && Ok(r.value.northWest) == CornerFromDict(d, "northWest")
    ensures CornerFromDict(d, "center").Err? ==> r == CornerFromDict(d, "center").PropagateFailure()
  {
    var center :- CornerFromDict(d, "center");
    var northEast :- CornerFromDict(d, "northEast");
    var southEast :- CornerFromDict(d, "southEast");
    var southWest :- CornerFromDict(d, "southWest");
    var northWest :- CornerFromDict(d, "northWest");
    Ok(Bounds(northEast, southEast, southWest, northWest, center))
  }

  /** `Bounds.toJSON`: each corner under its own key, centre first. */
  function ToJson(b: Bounds): Json {
    JObj([("center", TerrainArea.ToJson(b.center)),
          ("northEast", TerrainArea.ToJson(b.northEast)),
          ("southEast", TerrainArea.ToJson(b.southEast)),
          ("southWest", TerrainArea.ToJson(b.southWest)),
          ("northWest", TerrainArea.ToJson(b.northWest))])
  }

  /** `fromDict` reads back from `toJSON` the same five corners. */
  lemma RoundTrip(b: Bounds)
    ensures FromDict(ToJson(b)) == Ok(b)
  {
    CornerLookups(TerrainArea.ToJson(b.center), TerrainArea.ToJson(b.northEast), TerrainArea.ToJson(b.southEast),
                  TerrainArea.ToJson(b.southWest), TerrainArea.ToJson(b.northWest));
    var obj := ToJson(b);
    assert CornerFromDict(obj, "center") == Ok(b.center);
    assert CornerFromDict(obj, "northEast") == Ok(b.northEast);
    assert CornerFromDict(obj, "southEast") == Ok(b.southEast);
    assert CornerFromDict(obj, "southWest") == Ok(b.southWest);
    assert CornerFromDict(obj, "northWest") == Ok(b.northWest);
  }

  /** Each corner key of the `toJSON` layout looks up to its own value. */
  lemma CornerLookups(center: Json, northEast: Json, southEast: Json, southWest: Json, northWest: Json)
    ensures var fields := [("center", center), ("northEast", northEast), ("southEast", southEast), ("southWest", southWest), ("northWest", northWest)];
            && Lookup(fields, "center") == Some(center) && Lookup(fields, "northEast") == Some(northEast)
            && Lookup(fields, "southEast") == Some(southEast) && Lookup(fields, "southWest") == Some(southWest)
            && Lookup(fields, "northWest") == Some(northWest)
  {
    var fields := [("center", center), ("northEast", northEast), ("southEast", southEast), ("southWest", southWest), ("northWest", northWest)];
    CornerKeysDistinct();
    LookupLastBinding(fields, 0, "center");
    LookupLastBinding(fields, 1, "northEast");
    LookupLastBinding(fields, 2, "southEast");
    LookupLastBinding(fields, 3, "southWest");
    LookupLastBinding(fields, 4, "northWest");
  }

  lemma CornerKeysDistinct()
    ensures "center" != "northEast" && "center" != "southEast" && "center" != "southWest" && "center" != "northWest"
    ensures "northEast" != "southEast" && "northEast" != "southWest" && "northEast" != "northWest"
    ensures "southEast" != "southWest" && "southEast" != "northWest"
    ensures "southWest" != "northWest"
  {
    assert "northEast"[5] != "northWest"[5];
    assert "southEast"[5] != "southWest"[5];
    assert "southEast"[0] != "northWest"[0];
    assert "southWest"[0] != "northWest"[0];
    assert "northEast"[0] != "southWest"[0];
    assert "northEast"[0] != "southEast"[0];
  }

  /** One entry of a scene's `metadata` list. */
  datatype MetaField = MetaField(fieldName: string, value: Json)

  const NW_LAT := "NW Corner Lat dec"
  const NW_LON := "NW Corner Long dec"
  const NE_LAT := "NE Corner Lat dec"
  const NE_LON := "NE Corner Long dec"
  const SW_LAT := "SW Corner Lat dec"
  const SW_LON := "SW Corner Long dec"
  const SE_LAT := "SE Corner Lat dec"
  const SE_LON := "SE Corner Long dec"
  const CENTER_LAT := "Center Latitude dec"
  const CENTER_LON := "Center Longitude dec"

  /** One guarded assignment of the scan: a component still unset takes the
      entry's value when the entry carries its field name. */
  function Fill(current: Json, m: MetaField, name: string): Json {
    if current == JNull && m.fieldName == name then m.value else current
  }

  /** One iteration of the scan over the metadata list. */
  function Absorb(b: Bounds, m: MetaField): Bounds {
    Bounds(
      WorldCoordinates(Fill(b.northEast.lat, m, NE_LAT), Fill(b.northEast.lon, m, NE_LON)),
      WorldCoordinates(Fill(b.southEast.lat, m, SE_LAT), Fill(b.southEast.lon, m, SE_LON)),
      WorldCoordinates(Fill(b.southWest.lat, m, SW_LAT), Fill(b.southWest.lon, m, SW_LON)),
      WorldCoordinates(Fill(b.northWest.lat, m, NW_LAT), Fill(b.northWest.lon, m, NW_LON)),
      WorldCoordinates(Fill(b.center.lat, m, CENTER_LAT), Fill(b.center.lon, m, CENTER_LON)))
  }

  /** The scan over the remaining metadata entries, in list order. */
  function Scan(meta: seq<MetaField>, b: Bounds): Bounds
    decreases |meta|
  {
    if |meta| == 0 then b else Scan(meta[1..], Absorb(b, meta[0]))
  }

  const NoCorners := Bounds(Unset, Unset, Unset, Unset, Unset)

  /** `ExtractBounds`: scan the metadata, then raise unless every corner is
      complete. */
  function ExtractBounds(meta: seq<MetaField>): Result<Bounds> {
    var b := Scan(meta, NoCorners);
    if IsValid(b) then Ok(b) else Err(Raised("Failed to get bounds for set"))
  }

  /** The first non-null value of the entries named `name`, or null. */
  function FirstValue(meta: seq<MetaField>, name: string): Json {
    if |meta| == 0 then JNull
    else if meta[0].fieldName == name && meta[0].value != JNull then meta[0].value
    else FirstValue(meta[1..], name)
  }

  /** The bounds that first-match-wins selection describes. */
  function FirstMatches(meta: seq<MetaField>): Bounds {
    Bounds(
      WorldCoordinates(FirstValue(meta, NE_LAT), FirstValue(meta, NE_LON)),
      WorldCoordinates(FirstValue(meta, SE_LAT), FirstValue(meta, SE_LON)),
      WorldCoordinates(FirstValue(meta, SW_LAT), FirstValue(meta, SW_LON)),
      WorldCoordinates(FirstValue(meta, NW_LAT), FirstValue(meta, NW_LON)),
      WorldCoordinates(FirstValue(meta, CENTER_LAT), FirstValue(meta, CENTER_LON)))
  }

  /** A component already set keeps its value through the rest of the scan;
      an unset one ends with the first non-null value named for it. */
  function Keep(current: Json, meta: seq<MetaField>, name: string): Json {
    if current != JNull then current else FirstValue(meta, name)
  }

  lemma {:induction false} ScanKeepsFirst(meta: seq<MetaField>, b: Bounds)
    ensures var r := Scan(meta, b);
      && r.northEast == WorldCoordinates(Keep(b.northEast.lat, meta, NE_LAT), Keep(b.northEast.lon, meta, NE_LON))
      && r.southEast == WorldCoordinates(Keep(b.southEast.lat, meta, SE_LAT), Keep(b.southEast.lon, meta, SE_LON))
      && r.southWest == WorldCoordinates(Keep(b.southWest.lat, meta, SW_LAT), Keep(b.southWest.lon, meta, SW_LON))
      && r.northWest == WorldCoordinates(Keep(b.northWest.lat, meta, NW_LAT), Keep(b.northWest.lon, meta, NW_LON))
      && r.center == WorldCoordinates(Keep(b.center.lat, meta, CENTER_LAT), Keep(b.center.lon, meta, CENTER_LON))
    decreases |meta|
  {
    if |meta| > 0 {
      ScanKeepsFirst(meta[1..], Absorb(b, meta[0]));
    }
  }

  /** `ExtractBounds` keeps, for each of the ten corner fields, the first
      non-null value seen, and raises exactly when one of them has none. */
  lemma ExtractIsFirstMatch(meta: seq<MetaField>)
    ensures ExtractBounds(meta).Ok? <==> IsValid(FirstMatches(meta))
    ensures ExtractBounds(meta).Ok? ==> ExtractBounds(meta).value == FirstMatches(meta)
    ensures ExtractBounds(meta).Err? ==> ExtractBounds(meta).error == Raised("Failed to get bounds for set")
  {
    ScanKeepsFirst(meta, NoCorners);
  }
}
