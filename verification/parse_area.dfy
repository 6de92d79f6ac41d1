/** Region definitions (`ParseArea.py`): the area-type enumeration and the
    bounding box drawn around a centre point. */
module ParseArea {
  import opened Wrappers
  import opened Json
  import opened TerrainArea

  /** `TerrainBoundsCalculateType`, whose one member is POINT. */
  datatype BoundsType = Point

  /** `terrainBoundsTypeToString`; the name maps back to the same type. */
  function TypeToString(t: BoundsType): (name: string)
    ensures NameToType(name) == Some(t)
  {
    match t
    case Point => "POINT"
  }

  /** `nameToTerrainBoundsType`: POINT for the name "POINT", None (the
      implicit Python return) for every other name. */
  function NameToType(name: string): (t: Option<BoundsType>)
    ensures t.Some? <==> name == "POINT"
  {
    if name == "POINT" then Some(Point) else None
  }

  /** A name the parser accepts is the printed name of the type it yields. */
  lemma NameRoundTrip(name: string)
    requires NameToType(name).Some?
    ensures TypeToString(NameToType(name).value) == name
  {
  }

  const MILES_PER_DEGREE_LATITUDE: real := 69.0
  const DEFAULT_RADIUS_MILES: int := 10

  /** `calculate_bounding_box_around_point`. Both centre components are read
      (and so validated), latitude first. The longitude offset divides by a
      cosine and is an input here. The corners are stored unvalidated. */
  function BoxAroundPoint(center: WorldCoordinates, radiusMiles: int, lonOffset: real): (r: Result<BoundingBox>)
    ensures r.Ok? <==> GetLat(center).Ok? && GetLon(center).Ok?
    ensures GetLat(center).Err? ==> r == GetLat(center).PropagateFailure()
    ensures r.Ok? ==>
      var lat := GetLat(center).value;
      var half := radiusMiles as real / MILES_PER_DEGREE_LATITUDE;
      && r.value.lowerLeft.lat == JNum(lat - half)
      && r.value.upperRight.lat == JNum(lat + half)
      && r.value.lowerLeft.lon == JNum(GetLon(center).value - lonOffset)
      && r.value.upperRight.lon == JNum(GetLon(center).value + lonOffset)
  {
    var lat :- GetLat(center);
    var lon :- GetLon(center);
    var latOffset := radiusMiles as real / MILES_PER_DEGREE_LATITUDE;
    Ok(BoundingBox(WorldCoordinates(JNum(lat - latOffset), JNum(lon - lonOffset)),
                   WorldCoordinates(JNum(lat + latOffset), JNum(lon + lonOffset))))
  }

  /** The latitude band of a box around a point is centred on the point and
      is 2r/69 degrees tall, so its lower edge lies strictly below its upper
      edge for a positive radius. */
  lemma BoxLatitudeBand(center: WorldCoordinates, radiusMiles: int, lonOffset: real)
    requires BoxAroundPoint(center, radiusMiles, lonOffset).Ok?
    ensures var b := BoxAroundPoint(center, radiusMiles, lonOffset).value;
            && b.lowerLeft.lat.JNum? && b.upperRight.lat.JNum?
            && (b.lowerLeft.lat.n + b.upperRight.lat.n) / 2.0 == GetLat(center).value
            && b.upperRight.lat.n - b.lowerLeft.lat.n == 2.0 * radiusMiles as real / 69.0
            && (radiusMiles > 0 ==> b.lowerLeft.lat.n < b.upperRight.lat.n)
  {
  }

  /** A `ParseArea`; the type is None when it came from an unknown name. */
  datatype Area = Area(boundsType: Option<BoundsType>, center: WorldCoordinates)

  /** `getTotalRegion`: a POINT area gets the 10-mile box, any other area
      gets None. */
  function TotalRegion(area: Area, lonOffset: real): (r: Result<Option<BoundingBox>>)
    ensures area.boundsType.None? ==> r == Ok(None)
    ensures area.boundsType == Some(Point) ==>
              (r.Ok? <==> BoxAroundPoint(area.center, DEFAULT_RADIUS_MILES, lonOffset).Ok?)
    ensures area.boundsType == Some(Point) && r.Ok? ==>
              r.value == Some(BoxAroundPoint(area.center, DEFAULT_RADIUS_MILES, lonOffset).value)
  {
    match area.boundsType
    case Some(Point) =>
      var box :- BoxAroundPoint(area.center, DEFAULT_RADIUS_MILES, lonOffset);
      Ok(Some(box))
    case None => Ok(None)
  }
}
