/** Geographic coordinates (`TerrainArea.py`). A `WorldCoordinates` keeps the
    raw latitude and longitude values it was given, `JNull` standing for an
    absent one; range validation happens only when a value is read. */
module TerrainArea {
  import opened Wrappers
  import opened Json
  import Text

  /** Python `float(value)` on the values a coordinate field can hold. */
  function ToFloat(v: Json): Result<real> {
    match v
    case JNum(x) => Ok(x)
    case JBool(b) => Ok(if b then 1.0 else 0.0)
    case JStr(s) =>
      (match Text.ParseDecimal(s)
       case Some(x) => Ok(x)
       case None => Err(ValueError("could not convert string to float")))
    case _ => Err(TypeError("float() argument must be a string or a real number"))
  }

  const LATITUDE_NOT_FLOAT := "Latitude must be a float."
  const LATITUDE_OUT_OF_RANGE := "Latitude must be between -90 and 90."
  const LONGITUDE_NOT_FLOAT := "Longitude must be a float."
  const LONGITUDE_OUT_OF_RANGE := "Longitude must be between -180 and 180."

  /** `Latitude.Parse`: a ValueError raised by `float()` is replaced by the
      latitude message; any other conversion error propagates unchanged. */
  function ParseLatitude(v: Json): (r: Result<real>)
    ensures r.Ok? <==> ToFloat(v).Ok? && -90.0 <= ToFloat(v).value <= 90.0
    ensures r.Ok? ==> r.value == ToFloat(v).value
    ensures ToFloat(v).Ok? && !(-90.0 <= ToFloat(v).value <= 90.0) ==>
              r == Err(ValueError(LATITUDE_OUT_OF_RANGE))
    ensures ToFloat(v).Err? && ToFloat(v).error.ValueError? ==> r == Err(ValueError(LATITUDE_NOT_FLOAT))
    ensures ToFloat(v).Err? && !ToFloat(v).error.ValueError? ==> r == ToFloat(v)
  {
    match ToFloat(v)
    case Err(ValueError(_)) => Err(ValueError(LATITUDE_NOT_FLOAT))
    case Err(e) => Err(e)
    case Ok(lat) => if -90.0 <= lat <= 90.0 then Ok(lat) else Err(ValueError(LATITUDE_OUT_OF_RANGE))
  }

  /** `Longitude.Parse`, the same shape with the range [-180, 180]. */
  function ParseLongitude(v: Json): (r: Result<real>)
    ensures r.Ok? <==> ToFloat(v).Ok? && -180.0 <= ToFloat(v).value <= 180.0
    ensures r.Ok? ==> r.value == ToFloat(v).value
    ensures ToFloat(v).Ok? && !(-180.0 <= ToFloat(v).value <= 180.0) ==>
              r == Err(ValueError(LONGITUDE_OUT_OF_RANGE))
    ensures ToFloat(v).Err? && ToFloat(v).error.ValueError? ==> r == Err(ValueError(LONGITUDE_NOT_FLOAT))
    ensures ToFloat(v).Err? && !ToFloat(v).error.ValueError? ==> r == ToFloat(v)
  {
    match ToFloat(v)
    case Err(ValueError(_)) => Err(ValueError(LONGITUDE_NOT_FLOAT))
    case Err(e) => Err(e)
    case Ok(lon) => if -180.0 <= lon <= 180.0 then Ok(lon) else Err(ValueError(LONGITUDE_OUT_OF_RANGE))
  }

  datatype WorldCoordinates = WorldCoordinates(lat: Json, lon: Json)

  /** `World_Coordinates()` with neither component set. */
  const Unset := WorldCoordinates(JNull, JNull)

  /** `get_lat`: absent is a ValueError, otherwise the range-checked value. */
  function GetLat(c: WorldCoordinates): (r: Result<real>)
    ensures c.lat == JNull ==> r == Err(ValueError("Lat value is none"))
    ensures c.lat != JNull ==> r == ParseLatitude(c.lat)
    ensures r.Ok? ==> -90.0 <= r.value <= 90.0
  {
    if c.lat == JNull then Err(ValueError("Lat value is none")) else ParseLatitude(c.lat)
  }

  /** `get_lon`: absent is a ValueError, otherwise the range-checked value. */
  function GetLon(c: WorldCoordinates): (r: Result<real>)
    ensures c.lon == JNull ==> r == Err(ValueError("Long value is none"))
    ensures c.lon != JNull ==> r == ParseLongitude(c.lon)
    ensures r.Ok? ==> -180.0 <= r.value <= 180.0
  {
    if c.lon == JNull then Err(ValueError("Long value is none")) else ParseLongitude(c.lon)
  }

  /** `isValid`: both components are present; their ranges are not checked. */
  predicate IsValid(c: WorldCoordinates) {
    c.lat != JNull && c.lon != JNull
  }

  /** A valid coordinate whose latitude is out of range: `isValid` holds while
      `get_lat` raises. */
  lemma ValidDoesNotCheckRange()
    ensures var c := WorldCoordinates(JNum(91.0), JNum(0.0));
            IsValid(c) && GetLat(c) == Err(ValueError(LATITUDE_OUT_OF_RANGE))
  {
  }

  /** Reading succeeds for both components exactly when the coordinate is
      valid and both values convert into range. */
  lemma ReadableIffValidAndInRange(c: WorldCoordinates)
    ensures (GetLat(c).Ok? && GetLon(c).Ok?) <==>
              (IsValid(c) && ToFloat(c.lat).Ok? && -90.0 <= ToFloat(c.lat).value <= 90.0
                && ToFloat(c.lon).Ok? && -180.0 <= ToFloat(c.lon).value <= 180.0)
  {
  }

  /** `fromDict`: reads `lat`, then `lon`. */
  function FromDict(d: Json): (r: Result<WorldCoordinates>)
    ensures r.Ok? <==> HasKey(d, "lat") && HasKey(d, "lon")
    ensures r.Ok? ==> Get(d, "lat") == Ok(r.value.lat) && Get(d, "lon") == Ok(r.value.lon)
    ensures !HasKey(d, "lat") ==> r == Get(d, "lat").PropagateFailure()
  {
    var lat :- Get(d, "lat");
    var lon :- Get(d, "lon");
    Ok(WorldCoordinates(lat, lon))
  }

  /** `toJSON`: the two raw values under `lat` and `lon`; `fromDict` reads
      back the same coordinate. */
  function ToJson(c: WorldCoordinates): (j: Json)
    ensures HasKey(j, "lat") && HasKey(j, "lon")
    ensures FromDict(j) == Ok(c)
  {
    JObj([("lat", c.lat), ("lon", c.lon)])
  }

  datatype BoundingBox = BoundingBox(lowerLeft: WorldCoordinates, upperRight: WorldCoordinates)
}
