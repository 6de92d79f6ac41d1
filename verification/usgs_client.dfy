/** The USGS M2M client (`usgs/api_client.py`): the session key, how a reply
    is classified, and the payloads of the two searches. The HTTP exchange
    is an input: the model builds the request and is handed the reply. */
module UsgsClient {
  import opened Wrappers
  import opened Json
  import Text
  import TerrainArea

  const SERVICE_URL := "https://m2m.cr.usgs.gov/api/api/json/stable/"
  const LOGIN_ENDPOINT := "login-token"
  const LOGOUT_ENDPOINT := "logout"
  const DATASET_SEARCH := "dataset-search"
  const SCENE_SEARCH := "scene-search"
  const MAX_RESULTS := 1000

  /** A POST to the service: the URL, the JSON body, and the `X-Auth-Token`
      header when a key is given. */
  datatype Request = Request(url: string, body: Json, authToken: Option<Json>)

  /** What the network produced: `requests.post` raised, or a reply arrived
      whose body parsed (`Some`) or did not parse (`None`) as JSON. */
  datatype HttpReply = HttpReply(status: int, body: Option<Json>)
  datatype Transport = ConnectionFailed | Replied(reply: HttpReply)

  /** The request `Send_Request` posts; without a key it sends no header. */
  function MakeRequest(endpoint: string, data: Json, apiKey: Json): (q: Request)
    ensures Text.StartsWith(q.url, SERVICE_URL) && q.url[|SERVICE_URL|..] == endpoint
    ensures q.body == data
    ensures q.authToken.Some? <==> apiKey != JNull
    ensures q.authToken.Some? ==> q.authToken.value == apiKey
  {
    var url := SERVICE_URL + endpoint;
    assert url[..|SERVICE_URL|] == SERVICE_URL;
    Request(url, data, if apiKey == JNull then None else Some(apiKey))
  }

  /** The status codes `Send_Request` treats as failures. */
  predicate FailureStatus(status: int) {
    status == 404 || status == 401 || status == 400
  }

  /** The reply is rejected inside the `try`: the body is not JSON, has no
      readable `errorCode`, reports an error, or the status is a failure.
      The error code is checked before the status. */
  predicate Rejected(reply: HttpReply) {
    || reply.body.None?
    || !HasKey(reply.body.value, "errorCode")
    || Get(reply.body.value, "errorCode").value != JNull
    || FailureStatus(reply.status)
  }

  /** `Send_Request` after the post: a connection failure propagates, a
      rejected reply exits, then `requestId` and `data` are read. */
  function ReadReply(t: Transport): (r: Result<Json>)
    ensures t.ConnectionFailed? ==> r == Err(Raised("connection failed"))
    ensures t.Replied? && Rejected(t.reply) ==> r == Err(SystemExit(""))
    ensures r.Ok? <==> t.Replied? && !Rejected(t.reply) && HasKey(t.reply.body.value, "requestId") && HasKey(t.reply.body.value, "data")
    ensures r.Ok? ==> Get(t.reply.body.value, "data") == Ok(r.value)
    ensures t.Replied? && !Rejected(t.reply) && r.Err? ==> r.error.KeyError?
  {
    match t
    case ConnectionFailed => Err(Raised("connection failed"))
    case Replied(reply) =>
      if Rejected(reply) then Err(SystemExit(""))
      else
        var output := reply.body.value;
        var _ :- Get(output, "requestId");
        Get(output, "data")
  }

  /** A reply reporting an error exits even when its status is 200, and a
      status of 404 exits even when no error is reported. */
  lemma ErrorCodeBeforeStatus(data: Json)
    ensures ReadReply(Replied(HttpReply(200, Some(JObj([("errorCode", JStr("AUTH_INVALID")), ("requestId", JNum(1.0)), ("data", data)]))))) == Err(SystemExit(""))
    ensures ReadReply(Replied(HttpReply(404, Some(JObj([("errorCode", JNull), ("requestId", JNum(1.0)), ("data", data)]))))) == Err(SystemExit(""))
    ensures ReadReply(Replied(HttpReply(200, Some(JObj([("errorCode", JNull), ("requestId", JNum(1.0)), ("data", data)]))))) == Ok(data)
  {
    var ok := JObj([("errorCode", JNull), ("requestId", JNum(1.0)), ("data", data)]);
    assert Lookup(ok.fields, "errorCode") == Some(JNull);
    assert Lookup(ok.fields, "requestId") == Some(JNum(1.0));
  }

  /** The client: `api_key`, `JNull` standing for None. */
  datatype Client = Client(apiKey: Json)

  const NewClient := Client(JNull)

  predicate HasActiveLogin(c: Client) {
    c.apiKey != JNull
  }

  /** `submitRequest`: refuses to send without a session. */
  function SubmitRequest(c: Client, endpoint: string, data: Json, t: Transport): (r: (Request, Result<Json>))
    ensures !HasActiveLogin(c) ==> r.1 == Err(Raised("Session not valid"))
    ensures HasActiveLogin(c) ==> r.0.authToken == Some(c.apiKey) && r.1 == ReadReply(t)
  {
    var q := MakeRequest(endpoint, data, c.apiKey);
    if c.apiKey == JNull then (q, Err(Raised("Session not valid"))) else (q, ReadReply(t))
  }

  /** The configured user name and application token. */
  datatype Credentials = Credentials(username: string, token: string)

  function LoginPayload(cred: Credentials): Json {
    JObj([("username", JStr(cred.username)), ("token", JStr(cred.token))])
  }

  /** `attempt_login`: the reply's data becomes the key; any failure other
      than an exit is caught and leaves no session, while an exit passes
      through. */
  function AttemptLogin(c: Client, cred: Credentials, t: Transport): (r: (Request, Result<Client>))
    ensures r.0 == MakeRequest(LOGIN_ENDPOINT, LoginPayload(cred), JNull)
    ensures ReadReply(t).Ok? ==> r.1 == Ok(Client(ReadReply(t).value))
    ensures ReadReply(t).Err? && !ReadReply(t).error.SystemExit? ==> r.1 == Ok(NewClient)
    ensures ReadReply(t).Err? && ReadReply(t).error.SystemExit? ==> r.1 == Err(ReadReply(t).error)
  {
    var q := MakeRequest(LOGIN_ENDPOINT, LoginPayload(cred), JNull);
    match ReadReply(t)
    case Ok(key) => (q, Ok(Client(key)))
    case Err(SystemExit(m)) => (q, Err(SystemExit(m)))
    case Err(_) => (q, Ok(c.(apiKey := JNull)))
  }

  /** `attempt_logout`: `logout` is sent with the key and a null body; a
      failure propagates, otherwise the key is cleared whatever the reply's
      data. */
  function AttemptLogout(c: Client, t: Transport): (r: (Request, Result<Client>))
    ensures r.0 == MakeRequest(LOGOUT_ENDPOINT, JNull, c.apiKey)
    ensures r.1.Ok? <==> ReadReply(t).Ok?
    ensures r.1.Ok? ==> !HasActiveLogin(r.1.value)
    ensures r.1.Err? ==> r.1.error == ReadReply(t).error
  {
    var q := MakeRequest(LOGOUT_ENDPOINT, JNull, c.apiKey);
    match ReadReply(t)
    case Ok(_) => (q, Ok(c.(apiKey := JNull)))
    case Err(e) => (q, Err(e))
  }

  /** `__enter__`: logs in only when there is no session. */
  function Enter(c: Client, cred: Credentials, t: Transport): (r: Result<Client>)
    ensures HasActiveLogin(c) ==> r == Ok(c)
    ensures !HasActiveLogin(c) ==> r == AttemptLogin(c, cred, t).1
  {
    if HasActiveLogin(c) then Ok(c) else AttemptLogin(c, cred, t).1
  }

  /** `__exit__`: logs out only when there is a session, and never
      suppresses the exception of the `with` body. */
  function Exit(c: Client, t: Transport): (r: Result<(Client, bool)>)
    ensures r.Ok? ==> !HasActiveLogin(r.value.0) && !r.value.1
    ensures !HasActiveLogin(c) ==> r == Ok((c, false))
    ensures HasActiveLogin(c) ==> && (r.Ok? <==> ReadReply(t).Ok?)
                                  && (r.Ok? ==> r.value.0 == c.(apiKey := JNull))
                                  && (r.Err? ==> r.error == ReadReply(t).error)
  {
    if HasActiveLogin(c) then
      var c' :- AttemptLogout(c, t).1;
      Ok((c', false))
    else Ok((c, false))
  }

  /** A failed login that is not an exit leaves the client without a
      session, so `__exit__` sends nothing and `submitRequest` refuses. */
  lemma FailedLoginNeverSubmits(cred: Credentials, login: Transport, later: Transport, endpoint: string, data: Json)
    requires ReadReply(login).Err? && !ReadReply(login).error.SystemExit?
    ensures Enter(NewClient, cred, login) == Ok(NewClient)
    ensures SubmitRequest(NewClient, endpoint, data, later).1 == Err(Raised("Session not valid"))
    ensures Exit(NewClient, later) == Ok((NewClient, false))
  {
  }

  /** A `with` block whose login and logout replies are accepted ends
      without a session. */
  lemma SessionEndsLoggedOut(cred: Credentials, login: Transport, logout: Transport)
    requires ReadReply(login).Ok? && ReadReply(logout).Ok?
    ensures var c := Enter(NewClient, cred, login);
            c.Ok? && Exit(c.value, logout).Ok? && !HasActiveLogin(Exit(c.value, logout).value.0)
  {
  }

  /** `{"latitude": ..., "longitude": ...}` of a corner, latitude read first. */
  function CornerJson(c: TerrainArea.WorldCoordinates): (r: Result<Json>)
    ensures r.Ok? <==> TerrainArea.GetLat(c).Ok? && TerrainArea.GetLon(c).Ok?
    ensures TerrainArea.GetLat(c).Err? ==> r == Err(TerrainArea.GetLat(c).error)
    ensures r.Ok? ==> Get(r.value, "latitude") == Ok(JNum(TerrainArea.GetLat(c).value))
                      && Get(r.value, "longitude") == Ok(JNum(TerrainArea.GetLon(c).value))
  {
    var lat :- TerrainArea.GetLat(c);
    var lon :- TerrainArea.GetLon(c);
    Ok(JObj([("latitude", JNum(lat)), ("longitude", JNum(lon))]))
  }

  /** The `mbr` spatial filter of a bounding box; reading a coordinate can
      raise, lower-left first. */
  function SpatialFilter(box: TerrainArea.BoundingBox): (r: Result<Json>)
    ensures r.Ok? <==> CornerJson(box.lowerLeft).Ok? && CornerJson(box.upperRight).Ok?
    ensures CornerJson(box.lowerLeft).Err? ==> r == Err(CornerJson(box.lowerLeft).error)
  {
    var lowerLeft :- CornerJson(box.lowerLeft);
    var upperRight :- CornerJson(box.upperRight);
    Ok(JObj([("filterType", JStr("mbr")), ("lowerLeft", lowerLeft), ("upperRight", upperRight)]))
  }

  /** The filter reads back as an `mbr` filter of the two corners. */
  lemma SpatialFilterFields(box: TerrainArea.BoundingBox)
    requires SpatialFilter(box).Ok?
    ensures var f := SpatialFilter(box).value;
            && Get(f, "filterType") == Ok(JStr("mbr"))
            && Get(f, "lowerLeft") == CornerJson(box.lowerLeft)
            && Get(f, "upperRight") == CornerJson(box.upperRight)
  {
    var f := SpatialFilter(box).value;
    assert f.fields[0].0 == "filterType" && f.fields[1].0 == "lowerLeft" && f.fields[2].0 == "upperRight";
    LookupLastBinding(f.fields, 0, "filterType");
    LookupLastBinding(f.fields, 1, "lowerLeft");
  }

  /** The `dataset-search` payload: a dataset name only when a target is
      given. */
  function DatasetPayload(target: Option<string>, filter: Json): Json {
    match target
    case Some(name) => JObj([("datasetName", JStr(name)), ("spatialFilter", filter)])
    case None => JObj([("spatialFilter", filter)])
  }

  /** The payload names a dataset exactly when a target is given, and always
      carries the filter. */
  lemma DatasetPayloadFields(target: Option<string>, filter: Json)
    ensures HasKey(DatasetPayload(target, filter), "datasetName") <==> target.Some?
    ensures target.Some? ==> Get(DatasetPayload(target, filter), "datasetName") == Ok(JStr(target.value))
    ensures Get(DatasetPayload(target, filter), "spatialFilter") == Ok(filter)
  {
    var p := DatasetPayload(target, filter);
    if target.Some? {
      assert p.fields[0].0 == "datasetName" && p.fields[1].0 == "spatialFilter";
      LookupLastBinding(p.fields, 0, "datasetName");
    } else {
      assert p.fields == [("spatialFilter", filter)];
      assert Lookup(p.fields[..0], "datasetName") == None;
    }
  }

  /** `find_datasets_for`: the filter is built, then the search is sent with
      the client's key. */
  function FindDatasetsFor(c: Client, box: TerrainArea.BoundingBox, target: Option<string>, t: Transport): (r: Result<(Request, Json)>)
    ensures r.Ok? <==> SpatialFilter(box).Ok? && ReadReply(t).Ok?
    ensures r.Ok? ==> r.value.0 == MakeRequest(DATASET_SEARCH, DatasetPayload(target, SpatialFilter(box).value), c.apiKey)
    ensures r.Ok? ==> r.value.1 == ReadReply(t).value
  {
    var filter :- SpatialFilter(box);
    var q := MakeRequest(DATASET_SEARCH, DatasetPayload(target, filter), c.apiKey);
    var datasets :- ReadReply(t);
    Ok((q, datasets))
  }

  /** The `scene-search` payload. */
  function ScenePayload(name: Json, filter: Json): Json {
    JObj([("datasetName", name), ("maxResults", JNum(MAX_RESULTS as real)),
          ("sceneFilter", JObj([("spatialFilter", filter)]))])
  }

  /** The scene payload names the dataset, caps the results at 1000 and nests
      the filter under `sceneFilter`. */
  lemma ScenePayloadFields(name: Json, filter: Json)
    ensures Get(ScenePayload(name, filter), "datasetName") == Ok(name)
    ensures Get(ScenePayload(name, filter), "maxResults") == Ok(JNum(1000.0))
    ensures Get(ScenePayload(name, filter), "sceneFilter") == Ok(JObj([("spatialFilter", filter)]))
  {
    var p := ScenePayload(name, filter);
    assert p.fields[0].0 == "datasetName" && p.fields[1].0 == "maxResults" && p.fields[2].0 == "sceneFilter";
    LookupLastBinding(p.fields, 0, "datasetName");
    LookupLastBinding(p.fields, 1, "maxResults");
  }

  /** `find_scenes`: the spatial filter is built first, then the dataset's
      `datasetAlias` is read. */
  function FindScenes(c: Client, dataset: Json, box: TerrainArea.BoundingBox, t: Transport): (r: Result<(Request, Json)>)
    ensures r.Ok? <==> SpatialFilter(box).Ok? && HasKey(dataset, "datasetAlias") && ReadReply(t).Ok?
    ensures SpatialFilter(box).Ok? && !HasKey(dataset, "datasetAlias") ==> r == Err(Get(dataset, "datasetAlias").error)
    ensures r.Ok? ==> r.value.0 == MakeRequest(SCENE_SEARCH, ScenePayload(Get(dataset, "datasetAlias").value, SpatialFilter(box).value), c.apiKey)
    ensures r.Ok? ==> r.value.1 == ReadReply(t).value
  {
    var filter :- SpatialFilter(box);
    var name :- Get(dataset, "datasetAlias");
    var q := MakeRequest(SCENE_SEARCH, ScenePayload(name, filter), c.apiKey);
    var scenes :- ReadReply(t);
    Ok((q, scenes))
  }
}
