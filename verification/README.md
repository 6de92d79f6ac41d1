# Terrain stitcher core in Dafny

This project models the part of the terrain stitcher that decides which
USGS high-resolution orthoimagery tiles are downloaded and how the results
are named. The modelled pieces are:

- **Coordinates.** The latitude and longitude validation of
  `World_Coordinates`, and its dictionary form.
- **Footprints.** A scene's footprint is read from its metadata
  (`ExtractBounds`). It is then turned into a polygon, and `Bounds` and
  `ImageDataWriter` round-trip through their dictionary forms.
- **Tile deduplication.** Overlapping footprints become edges
  (`FindOverlappingChunks`). The edges are grouped into connected components
  (`GroupOverlappingChunks`), and one representative is picked per component
  (`SelectRepresentatives`). This also covers the older copy of the three
  stages in `main_arch.py`, whose `find_overlapping_chunks`,
  `group_overlapping_chunks` and `select_representatives` share the same
  members; `MainArch.Deduplicate` states their combined contract.
- **Download orchestration.** The sidecar path of a URL, the retry counter
  with its cap of 5, skipping work that is already done, and filtering
  download ids against the accepted records. Each poll records and queues
  exactly the accepted entries whose ids are new, so polling never records
  an id twice. The task pool after a request is every queued entry handed
  to `QueueDownload` in order. Requests
  of 50,000 or more items are refused.
- **The USGS M2M client.** How a reply is classified, the login session
  state, and the search payloads.
- **Ortho preparation names.** The archive, sidecar, chunk, PNG and info
  file names, and the entries of the final info file.
- **Area types.** The area-type enum and the latitude band of the box
  around a point.

Modules follow the source files:

| file | module | models |
|---|---|---|
| `wrappers.dfy` | `Wrappers` | `Option`, `Result` and the Python exception kinds |
| `json.dfy` | `Json` | JSON values; dictionary lookup where the last binding wins |
| `text.dfy` | `Text` | string and path helpers (`split`, `basename`, `join`, `splitext`, `float()` on decimals) |
| `terrain_area.dfy` | `TerrainArea` | `common/TerrainArea.py` |
| `parse_area.dfy` | `ParseArea` | `common/ParseArea.py` |
| `footprint.dfy` | `Footprint` | `Bounds` and `ExtractBounds` |
| `sidecar.dfy` | `Sidecar` | `ImageDataWriter` over a file system map |
| `overlaps.dfy` | `Overlaps` | `FindOverlappingChunks` |
| `components.dfy` | `Components` | `GroupOverlappingChunks` |
| `representatives.dfy` | `Representatives` | `SelectRepresentatives` |
| `ortho_requests.dfy` | `OrthoRequests` | `toPolygon` and `getDownloadRequests` |
| `download_task.dfy` | `DownloadTask` | `getURLFilePath`, `DataInfo`, `DownloadAttempt`, `DownloadFile`, `QueueDownload` |
| `download_batch.dfy` | `DownloadBatch` | `requestAndProcessAllDownloads`, `processDownloads`, `execute` |
| `usgs_client.dfy` | `UsgsClient` | `usgs/api_client.py` |
| `ortho_prep.dfy` | `OrthoPrep` | `functions/OrthoPrep.py` |
| `main_arch.dfy` | `MainArch` | `main_arch.py` |

Errors are modelled as values. An operation that raises in Python returns
`Err` with the exception kind and its message, as far as the source fixes
them. The projected geometry is an input:

- the area of each footprint;
- whether two footprints intersect;
- the area of their intersection;
- the candidate lists the R-tree returns.

The network, the file system and threads are replaced by inputs: a reply
per request, a map from paths to file contents, and one download outcome per
step.

Five behaviours of the code are stated as written:

- Only failures increment `numAttempts`
  (src/terrain_pkg/DataSources/DataSource.py:100), so a download that fails
  four times and then succeeds is recorded with `numAttempts == 4`
  (`DownloadTask.FourFailuresThenSuccess`).
- `execute` raises for 50,000 or more data infos
  (src/terrain_pkg/DataSources/DataSource.py:225-226, `>= 50000`;
  `DownloadBatch.Execute`).
- `getDownloadRequests` passes three arguments to `DataInfo`, but the
  `DataInfo` in `src/terrain_pkg/DataSources/DataSource.py` takes two. The
  model builds `DataInfo(entityId, writer)`.
- The `requested` loop of `requestAndProcessAllDownloads` queues an entry
  without recording its id. When a later poll reports the same entry as
  available, it is queued a second time
  (`DownloadBatch.RequestedThenPolledQueuedTwice`).
- `getURLFilePath` turns `/` into `_`, so `https://a/b` and `https://a_b`
  share one sidecar, and whichever is downloaded second is skipped
  (`DownloadTask.SlashAndUnderscoreShareSidecar`).

## Model

| member | source | states |
|---|---|---|
| TerrainArea.ParseLatitude | src/terrain_stitcher/common/TerrainArea.py:3-11 | A latitude is accepted iff `float()` succeeds and the value lies in [-90, 90], both ends included. The value is returned unchanged. Out of range, and a ValueError from `float()`, both become ValueError with the latitude message; any other conversion error propagates. |
| TerrainArea.ParseLongitude | src/terrain_stitcher/common/TerrainArea.py:17-25 | The same for longitude with [-180, 180] and the longitude message. |
| TerrainArea.GetLat | src/terrain_stitcher/common/TerrainArea.py:45-49 | A missing latitude raises "Lat value is none". Otherwise the parsed latitude is returned, and a successful result is always within [-90, 90]. |
| TerrainArea.GetLon | src/terrain_stitcher/common/TerrainArea.py:39-43 | A missing longitude raises "Long value is none". Otherwise the parsed longitude is returned, always within [-180, 180]. |
| TerrainArea.ValidDoesNotCheckRange | src/terrain_stitcher/common/TerrainArea.py:51-52 | `isValid` only checks presence: latitude 91 is valid, yet `get_lat` raises the out-of-range error. |
| TerrainArea.ReadableIffValidAndInRange | src/terrain_stitcher/common/TerrainArea.py:39-52 | Both getters succeed iff the coordinate is valid, both components convert to float, and both lie in their ranges. |
| TerrainArea.FromDict | src/terrain_stitcher/common/TerrainArea.py:60-62 | Succeeds iff the dictionary has `lat` and `lon`, and then holds exactly those values. A missing `lat` is a KeyError. |
| TerrainArea.ToJson | src/terrain_stitcher/common/TerrainArea.py:54-58 | `fromDict(toJSON(c))` gives back `c`. |
| ParseArea.TypeToString | src/terrain_stitcher/common/ParseArea.py:11-13 | Maps an area type to the name that maps back to it. |
| ParseArea.NameToType | src/terrain_stitcher/common/ParseArea.py:15-17 | A name maps to a type iff it is exactly `"POINT"`; any other name gives None. |
| ParseArea.NameRoundTrip | src/terrain_stitcher/common/ParseArea.py:11-17 | Every name that maps to a type is that type's name. |
| ParseArea.BoxAroundPoint | src/terrain_stitcher/common/ParseArea.py:19-34 | The box exists iff the centre's latitude and longitude can be read, and a latitude error propagates. Its latitudes are lat ∓ radius/69, and its longitudes are lon ∓ the given offset. |
| ParseArea.BoxLatitudeBand | src/terrain_stitcher/common/ParseArea.py:21-31 | The latitude band is centred on the point and 2·radius/69 wide. For a positive radius the minimum latitude is below the maximum. |
| ParseArea.TotalRegion | src/terrain_stitcher/common/ParseArea.py:47-49 | An area without a type has no region. A POINT area's region is the box around its centre with radius 10, and fails exactly when that box fails. |
| Footprint.CornerFromDict | src/terrain_stitcher/dataSources/HighResolutionOrthoImagery.py:77-85 | One corner is read iff its key is present and the object under it has `lat` and `lon`. The corner's components are those two values. A missing key is the lookup's KeyError. |
| Footprint.FromDict | src/terrain_stitcher/dataSources/HighResolutionOrthoImagery.py:77-85 | `Bounds.fromDict` succeeds iff all five corners (centre and four outer) can be read. Each corner of the result is the one read under its own key. A missing centre is the error reported. |
| Footprint.RoundTrip | src/terrain_stitcher/dataSources/HighResolutionOrthoImagery.py:68-85 | `Bounds.fromDict(toJSON(b))` gives back `b`. |
| Footprint.ScanKeepsFirst | src/terrain_stitcher/dataSources/HighResolutionOrthoImagery.py:188-208 | After the metadata scan, each of the ten corner fields holds its earlier value if set, and otherwise the first non-null metadata value under its name. The first match wins. |
| Footprint.ExtractIsFirstMatch | src/terrain_stitcher/dataSources/HighResolutionOrthoImagery.py:181-215 | `ExtractBounds` succeeds iff the first-match bounds have both lat and lon on all five corners, and then returns them. Otherwise it raises "Failed to get bounds for set". |
| Sidecar.NewWriter | src/terrain_stitcher/dataSources/HighResolutionOrthoImagery.py:116-121 | A new writer holds the bounds, no image file name, and no URL. |
| Sidecar.FromDict | src/terrain_stitcher/dataSources/HighResolutionOrthoImagery.py:143-147 | Succeeds iff `bounds` is present and readable and `imageFileName` is present. The result carries the bounds as `Bounds.fromDict` reads them, `imageFileName` as stored, and no URL. |
| Sidecar.RoundTrip | src/terrain_stitcher/dataSources/HighResolutionOrthoImagery.py:126-147 | `fromDict(toJSON(w))` gives back `w` except for the URL, which the sidecar does not store. |
| Sidecar.WriteFileContentsEffect | src/terrain_stitcher/dataSources/HighResolutionOrthoImagery.py:149-154 | `WriteFileContents` sets the writer's image file name and adds or replaces exactly one file, the sidecar at `dir/dataFilePath`, whose content is the writer's JSON. Every other file is unchanged. |
| Sidecar.HasDataAlreadyBeenDownloaded | src/terrain_stitcher/dataSources/HighResolutionOrthoImagery.py:133-165 | The answer is true iff the sidecar exists, is a JSON object, and names a string `imageFileName` whose payload file exists. A missing sidecar answers false. A present sidecar raises iff it is not such an object: a ValueError when it is not JSON, a TypeError otherwise. |
| Sidecar.PayloadThenSidecarMarksDownloaded | src/terrain_stitcher/dataSources/HighResolutionOrthoImagery.py:149-165 | Once the payload and then the sidecar are written, the download check answers true. |
| Overlaps.ScanRow | src/terrain_stitcher/dataSources/HighResolutionOrthoImagery.py:224-240 | The pairs examined for one footprint are exactly its overlap edges with the candidates. An overlap edge has i < j, the footprints intersect, the smaller area is non-zero, and the ratio is the intersection over the smaller area and reaches the threshold. |
| Overlaps.ScanRows | src/terrain_stitcher/dataSources/HighResolutionOrthoImagery.py:224-240 | Over all footprints from `i` on, the examined pairs are exactly the overlap edges whose partner is among the candidates. |
| Overlaps.Dedup | src/terrain_stitcher/dataSources/HighResolutionOrthoImagery.py:222 | Collecting into a set keeps every edge once and loses none. |
| Overlaps.SortByRatio | src/terrain_stitcher/dataSources/HighResolutionOrthoImagery.py:242 | The edges are ordered by non-increasing ratio, as a permutation of the input. |
| Overlaps.FindOverlappingChunks | src/terrain_stitcher/dataSources/HighResolutionOrthoImagery.py:218-242 | Every returned edge is an overlap edge, so i < j, no zero-area pair, and an inclusive threshold. Edges are sorted by non-increasing ratio and no pair appears twice. When the R-tree candidates include every intersecting footprint, every overlap edge is returned. |
| Overlaps.PairsDistinct | src/terrain_stitcher/dataSources/HighResolutionOrthoImagery.py:222-240 | Distinct overlap edges never share a pair, because the ratio is fixed by the pair. |
| Overlaps.EdgesIndependentOfIndex | src/terrain_stitcher/dataSources/HighResolutionOrthoImagery.py:224-240 | Any two R-tree answers that cover the intersecting footprints give the same edges. |
| Components.Neighbors | src/terrain_stitcher/dataSources/HighResolutionOrthoImagery.py:247-250 | The adjacency graph is undirected: `b` is a neighbour of `a` iff an edge joins them in either direction. |
| Components.Explore | src/terrain_stitcher/dataSources/HighResolutionOrthoImagery.py:256-261 | The depth-first search from an unvisited start collects exactly the indices reachable from it. None of them was visited before, and the group is closed under edges. |
| Components.GroupOverlapping | src/terrain_stitcher/dataSources/HighResolutionOrthoImagery.py:245-270 | The groups cover `0..n-1`, are disjoint, and are closed under edges. Members of a group are mutually reachable. Groups come in order of their least index, which is where each search started. |
| Components.SameGroupIffReachable | src/terrain_stitcher/dataSources/HighResolutionOrthoImagery.py:247-268 | Two indices share a group iff one is reachable from the other through overlap edges. Overlap therefore merges transitively. |
| Components.PartitionsIndices | src/terrain_stitcher/dataSources/HighResolutionOrthoImagery.py:263-268 | Every index below `n` lies in exactly one group. |
| Components.IsolatedIsSingleton | src/terrain_stitcher/dataSources/HighResolutionOrthoImagery.py:263-268 | An index that no edge touches forms a group on its own. |
| Components.NoEdgesAllSingletons | src/terrain_stitcher/dataSources/HighResolutionOrthoImagery.py:263-268 | Without edges every group is a single index below `n`. |
| Components.ChainMergesIntoOneGroup | src/terrain_stitcher/dataSources/HighResolutionOrthoImagery.py:247-261 | Edges 0-1 and 1-2 put all three indices into one group, even though 0 and 2 do not overlap. |
| Components.GroupsStayBelow | src/terrain_stitcher/dataSources/HighResolutionOrthoImagery.py:263-268 | When every edge is between indices below `n`, every group member is below `n`. |
| Representatives.MinOf | src/terrain_stitcher/dataSources/HighResolutionOrthoImagery.py:278 | `min(group)` is a member no larger than any other member. |
| Representatives.MaxAreaOf | src/terrain_stitcher/dataSources/HighResolutionOrthoImagery.py:280-282 | The chosen member has maximal area in its group, and is the least such member when areas tie. |
| Representatives.Failure | src/terrain_stitcher/dataSources/HighResolutionOrthoImagery.py:283-284 | An unknown criterion raises ValueError "Unknown criteria". |
| Representatives.SelectRepresentatives | src/terrain_stitcher/dataSources/HighResolutionOrthoImagery.py:273-287 | Succeeds iff every group can be handled. It then picks one member per group, in group order: the minimum for `min_index`, and a member of maximal area for `max_area`. Otherwise it raises the error of the first failing group. |
| Representatives.MembersArePerGroup | src/terrain_stitcher/dataSources/HighResolutionOrthoImagery.py:273-287 | A member per group gives exactly one selected index per connected component. Every index is reached from exactly one selected index, and no selected index reaches another. |
| Representatives.MinIndexIsLeastReached | src/terrain_stitcher/dataSources/HighResolutionOrthoImagery.py:278 | With `min_index`, each selected index is at most every index it reaches. |
| Representatives.MaxAreaIsLargestReached | src/terrain_stitcher/dataSources/HighResolutionOrthoImagery.py:280-282 | With `max_area`, each selected index has an area no smaller than that of any index it reaches. |
| OrthoRequests.ChunkBounds | src/terrain_stitcher/dataSources/HighResolutionOrthoImagery.py:299-303 | Succeeds iff every scene's bounds can be extracted, and then holds them in scene order. |
| OrthoRequests.LonLat | src/terrain_stitcher/dataSources/HighResolutionOrthoImagery.py:104-114 | A corner gives `(lon, lat)` iff both getters succeed; the longitude error comes first. |
| OrthoRequests.PolygonRing | src/terrain_stitcher/dataSources/HighResolutionOrthoImagery.py:104-114 | The ring exists iff the four outer corners can be read. It is closed (five points, first equals last) and every point is within range. The centre is not checked. |
| OrthoRequests.AllRings | src/terrain_stitcher/dataSources/HighResolutionOrthoImagery.py:306-308 | Polygons are built for all chunks iff every chunk's ring can be built. |
| OrthoRequests.PresentButOutOfRange | src/terrain_stitcher/dataSources/HighResolutionOrthoImagery.py:104-114 | A corner at latitude 95 passes extraction but is rejected when its polygon is built. |
| OrthoRequests.KeepLeastOfEachGroup | src/terrain_stitcher/dataSources/HighResolutionOrthoImagery.py:310-317 | The default selection keeps one index per component, namely the least index it reaches, in increasing order. |
| OrthoRequests.SelectTiles | src/terrain_stitcher/dataSources/HighResolutionOrthoImagery.py:289-329 | The first error from extracting bounds or building polygons propagates. Otherwise the kept scenes are one per overlap component, each the least of its component and in increasing order. One data info is built per kept scene, in order. A kept scene without `entityId` is a KeyError. |
| OrthoRequests.InfosFor | src/terrain_stitcher/dataSources/HighResolutionOrthoImagery.py:322-327 | The data infos of the kept scenes, in order, built from their entity ids and fresh writers. The first kept scene without `entityId` is a KeyError. |
| MainArch.RawRing | main_arch.py:25-32 | `to_polygon` returns a closed five-point ring and never raises. |
| MainArch.RawRingAgreesWithChecked | main_arch.py:25-32 | Wherever the checked `toPolygon` succeeds, the raw ring holds the same numbers. |
| MainArch.OutOfRangeOnlyRejectedByChecked | main_arch.py:25-32 | Latitude 95 is kept by `main_arch.py` and rejected by the checked pipeline. |
| MainArch.Deduplicate | main_arch.py:43-108 | The three stages in sequence. The result exists iff there are no footprints or the criterion is known; otherwise it is ValueError "Unknown criteria". The result is one index per overlap component: the least for `min_index`, a largest one for `max_area`. |
| MainArch.GroupAndSelect | main_arch.py:69-108 | Grouping followed by selection over edges below `n` gives one index per component, with the same per-criterion guarantees and the same error. |
| DownloadTask.SecondField | src/terrain_pkg/DataSources/DataSource.py:30 | `split(sep)[1]` exists iff the separator occurs, and is otherwise an IndexError. It holds no separator. It is all the text after the first occurrence, or that text up to the point where the next occurrence starts. |
| DownloadTask.GetUrlFilePath | src/terrain_pkg/DataSources/DataSource.py:27-30 | Raises when no URL was set, and is an IndexError when the URL lacks `https://`. Otherwise the sidecar name ends in `.txt` and holds no `/`. |
| DownloadTask.SidecarNameOfPlainUrl | src/terrain_pkg/DataSources/DataSource.py:30 | For `https://` followed by a path, the sidecar name is the path with every `/` replaced by `_`, plus `.txt`. |
| DownloadTask.SlashAndUnderscoreShareSidecar | src/terrain_pkg/DataSources/DataSource.py:30 | `https://a/b` and `https://a_b` map to the same sidecar. |
| DownloadTask.NewDataInfo | src/terrain_pkg/DataSources/DataSource.py:40-44 | A new data info holds its entity id and writer and has no URL. |
| DownloadTask.SetUrl | src/terrain_pkg/DataSources/DataSource.py:46-48 | Setting the URL stores it both in the data info and in its writer, and changes nothing else. |
| DownloadTask.NewAttempt | src/terrain_pkg/DataSources/DataSource.py:61-65 | A new attempt starts at 0 attempts and pushes its URL into the data info and its writer. |
| DownloadTask.HasDownloadBeenProcessed | src/terrain_pkg/DataSources/DataSource.py:112-114 | Raises iff the sidecar path cannot be derived or the sidecar is present but unreadable. A derivable path with no sidecar answers false. Otherwise it answers true iff the sidecar marks the payload as downloaded. |
| DownloadTask.QueueDownload | src/terrain_pkg/DataSources/DataSource.py:116-123 | A task already processed is skipped and starts no work; any other task is started. Queueing fails exactly when the check raises. |
| DownloadTask.Complete | src/terrain_pkg/DataSources/DataSource.py:94-96 | A finished download is recorded as completed with its file name, and no other list changes. |
| DownloadTask.RetryEffect | src/terrain_pkg/DataSources/DataSource.py:99-110 | `Retry` completes nothing and only appends to the lists. The task joins the failed list iff this was its fifth failure. Otherwise it is requeued, or lost exactly when the requeue's check raises. |
| DownloadTask.DownloadFileKeepsTasks | src/terrain_pkg/DataSources/DataSource.py:79-110 | A `DownloadFile` step keeps the directory and the other running tasks in order, and only appends to the lists. The number of tasks is unchanged, except that the task is lost exactly when a failed attempt below the cap has a requeue that raises. |
| DownloadTask.FailedDownloadRetries | src/terrain_pkg/DataSources/DataSource.py:99-110 | A failure adds exactly 1 to the count. Below 5 the task goes back through `QueueDownload`, and if that raises the pool carries on without it. At 5 it is appended to the failed list. |
| DownloadTask.FetchedDownloadCompletes | src/terrain_pkg/DataSources/DataSource.py:83-96 | A fetched payload removes the task from the running list and appends it to the completed list with the file name and an unchanged count. |
| DownloadTask.CompletedIsSkipped | src/terrain_pkg/DataSources/DataSource.py:112-123 | Queueing a completed task again skips it, so a resumed run does no work twice. |
| DownloadTask.QueueKeepsBounded | src/terrain_pkg/DataSources/DataSource.py:116-123 | Queueing keeps running tasks below 5 attempts and failed tasks at exactly 5. |
| DownloadTask.DownloadKeepsBounded | src/terrain_pkg/DataSources/DataSource.py:99-110 | A download step keeps running tasks below 5 attempts and failed tasks at exactly 5. |
| DownloadTask.FailureRequeues | src/terrain_pkg/DataSources/DataSource.py:99-107 | A lone task that fails below the cap is requeued with its count increased by one. |
| DownloadTask.FourFailuresThenSuccess | src/terrain_pkg/DataSources/DataSource.py:79-110 | Four failures and then a success complete the task with 4 recorded attempts. |
| DownloadTask.FiveFailuresGiveUp | src/terrain_pkg/DataSources/DataSource.py:99-110 | Five failures put the task on the failed list with count 5 and nothing running. |
| DownloadBatch.EntityMap | src/terrain_pkg/DataSources/DataSource.py:141-144 | The map's keys are exactly the entity ids of the data infos, and the last info with an id wins. |
| DownloadBatch.EntityMapLastWins | src/terrain_pkg/DataSources/DataSource.py:141-144 | Each id maps to the last data info carrying it. |
| DownloadBatch.QueueEntry | src/terrain_pkg/DataSources/DataSource.py:168-172 | An unknown entity id is a KeyError. Otherwise one attempt with the entry's URL is handed to the pool, and the entry is recorded as queued. |
| DownloadBatch.AcceptedOnly | src/terrain_pkg/DataSources/DataSource.py:166-172 | Exactly the entries whose download id is in `newRecords` or `duplicateProducts`. |
| DownloadBatch.QueueAvailableEffect | src/terrain_pkg/DataSources/DataSource.py:165-172 | `QueueAvailable`, the available loop, records and queues exactly the accepted entries, in order. Its pool is those entries handed to the enqueue step in order, and it fails iff handing them over fails. |
| DownloadBatch.QueueRequestedEffect | src/terrain_pkg/DataSources/DataSource.py:174-179 | `QueueRequested`, the requested loop, queues exactly the accepted entries and records no ids. Its pool is those entries handed to the enqueue step in order, and it fails iff handing them over fails. |
| DownloadBatch.NewAccepted | src/terrain_pkg/DataSources/DataSource.py:187-193 | The entries one poll records: each is from the reply, accepted, and has an id not yet recorded. Every accepted entry of the reply with an id not yet recorded has its id among them. |
| DownloadBatch.AppendNewKeepsNoRepeat | src/terrain_pkg/DataSources/DataSource.py:187-193 | Appending an id not yet recorded keeps the recorded ids free of repeats. |
| DownloadBatch.PollOnceEffect | src/terrain_pkg/DataSources/DataSource.py:187-193 | One `PollOnce` records and queues exactly `NewAccepted`: the accepted entries whose ids are not yet recorded, first of each id, in order. It never records an id twice, its pool is those entries handed to the enqueue step, and it fails iff handing them over fails. |
| DownloadBatch.PollLoopEffect | src/terrain_pkg/DataSources/DataSource.py:181-193 | The loop consumes some first `n` poll replies and stops before the last one only when the guard fails. The batch gains exactly the entries those polls record, each poll seeing the ids recorded before it. No id is recorded twice, and the pool is the new entries handed to the enqueue step. A failing loop failed while handing over the entries of some first `n` polls. |
| DownloadBatch.PollLoop | src/terrain_pkg/DataSources/DataSource.py:181 | No poll happens once the recorded ids reach the number requested minus the failed requests and failed downloads. |
| DownloadBatch.QueueAllEffect | src/terrain_pkg/DataSources/DataSource.py:195-199 | `QueueAll`, the direct path, queues every available entry once, in order, and records no id. It fails iff handing those entries to the enqueue step fails, and otherwise its pool is the result. |
| DownloadBatch.QueueAllMissingEntity | src/terrain_pkg/DataSources/DataSource.py:195-199 | An available entry with an unknown entity id makes the request fail. |
| DownloadBatch.RequestAndProcessAll | src/terrain_pkg/DataSources/DataSource.py:160-199 | On both paths the resulting pool is every queued entry handed to `QueueDownload`, in order, starting from the given pool. Without preparing downloads, the queued entries are exactly `availableDownloads`, no id is recorded, and the request fails iff handing them over fails. With preparing downloads, the ids start with the accepted `available` ids, and the queue starts with the accepted `available` entries, then the accepted `requested` ones. The polls then consume some first `n` replies and stop early only when the guard fails; they add exactly the accepted entries with new ids. Every id and queued entry was accepted, and no polled id repeats an earlier one. On this path the request fails if handing over the retrieve stages' entries fails, and it fails only where handing over the stages' entries and those of some first `n` polls fails. |
| DownloadBatch.RetrieveStagesAccepted | src/terrain_pkg/DataSources/DataSource.py:165-179 | After the available and requested loops, everything recorded or queued was accepted. |
| DownloadBatch.RetrieveAndPollEffect | src/terrain_pkg/DataSources/DataSource.py:165-193 | `RetrieveAndPoll` leaves the retrieve stages' ids and entries as prefixes. After them, the polls add exactly the accepted entries with new ids, over some first `n` replies, stopping early only when the guard fails. Everything recorded or queued was accepted, no polled id repeats an earlier one, and the pool is every queued entry handed to the enqueue step. |
| DownloadBatch.RetrieveAndPollFailure | src/terrain_pkg/DataSources/DataSource.py:165-193 | From an empty batch, `RetrieveAndPoll` fails if handing over the accepted `available` and `requested` entries fails. It fails only where handing over those entries and the new entries of some first `n` polls fails. |
| DownloadBatch.RequestedThenPolledQueuedTwice | src/terrain_pkg/DataSources/DataSource.py:174-193 | An entry under `requested` that a later poll reports available is queued twice and started twice, while its id is recorded once. |
| DownloadBatch.AvailableDownloads | src/terrain_pkg/DataSources/DataSource.py:214-217 | The download list holds exactly the products whose `available` is `True`, as `(entityId, productId = id)`, and is no longer than the options. |
| DownloadBatch.AvailableDownloadsAppend | src/terrain_pkg/DataSources/DataSource.py:214-217 | The filter keeps input order: it distributes over concatenation. |
| DownloadBatch.NothingAvailable | src/terrain_pkg/DataSources/DataSource.py:214-220 | An empty download list means no product is available. |
| DownloadBatch.ProcessDownloads | src/terrain_pkg/DataSources/DataSource.py:205-220 | Nothing is requested iff no product is available; otherwise the request runs with the number of available downloads. |
| DownloadBatch.Execute | src/terrain_pkg/DataSources/DataSource.py:222-230 | 50,000 or more data infos raise "Max allowed is 50k" before anything is processed; fewer are processed. |
| UsgsClient.MakeRequest | src/terrain_stitcher/usgs/api_client.py:17-21 | The request goes to the service URL followed by the endpoint, carries the data as its body, and has an auth token iff an API key is given. |
| UsgsClient.ReadReply | src/terrain_stitcher/usgs/api_client.py:23-52 | A connection failure propagates. A reply that is not JSON, lacks `errorCode`, has a non-null `errorCode`, or has status 400, 401 or 404 exits. Any other reply gives `data` iff it has `requestId` and `data`, and is otherwise a KeyError. |
| UsgsClient.ErrorCodeBeforeStatus | src/terrain_stitcher/usgs/api_client.py:28-41 | An error code exits even with status 200, status 404 exits with a null error code, and a clean 200 returns `data`. |
| UsgsClient.SubmitRequest | src/terrain_stitcher/usgs/api_client.py:54-58 | Without an API key it raises "Session not valid". With one, it sends the key and returns the classified reply. |
| UsgsClient.AttemptLogin | src/terrain_stitcher/usgs/api_client.py:91-98 | Sends the login request without a key. A successful reply's data becomes the key. An exit propagates, and any other failure leaves the client logged out. |
| UsgsClient.AttemptLogout | src/terrain_stitcher/usgs/api_client.py:100-103 | Sends the logout request with the key. On success the client is logged out; otherwise the error propagates. |
| UsgsClient.Enter | src/terrain_stitcher/usgs/api_client.py:78-82 | Entering logs in only when not already logged in. |
| UsgsClient.Exit | src/terrain_stitcher/usgs/api_client.py:84-89 | Exiting leaves the client logged out and returns False, so exceptions are not swallowed. A logged-in client is logged out through `AttemptLogout`: the exit succeeds iff the logout reply is readable, clears the key on success and passes the reply's error on otherwise. A client that was not logged in is left as it is. |
| UsgsClient.FailedLoginNeverSubmits | src/terrain_stitcher/usgs/api_client.py:54-98 | After a failed login the session holds no key, every submit raises "Session not valid", and exit does nothing. |
| UsgsClient.SessionEndsLoggedOut | src/terrain_stitcher/usgs/api_client.py:78-103 | A successful login followed by a successful logout ends with no active login. |
| UsgsClient.CornerJson | src/terrain_stitcher/usgs/api_client.py:116-126 | A corner's `latitude`/`longitude` object exists iff both getters succeed and carries the validated latitude; a latitude error propagates. |
| UsgsClient.SpatialFilter | src/terrain_stitcher/usgs/api_client.py:116-126 | The filter exists iff both corners can be read; an error from the lower-left corner comes first. |
| UsgsClient.SpatialFilterFields | src/terrain_stitcher/usgs/api_client.py:116-126 | The filter is an `mbr` built from the lower-left and upper-right corners. |
| UsgsClient.DatasetPayloadFields | src/terrain_stitcher/usgs/api_client.py:127-131 | The dataset payload always carries the spatial filter, and carries `datasetName` iff a target dataset is given. |
| UsgsClient.FindDatasetsFor | src/terrain_stitcher/usgs/api_client.py:111-136 | Succeeds iff the filter can be built and the reply is accepted. It then sends the dataset payload to `dataset-search` and returns the reply's data. |
| UsgsClient.ScenePayloadFields | src/terrain_stitcher/usgs/api_client.py:151-155 | The scene payload names the dataset alias, sets `maxResults` to 1000, and wraps the spatial filter in `sceneFilter`. |
| UsgsClient.FindScenes | src/terrain_stitcher/usgs/api_client.py:138-159 | Succeeds iff the filter can be built, the dataset has `datasetAlias`, and the reply is accepted. A missing alias is that KeyError. The scene payload goes to `scene-search`. |
| OrthoPrep.ExtractionRules | src/terrain_stitcher/functions/OrthoPrep.py:27-44 | In `ExtractImageDataFile`, a missing file raises "File not found" and a file that is not a `.zip` raises "File type not supported". A zip is accepted, its directory is `outputDir/(basename without extension)`, and it is unpacked iff that directory does not exist yet. |
| OrthoPrep.ExtractsIntoStem | src/terrain_stitcher/functions/OrthoPrep.py:27-44 | `dir/x.zip` unpacks into `outputDir/x`. |
| OrthoPrep.ExtractAll | src/terrain_stitcher/functions/OrthoPrep.py:46-54 | All archives are extracted iff each one can be, and there is one result per archive. |
| OrthoPrep.GatherCompressedFiles | src/terrain_stitcher/functions/OrthoPrep.py:70-77 | A file is listed iff its name contains `.zip` anywhere, joined to the input directory. |
| OrthoPrep.GatherCompressedFilesAppend | src/terrain_stitcher/functions/OrthoPrep.py:70-77 | The files are listed in listing order: gathering a concatenated listing concatenates the two results. |
| OrthoPrep.SidecarKey | src/terrain_stitcher/functions/OrthoPrep.py:60 | A key exists iff the name without a trailing `.txt` contains `-`, and is otherwise an IndexError. The key is the lower-cased text from just after the first `-` up to the next `-` or the end, so it contains no `-`. |
| OrthoPrep.SidecarKeyOfDownloadName | src/terrain_stitcher/functions/OrthoPrep.py:59-60 | `prefix-key.txt` is a sidecar name and its key is `key` lower-cased. |
| OrthoPrep.JsonSidecarKeepsExtension | src/terrain_stitcher/functions/OrthoPrep.py:59-60 | For `prefix-key.json` the `.json` stays in the key, because only `.txt` is stripped. |
| OrthoPrep.ReadSidecar | src/terrain_stitcher/functions/OrthoPrep.py:61-66 | A missing file fails; a file that is not JSON fails with `ValueError("Expecting value")`; a JSON file is read with `ImageDataWriter.fromDict`. |
| OrthoPrep.AbsorbKeys | src/terrain_stitcher/functions/OrthoPrep.py:59-66 | One listing entry adds its key iff its name ends in `.json` or `.txt`, ignoring case. It fails iff it is such a name and has no key or cannot be read; on success its key holds the writer read from the file and every other key keeps its writer. |
| OrthoPrep.GatherKeys | src/terrain_stitcher/functions/OrthoPrep.py:56-68 | `GatherTerrainInfo` runs this loop from an empty map. The gathered keys are exactly the keys already present plus the keys of the sidecar names in the listing. |
| OrthoPrep.GatherValues | src/terrain_stitcher/functions/OrthoPrep.py:56-66 | Later sidecars overwrite earlier ones: after a successful loop, the key of the last listed sidecar name with that key holds the writer read from that file. |
| OrthoPrep.GatherKeeps | src/terrain_stitcher/functions/OrthoPrep.py:56-66 | A key that no listed sidecar name produces keeps the writer it had before the loop. |
| OrthoPrep.GatherFails | src/terrain_stitcher/functions/OrthoPrep.py:56-66 | The loop fails iff some listed sidecar name has no second segment or its file cannot be read as a sidecar. |
| OrthoPrep.NonSidecarIgnored | src/terrain_stitcher/functions/OrthoPrep.py:59 | A name that is not a sidecar name has no effect on the result. |
| OrthoPrep.ChunkNameShape | src/terrain_stitcher/functions/OrthoPrep.py:106-107 | The chunk name is the basename up to its first `.`, so it contains neither `.` nor `/`, and it is the whole basename when that has no `.`. |
| OrthoPrep.CopyNames | src/terrain_stitcher/functions/OrthoPrep.py:79-101 | In `CopyOrthoImage`, the TIF looked for is the last `_` segment of the chunk name plus `.tif`. The outputs are named chunk + `.png` and chunk + `.json`, and the info file holds the writer's JSON. |
| OrthoPrep.CopyAllOrthoImages | src/terrain_stitcher/functions/OrthoPrep.py:103-113 | Copying succeeds iff every chunk name has a gathered writer. It then yields one copy per directory, in order, with the PNG at `outputDir/chunk.png`. |
| OrthoPrep.ImageEntries | src/terrain_stitcher/functions/OrthoPrep.py:122-130 | There is one entry per chunk, in input order, named by the path and carrying the bounds of the writer keyed by the basename without `.png`. It fails iff a key is missing. |
| OrthoPrep.CreateInfoFile | src/terrain_stitcher/functions/OrthoPrep.py:115-133 | The info file's `images` array holds exactly those entries. |
| OrthoPrep.PngInfoName | src/terrain_stitcher/functions/OrthoPrep.py:123 | The key of `outputDir/chunk.png` is `chunk`. |
| OrthoPrep.CopiedImagesAreListed | src/terrain_stitcher/functions/OrthoPrep.py:103-133 | Every copied PNG gets an entry in the info file, in order, with its chunk's bounds. |

## Left out

- Threads, the semaphore, `WaitForDone` and `time.sleep` (src/terrain_pkg/DataSources/DataSource.py:14-17, 125-138, 181-184): each download step is modelled one at a time, separately from the batch loops.
- DownloadBatch.PollLoop: no download step runs while polling, so the failed list in the guard of src/terrain_pkg/DataSources/DataSource.py:181 keeps its value from before polling. In the source, threads that give up during the 30-second waits grow `FAILED_DOWNLOADS` and can end the wait sooner. The model does not interleave those threads with the polls.
- Reply records are typed: an M2M reply entry is an `Entry`, `RequestResults`, `RetrieveResults` or `Product`, a scene is a `Scene`, and a metadata item is a `MetaField`. The model assumes each record carries every key it is read by, so the KeyError or TypeError a missing or mistyped `downloadId`, `url`, `newRecords`, `failed`, `availableDownloads`, `available`, `requested`, `results`, `id`, `metadata`, `fieldName` or `value` would raise (src/terrain_pkg/DataSources/DataSource.py:159-199 and 215-217; src/terrain_stitcher/dataSources/HighResolutionOrthoImagery.py:188-208 and 300) is not modelled. Only a missing `entityId` in the data-info map keeps its KeyError.
- Text.Lower: file names are treated as ASCII. Only `A`-`Z` are lowered, whereas Python's `str.lower()` in src/terrain_stitcher/functions/OrthoPrep.py:59-60 lowers every Unicode letter and can change a name's length.
- Polling termination: the reply to each poll is an input list, so the model does not claim that polling ends.
- HTTP: every reply (login, search, download request, retrieve, poll, payload fetch) is an input, and the connection timeout and printing of `Send_Request` are not modelled.
- `sys.exit` is modelled as the `SystemExit` error value.
- Credentials and `.env` loading (src/terrain_stitcher/usgs/config.py) are not modelled: the credentials are an input.
- shapely, pyproj and the R-tree: the footprint areas, intersection tests and intersection areas are an input geometry. The R-tree query is any candidate list, and completeness is stated for lists that cover the intersecting footprints.
- The longitude offset `radius / (69 · cos(lat))` in src/terrain_stitcher/common/ParseArea.py:26 is an input, because it is trigonometry on floats.
- Floats are reals: there is no NaN, infinity or rounding, and `float()` on strings accepts only an optional sign, digits and an optional fraction.
- `ParseArea.toJSON` (src/terrain_stitcher/common/ParseArea.py:41-45) is left out because it cannot run as written.
- The raster and pixel-window code of main_arch.py:110-347 is left out, because it is floating-point image processing.
- Zip extraction, PIL decoding and resizing, `find_file`, file writes, and the `mkdir`/`rmtree` in `main` of OrthoPrep.py are not modelled. The listing and the set of existing directories are inputs.
- `get_aerial_photography_datasets` and `all_published_dates` in HighResolutionOrthoImagery.py are not modelled: they filter search results by title and date text.
- The download-request and download-options payloads of `requestAndProcessAllDownloads`, and its time-based label, are left out; their replies are inputs.
- `FAILED_DOWNLOADS` is a module-level list in the source; the model keeps a failed list per pool.
- The source shares one mutable `DataInfo` between the request and its attempts. The model copies values, so the URL is pushed into the attempt's own data info.
- src/terrain_stitcher/dataSources/DataSource.py, which HighResolutionOrthoImagery.py imports, is not part of this model; `DataInfo`, `DownloadAttempt` and the download loop follow src/terrain_pkg/DataSources/DataSource.py.
- The writer calls in src/terrain_pkg/DataSources/DataSource.py do not match `ImageDataWriter`. Line 95 calls `writeFileContents(path, filename)`, and line 114 calls `hasDataAlreadyBeenDownloaded(path)`. The methods at src/terrain_stitcher/dataSources/HighResolutionOrthoImagery.py:149 and 156 each take one more argument, `dataFilePath`. The model supplies `getURLFilePath()` as that argument. Against that writer, both calls as written would raise a TypeError.
- Components.Explore: the source's `dfs` recurses once per footprint along a path, so a chain of about 1000 overlapping footprints exceeds Python's default recursion limit and raises RecursionError. The model's search uses a worklist and never fails.
- Representatives.MaxAreaOf: ties between equal areas go to the least index. Python's `max` over a set returns the first maximal member in iteration order, which the model does not represent; both choices have maximal area.
- DownloadTask.DownloadFileKeepsTasks: the content-disposition parsing of the reply is abstracted into an outcome input (a file name or a failure). A payload written before `getURLFilePath` raises is not kept.
- Sidecar.ExtractImageFileName is kept as a helper without a contract of its own. Its outcomes are stated through `Sidecar.HasDataAlreadyBeenDownloaded`: which sidecars raise, with which error, and the answer otherwise.
