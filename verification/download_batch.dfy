/** The batch protocol of `DataSource.py`: `requestAndProcessAllDownloads`,
    `processDownloads` and `execute`. The M2M replies (`download-options`,
    `download-request`, `download-retrieve`) are inputs; each `download-retrieve`
    poll reply is taken from a supplied list. Downloads started here run
    later, one `DownloadFile` step at a time. */
module DownloadBatch {
  import opened Wrappers
  import opened Json
  import opened DownloadTask
  import Text
  import Sidecar

  /** `requestEntityIdToDownloadRequest`: entity id to its data info; for a
      repeated id the last info wins. */
  function EntityMap(infos: seq<DataInfo>): (m: map<Json, DataInfo>)
    ensures forall e :: e in m <==> exists k :: 0 <= k < |infos| && infos[k].entityId == e
    ensures |infos| > 0 ==> m[infos[|infos| - 1].entityId] == infos[|infos| - 1]
    decreases |infos|
  {
    if |infos| == 0 then map[]
    else
      var front := EntityMap(infos[..|infos| - 1]);
      assert forall k :: 0 <= k < |infos| - 1 ==> infos[..|infos| - 1][k] == infos[k];
      front[infos[|infos| - 1].entityId := infos[|infos| - 1]]
  }

  /** An info no later info shares an id with is the one the map keeps. */
  lemma {:induction false} EntityMapLastWins(infos: seq<DataInfo>, k: nat)
    requires k < |infos|
    requires forall j :: k < j < |infos| ==> infos[j].entityId != infos[k].entityId
    ensures EntityMap(infos)[infos[k].entityId] == infos[k]
    decreases |infos|
  {
    if k < |infos| - 1 {
      var front := infos[..|infos| - 1];
      assert front[k] == infos[k];
      EntityMapLastWins(front, k);
    }
  }

  /** One entry of `available`, `requested` or `availableDownloads`; the
      download id is already `str(download['downloadId'])`. */
  datatype Entry = Entry(downloadId: string, entityId: Json, url: Option<string>)

  /** The `download-request` reply; `preparingDownloads` is None for null. */
  datatype RequestResults = RequestResults(
    preparingDownloads: Option<seq<Json>>,
    newRecords: seq<string>,
    duplicateProducts: seq<string>,
    failed: seq<Json>,
    availableDownloads: seq<Entry>)

  /** A `download-retrieve` reply. */
  datatype RetrieveResults = RetrieveResults(available: seq<Entry>, requested: seq<Entry>)

  /** The id was accepted by the request: it is a new record or a duplicate
      product. */
  predicate Accepted(res: RequestResults, id: string) {
    id in res.newRecords || id in res.duplicateProducts
  }

  /** Some downloads are still being prepared. */
  predicate Preparing(res: RequestResults) {
    res.preparingDownloads.Some? && |res.preparingDownloads.value| > 0
  }

  /** The loop state: the tasks, `downloadIds`, and every entry handed to
      `QueueDownload`, in order. */
  datatype Batch = Batch(pool: Pool, ids: seq<string>, queued: seq<Entry>)

  /** The step that hands one attempt to the task pool. The loops below
      are stated for any such step; `RequestAndProcessAll` runs them with
      `QueueDownload`. */
  type Enqueue = (Pool, DownloadAttempt) -> Result<Pool>

  /** `QueueDownload(DownloadAttempt(download['url'], mapped), path)`; an
      entity missing from the map is a KeyError. */
  function QueueEntry(b: Batch, entities: map<Json, DataInfo>, enqueue: Enqueue, e: Entry): (r: Result<Batch>)
    ensures e.entityId !in entities ==> r.Err? && r.error.KeyError?
    ensures r.Ok? ==> e.entityId in entities && r.value.ids == b.ids && r.value.queued == b.queued + [e]
    ensures r.Ok? ==> enqueue(b.pool, NewAttempt(e.url, entities[e.entityId])) == Ok(r.value.pool)
  {
    if e.entityId !in entities then Err(KeyError("entityId"))
    else
      var pool :- enqueue(b.pool, NewAttempt(e.url, entities[e.entityId]));
      Ok(Batch(pool, b.ids, b.queued + [e]))
  }

  /** The pool left by handing the entries `es`, in order, to `enqueue`, each
      as the attempt `QueueEntry` builds for it. An unknown entity or a
      failed enqueue stops the replay. */
  function Replay(pool: Pool, entities: map<Json, DataInfo>, enqueue: Enqueue, es: seq<Entry>): Result<Pool>
    decreases |es|
  {
    if |es| == 0 then Ok(pool)
    else if es[0].entityId !in entities then Err(KeyError("entityId"))
    else
      var p :- enqueue(pool, NewAttempt(es[0].url, entities[es[0].entityId]));
      Replay(p, entities, enqueue, es[1..])
  }

  /** Replaying `xs + ys` is replaying `xs`, then `ys` from where it left off. */
  lemma {:induction false} ReplayAppend(pool: Pool, entities: map<Json, DataInfo>, enqueue: Enqueue, xs: seq<Entry>, ys: seq<Entry>, mid: Pool)
    requires Replay(pool, entities, enqueue, xs) == Ok(mid)
    ensures Replay(pool, entities, enqueue, xs + ys) == Replay(mid, entities, enqueue, ys)
    decreases |xs|
  {
    if |xs| == 0 {
      assert xs + ys == ys;
    } else {
      var p := enqueue(pool, NewAttempt(xs[0].url, entities[xs[0].entityId])).value;
      assert (xs + ys)[0] == xs[0] && (xs + ys)[1..] == xs[1..] + ys;
      ReplayAppend(p, entities, enqueue, xs[1..], ys, mid);
    }
  }

  /** A replay that fails keeps failing whatever follows it. */
  lemma {:induction false} ReplayErrExtend(pool: Pool, entities: map<Json, DataInfo>, enqueue: Enqueue, xs: seq<Entry>, ys: seq<Entry>)
    requires Replay(pool, entities, enqueue, xs).Err?
    ensures Replay(pool, entities, enqueue, xs + ys).Err?
    decreases |xs|
  {
    assert (xs + ys)[0] == xs[0] && (xs + ys)[1..] == xs[1..] + ys;
    if xs[0].entityId in entities {
      var q := enqueue(pool, NewAttempt(xs[0].url, entities[xs[0].entityId]));
      if q.Ok? {
        ReplayErrExtend(q.value, entities, enqueue, xs[1..], ys);
      }
    }
  }

  /** Replaying `[e] + rest` fails where `QueueEntry` on `e` fails, and
      otherwise goes on from the pool `QueueEntry` produced. */
  lemma QueueEntryThenReplay(b: Batch, entities: map<Json, DataInfo>, enqueue: Enqueue, e: Entry, rest: seq<Entry>)
    ensures var q := QueueEntry(b, entities, enqueue, e);
            && (q.Err? ==> Replay(b.pool, entities, enqueue, [e] + rest).Err?)
            && (q.Ok? ==> Replay(b.pool, entities, enqueue, [e] + rest) == Replay(q.value.pool, entities, enqueue, rest))
  {
    assert ([e] + rest)[0] == e && ([e] + rest)[1..] == rest;
  }

  /** The pool of `after` is the pool of `before` with every entry queued
      since handed to `enqueue`, in order. */
  ghost predicate Replays(before: Batch, after: Batch, entities: map<Json, DataInfo>, enqueue: Enqueue) {
    && |before.queued| <= |after.queued|
    && Replay(before.pool, entities, enqueue, after.queued[|before.queued|..]) == Ok(after.pool)
  }

  lemma ReplaysSelf(b: Batch, entities: map<Json, DataInfo>, enqueue: Enqueue)
    ensures Replays(b, b, entities, enqueue)
  {
    assert b.queued[|b.queued|..] == [];
  }

  /** One `QueueEntry` step replays the one entry it queues. */
  lemma QueueEntryReplays(b: Batch, entities: map<Json, DataInfo>, enqueue: Enqueue, e: Entry)
    ensures var q := QueueEntry(b, entities, enqueue, e);
            q.Ok? ==> Replays(b, q.value, entities, enqueue)
  {
    var q := QueueEntry(b, entities, enqueue, e);
    if q.Ok? {
      assert q.value.queued[|b.queued|..] == [e];
      assert [e][1..] == [];
    }
  }

  lemma ReplaysTransitive(a: Batch, b: Batch, c: Batch, entities: map<Json, DataInfo>, enqueue: Enqueue)
    requires Replays(a, b, entities, enqueue) && Replays(b, c, entities, enqueue)
    requires c.queued[..|b.queued|] == b.queued
    ensures Replays(a, c, entities, enqueue)
  {
    assert c.queued[|a.queued|..] == b.queued[|a.queued|..] + c.queued[|b.queued|..] by {
      assert c.queued == b.queued + c.queued[|b.queued|..];
    }
    ReplayAppend(a.pool, entities, enqueue, b.queued[|a.queued|..], c.queued[|b.queued|..], b.pool);
  }

  /** The entries of `entries` whose id was accepted, in order. */
  function AcceptedOnly(res: RequestResults, entries: seq<Entry>): (r: seq<Entry>)
    ensures forall e :: e in r <==> e in entries && Accepted(res, e.downloadId)
    decreases |entries|
  {
    if |entries| == 0 then []
    else (if Accepted(res, entries[0].downloadId) then [entries[0]] else []) + AcceptedOnly(res, entries[1..])
  }

  /** The download ids of `entries`, in order. */
  function IdsOf(entries: seq<Entry>): (r: seq<string>)
    ensures |r| == |entries| && forall k :: 0 <= k < |entries| ==> r[k] == entries[k].downloadId
    decreases |entries|
  {
    if |entries| == 0 then [] else [entries[0].downloadId] + IdsOf(entries[1..])
  }

  /** The first loop over `available`: every accepted entry's id is appended
      to `downloadIds` (with no check for repeats) and the entry is queued. */
  function QueueAvailable(b: Batch, entities: map<Json, DataInfo>, enqueue: Enqueue, res: RequestResults, entries: seq<Entry>): Result<Batch>
    decreases |entries|
  {
    if |entries| == 0 then Ok(b)
    else if Accepted(res, entries[0].downloadId) then
      var b1 :- QueueEntry(b.(ids := b.ids + [entries[0].downloadId]), entities, enqueue, entries[0]);
      QueueAvailable(b1, entities, enqueue, res, entries[1..])
    else QueueAvailable(b, entities, enqueue, res, entries[1..])
  }

  /** The first loop adds exactly the accepted ids and queues exactly the
      accepted entries, both in order, and its pool is theirs replayed. */
  lemma {:induction false} QueueAvailableEffect(b: Batch, entities: map<Json, DataInfo>, enqueue: Enqueue, res: RequestResults, entries: seq<Entry>)
    ensures var r := QueueAvailable(b, entities, enqueue, res, entries);
            && (r.Ok? ==> r.value.ids == b.ids + IdsOf(AcceptedOnly(res, entries))
                          && r.value.queued == b.queued + AcceptedOnly(res, entries)
                          && Replays(b, r.value, entities, enqueue))
            && (r.Err? <==> Replay(b.pool, entities, enqueue, AcceptedOnly(res, entries)).Err?)
    decreases |entries|, 1
  {
    if |entries| == 0 {
      ReplaysSelf(b, entities, enqueue);
    } else {
      if Accepted(res, entries[0].downloadId) {
        QueueAvailableAccepted(b, entities, enqueue, res, entries);
      } else {
        QueueAvailableEffect(b, entities, enqueue, res, entries[1..]);
        assert AcceptedOnly(res, entries) == AcceptedOnly(res, entries[1..]);
      }
    }
  }

  /** `QueueAvailableEffect` when the first entry is accepted. */
  lemma {:induction false} QueueAvailableAccepted(b: Batch, entities: map<Json, DataInfo>, enqueue: Enqueue, res: RequestResults, entries: seq<Entry>)
    requires |entries| > 0 && Accepted(res, entries[0].downloadId)
    ensures var r := QueueAvailable(b, entities, enqueue, res, entries);
            && (r.Ok? ==> r.value.ids == b.ids + IdsOf(AcceptedOnly(res, entries))
                          && r.value.queued == b.queued + AcceptedOnly(res, entries)
                          && Replays(b, r.value, entities, enqueue))
            && (r.Err? <==> Replay(b.pool, entities, enqueue, AcceptedOnly(res, entries)).Err?)
    decreases |entries|, 0
  {
    var e := entries[0];
    var q := QueueEntry(b.(ids := b.ids + [e.downloadId]), entities, enqueue, e);
    QueueAvailableUnfold(b, entities, enqueue, res, entries);
    AcceptedOnlyCons(res, entries);
    QueueEntryThenReplay(b.(ids := b.ids + [e.downloadId]), entities, enqueue, e, AcceptedOnly(res, entries[1..]));
    if q.Ok? {
      var b1 := q.value;
      var r := QueueAvailable(b1, entities, enqueue, res, entries[1..]);
      QueueAvailableEffect(b1, entities, enqueue, res, entries[1..]);
      AcceptedOnlyCons(res, entries);
      var rest := AcceptedOnly(res, entries[1..]);
      AppendAssoc(b.ids, [e.downloadId], IdsOf(rest));
      AppendAssoc(b.queued, [e], rest);
      if r.Ok? {
        QueueEntryReplays(b.(ids := b.ids + [e.downloadId]), entities, enqueue, e);
        assert r.value.queued[..|b1.queued|] == b1.queued;
        ReplaysTransitive(b, b1, r.value, entities, enqueue);
      }
    }
  }

  lemma AppendAssoc<T>(x: seq<T>, y: seq<T>, z: seq<T>)
    ensures (x + y) + z == x + (y + z)
  {
  }

  /** With an accepted first entry the loop stops at a failed enqueue and
      otherwise carries on from the batch it produced. */
  lemma QueueAvailableUnfold(b: Batch, entities: map<Json, DataInfo>, enqueue: Enqueue, res: RequestResults, entries: seq<Entry>)
    requires |entries| > 0 && Accepted(res, entries[0].downloadId)
    ensures var q := QueueEntry(b.(ids := b.ids + [entries[0].downloadId]), entities, enqueue, entries[0]);
            && (q.Err? ==> QueueAvailable(b, entities, enqueue, res, entries).Err?)
            && (q.Ok? ==> QueueAvailable(b, entities, enqueue, res, entries) == QueueAvailable(q.value, entities, enqueue, res, entries[1..]))
  {
  }

  /** An accepted first entry heads the accepted entries and their ids. */
  lemma AcceptedOnlyCons(res: RequestResults, entries: seq<Entry>)
    requires |entries| > 0 && Accepted(res, entries[0].downloadId)
    ensures AcceptedOnly(res, entries) == [entries[0]] + AcceptedOnly(res, entries[1..])
    ensures IdsOf(AcceptedOnly(res, entries)) == [entries[0].downloadId] + IdsOf(AcceptedOnly(res, entries[1..]))
  {
    IdsOfCons(entries[0], AcceptedOnly(res, entries[1..]));
  }

  lemma IdsOfCons(e: Entry, rest: seq<Entry>)
    ensures IdsOf([e] + rest) == [e.downloadId] + IdsOf(rest)
  {
    assert ([e] + rest)[1..] == rest;
  }

  /** The loop over `requested`: accepted entries are queued, but their ids
      are not added to `downloadIds`. */
  function QueueRequested(b: Batch, entities: map<Json, DataInfo>, enqueue: Enqueue, res: RequestResults, entries: seq<Entry>): Result<Batch>
    decreases |entries|
  {
    if |entries| == 0 then Ok(b)
    else if Accepted(res, entries[0].downloadId) then
      var b1 :- QueueEntry(b, entities, enqueue, entries[0]);
      QueueRequested(b1, entities, enqueue, res, entries[1..])
    else QueueRequested(b, entities, enqueue, res, entries[1..])
  }

  /** The second loop queues exactly the accepted entries, adds no id, and
      its pool is those entries replayed. */
  lemma {:induction false} QueueRequestedEffect(b: Batch, entities: map<Json, DataInfo>, enqueue: Enqueue, res: RequestResults, entries: seq<Entry>)
    ensures var r := QueueRequested(b, entities, enqueue, res, entries);
            && (r.Ok? ==> r.value.ids == b.ids && r.value.queued == b.queued + AcceptedOnly(res, entries)
                          && Replays(b, r.value, entities, enqueue))
            && (r.Err? <==> Replay(b.pool, entities, enqueue, AcceptedOnly(res, entries)).Err?)
    decreases |entries|, 1
  {
    if |entries| == 0 {
      ReplaysSelf(b, entities, enqueue);
    } else if Accepted(res, entries[0].downloadId) {
      QueueRequestedAccepted(b, entities, enqueue, res, entries);
    } else {
      QueueRequestedEffect(b, entities, enqueue, res, entries[1..]);
      assert AcceptedOnly(res, entries) == AcceptedOnly(res, entries[1..]);
    }
  }

  /** `QueueRequestedEffect` when the first entry is accepted. */
  lemma {:induction false} QueueRequestedAccepted(b: Batch, entities: map<Json, DataInfo>, enqueue: Enqueue, res: RequestResults, entries: seq<Entry>)
    requires |entries| > 0 && Accepted(res, entries[0].downloadId)
    ensures var r := QueueRequested(b, entities, enqueue, res, entries);
            && (r.Ok? ==> r.value.ids == b.ids && r.value.queued == b.queued + AcceptedOnly(res, entries)
                          && Replays(b, r.value, entities, enqueue))
            && (r.Err? <==> Replay(b.pool, entities, enqueue, AcceptedOnly(res, entries)).Err?)
    decreases |entries|, 0
  {
    var e := entries[0];
    var q := QueueEntry(b, entities, enqueue, e);
    QueueRequestedUnfold(b, entities, enqueue, res, entries);
    AcceptedOnlyCons(res, entries);
    QueueEntryThenReplay(b, entities, enqueue, e, AcceptedOnly(res, entries[1..]));
    if q.Ok? {
      var b1 := q.value;
      var r := QueueRequested(b1, entities, enqueue, res, entries[1..]);
      QueueRequestedEffect(b1, entities, enqueue, res, entries[1..]);
      AcceptedOnlyCons(res, entries);
      AppendAssoc(b.queued, [e], AcceptedOnly(res, entries[1..]));
      if r.Ok? {
        QueueEntryReplays(b, entities, enqueue, e);
        assert r.value.queued[..|b1.queued|] == b1.queued;
        ReplaysTransitive(b, b1, r.value, entities, enqueue);
      }
    }
  }

  /** With an accepted first entry the second loop stops at a failed enqueue
      and otherwise carries on from the batch it produced. */
  lemma QueueRequestedUnfold(b: Batch, entities: map<Json, DataInfo>, enqueue: Enqueue, res: RequestResults, entries: seq<Entry>)
    requires |entries| > 0 && Accepted(res, entries[0].downloadId)
    ensures var q := QueueEntry(b, entities, enqueue, entries[0]);
            && (q.Err? ==> QueueRequested(b, entities, enqueue, res, entries).Err?)
            && (q.Ok? ==> QueueRequested(b, entities, enqueue, res, entries) == QueueRequested(q.value, entities, enqueue, res, entries[1..]))
  {
  }

  /** No id at position `start` or later repeats an earlier one. */
  ghost predicate NoRepeatFrom(ids: seq<string>, start: nat) {
    forall a, k :: 0 <= a < k < |ids| && start <= k ==> ids[a] != ids[k]
  }

  lemma AppendNewKeepsNoRepeat(ids: seq<string>, start: nat, id: string)
    requires NoRepeatFrom(ids, start) && id !in ids
    ensures NoRepeatFrom(ids + [id], start)
  {
    var t := ids + [id];
    forall a, k | 0 <= a < k < |t| && start <= k
      ensures t[a] != t[k]
    {
      if k == |ids| {
        assert t[a] == ids[a];
      } else {
        assert t[a] == ids[a] && t[k] == ids[k];
      }
    }
  }

  /** `after` grows `before`: its ids and queued entries extend those of
      `before`, and every added id and queued entry was accepted. */
  ghost predicate Extends(before: Batch, after: Batch, res: RequestResults) {
    && |before.ids| <= |after.ids| && after.ids[..|before.ids|] == before.ids
    && (forall k :: |before.ids| <= k < |after.ids| ==> Accepted(res, after.ids[k]))
    && |before.queued| <= |after.queued| && after.queued[..|before.queued|] == before.queued
    && (forall k :: |before.queued| <= k < |after.queued| ==> Accepted(res, after.queued[k].downloadId))
  }

  lemma ExtendsTransitive(a: Batch, b: Batch, c: Batch, res: RequestResults)
    requires Extends(a, b, res) && Extends(b, c, res)
    ensures Extends(a, c, res)
  {
    assert c.ids[..|a.ids|] == c.ids[..|b.ids|][..|a.ids|];
    assert c.queued[..|a.queued|] == c.queued[..|b.queued|][..|a.queued|];
    assert forall k :: |a.ids| <= k < |b.ids| ==> c.ids[k] == b.ids[k];
    assert forall k :: |a.queued| <= k < |b.queued| ==> c.queued[k] == b.queued[k];
  }

  /** The entries queued from `before` to `after` are, in order, the ones
      whose ids were recorded from `before` to `after`. */
  ghost predicate Tracks(before: Batch, after: Batch) {
    && |before.ids| <= |after.ids| && |before.queued| <= |after.queued|
    && IdsOf(after.queued[|before.queued|..]) == after.ids[|before.ids|..]
  }

  lemma IdsOfAppend(x: seq<Entry>, y: seq<Entry>)
    ensures IdsOf(x + y) == IdsOf(x) + IdsOf(y)
  {
    var l := IdsOf(x + y);
    var m := IdsOf(x) + IdsOf(y);
    forall k | 0 <= k < |l|
      ensures l[k] == m[k]
    {
      if k < |x| {
        assert (x + y)[k] == x[k];
      } else {
        assert (x + y)[k] == y[k - |x|];
      }
    }
  }

  lemma TracksTransitive(a: Batch, b: Batch, c: Batch, res: RequestResults)
    requires Extends(b, c, res) && Tracks(a, b) && Tracks(b, c)
    ensures Tracks(a, c)
  {
    assert c.queued[|a.queued|..] == b.queued[|a.queued|..] + c.queued[|b.queued|..] by {
      assert c.queued == b.queued + c.queued[|b.queued|..];
    }
    assert c.ids[|a.ids|..] == b.ids[|a.ids|..] + c.ids[|b.ids|..] by {
      assert c.ids == b.ids + c.ids[|b.ids|..];
    }
    IdsOfAppend(b.queued[|a.queued|..], c.queued[|b.queued|..]);
  }

  /** A batch tracks itself: nothing was queued or recorded. */
  lemma TracksSelf(b: Batch, res: RequestResults)
    ensures Extends(b, b, res) && Tracks(b, b)
  {
    assert b.ids[..|b.ids|] == b.ids && b.queued[..|b.queued|] == b.queued;
    assert b.ids[|b.ids|..] == [] && b.queued[|b.queued|..] == [];
  }

  /** The entries one poll over `entries` records, given the ids `ids`
      already recorded: those accepted whose id is new, the first of each id
      only. */
  function NewAccepted(ids: seq<string>, res: RequestResults, entries: seq<Entry>): (r: seq<Entry>)
    ensures forall e :: e in r ==> e in entries && Accepted(res, e.downloadId) && e.downloadId !in ids
    ensures forall e :: e in entries && Accepted(res, e.downloadId) && e.downloadId !in ids ==> e.downloadId in IdsOf(r)
    decreases |entries|
  {
    if |entries| == 0 then []
    else
      var e := entries[0];
      assert forall f :: f in entries <==> f == e || f in entries[1..];
      if e.downloadId !in ids && Accepted(res, e.downloadId) then
        var rest := NewAccepted(ids + [e.downloadId], res, entries[1..]);
        IdsOfCons(e, rest);
        [e] + rest
      else NewAccepted(ids, res, entries[1..])
  }

  /** The entries successive polls record, each poll seeing the ids recorded
      before it. */
  function NewAcrossPolls(ids: seq<string>, res: RequestResults, polls: seq<RetrieveResults>): seq<Entry>
    decreases |polls|
  {
    if |polls| == 0 then []
    else
      var first := NewAccepted(ids, res, polls[0].available);
      first + NewAcrossPolls(ids + IdsOf(first), res, polls[1..])
  }

  /** `after` is `before` with exactly the entries `polls` record appended
      to its queue, and their ids to its ids. */
  ghost predicate PolledExactly(before: Batch, after: Batch, res: RequestResults, polls: seq<RetrieveResults>) {
    && after.queued == before.queued + NewAcrossPolls(before.ids, res, polls)
    && after.ids == before.ids + IdsOf(NewAcrossPolls(before.ids, res, polls))
  }

  /** One poll: an accepted entry whose id is not yet in `downloadIds` has
      its id appended and is queued; every other entry is passed over. */
  function PollOnce(b: Batch, entities: map<Json, DataInfo>, enqueue: Enqueue, res: RequestResults, entries: seq<Entry>): Result<Batch>
    decreases |entries|
  {
    if |entries| == 0 then Ok(b)
    else if entries[0].downloadId !in b.ids && Accepted(res, entries[0].downloadId) then
      var b1 :- QueueEntry(b.(ids := b.ids + [entries[0].downloadId]), entities, enqueue, entries[0]);
      PollOnce(b1, entities, enqueue, res, entries[1..])
    else PollOnce(b, entities, enqueue, res, entries[1..])
  }

  /** A poll records and queues exactly the accepted entries with new ids
      (`NewAccepted`), in order; it never adds an id that is already
      present, and its pool is those entries replayed. */
  lemma {:induction false} PollOnceEffect(b: Batch, entities: map<Json, DataInfo>, enqueue: Enqueue, res: RequestResults, entries: seq<Entry>, start: nat)
    requires start <= |b.ids| && NoRepeatFrom(b.ids, start)
    ensures var r := PollOnce(b, entities, enqueue, res, entries);
            && (r.Ok? ==> && Extends(b, r.value, res) && Tracks(b, r.value) && NoRepeatFrom(r.value.ids, start)
                          && r.value.queued == b.queued + NewAccepted(b.ids, res, entries)
                          && r.value.ids == b.ids + IdsOf(NewAccepted(b.ids, res, entries))
                          && Replays(b, r.value, entities, enqueue))
            && (r.Err? <==> Replay(b.pool, entities, enqueue, NewAccepted(b.ids, res, entries)).Err?)
    decreases |entries|, 1
  {
    if |entries| == 0 {
      TracksSelf(b, res);
      ReplaysSelf(b, entities, enqueue);
    } else if entries[0].downloadId !in b.ids && Accepted(res, entries[0].downloadId) {
      PollOnceRecords(b, entities, enqueue, res, entries, start);
    } else {
      PollOnceEffect(b, entities, enqueue, res, entries[1..], start);
    }
  }

  /** `PollOnceEffect` when the first entry is recorded and queued. */
  lemma {:induction false} PollOnceRecords(b: Batch, entities: map<Json, DataInfo>, enqueue: Enqueue, res: RequestResults, entries: seq<Entry>, start: nat)
    requires start <= |b.ids| && NoRepeatFrom(b.ids, start)
    requires |entries| > 0 && entries[0].downloadId !in b.ids && Accepted(res, entries[0].downloadId)
    ensures var r := PollOnce(b, entities, enqueue, res, entries);
            && (r.Ok? ==> && Extends(b, r.value, res) && Tracks(b, r.value) && NoRepeatFrom(r.value.ids, start)
                          && r.value.queued == b.queued + NewAccepted(b.ids, res, entries)
                          && r.value.ids == b.ids + IdsOf(NewAccepted(b.ids, res, entries))
                          && Replays(b, r.value, entities, enqueue))
            && (r.Err? <==> Replay(b.pool, entities, enqueue, NewAccepted(b.ids, res, entries)).Err?)
    decreases |entries|, 0
  {
    var e := entries[0];
    var q := QueueEntry(b.(ids := b.ids + [e.downloadId]), entities, enqueue, e);
    assert NewAccepted(b.ids, res, entries) == [e] + NewAccepted(b.ids + [e.downloadId], res, entries[1..]);
    QueueEntryThenReplay(b.(ids := b.ids + [e.downloadId]), entities, enqueue, e, NewAccepted(b.ids + [e.downloadId], res, entries[1..]));
    if q.Ok? {
      var b1 := q.value;
      AppendNewKeepsNoRepeat(b.ids, start, e.downloadId);
      assert b1.ids[..|b.ids|] == b.ids && b1.queued[..|b.queued|] == b.queued;
      assert Extends(b, b1, res);
      assert b1.ids[|b.ids|..] == [e.downloadId] && b1.queued[|b.queued|..] == [e];
      assert Tracks(b, b1);
      PollOnceEffect(b1, entities, enqueue, res, entries[1..], start);
      var r := PollOnce(b1, entities, enqueue, res, entries[1..]);
      if r.Ok? {
        ExtendsTransitive(b, b1, r.value, res);
        TracksTransitive(b, b1, r.value, res);
        var rest := NewAccepted(b1.ids, res, entries[1..]);
        assert NewAccepted(b.ids, res, entries) == [e] + rest;
        IdsOfCons(e, rest);
        AppendAssoc(b.queued, [e], rest);
        AppendAssoc(b.ids, [e.downloadId], IdsOf(rest));
        QueueEntryReplays(b.(ids := b.ids + [e.downloadId]), entities, enqueue, e);
        ReplaysTransitive(b, b1, r.value, entities, enqueue);
      }
    }
  }

  /** `while len(downloadIds) < numRequested - (len(failed) + len(FAILED_DOWNLOADS))`. */
  predicate NeedsPoll(b: Batch, numRequested: nat, res: RequestResults) {
    |b.ids| < numRequested - (|res.failed| + |b.pool.failed|)
  }

  /** The polling loop, over the supplied poll replies; it stops when the
      guard fails or the replies run out. */
  function PollLoop(b: Batch, entities: map<Json, DataInfo>, enqueue: Enqueue, res: RequestResults, numRequested: nat, polls: seq<RetrieveResults>): (r: Result<Batch>)
    ensures !NeedsPoll(b, numRequested, res) ==> r == Ok(b)
    decreases |polls|
  {
    if !NeedsPoll(b, numRequested, res) || |polls| == 0 then Ok(b)
    else
      var b1 :- PollOnce(b, entities, enqueue, res, polls[0].available);
      PollLoop(b1, entities, enqueue, res, numRequested, polls[1..])
  }

  /** Polling runs some first `n` of the supplied polls, and stops early only
      when the guard fails. The batch gains exactly the entries those polls
      record, in order. It never adds an id that is already present, and its
      pool is those entries replayed. */
  lemma {:induction false} PollLoopEffect(b: Batch, entities: map<Json, DataInfo>, enqueue: Enqueue, res: RequestResults, numRequested: nat, polls: seq<RetrieveResults>, start: nat)
    requires start <= |b.ids| && NoRepeatFrom(b.ids, start)
    ensures var r := PollLoop(b, entities, enqueue, res, numRequested, polls);
            r.Ok? ==> && Extends(b, r.value, res) && Tracks(b, r.value) && NoRepeatFrom(r.value.ids, start)
                      && Replays(b, r.value, entities, enqueue)
                      && exists n :: 0 <= n <= |polls| && PolledExactly(b, r.value, res, polls[..n])
                                     && (n < |polls| ==> !NeedsPoll(r.value, numRequested, res))
    ensures var r := PollLoop(b, entities, enqueue, res, numRequested, polls);
            r.Err? ==> exists n :: 0 <= n <= |polls| && Replay(b.pool, entities, enqueue, NewAcrossPolls(b.ids, res, polls[..n])).Err?
    decreases |polls|
  {
    if !NeedsPoll(b, numRequested, res) || |polls| == 0 {
      TracksSelf(b, res);
      ReplaysSelf(b, entities, enqueue);
      assert polls[..0] == [];
      assert PolledExactly(b, b, res, polls[..0]);
    } else {
      PollOnceEffect(b, entities, enqueue, res, polls[0].available, start);
      var q := PollOnce(b, entities, enqueue, res, polls[0].available);
      if q.Err? {
        FirstPollFails(b, res, entities, enqueue, polls);
      } else {
        PollLoopEffect(q.value, entities, enqueue, res, numRequested, polls[1..], start);
        var r := PollLoop(q.value, entities, enqueue, res, numRequested, polls[1..]);
        if r.Err? {
          var m :| 0 <= m <= |polls[1..]| && Replay(q.value.pool, entities, enqueue, NewAcrossPolls(q.value.ids, res, polls[1..][..m])).Err?;
          LaterPollFails(b, q.value, res, entities, enqueue, polls, m);
        } else {
          ExtendsTransitive(b, q.value, r.value, res);
          TracksTransitive(b, q.value, r.value, res);
          ReplaysTransitive(b, q.value, r.value, entities, enqueue);
          var m :| 0 <= m <= |polls[1..]| && PolledExactly(q.value, r.value, res, polls[1..][..m])
                   && (m < |polls[1..]| ==> !NeedsPoll(r.value, numRequested, res));
          PolledExactlyCons(b, q.value, r.value, res, polls, m);
        }
      }
    }
  }

  /** A first poll whose replay fails makes the first poll's replay fail. */
  lemma FirstPollFails(b: Batch, res: RequestResults, entities: map<Json, DataInfo>, enqueue: Enqueue, polls: seq<RetrieveResults>)
    requires 0 < |polls|
    requires Replay(b.pool, entities, enqueue, NewAccepted(b.ids, res, polls[0].available)).Err?
    ensures Replay(b.pool, entities, enqueue, NewAcrossPolls(b.ids, res, polls[..1])).Err?
  {
    var first := NewAccepted(b.ids, res, polls[0].available);
    assert polls[..1][0] == polls[0] && polls[..1][1..] == [];
    assert NewAcrossPolls(b.ids, res, polls[..1]) == first + [];
    assert first + [] == first;
  }

  /** A replay failing after the first poll fails after the first `m + 1`. */
  lemma LaterPollFails(b: Batch, q: Batch, res: RequestResults, entities: map<Json, DataInfo>, enqueue: Enqueue, polls: seq<RetrieveResults>, m: nat)
    requires 0 < |polls| && m < |polls|
    requires q.queued == b.queued + NewAccepted(b.ids, res, polls[0].available)
    requires q.ids == b.ids + IdsOf(NewAccepted(b.ids, res, polls[0].available))
    requires Replays(b, q, entities, enqueue)
    requires Replay(q.pool, entities, enqueue, NewAcrossPolls(q.ids, res, polls[1..][..m])).Err?
    ensures Replay(b.pool, entities, enqueue, NewAcrossPolls(b.ids, res, polls[..m + 1])).Err?
  {
    var first := NewAccepted(b.ids, res, polls[0].available);
    var later := NewAcrossPolls(q.ids, res, polls[1..][..m]);
    assert polls[..m + 1][0] == polls[0] && polls[..m + 1][1..] == polls[1..][..m];
    assert NewAcrossPolls(b.ids, res, polls[..m + 1]) == first + later;
    assert q.queued[|b.queued|..] == first;
    ReplayAppend(b.pool, entities, enqueue, first, later, q.pool);
  }

  /** One poll followed by `m` more is the first `m + 1` polls. */
  lemma PolledExactlyCons(b: Batch, q: Batch, r: Batch, res: RequestResults, polls: seq<RetrieveResults>, m: nat)
    requires 0 < |polls| && m < |polls|
    requires q.queued == b.queued + NewAccepted(b.ids, res, polls[0].available)
    requires q.ids == b.ids + IdsOf(NewAccepted(b.ids, res, polls[0].available))
    requires PolledExactly(q, r, res, polls[1..][..m])
    ensures PolledExactly(b, r, res, polls[..m + 1])
  {
    var first := NewAccepted(b.ids, res, polls[0].available);
    var later := NewAcrossPolls(q.ids, res, polls[1..][..m]);
    assert polls[..m + 1][0] == polls[0] && polls[..m + 1][1..] == polls[1..][..m];
    assert NewAcrossPolls(b.ids, res, polls[..m + 1]) == first + later;
    AppendAssoc(b.queued, first, later);
    IdsOfAppend(first, later);
    AppendAssoc(b.ids, IdsOf(first), IdsOf(later));
  }

  /** The direct path: every entry of `availableDownloads` is queued. */
  function QueueAll(b: Batch, entities: map<Json, DataInfo>, enqueue: Enqueue, entries: seq<Entry>): Result<Batch>
    decreases |entries|
  {
    if |entries| == 0 then Ok(b)
    else
      var b1 :- QueueEntry(b, entities, enqueue, entries[0]);
      QueueAll(b1, entities, enqueue, entries[1..])
  }

  /** The direct path queues every entry once, in order, adds no id, and
      fails exactly when replaying the entries fails; otherwise its pool is
      the replayed one. */
  lemma {:induction false} QueueAllEffect(b: Batch, entities: map<Json, DataInfo>, enqueue: Enqueue, entries: seq<Entry>)
    ensures var r := QueueAll(b, entities, enqueue, entries);
            && (r.Ok? <==> Replay(b.pool, entities, enqueue, entries).Ok?)
            && (r.Ok? ==> r.value.ids == b.ids && r.value.queued == b.queued + entries
                          && Replay(b.pool, entities, enqueue, entries) == Ok(r.value.pool))
    decreases |entries|
  {
    if |entries| > 0 {
      var q := QueueEntry(b, entities, enqueue, entries[0]);
      if q.Ok? {
        QueueAllEffect(q.value, entities, enqueue, entries[1..]);
        assert b.queued + [entries[0]] + entries[1..] == b.queued + entries by {
          assert entries == [entries[0]] + entries[1..];
        }
      }
    }
  }

  /** An entry whose entity is not in the map makes the direct path fail. */
  lemma {:induction false} QueueAllMissingEntity(b: Batch, entities: map<Json, DataInfo>, enqueue: Enqueue, entries: seq<Entry>, k: nat)
    requires k < |entries| && entries[k].entityId !in entities
    ensures QueueAll(b, entities, enqueue, entries).Err?
    decreases k
  {
    var q := QueueEntry(b, entities, enqueue, entries[0]);
    if k > 0 && q.Ok? {
      assert entries[1..][k - 1] == entries[k];
      QueueAllMissingEntity(q.value, entities, enqueue, entries[1..], k - 1);
    }
  }

  /** `requestAndProcessAllDownloads`. When downloads are still being
      prepared the retrieve reply is used and then polled; otherwise every
      entry of `availableDownloads` is queued and nothing is polled. */
  function RequestAndProcessAll(pool: Pool, infos: seq<DataInfo>, numRequested: nat, res: RequestResults,
                                retrieve: RetrieveResults, polls: seq<RetrieveResults>): (r: Result<Batch>)
    ensures r.Ok? ==> Replay(pool, EntityMap(infos), QueueDownload, r.value.queued) == Ok(r.value.pool)
    ensures !Preparing(res) ==> (r.Ok? <==> Replay(pool, EntityMap(infos), QueueDownload, res.availableDownloads).Ok?)
    ensures !Preparing(res) && r.Ok? ==> r.value.queued == res.availableDownloads && r.value.ids == []
    ensures Preparing(res) && r.Ok? ==>
              var avail := AcceptedOnly(res, retrieve.available);
              var stages := avail + AcceptedOnly(res, retrieve.requested);
              && |avail| <= |r.value.ids| && |stages| <= |r.value.queued|
              && r.value.ids[..|avail|] == IdsOf(avail)
              && r.value.queued[..|stages|] == stages
              && IdsOf(r.value.queued[|stages|..]) == r.value.ids[|avail|..]
              && (forall k :: 0 <= k < |r.value.ids| ==> Accepted(res, r.value.ids[k]))
              && (forall k :: 0 <= k < |r.value.queued| ==> Accepted(res, r.value.queued[k].downloadId))
              && NoRepeatFrom(r.value.ids, |avail|)
              && exists n :: 0 <= n <= |polls|
                             && r.value.queued == stages + NewAcrossPolls(IdsOf(avail), res, polls[..n])
                             && r.value.ids == IdsOf(avail) + IdsOf(NewAcrossPolls(IdsOf(avail), res, polls[..n]))
                             && (n < |polls| ==> !NeedsPoll(r.value, numRequested, res))
    ensures Preparing(res) ==>
              var avail := AcceptedOnly(res, retrieve.available);
              var stages := avail + AcceptedOnly(res, retrieve.requested);
              && (r.Err? ==> exists n :: 0 <= n <= |polls|
                                         && Replay(pool, EntityMap(infos), QueueDownload, stages + NewAcrossPolls(IdsOf(avail), res, polls[..n])).Err?)
              && (Replay(pool, EntityMap(infos), QueueDownload, stages).Err? ==> r.Err?)
  {
    var b0 := Batch(pool, [], []);
    if Preparing(res) then
      RetrieveAndPollEffect(b0, EntityMap(infos), QueueDownload, res, numRequested, retrieve, polls);
      RetrieveAndPollFailure(b0, EntityMap(infos), QueueDownload, res, numRequested, retrieve, polls);
      RetrieveAndPoll(b0, EntityMap(infos), QueueDownload, res, numRequested, retrieve, polls)
    else
      QueueAllEffect(b0, EntityMap(infos), QueueDownload, res.availableDownloads);
      assert b0.queued + res.availableDownloads == res.availableDownloads;
      QueueAll(b0, EntityMap(infos), QueueDownload, res.availableDownloads)
  }

  /** The path taken while downloads are being prepared: the loops over
      `available` and `requested`, then polling. */
  function RetrieveAndPoll(b0: Batch, entities: map<Json, DataInfo>, enqueue: Enqueue, res: RequestResults, numRequested: nat,
                           retrieve: RetrieveResults, polls: seq<RetrieveResults>): Result<Batch>
  {
    var b1 :- QueueAvailable(b0, entities, enqueue, res, retrieve.available);
    var b2 :- QueueRequested(b1, entities, enqueue, res, retrieve.requested);
    PollLoop(b2, entities, enqueue, res, numRequested, polls)
  }

  /** The two retrieve loops leave a batch that extends the empty one: every
      id and queued entry so far was accepted. */
  lemma RetrieveStagesAccepted(b0: Batch, b2: Batch, res: RequestResults, available: seq<Entry>, requested: seq<Entry>)
    requires b0.ids == [] && b0.queued == []
    requires b2.ids == b0.ids + IdsOf(AcceptedOnly(res, available))
    requires b2.queued == b0.queued + AcceptedOnly(res, available) + AcceptedOnly(res, requested)
    ensures Extends(b0, b2, res)
  {
    IdsOfAccepted(res, available);
    ConcatAccepted(res, available, requested);
    assert b2.ids[..0] == [] && b2.queued[..0] == [];
  }

  lemma IdsOfAccepted(res: RequestResults, entries: seq<Entry>)
    ensures forall k :: 0 <= k < |IdsOf(AcceptedOnly(res, entries))| ==> Accepted(res, IdsOf(AcceptedOnly(res, entries))[k])
  {
    var first := AcceptedOnly(res, entries);
    forall k | 0 <= k < |IdsOf(first)|
      ensures Accepted(res, IdsOf(first)[k])
    {
      assert first[k] in first;
    }
  }

  lemma ConcatAccepted(res: RequestResults, a: seq<Entry>, b: seq<Entry>)
    ensures var q := AcceptedOnly(res, a) + AcceptedOnly(res, b);
            forall k :: 0 <= k < |q| ==> Accepted(res, q[k].downloadId)
  {
    var first := AcceptedOnly(res, a);
    var second := AcceptedOnly(res, b);
    var q := first + second;
    forall k | 0 <= k < |q|
      ensures Accepted(res, q[k].downloadId)
    {
      if k < |first| {
        assert q[k] in first;
      } else {
        assert q[k] in second;
      }
    }
  }

  /** From an empty batch: the retrieve stages record the accepted
      `available` ids and queue the accepted `available` then `requested`
      entries; after them the polls run until the guard fails or the replies
      run out, and queue and record exactly the entries they find accepted
      with a new id; no polled id repeats an earlier one; and the pool is
      every queued entry replayed from the starting pool. */
  lemma RetrieveAndPollEffect(b0: Batch, entities: map<Json, DataInfo>, enqueue: Enqueue, res: RequestResults, numRequested: nat,
                              retrieve: RetrieveResults, polls: seq<RetrieveResults>)
    requires b0.ids == [] && b0.queued == []
    ensures var r := RetrieveAndPoll(b0, entities, enqueue, res, numRequested, retrieve, polls);
            var avail := AcceptedOnly(res, retrieve.available);
            var stages := avail + AcceptedOnly(res, retrieve.requested);
            r.Ok? ==> && Extends(b0, r.value, res)
                      && |avail| <= |r.value.ids| && |stages| <= |r.value.queued|
                      && r.value.ids[..|avail|] == IdsOf(avail)
                      && r.value.queued[..|stages|] == stages
                      && IdsOf(r.value.queued[|stages|..]) == r.value.ids[|avail|..]
                      && NoRepeatFrom(r.value.ids, |avail|)
                      && Replay(b0.pool, entities, enqueue, r.value.queued) == Ok(r.value.pool)
                      && exists n :: 0 <= n <= |polls|
                                     && r.value.queued == stages + NewAcrossPolls(IdsOf(avail), res, polls[..n])
                                     && r.value.ids == IdsOf(avail) + IdsOf(NewAcrossPolls(IdsOf(avail), res, polls[..n]))
                                     && (n < |polls| ==> !NeedsPoll(r.value, numRequested, res))
  {
    var q1 := QueueAvailable(b0, entities, enqueue, res, retrieve.available);
    if q1.Ok? {
      QueueAvailableEffect(b0, entities, enqueue, res, retrieve.available);
      var q2 := QueueRequested(q1.value, entities, enqueue, res, retrieve.requested);
      if q2.Ok? {
        QueueRequestedEffect(q1.value, entities, enqueue, res, retrieve.requested);
        var b2 := q2.value;
        var avail := AcceptedOnly(res, retrieve.available);
        assert b0.ids + IdsOf(avail) == IdsOf(avail) && b0.queued + avail == avail;
        RetrieveStagesAccepted(b0, b2, res, retrieve.available, retrieve.requested);
        PollLoopEffect(b2, entities, enqueue, res, numRequested, polls, |b2.ids|);
        var r := PollLoop(b2, entities, enqueue, res, numRequested, polls);
        assert RetrieveAndPoll(b0, entities, enqueue, res, numRequested, retrieve, polls) == r;
        if r.Ok? {
          ExtendsTransitive(b0, b2, r.value, res);
          StagesThenPolls(b2, r.value, res, AcceptedOnly(res, retrieve.available), AcceptedOnly(res, retrieve.requested));
          StagesReplay(b0, q1.value, b2, r.value, entities, enqueue);
          var n :| 0 <= n <= |polls| && PolledExactly(b2, r.value, res, polls[..n])
                   && (n < |polls| ==> !NeedsPoll(r.value, numRequested, res));
        }
      }
    }
  }

  /** A batch that grew by polling from the retrieve stages keeps their ids
      and entries as prefixes and tracks the rest. */
  lemma StagesThenPolls(b2: Batch, r: Batch, res: RequestResults, avail: seq<Entry>, requested: seq<Entry>)
    requires b2.ids == IdsOf(avail) && b2.queued == avail + requested
    requires Extends(b2, r, res) && Tracks(b2, r)
    ensures && |avail| <= |r.ids| && |avail + requested| <= |r.queued|
            && r.ids[..|avail|] == IdsOf(avail)
            && r.queued[..|avail + requested|] == avail + requested
            && IdsOf(r.queued[|avail + requested|..]) == r.ids[|avail|..]
  {
  }

  /** From an empty batch, the path fails only where a replay of what it
      would have queued fails: the retrieve stages and the entries of some
      first `n` polls. A retrieve stage whose replay fails makes it fail. */
  lemma RetrieveAndPollFailure(b0: Batch, entities: map<Json, DataInfo>, enqueue: Enqueue, res: RequestResults, numRequested: nat,
                               retrieve: RetrieveResults, polls: seq<RetrieveResults>)
    requires b0.ids == [] && b0.queued == []
    ensures var r := RetrieveAndPoll(b0, entities, enqueue, res, numRequested, retrieve, polls);
            var avail := AcceptedOnly(res, retrieve.available);
            var stages := avail + AcceptedOnly(res, retrieve.requested);
            && (r.Err? ==> exists n :: 0 <= n <= |polls|
                                       && Replay(b0.pool, entities, enqueue, stages + NewAcrossPolls(IdsOf(avail), res, polls[..n])).Err?)
            && (Replay(b0.pool, entities, enqueue, stages).Err? ==> r.Err?)
  {
    var avail := AcceptedOnly(res, retrieve.available);
    var requested := AcceptedOnly(res, retrieve.requested);
    var stages := avail + requested;
    var q1 := QueueAvailable(b0, entities, enqueue, res, retrieve.available);
    QueueAvailableEffect(b0, entities, enqueue, res, retrieve.available);
    assert polls[..0] == [];
    assert stages + NewAcrossPolls(IdsOf(avail), res, polls[..0]) == stages;
    if q1.Err? {
      ReplayErrExtend(b0.pool, entities, enqueue, avail, requested);
    } else {
      assert q1.value.queued[|b0.queued|..] == avail;
      ReplayAppend(b0.pool, entities, enqueue, avail, requested, q1.value.pool);
      var q2 := QueueRequested(q1.value, entities, enqueue, res, retrieve.requested);
      QueueRequestedEffect(q1.value, entities, enqueue, res, retrieve.requested);
      if q2.Ok? {
        var b2 := q2.value;
        assert b2.queued[|q1.value.queued|..] == requested;
        assert b2.ids == IdsOf(avail);
        var r := PollLoop(b2, entities, enqueue, res, numRequested, polls);
        assert RetrieveAndPoll(b0, entities, enqueue, res, numRequested, retrieve, polls) == r;
        if r.Err? {
          PollLoopEffect(b2, entities, enqueue, res, numRequested, polls, |b2.ids|);
          var n :| 0 <= n <= |polls| && Replay(b2.pool, entities, enqueue, NewAcrossPolls(b2.ids, res, polls[..n])).Err?;
          ReplayAppend(b0.pool, entities, enqueue, stages, NewAcrossPolls(b2.ids, res, polls[..n]), b2.pool);
        }
      }
    }
  }

  /** Replaying from an empty queue covers the whole queue. */
  lemma StagesReplay(b0: Batch, b1: Batch, b2: Batch, r: Batch, entities: map<Json, DataInfo>, enqueue: Enqueue)
    requires b0.queued == []
    requires Replays(b0, b1, entities, enqueue) && Replays(b1, b2, entities, enqueue) && Replays(b2, r, entities, enqueue)
    requires b2.queued[..|b1.queued|] == b1.queued && r.queued[..|b2.queued|] == b2.queued
    ensures Replay(b0.pool, entities, enqueue, r.queued) == Ok(r.pool)
  {
    ReplaysTransitive(b0, b1, b2, entities, enqueue);
    ReplaysTransitive(b0, b2, r, entities, enqueue);
    assert r.queued[|b0.queued|..] == r.queued;
  }

  /** An entry listed under `requested` and later polled as available is
      queued twice: the `requested` loop records no id, so the poll finds
      nothing that stops it. */
  lemma RequestedThenPolledQueuedTwice(dir: string, info: DataInfo, id: string, path: string)
    requires !Text.Contains(path, SCHEME)
    ensures var e := Entry(id, info.entityId, Some(SCHEME + path));
            var res := RequestResults(Some([JNull]), [id], [], [], []);
            var r := RequestAndProcessAll(Pool(dir, Sidecar.FileSystem(map[]), [], [], [], []), [info], 1, res,
                                          RetrieveResults([], [e]), [RetrieveResults([e], [])]);
            && r.Ok? && r.value.queued == [e, e] && r.value.ids == [id]
            && |r.value.pool.running| == 2
  {
    var e := Entry(id, info.entityId, Some(SCHEME + path));
    var res := RequestResults(Some([JNull]), [id], [], [], []);
    var pool := Pool(dir, Sidecar.FileSystem(map[]), [], [], [], []);
    var entities := EntityMap([info]);
    assert entities == map[info.entityId := info];
    var a := NewAttempt(e.url, info);
    SidecarNameOfPlainUrl(path);
    var sidecar := GetUrlFilePath(a.info.writer.url).value;
    assert !Sidecar.IsFile(pool.fs, Text.PathJoin(dir, sidecar));
    assert HasDownloadBeenProcessed(a, pool.fs, dir) == Ok(false);
    var p1 := Pool(dir, pool.fs, [a], [], [], []);
    var p2 := Pool(dir, pool.fs, [a, a], [], [], []);
    assert [] + [a] == [a] && [a] + [a] == [a, a];
    assert QueueDownload(pool, a) == Ok(p1);
    assert QueueDownload(p1, a) == Ok(p2);
    var b0 := Batch(pool, [], []);
    var b1 := Batch(p1, [], [e]);
    var b2 := Batch(p2, [id], [e, e]);
    assert QueueAvailable(b0, entities, QueueDownload, res, []) == Ok(b0);
    assert [] + [e] == [e] && [e] + [e] == [e, e] && [] + [id] == [id];
    assert [e][1..] == [];
    assert QueueRequested(b0, entities, QueueDownload, res, [e]) == Ok(b1);
    assert PollOnce(b1, entities, QueueDownload, res, [e]) == Ok(b2);
    assert PollLoop(b2, entities, QueueDownload, res, 1, []) == Ok(b2);
    assert PollLoop(b1, entities, QueueDownload, res, 1, [RetrieveResults([e], [])]) == Ok(b2);
  }

  /** One product of the `download-options` reply. */
  datatype Product = Product(entityId: Json, id: Json, available: Json)

  /** `{"entityId": ..., "productId": ...}`. */
  datatype Download = Download(entityId: Json, productId: Json)

  /** `{"entityId": ..., "productId": ...}` for an available product,
      nothing otherwise. */
  function Keep(p: Product): seq<Download> {
    if EqualsTrue(p.available) then [Download(p.entityId, p.id)] else []
  }

  /** The products with `available == True`, as downloads, in order. */
  function AvailableDownloads(options: seq<Product>): (r: seq<Download>)
    ensures |r| <= |options|
    ensures forall d :: d in r <==> exists p :: p in options && EqualsTrue(p.available) && d == Download(p.entityId, p.id)
    decreases |options|
  {
    if |options| == 0 then []
    else
      assert forall q :: q in options <==> q == options[0] || q in options[1..];
      Keep(options[0]) + AvailableDownloads(options[1..])
  }

  /** The filter keeps input order: filtering a concatenation concatenates
      the filtered parts. */
  lemma {:induction false} AvailableDownloadsAppend(a: seq<Product>, b: seq<Product>)
    ensures AvailableDownloads(a + b) == AvailableDownloads(a) + AvailableDownloads(b)
    decreases |a|
  {
    if |a| == 0 {
      assert a + b == b;
    } else {
      assert (a + b)[0] == a[0];
      assert (a + b)[1..] == a[1..] + b;
      AvailableDownloadsAppend(a[1..], b);
    }
  }

  /** An empty filter result means no product was available. */
  lemma {:induction false} NothingAvailable(options: seq<Product>)
    requires |AvailableDownloads(options)| == 0
    ensures forall p :: p in options ==> !EqualsTrue(p.available)
    decreases |options|
  {
    if |options| > 0 {
      assert |Keep(options[0])| == 0;
      NothingAvailable(options[1..]);
      assert forall q :: q in options ==> q == options[0] || q in options[1..];
    }
  }

  /** Canned replies of the M2M service for one run. */
  datatype Replies = Replies(
    options: seq<Product>,
    request: RequestResults,
    retrieve: RetrieveResults,
    polls: seq<RetrieveResults>)

  /** `processDownloads`: the request stage runs only when some product is
      available, with one requested download per available product. */
  function ProcessDownloads(pool: Pool, infos: seq<DataInfo>, replies: Replies): (r: Result<Option<Batch>>)
    ensures r == Ok(None) <==> forall p :: p in replies.options ==> !EqualsTrue(p.available)
    ensures r.Ok? && r.value.Some? ==>
              var downloads := AvailableDownloads(replies.options);
              RequestAndProcessAll(pool, infos, |downloads|, replies.request, replies.retrieve, replies.polls) == Ok(r.value.value)
  {
    var downloads := AvailableDownloads(replies.options);
    if |downloads| == 0 then
      NothingAvailable(replies.options);
      Ok(None)
    else
      assert downloads[0] in downloads;
      var b :- RequestAndProcessAll(pool, infos, |downloads|, replies.request, replies.retrieve, replies.polls);
      Ok(Some(b))
  }

  const MAX_DATA_INFOS: nat := 50000

  /** `execute`: a request of 50,000 or more data infos raises before any
      product is looked up. */
  function Execute(pool: Pool, infos: seq<DataInfo>, replies: Replies): (r: Result<Option<Batch>>)
    ensures |infos| >= MAX_DATA_INFOS ==> r == Err(Raised("Max allowed is 50k"))
    ensures |infos| < MAX_DATA_INFOS ==> r == ProcessDownloads(pool, infos, replies)
  {
    if |infos| >= MAX_DATA_INFOS then Err(Raised("Max allowed is 50k"))
    else ProcessDownloads(pool, infos, replies)
  }
}
