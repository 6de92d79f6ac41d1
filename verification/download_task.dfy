/** One download task (`DataInfoWriter`, `DataInfo`, `DownloadAttempt`,
    `QueueDownload` and `DownloadFile` in `DataSource.py`) as a sequential
    state machine. A started thread is a task in the `running` list; a step
    of the machine is one run of `DownloadFile` on one running task, whose
    HTTP outcome is an input. */
module DownloadTask {
  import opened Wrappers
  import opened Json
  import opened Text
  import opened Sidecar

  const SCHEME := "https://"
  const SIDECAR_EXTENSION := ".txt"

  /** A task is retried while it has failed fewer times than this. */
  const MAX_ATTEMPTS: nat := 5

  /** `s.split(sep)[1]`: the text between the first and the second
      occurrence of `sep` (or the end); an IndexError when `sep` is absent. */
  function SecondField(s: string, sep: string): (r: Result<string>)
    requires |sep| > 0
    ensures r.Ok? <==> Contains(s, sep)
    ensures r.Err? ==> r.error.IndexError?
    ensures r.Ok? ==> !Contains(r.value, sep)
    ensures r.Ok? ==> var rest := s[IndexOf(s, sep).value + |sep|..];
                      r.value == rest || StartsWith(rest, r.value + sep)
  {
    match IndexOf(s, sep)
    case None => Err(IndexError("list index out of range"))
    case Some(k) =>
      var rest := s[k + |sep|..];
      match IndexOf(rest, sep)
      case None => Ok(rest)
      case Some(m) =>
        PrefixBeforeFirstMatch(rest, sep, m);
        Ok(rest[..m])
  }

  /** The text before the first occurrence of `pat` does not contain it, and
      is followed by `pat`. */
  lemma PrefixBeforeFirstMatch(s: string, pat: string, m: nat)
    requires |pat| > 0 && IndexOf(s, pat) == Some(m)
    ensures !Contains(s[..m], pat)
    ensures StartsWith(s, s[..m] + pat)
  {
    var f := s[..m];
    forall j: nat
      ensures !MatchAt(f, pat, j)
    {
      if j + |pat| <= |f| {
        assert f[j..j + |pat|] == s[j..j + |pat|];
        assert j < m && !MatchAt(s, pat, j);
      }
    }
    assert s[..m + |pat|] == s[..m] + s[m..m + |pat|];
  }

  /** `DataInfoWriter.getURLFilePath`: the URL text after `https://` (up to
      any second `https://`), every `/` turned into `_`, plus `.txt`. */
  function GetUrlFilePath(url: Option<string>): (r: Result<string>)
    ensures url.None? ==> r == Err(Raised("URL was never set"))
    ensures url.Some? ==> (r.Ok? <==> Contains(url.value, SCHEME))
    ensures url.Some? && r.Err? ==> r.error.IndexError?
    ensures r.Ok? ==> EndsWith(r.value, SIDECAR_EXTENSION) && '/' !in r.value
  {
    match url
    case None => Err(Raised("URL was never set"))
    case Some(u) =>
      var field :- SecondField(u, SCHEME);
      var name := ReplaceChar(field, '/', '_') + SIDECAR_EXTENSION;
      assert name[|name| - |SIDECAR_EXTENSION|..] == SIDECAR_EXTENSION;
      Ok(name)
  }

  /** For a URL that is the scheme followed by a path, the sidecar name is
      the path with `/` turned into `_`, plus `.txt`. */
  lemma SidecarNameOfPlainUrl(path: string)
    requires !Contains(path, SCHEME)
    ensures GetUrlFilePath(Some(SCHEME + path)) == Ok(ReplaceChar(path, '/', '_') + SIDECAR_EXTENSION)
  {
    var u := SCHEME + path;
    assert MatchAt(u, SCHEME, 0) by {
      assert u[0..|SCHEME|] == SCHEME;
    }
    assert IndexOf(u, SCHEME) == Some(0);
    assert u[|SCHEME|..] == path;
  }

  /** Two URLs that differ only in `/` against `_` share one sidecar name. */
  lemma SlashAndUnderscoreShareSidecar()
    ensures GetUrlFilePath(Some("https://a/b")) == GetUrlFilePath(Some("https://a_b"))
  {
    assert !Contains("a/b", SCHEME);
    assert !Contains("a_b", SCHEME);
    SidecarNameOfPlainUrl("a/b");
    SidecarNameOfPlainUrl("a_b");
    assert ReplaceChar("a/b", '/', '_') == "a_b";
    assert ReplaceChar("a_b", '/', '_') == "a_b";
  }

  /** A `DataInfo`: the entity id, the sidecar writer and the download URL. */
  datatype DataInfo = DataInfo(entityId: Json, writer: ImageDataWriter, url: Option<string>)

  /** `DataInfo(entityId, infoWriter)`: no URL yet. */
  function NewDataInfo(entityId: Json, writer: ImageDataWriter): (d: DataInfo)
    ensures d.entityId == entityId && d.writer == writer && d.url.None?
  {
    DataInfo(entityId, writer, None)
  }

  /** `DataInfo.setURL`: the URL goes into the info and into its writer;
      nothing else changes. */
  function SetUrl(d: DataInfo, url: Option<string>): (r: DataInfo)
    ensures r.url == url && r.writer.url == url
    ensures r.entityId == d.entityId
    ensures r.writer.bounds == d.writer.bounds && r.writer.imageFileName == d.writer.imageFileName
  {
    d.(url := url, writer := d.writer.(url := url))
  }

  datatype DownloadAttempt = DownloadAttempt(info: DataInfo, numAttempts: nat)

  /** `DownloadAttempt(url, dataInfo)`: the URL is pushed into the info and
      its writer, and no attempt has failed yet. */
  function NewAttempt(url: Option<string>, d: DataInfo): (a: DownloadAttempt)
    ensures a.numAttempts == 0
    ensures a.info.url == url && a.info.writer.url == url
    ensures a.info.entityId == d.entityId && a.info.writer.bounds == d.writer.bounds
  {
    DownloadAttempt(SetUrl(d, url), 0)
  }

  /** Every task handed to `QueueDownload`, by what became of it, plus the
      download directory and its files. */
  datatype Pool = Pool(
    dir: string,
    fs: FileSystem,
    running: seq<DownloadAttempt>,
    skipped: seq<DownloadAttempt>,
    completed: seq<DownloadAttempt>,
    failed: seq<DownloadAttempt>)

  /** `HasDownloadBeenProcessed`: the writer's sidecar check, with the
      sidecar path taken from the writer's URL. */
  function HasDownloadBeenProcessed(a: DownloadAttempt, fs: FileSystem, dir: string): (r: Result<bool>)
    ensures GetUrlFilePath(a.info.writer.url).Err? ==> r.Err?
    ensures r == Ok(true) <==> GetUrlFilePath(a.info.writer.url).Ok? && MarksDownloaded(fs, dir, GetUrlFilePath(a.info.writer.url).value)
    ensures r.Err? <==> GetUrlFilePath(a.info.writer.url).Err?
                        || (IsFile(fs, PathJoin(dir, GetUrlFilePath(a.info.writer.url).value))
                            && !ReadableSidecar(fs, PathJoin(dir, GetUrlFilePath(a.info.writer.url).value)))
    ensures GetUrlFilePath(a.info.writer.url).Ok? && !IsFile(fs, PathJoin(dir, GetUrlFilePath(a.info.writer.url).value)) ==> r == Ok(false)
  {
    var sidecar :- GetUrlFilePath(a.info.writer.url);
    HasDataAlreadyBeenDownloaded(fs, dir, sidecar)
  }

  /** `QueueDownload`: a task already processed is skipped, any other one is
      started. An exception from the check propagates to the caller. */
  function QueueDownload(pool: Pool, a: DownloadAttempt): (r: Result<Pool>)
    ensures r.Ok? <==> HasDownloadBeenProcessed(a, pool.fs, pool.dir).Ok?
    ensures r.Ok? && HasDownloadBeenProcessed(a, pool.fs, pool.dir).value ==>
              r.value == pool.(skipped := pool.skipped + [a])
    ensures r.Ok? && !HasDownloadBeenProcessed(a, pool.fs, pool.dir).value ==>
              r.value == pool.(running := pool.running + [a])
  {
    var done :- HasDownloadBeenProcessed(a, pool.fs, pool.dir);
    if done then Ok(pool.(skipped := pool.skipped + [a]))
    else Ok(pool.(running := pool.running + [a]))
  }

  /** What one `requests.get` produced: a payload saved under the file name
      from its `content-disposition` header, or an exception anywhere in the
      try block before the sidecar was written. */
  datatype Outcome = Fetched(fileName: string) | FetchFailed

  function RemoveAt<T>(s: seq<T>, k: nat): (r: seq<T>)
    requires k < |s|
    ensures |r| == |s| - 1
    ensures forall m :: 0 <= m < k ==> r[m] == s[m]
    ensures forall m :: k <= m < |r| ==> r[m] == s[m + 1]
  {
    s[..k] + s[k + 1..]
  }

  /** A failed attempt with its count raised by one. */
  function Bumped(a: DownloadAttempt): DownloadAttempt {
    DownloadAttempt(a.info, a.numAttempts + 1)
  }

  /** How many tasks a pool knows of, whatever became of them. */
  function Count(p: Pool): nat {
    |p.running| + |p.skipped| + |p.completed| + |p.failed|
  }

  /** A failed attempt: the count goes up by one; below five failures the
      task goes back through `QueueDownload`, otherwise it joins the failed
      list. An exception from that `QueueDownload` escapes the thread, which
      ends: the task is dropped and the rest of the pool carries on. */
  function Retry(rest: Pool, a: DownloadAttempt): Pool
  {
    var a' := Bumped(a);
    if a'.numAttempts < MAX_ATTEMPTS then
      match QueueDownload(rest, a')
      case Ok(p) => p
      case Err(_) => rest
    else Pool(rest.dir, rest.fs, rest.running, rest.skipped, rest.completed, rest.failed + [a'])
  }

  /** A retry completes nothing and only appends: the task lands on exactly
      one list (the failed one iff this was its fifth failure), or is lost
      exactly when its requeue raises. */
  lemma RetryEffect(rest: Pool, a: DownloadAttempt)
    ensures var r := Retry(rest, a);
            && r.dir == rest.dir && r.fs == rest.fs && r.completed == rest.completed
            && rest.running <= r.running && rest.skipped <= r.skipped && rest.failed <= r.failed
            && (|r.failed| > |rest.failed| <==> a.numAttempts + 1 >= MAX_ATTEMPTS)
            && (Count(r) == Count(rest) + 1 || r == rest)
            && (r == rest <==> a.numAttempts + 1 < MAX_ATTEMPTS && HasDownloadBeenProcessed(Bumped(a), rest.fs, rest.dir).Err?)
  {
  }

  /** A successful attempt: the payload is written, then the sidecar naming
      it, and the task joins the completed list. */
  function Complete(rest: Pool, a: DownloadAttempt, fileName: string, sidecar: string): (r: Pool)
    ensures r.running == rest.running && r.skipped == rest.skipped && r.failed == rest.failed
    ensures r.completed == rest.completed + [DownloadAttempt(a.info.(writer := a.info.writer.(imageFileName := JStr(fileName))), a.numAttempts)]
  {
    var withPayload := FileSystem(rest.fs.files[PathJoin(rest.dir, fileName) := Opaque]);
    var written := WriteFileContents(a.info.writer, withPayload, rest.dir, fileName, sidecar);
    Pool(rest.dir, written.1, rest.running, rest.skipped, rest.completed + [DownloadAttempt(a.info.(writer := written.0), a.numAttempts)], rest.failed)
  }

  /** `DownloadFile` for the running task `k`: the task leaves the running
      list and completes when the payload was fetched and the sidecar name
      can be derived; any exception counts as a failed attempt. */
  function DownloadFile(pool: Pool, k: nat, outcome: Outcome): Pool
    requires k < |pool.running|
  {
    var a := pool.running[k];
    var rest := Pool(pool.dir, pool.fs, RemoveAt(pool.running, k), pool.skipped, pool.completed, pool.failed);
    if outcome.Fetched? && GetUrlFilePath(a.info.writer.url).Ok? then
      Complete(rest, a, outcome.fileName, GetUrlFilePath(a.info.writer.url).value)
    else Retry(rest, a)
  }

  /** A step only appends to the lists and keeps the other running tasks in
      order; no task is duplicated, and one is lost (the pool is left as it
      was without it) exactly when a failed attempt's requeue raises. */
  lemma DownloadFileKeepsTasks(pool: Pool, k: nat, outcome: Outcome)
    requires k < |pool.running|
    ensures var r := DownloadFile(pool, k, outcome);
            var rest := Pool(pool.dir, pool.fs, RemoveAt(pool.running, k), pool.skipped, pool.completed, pool.failed);
            && r.dir == pool.dir
            && RemoveAt(pool.running, k) <= r.running && pool.skipped <= r.skipped
            && pool.completed <= r.completed && pool.failed <= r.failed
            && (Count(r) == Count(pool) || r == rest)
            && (r == rest <==>
                 && !(outcome.Fetched? && GetUrlFilePath(pool.running[k].info.writer.url).Ok?)
                 && pool.running[k].numAttempts + 1 < MAX_ATTEMPTS
                 && HasDownloadBeenProcessed(Bumped(pool.running[k]), pool.fs, pool.dir).Err?)
  {
    RetryEffect(Pool(pool.dir, pool.fs, RemoveAt(pool.running, k), pool.skipped, pool.completed, pool.failed), pool.running[k]);
  }

  /** The retry bound: running tasks have failed fewer than five times and
      every failed task exactly five times. */
  ghost predicate Bounded(pool: Pool) {
    && (forall m :: 0 <= m < |pool.running| ==> pool.running[m].numAttempts < MAX_ATTEMPTS)
    && (forall m :: 0 <= m < |pool.failed| ==> pool.failed[m].numAttempts == MAX_ATTEMPTS)
  }

  /** Queueing a task below the bound keeps it. */
  lemma QueueKeepsBounded(pool: Pool, a: DownloadAttempt)
    requires Bounded(pool) && a.numAttempts < MAX_ATTEMPTS
    ensures QueueDownload(pool, a).Ok? ==> Bounded(QueueDownload(pool, a).value)
  {
  }

  /** Every step of a task keeps the retry bound: the count never exceeds
      five. */
  lemma DownloadKeepsBounded(pool: Pool, k: nat, outcome: Outcome)
    requires Bounded(pool) && k < |pool.running|
    ensures Bounded(DownloadFile(pool, k, outcome))
  {
    var a := pool.running[k];
    var rest := Pool(pool.dir, pool.fs, RemoveAt(pool.running, k), pool.skipped, pool.completed, pool.failed);
    assert Bounded(rest);
    if !(outcome.Fetched? && GetUrlFilePath(a.info.writer.url).Ok?) {
      assert DownloadFile(pool, k, outcome) == Retry(rest, a);
      if Bumped(a).numAttempts < MAX_ATTEMPTS {
        QueueKeepsBounded(rest, Bumped(a));
      }
    }
  }

  /** A failed download counts one more attempt: below five the task goes
      back through `QueueDownload` (and is lost if that raises), at five it
      joins the failed list. The other tasks stay where they were. */
  lemma FailedDownloadRetries(pool: Pool, k: nat)
    requires k < |pool.running|
    ensures var a' := Bumped(pool.running[k]);
            var rest := Pool(pool.dir, pool.fs, RemoveAt(pool.running, k), pool.skipped, pool.completed, pool.failed);
            && (a'.numAttempts < MAX_ATTEMPTS && QueueDownload(rest, a').Ok? ==> DownloadFile(pool, k, FetchFailed) == QueueDownload(rest, a').value)
            && (a'.numAttempts < MAX_ATTEMPTS && QueueDownload(rest, a').Err? ==> DownloadFile(pool, k, FetchFailed) == rest)
            && (a'.numAttempts >= MAX_ATTEMPTS ==> DownloadFile(pool, k, FetchFailed) == rest.(failed := pool.failed + [a']))
  {
  }

  /** A fetched download of a task with a usable URL completes it: the task
      leaves the running list for the completed one with its count unchanged
      and its writer naming the payload; the other lists are untouched. */
  lemma FetchedDownloadCompletes(pool: Pool, k: nat, fileName: string)
    requires k < |pool.running| && GetUrlFilePath(pool.running[k].info.writer.url).Ok?
    ensures var r := DownloadFile(pool, k, Fetched(fileName));
            && r.running == RemoveAt(pool.running, k)
            && r.failed == pool.failed && r.skipped == pool.skipped
            && |r.completed| == |pool.completed| + 1
            && r.completed[..|pool.completed|] == pool.completed
            && r.completed[|pool.completed|].numAttempts == pool.running[k].numAttempts
            && r.completed[|pool.completed|].info.writer.imageFileName == JStr(fileName)
  {
    var r := DownloadFile(pool, k, Fetched(fileName));
    assert r.completed[..|pool.completed|] == pool.completed;
  }

  /** A completed download is recognised afterwards: queueing the same task
      again (a resumed run) skips it. */
  lemma CompletedIsSkipped(pool: Pool, k: nat, fileName: string)
    requires k < |pool.running| && GetUrlFilePath(pool.running[k].info.writer.url).Ok?
    ensures var after := DownloadFile(pool, k, Fetched(fileName));
            var a := after.completed[|after.completed| - 1];
            QueueDownload(after, a) == Ok(after.(skipped := after.skipped + [a]))
  {
    var a := pool.running[k];
    var rest := Pool(pool.dir, pool.fs, RemoveAt(pool.running, k), pool.skipped, pool.completed, pool.failed);
    var sidecar := GetUrlFilePath(a.info.writer.url).value;
    assert DownloadFile(pool, k, Fetched(fileName)) == Complete(rest, a, fileName, sidecar);
    PayloadThenSidecarMarksDownloaded(a.info.writer, rest.fs, rest.dir, fileName, sidecar);
  }

  /** A single task with a plain URL, run against outcomes one at a time
      while it stays the only running task. */
  function RunAlone(pool: Pool, outcomes: seq<Outcome>): Pool
    decreases |outcomes|
  {
    if |outcomes| == 0 || |pool.running| != 1 then pool
    else RunAlone(DownloadFile(pool, 0, outcomes[0]), outcomes[1..])
  }

  /** A pool whose only task is `a`, over an empty download directory. */
  function Lone(dir: string, a: DownloadAttempt): Pool {
    Pool(dir, FileSystem(map[]), [a], [], [], [])
  }

  /** A failure below the bound, with nothing on disk, puts the task back
      as the one running task with its count raised by one. */
  lemma {:induction false} FailureRequeues(dir: string, info: DataInfo, n: nat)
    requires GetUrlFilePath(info.writer.url).Ok? && n + 1 < MAX_ATTEMPTS
    ensures DownloadFile(Lone(dir, DownloadAttempt(info, n)), 0, FetchFailed) == Lone(dir, DownloadAttempt(info, n + 1))
  {
    var empty := FileSystem(map[]);
    var a' := DownloadAttempt(info, n + 1);
    var rest := Pool(dir, empty, [], [], [], []);
    assert RemoveAt([DownloadAttempt(info, n)], 0) == [];
    assert DownloadFile(Lone(dir, DownloadAttempt(info, n)), 0, FetchFailed) == Retry(rest, DownloadAttempt(info, n));
    var sidecar := GetUrlFilePath(info.writer.url).value;
    assert !IsFile(empty, PathJoin(dir, sidecar));
    assert HasDownloadBeenProcessed(a', empty, dir) == Ok(false);
    assert [] + [a'] == [a'];
  }

  /** A failure below the bound, run alone from an empty disk, leaves the
      rest of the outcomes to the requeued task. */
  lemma {:induction false} FailureStep(dir: string, info: DataInfo, n: nat, rest: seq<Outcome>)
    requires GetUrlFilePath(info.writer.url).Ok? && n + 1 < MAX_ATTEMPTS
    ensures RunAlone(Lone(dir, DownloadAttempt(info, n)), [FetchFailed] + rest) == RunAlone(Lone(dir, DownloadAttempt(info, n + 1)), rest)
  {
    assert ([FetchFailed] + rest)[0] == FetchFailed && ([FetchFailed] + rest)[1..] == rest;
    FailureRequeues(dir, info, n);
  }

  /** Two failures in a row below the bound raise the count by two. */
  lemma {:induction false} TwoFailuresRequeue(dir: string, info: DataInfo, n: nat, tail: seq<Outcome>)
    requires GetUrlFilePath(info.writer.url).Ok? && n + 2 < MAX_ATTEMPTS
    ensures RunAlone(Lone(dir, DownloadAttempt(info, n)), [FetchFailed] + ([FetchFailed] + tail))
         == RunAlone(Lone(dir, DownloadAttempt(info, n + 2)), tail)
  {
    FailureStep(dir, info, n, [FetchFailed] + tail);
    FailureStep(dir, info, n + 1, tail);
  }

  /** Four failures in a row from a fresh task leave it alone in the pool
      with four failed attempts, and the outcomes after them still to run. */
  lemma {:induction false} FourFailuresRequeue(dir: string, info: DataInfo, tail: seq<Outcome>)
    requires GetUrlFilePath(info.writer.url).Ok?
    ensures RunAlone(Lone(dir, DownloadAttempt(info, 0)), [FetchFailed] + ([FetchFailed] + ([FetchFailed] + ([FetchFailed] + tail))))
         == RunAlone(Lone(dir, DownloadAttempt(info, 4)), tail)
  {
    var mid := [FetchFailed] + ([FetchFailed] + tail);
    var p2 := Lone(dir, DownloadAttempt(info, 2));
    var p4 := Lone(dir, DownloadAttempt(info, 4));
    assert Lone(dir, DownloadAttempt(info, 0 + 2)) == p2 && Lone(dir, DownloadAttempt(info, 2 + 2)) == p4;
    TwoFailuresRequeue(dir, info, 0, mid);
    assert RunAlone(Lone(dir, DownloadAttempt(info, 0)), [FetchFailed] + ([FetchFailed] + mid)) == RunAlone(p2, mid);
    TwoFailuresRequeue(dir, info, 2, tail);
    assert RunAlone(p2, mid) == RunAlone(p4, tail);
  }

  lemma FourThenOne(o: Outcome)
    ensures [FetchFailed] + ([FetchFailed] + ([FetchFailed] + ([FetchFailed] + [o]))) == [FetchFailed, FetchFailed, FetchFailed, FetchFailed, o]
  {
  }

  /** Four failures and then a success complete the task with four failed
      attempts on record; the count only counts failures. */
  lemma {:induction false} FourFailuresThenSuccess(dir: string, info: DataInfo, path: string, fileName: string)
    requires !Contains(path, SCHEME)
    ensures var r := RunAlone(Lone(dir, NewAttempt(Some(SCHEME + path), info)), [FetchFailed, FetchFailed, FetchFailed, FetchFailed, Fetched(fileName)]);
            && |r.completed| == 1 && r.completed[0].numAttempts == 4
            && r.running == [] && r.failed == []
  {
    var a := NewAttempt(Some(SCHEME + path), info);
    SidecarNameOfPlainUrl(path);
    assert a == DownloadAttempt(a.info, 0);
    FourFailuresRequeue(dir, a.info, [Fetched(fileName)]);
    FourThenOne(Fetched(fileName));
    var p4 := Lone(dir, DownloadAttempt(a.info, 4));
    FetchedDownloadCompletes(p4, 0, fileName);
    var p5 := DownloadFile(p4, 0, Fetched(fileName));
    assert RemoveAt(p4.running, 0) == [];
    assert RunAlone(p4, [Fetched(fileName)]) == RunAlone(p5, []);
  }

  /** Five failures in a row put the task on the failed list with five
      attempts. */
  lemma {:induction false} FiveFailuresGiveUp(dir: string, info: DataInfo, path: string)
    requires !Contains(path, SCHEME)
    ensures var r := RunAlone(Lone(dir, NewAttempt(Some(SCHEME + path), info)), [FetchFailed, FetchFailed, FetchFailed, FetchFailed, FetchFailed]);
            && r.running == [] && r.completed == []
            && |r.failed| == 1 && r.failed[0].numAttempts == MAX_ATTEMPTS
  {
    var a := NewAttempt(Some(SCHEME + path), info);
    SidecarNameOfPlainUrl(path);
    assert a == DownloadAttempt(a.info, 0);
    FourFailuresRequeue(dir, a.info, [FetchFailed]);
    FourThenOne(FetchFailed);
    var p4 := Lone(dir, DownloadAttempt(a.info, 4));
    var p5 := Pool(dir, FileSystem(map[]), [], [], [], [DownloadAttempt(a.info, 5)]);
    assert RemoveAt(p4.running, 0) == [];
    assert DownloadFile(p4, 0, FetchFailed) == Retry(Pool(dir, FileSystem(map[]), [], [], [], []), DownloadAttempt(a.info, 4));
    assert [] + [DownloadAttempt(a.info, 5)] == [DownloadAttempt(a.info, 5)];
    assert DownloadFile(p4, 0, FetchFailed) == p5;
    assert RunAlone(p4, [FetchFailed]) == RunAlone(p5, []);
  }
}
