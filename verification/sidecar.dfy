/** The per-tile sidecar record (`ImageDataWriter` in
    `HighResolutionOrthoImagery.py`, on top of `DataInfoWriter` in
    `DataSource.py`) and the slice of the file system it reads and writes. */
module Sidecar {
  import opened Wrappers
  import opened Json
  import Text
  import Footprint

  /** Regular files by path: a JSON document, or anything else (a payload,
      or text `json.load` cannot parse). */
  datatype FileContent = JsonText(doc: Json) | Opaque
  datatype FileSystem = FileSystem(files: map<string, FileContent>)

  predicate IsFile(fs: FileSystem, path: string) {
    path in fs.files
  }

  /** A writer: the footprint, the payload file name (`JNull` until a download
      completes) and the source URL inherited from `DataInfoWriter`. */
  datatype ImageDataWriter = ImageDataWriter(bounds: Footprint.Bounds, imageFileName: Json, url: Option<string>)

  /** `ImageDataWriter(bounds)`: no file name yet, no URL. */
  function NewWriter(bounds: Footprint.Bounds): (w: ImageDataWriter)
    ensures w.bounds == bounds && w.imageFileName == JNull && w.url.None?
  {
    ImageDataWriter(bounds, JNull, None)
  }

  /** `ImageDataWriter.toJSON`. The URL is not part of the record. */
  function ToJson(w: ImageDataWriter): Json {
    JObj([("bounds", Footprint.ToJson(w.bounds)), ("imageFileName", w.imageFileName)])
  }

  /** `ImageDataWriter.fromDict`: bounds first, then the file name; the URL
      of the rebuilt writer is unset. */
  function FromDict(d: Json): (r: Result<ImageDataWriter>)
    ensures r.Ok? <==> HasKey(d, "bounds") && Footprint.FromDict(Get(d, "bounds").value).Ok?
                       && HasKey(d, "imageFileName")
    ensures r.Ok? ==> r.value.url.None? && Get(d, "imageFileName") == Ok(r.value.imageFileName)
    ensures r.Ok? ==> Footprint.FromDict(Get(d, "bounds").value) == Ok(r.value.bounds)
  {
    var b :- Get(d, "bounds");
    var bounds :- Footprint.FromDict(b);
    var name :- Get(d, "imageFileName");
    Ok(ImageDataWriter(bounds, name, None))
  }

  /** `fromDict(toJSON(w))` is `w` with its URL dropped. */
  lemma RoundTrip(w: ImageDataWriter)
    ensures FromDict(ToJson(w)) == Ok(w.(url := None))
  {
    var obj := ToJson(w);
    assert "bounds" != "imageFileName";
    LookupLastBinding(obj.fields, 0, "bounds");
    LookupLastBinding(obj.fields, 1, "imageFileName");
    assert Get(obj, "bounds") == Ok(Footprint.ToJson(w.bounds));
    assert Get(obj, "imageFileName") == Ok(w.imageFileName);
    Footprint.RoundTrip(w.bounds);
  }

  /** `writeFileContents`: record the downloaded file name in the writer and
      write its JSON to `dataFilePath` under the download directory. */
  function WriteFileContents(w: ImageDataWriter, fs: FileSystem, dir: string, downloadedFile: string, dataFilePath: string)
    : (ImageDataWriter, FileSystem)
  {
    var w' := w.(imageFileName := JStr(downloadedFile));
    (w', FileSystem(fs.files[Text.PathJoin(dir, dataFilePath) := JsonText(ToJson(w'))]))
  }

  /** Writing the sidecar names the downloaded file in the writer, adds
      exactly the sidecar path to the directory, stores the writer's JSON
      there and leaves every other file as it was. */
  lemma WriteFileContentsEffect(w: ImageDataWriter, fs: FileSystem, dir: string, downloadedFile: string, dataFilePath: string)
    ensures var r := WriteFileContents(w, fs, dir, downloadedFile, dataFilePath);
            && r.0 == w.(imageFileName := JStr(downloadedFile))
            && r.1.files.Keys == fs.files.Keys + {Text.PathJoin(dir, dataFilePath)}
            && r.1.files[Text.PathJoin(dir, dataFilePath)] == JsonText(ToJson(r.0))
            && forall p :: p in fs.files && p != Text.PathJoin(dir, dataFilePath) ==> r.1.files[p] == fs.files[p]
  {
  }

  /** `ExtractImageFileName`: parse the sidecar and return its `imageFileName`
      (None when the key is absent). A file that is not JSON raises a
      ValueError; a document that is not an object ends in a TypeError. */
  function ExtractImageFileName(fs: FileSystem, path: string): (r: Result<Option<Json>>)
    requires IsFile(fs, path)
  {
    match fs.files[path]
    case Opaque => Err(ValueError("Expecting value"))
    case JsonText(doc) =>
      if !doc.JObj? then Err(TypeError("sidecar is not a JSON object"))
      else Ok(Lookup(doc.fields, "imageFileName"))
  }

  /** The file at `path` is a JSON object whose `imageFileName` is a string:
      the only sidecar the check can read without raising. */
  predicate ReadableSidecar(fs: FileSystem, path: string) {
    && IsFile(fs, path)
    && fs.files[path].JsonText?
    && fs.files[path].doc.JObj?
    && Lookup(fs.files[path].doc.fields, "imageFileName").Some?
    && Lookup(fs.files[path].doc.fields, "imageFileName").value.JStr?
  }

  /** The record at `dataFilePath` names a payload file that exists. */
  predicate MarksDownloaded(fs: FileSystem, dir: string, dataFilePath: string) {
    var sidecar := Text.PathJoin(dir, dataFilePath);
    && ReadableSidecar(fs, sidecar)
    && IsFile(fs, Text.PathJoin(dir, Lookup(fs.files[sidecar].doc.fields, "imageFileName").value.s))
  }

  /** `hasDataAlreadyBeenDownloaded`. A missing sidecar means not downloaded.
      A present one must be a JSON object whose `imageFileName` is a string
      (`json.load` raises a ValueError on other text, and `os.path.join` a
      TypeError on None or a number); the answer is whether that payload
      file exists. */
  function HasDataAlreadyBeenDownloaded(fs: FileSystem, dir: string, dataFilePath: string): (r: Result<bool>)
    ensures r == Ok(true) <==> MarksDownloaded(fs, dir, dataFilePath)
    ensures !IsFile(fs, Text.PathJoin(dir, dataFilePath)) ==> r == Ok(false)
    ensures r.Err? <==> IsFile(fs, Text.PathJoin(dir, dataFilePath)) && !ReadableSidecar(fs, Text.PathJoin(dir, dataFilePath))
    ensures IsFile(fs, Text.PathJoin(dir, dataFilePath)) && fs.files[Text.PathJoin(dir, dataFilePath)].Opaque? ==>
              r == Err(ValueError("Expecting value"))
    ensures IsFile(fs, Text.PathJoin(dir, dataFilePath)) && fs.files[Text.PathJoin(dir, dataFilePath)].JsonText? ==>
              (r.Err? <==> !ReadableSidecar(fs, Text.PathJoin(dir, dataFilePath))) && (r.Err? ==> r.error.TypeError?)
  {
    var sidecar := Text.PathJoin(dir, dataFilePath);
    if !IsFile(fs, sidecar) then Ok(false)
    else
      var media :- ExtractImageFileName(fs, sidecar);
      match media
      case Some(JStr(name)) => Ok(IsFile(fs, Text.PathJoin(dir, name)))
      case _ => Err(TypeError("expected str, bytes or os.PathLike object"))
  }

  /** Writing the payload and then the sidecar marks the tile downloaded: the
      sidecar check then answers true. This holds even when both names lead
      to one path, since the sidecar itself is then the file it names. */
  lemma PayloadThenSidecarMarksDownloaded(w: ImageDataWriter, fs: FileSystem, dir: string, fileName: string, dataFilePath: string)
    ensures var withPayload := FileSystem(fs.files[Text.PathJoin(dir, fileName) := Opaque]);
            var written := WriteFileContents(w, withPayload, dir, fileName, dataFilePath);
            HasDataAlreadyBeenDownloaded(written.1, dir, dataFilePath) == Ok(true)
  {
    var withPayload := FileSystem(fs.files[Text.PathJoin(dir, fileName) := Opaque]);
    var written := WriteFileContents(w, withPayload, dir, fileName, dataFilePath);
    var doc := ToJson(written.0);
    assert "bounds" != "imageFileName";
    LookupLastBinding(doc.fields, 1, "imageFileName");
    assert MarksDownloaded(written.1, dir, dataFilePath);
  }
}
