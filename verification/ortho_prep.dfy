/** The name and path derivations of `functions/OrthoPrep.py`: which archive
    is unpacked where, which files are read as sidecars and under which key,
    which names the copied image and its info file get, and the entries of
    the final info file. Unpacking, image decoding and resizing, and the
    directory walk of `find_file` are not modelled; the directory listing
    is an input. */
module OrthoPrep {
  import opened Wrappers
  import opened Json
  import opened Text
  import Footprint
  import Sidecar

  const ZIP_EXTENSION := ".zip"
  const FULL_TERRAIN_FILE := "USGS_13_n40w083_20230911.tif"

  /** The outcome of `extractImageDataFile`: the directory it returns, and
      whether the archive is unpacked into it (it is not when the directory
      already exists). */
  datatype Extraction = Extraction(resultPath: string, unpacks: bool)

  /** `extractImageDataFile(ExtractData(path, outputDir))`; `existing` holds
      the paths `os.path.exists` sees. */
  function ExtractImageDataFile(fs: Sidecar.FileSystem, existing: set<string>, path: string, outputDir: string): Result<Extraction> {
    if !Sidecar.IsFile(fs, path) then Err(Raised("File not found"))
    else
      var resultPath := PathJoin(outputDir, StemOf(Basename(path)));
      if EndsWith(path, ZIP_EXTENSION) then Ok(Extraction(resultPath, resultPath !in existing))
      else Err(Raised("File type not supported"))
  }

  /** A missing file raises before its name is looked at; an existing file
      is accepted exactly when its path ends in `.zip`, and is then unpacked
      into the output directory under its basename without extension unless
      that directory already exists. */
  lemma ExtractionRules(fs: Sidecar.FileSystem, existing: set<string>, path: string, outputDir: string)
    ensures var r := ExtractImageDataFile(fs, existing, path, outputDir);
            && (r.Ok? <==> Sidecar.IsFile(fs, path) && EndsWith(path, ZIP_EXTENSION))
            && (!Sidecar.IsFile(fs, path) ==> r == Err(Raised("File not found")))
            && (Sidecar.IsFile(fs, path) && !EndsWith(path, ZIP_EXTENSION) ==> r == Err(Raised("File type not supported")))
            && (r.Ok? ==> && StartsWith(Basename(path), Basename(r.value.resultPath))
                          && r.value.resultPath == PathJoin(outputDir, StemOf(Basename(path)))
                          && (r.value.unpacks <==> r.value.resultPath !in existing))
  {
    var r := ExtractImageDataFile(fs, existing, path, outputDir);
    if r.Ok? {
      var stem := StemOf(Basename(path));
      assert '/' !in stem by {
        assert stem == Basename(path)[..|stem|];
      }
      BasenameOfJoin(outputDir, stem);
    }
  }

  /** An archive `x.zip` in any directory unpacks into `outputDir/x`. */
  lemma ExtractsIntoStem(fs: Sidecar.FileSystem, existing: set<string>, dir: string, x: string, outputDir: string)
    requires '/' !in x && '.' !in x && |x| > 0
    requires Sidecar.IsFile(fs, PathJoin(dir, x + ZIP_EXTENSION))
    ensures var r := ExtractImageDataFile(fs, existing, PathJoin(dir, x + ZIP_EXTENSION), outputDir);
            r.Ok? && r.value.resultPath == PathJoin(outputDir, x)
  {
    StemOfZipName(dir, x);
    ZipPathIsZip(dir, x);
  }

  lemma StemOfZipName(dir: string, x: string)
    requires '/' !in x && '.' !in x && |x| > 0
    ensures StemOf(Basename(PathJoin(dir, x + ZIP_EXTENSION))) == x
  {
    var name := x + ZIP_EXTENSION;
    assert name == x + ['.'] + "zip";
    assert '/' !in name by {
      assert forall k :: |x| <= k < |name| ==> name[k] == ZIP_EXTENSION[k - |x|];
    }
    BasenameOfJoin(dir, name);
    assert !AllDots(x) by {
      assert x[0] != '.';
    }
    StemOfExtension(x, "zip");
  }

  lemma ZipPathIsZip(dir: string, x: string)
    ensures EndsWith(PathJoin(dir, x + ZIP_EXTENSION), ZIP_EXTENSION)
  {
    var name := x + ZIP_EXTENSION;
    JoinEndsWith(dir, name);
    assert EndsWith(name, ZIP_EXTENSION) by {
      assert name[|name| - |ZIP_EXTENSION|..] == ZIP_EXTENSION;
    }
    EndsWithTransitive(PathJoin(dir, name), name, ZIP_EXTENSION);
  }

  /** `extractAll`: every archive, results in input order; the first failing
      archive's exception is the one raised. Every archive is judged against
      the same existing paths. */
  function ExtractAll(fs: Sidecar.FileSystem, existing: set<string>, paths: seq<string>, tmpDir: string): (r: Result<seq<Extraction>>)
    ensures r.Ok? <==> forall k :: 0 <= k < |paths| ==> ExtractImageDataFile(fs, existing, paths[k], tmpDir).Ok?
    ensures r.Ok? ==> |r.value| == |paths|
                      && forall k :: 0 <= k < |paths| ==> r.value[k] == ExtractImageDataFile(fs, existing, paths[k], tmpDir).value
  {
    MapAll(p => ExtractImageDataFile(fs, existing, p, tmpDir), paths)
  }

  /** `gatherCompressedFiles`: the listed names containing `.zip` anywhere,
      joined to the directory, in listing order. */
  function GatherCompressedFiles(inputDir: string, listing: seq<string>): (r: seq<string>)
    ensures |r| <= |listing|
    ensures forall p :: p in r <==> exists f :: f in listing && Contains(f, ZIP_EXTENSION) && p == PathJoin(inputDir, f)
    decreases |listing|
  {
    if |listing| == 0 then []
    else
      assert forall f :: f in listing <==> f == listing[0] || f in listing[1..];
      (if Contains(listing[0], ZIP_EXTENSION) then [PathJoin(inputDir, listing[0])] else [])
        + GatherCompressedFiles(inputDir, listing[1..])
  }

  /** The filter keeps listing order: gathering a concatenation
      concatenates the gathered parts. */
  lemma {:induction false} GatherCompressedFilesAppend(inputDir: string, a: seq<string>, b: seq<string>)
    ensures GatherCompressedFiles(inputDir, a + b) == GatherCompressedFiles(inputDir, a) + GatherCompressedFiles(inputDir, b)
    decreases |a|
  {
    if |a| == 0 {
      assert a + b == b;
    } else {
      var head := if Contains(a[0], ZIP_EXTENSION) then [PathJoin(inputDir, a[0])] else [];
      assert (a + b)[0] == a[0];
      assert (a + b)[1..] == a[1..] + b;
      assert GatherCompressedFiles(inputDir, a + b) == head + GatherCompressedFiles(inputDir, a[1..] + b);
      GatherCompressedFilesAppend(inputDir, a[1..], b);
      assert head + (GatherCompressedFiles(inputDir, a[1..]) + GatherCompressedFiles(inputDir, b))
          == (head + GatherCompressedFiles(inputDir, a[1..])) + GatherCompressedFiles(inputDir, b);
    }
  }

  /** A name is read as a sidecar when, lower-cased, it ends in `.json` or
      `.txt`. */
  predicate IsSidecarName(name: string) {
    EndsWith(Lower(name), ".json") || EndsWith(Lower(name), ".txt")
  }

  /** The sidecar's key: the second `-`-separated segment of the name, after
      a `.txt` suffix (matched case-sensitively) is removed, lower-cased. A
      name without `-` has no second segment. */
  function SidecarKey(name: string): (r: Result<string>)
    ensures r.Ok? <==> '-' in RemoveSuffix(name, ".txt")
    ensures r.Err? ==> r == Err(IndexError("list index out of range"))
    ensures r.Ok? ==> '-' !in r.value
    ensures r.Ok? ==> var stem := RemoveSuffix(name, ".txt");
                      var from := FirstIndex(stem, '-') + 1;
                      var to := from + |r.value|;
                      && to <= |stem| && r.value == Lower(stem[from..to])
                      && (to == |stem| || stem[to] == '-')
  {
    var stem := RemoveSuffix(name, ".txt");
    if '-' !in stem then Err(IndexError("list index out of range"))
    else
      SecondSegment(stem);
      Ok(Lower(Split(stem, '-')[1]))
  }

  /** Text with a `-` splits into at least two segments, the second one
      running from just after the first `-` to the next one or the end. */
  lemma SecondSegment(stem: string)
    requires '-' in stem
    ensures var parts := Split(stem, '-');
            var from := FirstIndex(stem, '-') + 1;
            && |parts| >= 2 && from + |parts[1]| <= |stem|
            && stem[from..from + |parts[1]|] == parts[1]
            && (from + |parts[1]| == |stem| || stem[from + |parts[1]|] == '-')
  {
    var from := FirstIndex(stem, '-') + 1;
    var before := stem[..from - 1];
    var after := stem[from..];
    SplitAround(stem, from - 1);
    SplitAfterPrefix(before, after, '-');
    var seg := Split(after, '-')[0];
    assert Split(stem, '-')[1] == seg;
    FirstSegment(after, '-');
    SliceOfSuffix(stem, from, |seg|);
    assert stem[from..from + |seg|] == after[..|seg|] == seg;
  }

  lemma SplitAround<T>(s: seq<T>, k: nat)
    requires k < |s|
    ensures s == s[..k] + [s[k]] + s[k + 1..]
  {
  }

  lemma SliceOfSuffix<T>(s: seq<T>, from: nat, m: nat)
    requires from + m <= |s|
    ensures s[from..from + m] == s[from..][..m]
    ensures from + m < |s| ==> s[from + m] == s[from..][m]
  {
  }

  /** The first segment of a split is a prefix of the text, ending at the
      first separator or at the end. */
  lemma FirstSegment(t: string, c: char)
    ensures var p := Split(t, c)[0];
            |p| <= |t| && t[..|p|] == p && (|p| == |t| || t[|p|] == c)
  {
    var parts := Split(t, c);
    if |parts| > 1 {
      assert t == parts[0] + [c] + JoinWith(parts[1..], c);
    }
  }

  /** The name the downloader gives a sidecar, `prefix-key.txt`, is read
      back under the lower-cased key. */
  lemma SidecarKeyOfDownloadName(prefix: string, key: string)
    requires '-' !in prefix && '-' !in key
    ensures IsSidecarName(prefix + "-" + key + ".txt")
    ensures SidecarKey(prefix + "-" + key + ".txt") == Ok(Lower(key))
  {
    var stem := prefix + "-" + key;
    var name := stem + ".txt";
    assert name[|name| - 4..] == ".txt";
    assert Lower(name)[|name| - 4..] == ".txt";
    assert RemoveSuffix(name, ".txt") == stem;
    assert stem == prefix + ['-'] + key;
    SplitAfterPrefix(prefix, key, '-');
  }

  /** A `.json` sidecar keeps its extension in the key, since only `.txt`
      is removed before splitting. */
  lemma JsonSidecarKeepsExtension(prefix: string, key: string)
    requires '-' !in prefix && '-' !in key
    ensures IsSidecarName(prefix + "-" + key + ".json")
    ensures SidecarKey(prefix + "-" + key + ".json") == Ok(Lower(key + ".json"))
  {
    var name := prefix + "-" + key + ".json";
    assert IsSidecarName(name) by {
      assert name[|name| - 5..] == ".json";
      var low := Lower(name);
      forall k | |name| - 5 <= k < |name|
        ensures low[k] == name[k]
      {
        assert !('A' <= name[k] <= 'Z');
      }
      assert low[|name| - 5..] == ".json";
    }
    assert RemoveSuffix(name, ".txt") == prefix + ['-'] + (key + ".json") by {
      assert !EndsWith(name, ".txt") by {
        assert name[|name| - 1] == 'n';
      }
      assert name == prefix + ['-'] + (key + ".json");
    }
    assert '-' !in key + ".json";
    SplitAfterPrefix(prefix, key + ".json", '-');
  }

  /** `json.load` followed by `ImageDataWriter.fromDict`; a missing file
      raises, and text that is not JSON is a ValueError. */
  function ReadSidecar(fs: Sidecar.FileSystem, path: string): (r: Result<Sidecar.ImageDataWriter>)
    ensures !Sidecar.IsFile(fs, path) ==> r.Err?
    ensures Sidecar.IsFile(fs, path) && fs.files[path].JsonText? ==> r == Sidecar.FromDict(fs.files[path].doc)
    ensures Sidecar.IsFile(fs, path) && fs.files[path].Opaque? ==> r == Err(ValueError("Expecting value"))
  {
    if path !in fs.files then Err(Raised("No such file or directory"))
    else match fs.files[path]
      case JsonText(doc) => Sidecar.FromDict(doc)
      case Opaque => Err(ValueError("Expecting value"))
  }

  /** The loop of `gatherTerrainInfoFromFiles` from `acc` on: sidecars are
      read in listing order and a later one with the same key replaces an
      earlier one. */
  function Gather(fs: Sidecar.FileSystem, inputDir: string, listing: seq<string>, acc: map<string, Sidecar.ImageDataWriter>): Result<map<string, Sidecar.ImageDataWriter>>
    decreases |listing|
  {
    if |listing| == 0 then Ok(acc)
    else
      var next :- Absorb(fs, inputDir, listing[0], acc);
      Gather(fs, inputDir, listing[1..], next)
  }

  /** One pass of the loop: a sidecar name is keyed and read, and its writer
      stored under the key; any other name is skipped. */
  function Absorb(fs: Sidecar.FileSystem, inputDir: string, name: string, acc: map<string, Sidecar.ImageDataWriter>): Result<map<string, Sidecar.ImageDataWriter>> {
    if IsSidecarName(name) then
      var key :- SidecarKey(name);
      var info :- ReadSidecar(fs, PathJoin(inputDir, name));
      Ok(acc[key := info])
    else Ok(acc)
  }

  /** `gatherTerrainInfoFromFiles`. */
  function GatherTerrainInfo(fs: Sidecar.FileSystem, inputDir: string, listing: seq<string>): Result<map<string, Sidecar.ImageDataWriter>> {
    Gather(fs, inputDir, listing, map[])
  }

  /** One pass adds the name's key when it is a sidecar name, and nothing
      otherwise. The key then holds the writer read from that file, every
      other key keeps its writer, and the pass fails iff the name is a
      sidecar name whose key or file cannot be read. */
  lemma AbsorbKeys(fs: Sidecar.FileSystem, inputDir: string, name: string, acc: map<string, Sidecar.ImageDataWriter>)
    ensures var r := Absorb(fs, inputDir, name, acc);
            r.Ok? ==> forall key :: key in r.value <==> key in acc || (IsSidecarName(name) && SidecarKey(name) == Ok(key))
    ensures var r := Absorb(fs, inputDir, name, acc);
            r.Err? <==> IsSidecarName(name) && (SidecarKey(name).Err? || ReadSidecar(fs, PathJoin(inputDir, name)).Err?)
    ensures var r := Absorb(fs, inputDir, name, acc);
            r.Ok? && IsSidecarName(name) ==> && SidecarKey(name).Ok? && ReadSidecar(fs, PathJoin(inputDir, name)).Ok?
                                             && r.value[SidecarKey(name).value] == ReadSidecar(fs, PathJoin(inputDir, name)).value
    ensures var r := Absorb(fs, inputDir, name, acc);
            r.Ok? ==> forall key :: key in acc && !(IsSidecarName(name) && SidecarKey(name) == Ok(key)) ==> r.value[key] == acc[key]
  {
  }

  /** No listed sidecar name has the key `key`. */
  predicate NoSidecarFor(listing: seq<string>, key: string) {
    forall j :: 0 <= j < |listing| && IsSidecarName(listing[j]) ==> SidecarKey(listing[j]) != Ok(key)
  }

  /** `listing[k]` is a sidecar name and no later sidecar name shares its key. */
  predicate LastSidecarAt(listing: seq<string>, k: nat)
    requires k < |listing|
  {
    && IsSidecarName(listing[k])
    && forall j :: k < j < |listing| && IsSidecarName(listing[j]) ==> SidecarKey(listing[j]) != SidecarKey(listing[k])
  }

  /** A key no listed sidecar name produces keeps the writer it had. */
  lemma {:induction false} GatherKeeps(fs: Sidecar.FileSystem, inputDir: string, listing: seq<string>, acc: map<string, Sidecar.ImageDataWriter>, key: string)
    requires key in acc && NoSidecarFor(listing, key)
    ensures var r := Gather(fs, inputDir, listing, acc);
            r.Ok? ==> key in r.value && r.value[key] == acc[key]
    decreases |listing|
  {
    if |listing| > 0 {
      var next := Absorb(fs, inputDir, listing[0], acc);
      if next.Ok? {
        AbsorbKeys(fs, inputDir, listing[0], acc);
        assert NoSidecarFor(listing[1..], key) by {
          forall j | 0 <= j < |listing[1..]| && IsSidecarName(listing[1..][j])
            ensures SidecarKey(listing[1..][j]) != Ok(key)
          {
            assert listing[1..][j] == listing[j + 1];
          }
        }
        GatherKeeps(fs, inputDir, listing[1..], next.value, key);
      }
    }
  }

  /** Later sidecars replace earlier ones: the key of the last listed
      sidecar with that key holds the writer read from that file. */
  lemma {:induction false} GatherValues(fs: Sidecar.FileSystem, inputDir: string, listing: seq<string>, acc: map<string, Sidecar.ImageDataWriter>, k: nat)
    requires k < |listing| && LastSidecarAt(listing, k)
    ensures var r := Gather(fs, inputDir, listing, acc);
            r.Ok? ==> && SidecarKey(listing[k]).Ok? && ReadSidecar(fs, PathJoin(inputDir, listing[k])).Ok?
                      && SidecarKey(listing[k]).value in r.value
                      && r.value[SidecarKey(listing[k]).value] == ReadSidecar(fs, PathJoin(inputDir, listing[k])).value
    decreases |listing|
  {
    var next := Absorb(fs, inputDir, listing[0], acc);
    GatherUnfold(fs, inputDir, listing, acc);
    if next.Ok? {
      AbsorbKeys(fs, inputDir, listing[0], acc);
      if k == 0 {
        LastSidecarHead(listing);
        GatherKeeps(fs, inputDir, listing[1..], next.value, SidecarKey(listing[0]).value);
      } else {
        LastSidecarTail(listing, k);
        GatherValues(fs, inputDir, listing[1..], next.value, k - 1);
      }
    }
  }

  /** The loop stops at a failing first pass and otherwise carries on from
      the map it produced. */
  lemma GatherUnfold(fs: Sidecar.FileSystem, inputDir: string, listing: seq<string>, acc: map<string, Sidecar.ImageDataWriter>)
    requires |listing| > 0
    ensures var next := Absorb(fs, inputDir, listing[0], acc);
            && (next.Err? ==> Gather(fs, inputDir, listing, acc).Err?)
            && (next.Ok? ==> Gather(fs, inputDir, listing, acc) == Gather(fs, inputDir, listing[1..], next.value))
  {
  }

  lemma LastSidecarHead(listing: seq<string>)
    requires |listing| > 0 && LastSidecarAt(listing, 0) && SidecarKey(listing[0]).Ok?
    ensures NoSidecarFor(listing[1..], SidecarKey(listing[0]).value)
  {
    var rest := listing[1..];
    forall j | 0 <= j < |rest| && IsSidecarName(rest[j])
      ensures SidecarKey(rest[j]) != Ok(SidecarKey(listing[0]).value)
    {
      assert rest[j] == listing[j + 1];
    }
  }

  lemma LastSidecarTail(listing: seq<string>, k: nat)
    requires 0 < k < |listing| && LastSidecarAt(listing, k)
    ensures LastSidecarAt(listing[1..], k - 1) && listing[1..][k - 1] == listing[k]
  {
    var rest := listing[1..];
    forall j | k - 1 < j < |rest| && IsSidecarName(rest[j])
      ensures SidecarKey(rest[j]) != SidecarKey(rest[k - 1])
    {
      assert rest[j] == listing[j + 1];
    }
  }

  /** The loop fails iff some listed sidecar name has no key or cannot be
      read. */
  lemma {:induction false} GatherFails(fs: Sidecar.FileSystem, inputDir: string, listing: seq<string>, acc: map<string, Sidecar.ImageDataWriter>)
    ensures Gather(fs, inputDir, listing, acc).Err? <==>
              exists k :: 0 <= k < |listing| && IsSidecarName(listing[k])
                          && (SidecarKey(listing[k]).Err? || ReadSidecar(fs, PathJoin(inputDir, listing[k])).Err?)
    decreases |listing|
  {
    if |listing| > 0 {
      var next := Absorb(fs, inputDir, listing[0], acc);
      AbsorbKeys(fs, inputDir, listing[0], acc);
      var rest := listing[1..];
      assert forall j :: 0 <= j < |rest| ==> rest[j] == listing[j + 1];
      if next.Ok? {
        GatherFails(fs, inputDir, rest, next.value);
        if Gather(fs, inputDir, listing, acc).Err? {
          var j :| 0 <= j < |rest| && IsSidecarName(rest[j])
                   && (SidecarKey(rest[j]).Err? || ReadSidecar(fs, PathJoin(inputDir, rest[j])).Err?);
          assert listing[j + 1] == rest[j];
        }
      }
    }
  }

  /** The gathered keys are exactly the keys already present and the keys of
      the listed sidecar names. */
  lemma {:induction false} GatherKeys(fs: Sidecar.FileSystem, inputDir: string, listing: seq<string>, acc: map<string, Sidecar.ImageDataWriter>)
    ensures var r := Gather(fs, inputDir, listing, acc);
            r.Ok? ==> forall key :: key in r.value <==>
                        key in acc || exists f :: f in listing && IsSidecarName(f) && SidecarKey(f) == Ok(key)
    decreases |listing|
  {
    if |listing| > 0 {
      var f := listing[0];
      var next := Absorb(fs, inputDir, f, acc);
      if next.Ok? {
        AbsorbKeys(fs, inputDir, f, acc);
        GatherKeys(fs, inputDir, listing[1..], next.value);
        assert forall g :: g in listing <==> g == f || g in listing[1..];
      }
    }
  }

  /** A name that is not a sidecar name is skipped wherever it is listed. */
  lemma {:induction false} NonSidecarIgnored(fs: Sidecar.FileSystem, inputDir: string, before: seq<string>, f: string, after: seq<string>,
                                             acc: map<string, Sidecar.ImageDataWriter>)
    requires !IsSidecarName(f)
    ensures Gather(fs, inputDir, before + [f] + after, acc) == Gather(fs, inputDir, before + after, acc)
    decreases |before|
  {
    if |before| == 0 {
      assert before + [f] + after == [f] + after;
      assert ([f] + after)[1..] == after;
      assert before + after == after;
    } else {
      var g := before[0];
      assert (before + [f] + after)[0] == g && (before + [f] + after)[1..] == before[1..] + [f] + after;
      assert (before + after)[0] == g && (before + after)[1..] == before[1..] + after;
      var next := Absorb(fs, inputDir, g, acc);
      if next.Ok? {
        NonSidecarIgnored(fs, inputDir, before[1..], f, after, next.value);
      }
    }
  }

  /** `file.split('.')[0]` of the extracted directory's basename. */
  function ChunkNameOf(path: string): string {
    Split(Basename(path), '.')[0]
  }

  /** The chunk name is the basename up to its first `.`: a prefix of the
      basename holding neither `.` nor `/`, and the whole basename when it
      has no `.`. */
  lemma ChunkNameShape(path: string)
    ensures var r := ChunkNameOf(path);
            && '.' !in r && '/' !in r
            && StartsWith(Basename(path), r)
            && ('.' !in Basename(path) ==> r == Basename(path))
  {
    var file := Basename(path);
    var parts := Split(file, '.');
    assert file == parts[0] || file == parts[0] + ['.'] + JoinWith(parts[1..], '.');
    assert file[..|parts[0]|] == parts[0];
  }

  /** What `copyOrthoImage` names and writes: the TIF it looks for, the PNG
      it saves, and the info file with the writer whose `toJSON` it holds. */
  datatype Copied = Copied(tifName: string, pngPath: string, infoPath: string, info: Sidecar.ImageDataWriter)

  /** `copyOrthoImage` for chunk `chunkName`. */
  function CopyOrthoImage(outputDir: string, chunkName: string, info: Sidecar.ImageDataWriter): Copied {
    var tifName := Last(Split(chunkName, '_')) + ".tif";
    Copied(tifName, PathJoin(outputDir, chunkName + ".png"), PathJoin(outputDir, chunkName + ".json"), info)
  }

  /** A slash-free name with a `.png` or `.json` extension joined under a
      directory has that name as its basename. */
  lemma ExtensionBasename(d: string, x: string)
    requires '/' !in x
    ensures Basename(PathJoin(d, x + ".png")) == x + ".png"
    ensures Basename(PathJoin(d, x + ".json")) == x + ".json"
  {
    assert '/' !in x + ".png";
    BasenameOfJoin(d, x + ".png");
    assert '/' !in x + ".json";
    BasenameOfJoin(d, x + ".json");
  }

  /** The TIF is named after the text following the chunk name's last `_`;
      both outputs are named after the whole chunk, in the output directory;
      and the info file reads back as the writer without its URL. */
  lemma CopyNames(outputDir: string, chunkName: string, info: Sidecar.ImageDataWriter)
    requires '/' !in chunkName
    ensures var c := CopyOrthoImage(outputDir, chunkName, info);
            && c.tifName == AfterLast(chunkName, '_') + ".tif"
            && Basename(c.pngPath) == chunkName + ".png"
            && Basename(c.infoPath) == chunkName + ".json"
            && Sidecar.FromDict(Sidecar.ToJson(c.info)) == Ok(info.(url := None))
  {
    var c := CopyOrthoImage(outputDir, chunkName, info);
    assert c.tifName == AfterLast(chunkName, '_') + ".tif" by {
      LastSegmentIsAfterLast(chunkName, '_');
    }
    ExtensionBasename(outputDir, chunkName);
    Sidecar.RoundTrip(info);
  }

  /** One pass of the copy loop: the chunk's writer is looked up, then
      copied. */
  function CopyOne(path: string, outputDir: string, nameTo: map<string, Sidecar.ImageDataWriter>): Result<Copied> {
    var chunk := ChunkNameOf(path);
    if chunk !in nameTo then Err(KeyError(chunk))
    else Ok(CopyOrthoImage(outputDir, chunk, nameTo[chunk]))
  }

  /** `copyAllOrthoImages`: each extracted directory's chunk name is looked
      up (a KeyError when it is missing) before anything is copied; the
      copies are in input order. */
  function CopyAllOrthoImages(paths: seq<string>, outputDir: string, nameTo: map<string, Sidecar.ImageDataWriter>): (r: Result<seq<Copied>>)
    ensures r.Ok? <==> forall k :: 0 <= k < |paths| ==> ChunkNameOf(paths[k]) in nameTo
    ensures r.Ok? ==> |r.value| == |paths|
    ensures r.Ok? ==> forall k :: 0 <= k < |paths| ==>
                        r.value[k].pngPath == PathJoin(outputDir, ChunkNameOf(paths[k]) + ".png")
                        && r.value[k].info == nameTo[ChunkNameOf(paths[k])]
  {
    MapAll(p => CopyOne(p, outputDir, nameTo), paths)
  }

  /** The PNG paths `copyAllOrthoImages` returns. */
  function PngPaths(copies: seq<Copied>): (r: seq<string>)
    ensures |r| == |copies| && forall k :: 0 <= k < |copies| ==> r[k] == copies[k].pngPath
  {
    seq(|copies|, k requires 0 <= k < |copies| => copies[k].pngPath)
  }

  /** The key `createInfoFile` looks an image up under. */
  function InfoName(info: string): string {
    RemoveSuffix(Basename(info), ".png")
  }

  /** One image of the info file: its path and its footprint. */
  datatype ImageRecord = ImageRecord(name: string, bounds: Footprint.Bounds)

  /** `{"name": info, "bounds": bounds.toJSON()}`. */
  function EntryJson(rec: ImageRecord): Json {
    JObj([("name", JStr(rec.name)), ("bounds", Footprint.ToJson(rec.bounds))])
  }

  lemma EntryJsonLookups(rec: ImageRecord)
    ensures Get(EntryJson(rec), "name") == Ok(JStr(rec.name))
    ensures Get(EntryJson(rec), "bounds") == Ok(Footprint.ToJson(rec.bounds))
  {
    var e := EntryJson(rec);
    assert e.fields[0].0 == "name" && e.fields[1].0 == "bounds";
    LookupLastBinding(e.fields, 0, "name");
  }

  /** An entry reads back as its image path and its footprint. */
  lemma EntryJsonFields(rec: ImageRecord)
    ensures Get(EntryJson(rec), "name") == Ok(JStr(rec.name))
    ensures Get(EntryJson(rec), "bounds").Ok?
            && Footprint.FromDict(Get(EntryJson(rec), "bounds").value) == Ok(rec.bounds)
  {
    EntryJsonLookups(rec);
    Footprint.RoundTrip(rec.bounds);
  }

  /** One pass of the entry loop: the image's writer is looked up under
      its name. */
  function ImageEntry(info: string, nameTo: map<string, Sidecar.ImageDataWriter>): Result<ImageRecord> {
    var name := InfoName(info);
    if name !in nameTo then Err(KeyError(name))
    else Ok(ImageRecord(info, nameTo[name].bounds))
  }

  /** The image records, one per chunk in input order; a chunk whose name is
      not a key is a KeyError. */
  function ImageEntries(chunkInfos: seq<string>, nameTo: map<string, Sidecar.ImageDataWriter>): (r: Result<seq<ImageRecord>>)
    ensures r.Ok? <==> forall k :: 0 <= k < |chunkInfos| ==> InfoName(chunkInfos[k]) in nameTo
    ensures r.Ok? ==> |r.value| == |chunkInfos|
    ensures r.Ok? ==> forall k :: 0 <= k < |chunkInfos| ==>
                        r.value[k].name == chunkInfos[k] && r.value[k].bounds == nameTo[InfoName(chunkInfos[k])].bounds
  {
    MapAll(info => ImageEntry(info, nameTo), chunkInfos)
  }

  function EntriesJson(recs: seq<ImageRecord>): (r: seq<Json>)
    ensures |r| == |recs| && forall k :: 0 <= k < |recs| ==> r[k] == EntryJson(recs[k])
  {
    seq(|recs|, k requires 0 <= k < |recs| => EntryJson(recs[k]))
  }

  /** `createInfoFile`: the document written to the info file. */
  function CreateInfoFile(chunkInfos: seq<string>, nameTo: map<string, Sidecar.ImageDataWriter>): (r: Result<Json>)
    ensures r.Ok? <==> ImageEntries(chunkInfos, nameTo).Ok?
    ensures r.Ok? ==> Get(r.value, "images") == Ok(JArr(EntriesJson(ImageEntries(chunkInfos, nameTo).value)))
                      && Get(r.value, "full_terrain_file") == Ok(JStr(FULL_TERRAIN_FILE))
  {
    var images :- ImageEntries(chunkInfos, nameTo);
    var doc := JObj([("images", JArr(EntriesJson(images))), ("full_terrain_file", JStr(FULL_TERRAIN_FILE))]);
    assert doc.fields[0].0 == "images" && doc.fields[1].0 == "full_terrain_file";
    LookupLastBinding(doc.fields, 0, "images");
    Ok(doc)
  }

  /** A copied PNG is looked up under its chunk's name. */
  lemma PngInfoName(outputDir: string, chunk: string)
    requires '/' !in chunk
    ensures InfoName(PathJoin(outputDir, chunk + ".png")) == chunk
  {
    var b := chunk + ".png";
    assert '/' !in b by {
      assert forall k :: |chunk| <= k < |b| ==> b[k] == ".png"[k - |chunk|];
    }
    BasenameOfJoin(outputDir, b);
    assert b[|b| - 4..] == ".png";
    assert b[..|b| - 4] == chunk;
  }

  /** The copy stage and the info file agree on names: when every chunk was
      found for copying, every copied PNG is found again by `createInfoFile`,
      whose entries carry each chunk's own footprint, in order. */
  lemma CopiedImagesAreListed(paths: seq<string>, outputDir: string, nameTo: map<string, Sidecar.ImageDataWriter>)
    requires CopyAllOrthoImages(paths, outputDir, nameTo).Ok?
    ensures var pngs := PngPaths(CopyAllOrthoImages(paths, outputDir, nameTo).value);
            var entries := ImageEntries(pngs, nameTo);
            && entries.Ok? && |entries.value| == |paths|
            && forall k :: 0 <= k < |paths| ==>
                 entries.value[k] == ImageRecord(pngs[k], nameTo[ChunkNameOf(paths[k])].bounds)
  {
    var copies := CopyAllOrthoImages(paths, outputDir, nameTo).value;
    var pngs := PngPaths(copies);
    forall k | 0 <= k < |paths|
      ensures InfoName(pngs[k]) == ChunkNameOf(paths[k])
    {
      PngInfoName(outputDir, ChunkNameOf(paths[k]));
    }
  }
}
