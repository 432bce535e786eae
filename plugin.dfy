/** The gulp plugin of `index.js`: it merges the options with the defaults,
    splits the host, archives every incoming file outside the build-output
    directories under `cordova-app/`, counts them, picks the Cordova version
    out of `taco.json`, and on flush runs the remote build and emits the log
    and the extracted artifact files. */
module GulpRemoteBuild {
  import opened Js
  import opened Transport
  import Polling
  import RemoteBuildClient

  /** `DEFAULT_REMOTE_BUILD_OPTIONS`. */
  const DEFAULTS: map<string, JsValue> := map[
    "buildTimeout" := Num(300000),
    "configuration" := Str("debug"),
    "cordovaVersion" := Str("5.1.1"),
    "host" := Str("localhost:3000"),
    "logLevel" := Str("warn"),
    "mount" := Str("cordova"),
    "options" := Str("--device"),
    "pollInterval" := Num(1000)]

  /** `Object.assign({}, DEFAULT_REMOTE_BUILD_OPTIONS, options)`: the user's
      options override the defaults key by key. `None` is an omitted (or
      `null`) argument, which leaves the defaults. */
  function MergeOptions(user: Option<map<string, JsValue>>): (r: map<string, JsValue>)
    ensures user.None? ==> r == DEFAULTS
    ensures user.Some? ==> r.Keys == DEFAULTS.Keys + user.value.Keys
    ensures user.Some? ==> forall k :: k in user.value ==> r[k] == user.value[k]
    ensures forall k :: k in DEFAULTS && (user.None? || k !in user.value) ==> r[k] == DEFAULTS[k]
  {
    match user
    case None => Assign(Assign(map[], DEFAULTS), DEFAULTS)
    case Some(o) => Assign(Assign(map[], DEFAULTS), o)
  }

  /** `url.parse('http://' + host)` for a plain `name[:port]`: the host name
      before the first ':', the port after it, or no port at all. */
  function SplitHost(host: string): (r: (string, Option<string>))
    ensures ':' !in r.0
    ensures r.1.None? <==> ':' !in host
    ensures r.1.None? ==> r.0 == host
    ensures r.1.Some? ==> r.0 + ":" + r.1.value == host
  {
    if host == [] then ("", None)
    else if host[0] == ':' then ("", Some(host[1..]))
    else
      var rest := SplitHost(host[1..]);
      assert host == [host[0]] + host[1..];
      ([host[0]] + rest.0, rest.1)
  }

  /** `options.hostname` and `options.port` set from `options.host`; a
      missing port is `null`. */
  function WithHost(options: map<string, JsValue>): map<string, JsValue>
  {
    var parts := SplitHost(ToStr(Get(options, "host")));
    options["hostname" := Str(parts.0)]["port" := if parts.1.Some? then Str(parts.1.value) else Null]
  }

  /** Splitting the host loses nothing: the host name and the port put
      back together are the host; every other option is unchanged. */
  lemma WithHostSplits(options: map<string, JsValue>)
    ensures var r := WithHost(options); var host := ToStr(Get(options, "host"));
      r.Keys == options.Keys + {"hostname", "port"} &&
      r["hostname"].Str? && ':' !in r["hostname"].s &&
      (r["port"] == Null <==> ':' !in host) &&
      (r["port"] == Null ==> r["hostname"].s == host) &&
      (r["port"] != Null ==> r["port"].Str? && r["hostname"].s + ":" + r["port"].s == host) &&
      forall k :: k in options && k != "hostname" && k != "port" ==> r[k] == options[k]
  {
  }

  /** `relative.replace(/\\/g, '/')`. */
  function ReplaceBackslashes(s: string): (r: string)
    ensures |r| == |s| && '\\' !in r
    ensures forall i :: 0 <= i < |s| ==> r[i] == if s[i] == '\\' then '/' else s[i]
  {
    if s == [] then [] else [if s[0] == '\\' then '/' else s[0]] + ReplaceBackslashes(s[1..])
  }

  /** The archive name of a file: its relative path with `/` separators and
      a trailing `/` for a directory (null) entry. */
  function Filename(relative: string, isNull: bool): (r: string)
    ensures '\\' !in r
    ensures |r| == |relative| + (if isNull then 1 else 0)
    ensures isNull ==> r[|r| - 1] == '/'
    ensures forall i :: 0 <= i < |relative| && relative[i] != '\\' ==> r[i] == relative[i]
  {
    ReplaceBackslashes(relative) + (if isNull then "/" else "")
  }

  /** `filename.split('/')[0]`. */
  function FirstSegment(f: string): (r: string)
    ensures '/' !in r && |r| <= |f| && f[..|r|] == r
    ensures |r| < |f| ==> f[|r|] == '/'
  {
    if f == [] || f[0] == '/' then [] else [f[0]] + FirstSegment(f[1..])
  }

  /** The build-output directories that are never uploaded. */
  predicate Excluded(filename: string) {
    var first := FirstSegment(filename);
    first == "bin" || first == "bld" || first == "platforms"
  }

  /** The file is directory `d` itself or lies below it. */
  predicate IsUnder(filename: string, d: string) {
    filename == d || (|d| < |filename| && filename[..|d| + 1] == d + "/")
  }

  /** The first segment is `d` exactly when the file is `d` or lies below `d`. */
  lemma FirstSegmentIs(f: string, d: string)
    requires '/' !in d
    ensures FirstSegment(f) == d <==> IsUnder(f, d)
  {
    var r := FirstSegment(f);
    if r == d && |d| < |f| {
      assert f[..|d| + 1] == d + "/";
    }
    if IsUnder(f, d) {
      assert forall i :: 0 <= i < |d| ==> f[i] == d[i];
      assert |d| < |f| ==> f[|d|] == '/';
    }
  }

  /** A file is left out exactly when it is `bin`, `bld` or `platforms` or
      lies below one of them; `binaries/` or `www/bin/` are kept. */
  lemma ExcludedIff(filename: string)
    ensures Excluded(filename) <==>
      IsUnder(filename, "bin") || IsUnder(filename, "bld") || IsUnder(filename, "platforms")
  {
    FirstSegmentIs(filename, "bin");
    FirstSegmentIs(filename, "bld");
    FirstSegmentIs(filename, "platforms");
  }

  /** The root folder of every archive entry. */
  const ROOT := "cordova-app/"

  /** An incoming file: `relative`, `isNull()`, `contents` (none for a
      directory), `stat.mtime`, and how `readJSON(file)` settles (reading
      the contents and `JSON.parse` are library code). */
  datatype VinylFile = VinylFile(relative: string, isNull: bool, contents: Option<seq<bv8>>,
                                 mtime: Option<int>, parsed: Settled<JsValue, Error>)

  /** One `tar.append(contents, { name, date })`. */
  datatype ArchiveEntry = ArchiveEntry(name: string, contents: Option<seq<bv8>>, date: Option<int>)

  /** How the transform's callback is called for `taco.json`, given how
      `readJSON` settles: with the read or parse error, or after reading
      `cordova-cli`; never when that read throws (on a `null` document),
      because the handler's own promise is dropped, its rejection unhandled. */
  function TacoCallback(parsed: Settled<JsValue, Error>): Settled<(), Error>
  {
    match parsed
    case Rejected(e) => Rejected(e)
    case Pending => Pending
    case Resolved(json) => if Property(json, "cordova-cli").Resolved? then Resolved(()) else Pending
  }

  /** The Cordova version after reading `taco.json`: `json['cordova-cli']`
      (undefined when absent), or `previous` when nothing was read. */
  function TacoVersion(parsed: Settled<JsValue, Error>, previous: JsValue): JsValue
  {
    if parsed.Resolved? && Property(parsed.value, "cordova-cli").Resolved? then Property(parsed.value, "cordova-cli").value
    else previous
  }

  /** The entry a file adds to the archive, if any. */
  function EntryOf(file: VinylFile): Option<ArchiveEntry>
  {
    var filename := Filename(file.relative, file.isNull);
    if Excluded(filename) then None else Some(ArchiveEntry(ROOT + filename, file.contents, file.mtime))
  }

  /** The archive entries of the files processed so far, in order. */
  function Archived(files: seq<VinylFile>): seq<ArchiveEntry>
  {
    if files == [] then []
    else
      var last := files[|files| - 1];
      Archived(files[..|files| - 1]) + (if EntryOf(last).Some? then [EntryOf(last).value] else [])
  }

  /** Processing one more file appends its entry, if any, to the archive. */
  lemma ArchivedAppend(files: seq<VinylFile>, file: VinylFile)
    ensures Archived(files + [file]) == Archived(files) + (if EntryOf(file).Some? then [EntryOf(file).value] else [])
  {
    assert (files + [file])[..|files|] == files;
  }

  /** The file is `taco.json` at the root of the stream. */
  predicate IsTacoJson(file: VinylFile) {
    Filename(file.relative, file.isNull) == "taco.json"
  }

  /** How many of the files are archived. */
  function IncludedCount(files: seq<VinylFile>): nat
  {
    if files == [] then 0
    else IncludedCount(files[..|files| - 1]) + (if Excluded(Filename(files[|files| - 1].relative, files[|files| - 1].isNull)) then 0 else 1)
  }

  /** Every archived entry lies under `cordova-app/` and names a file outside
      the excluded directories; there is one entry per included file, and
      each included file's entry carries its contents and date. */
  lemma {:induction false} ArchivedEntries(files: seq<VinylFile>)
    ensures |Archived(files)| == IncludedCount(files)
    ensures forall e :: e in Archived(files) ==>
      |ROOT| <= |e.name| && e.name[..|ROOT|] == ROOT && !Excluded(e.name[|ROOT|..])
    ensures forall f :: f in files && !Excluded(Filename(f.relative, f.isNull)) ==>
      ArchiveEntry(ROOT + Filename(f.relative, f.isNull), f.contents, f.mtime) in Archived(files)
  {
    if files != [] {
      var init := files[..|files| - 1];
      var last := files[|files| - 1];
      ArchivedEntries(init);
      assert files == init + [last];
      if EntryOf(last).Some? {
        var name := ROOT + Filename(last.relative, last.isNull);
        assert name[|ROOT|..] == Filename(last.relative, last.isNull);
      }
    }
  }

  /** `options.cordovaVersion = cordovaVersion` in flush, as written: the
      option is overwritten even when no `taco.json` supplied a version. */
  function SetVersion(options: map<string, JsValue>, cordovaVersion: JsValue): map<string, JsValue>
  {
    options["cordovaVersion" := cordovaVersion]
  }

  /** As evidently intended: a version from `taco.json` wins, and without
      one the merged option (by default 5.1.1) is kept. */
  function SetVersionCorrected(options: map<string, JsValue>, cordovaVersion: JsValue): map<string, JsValue>
  {
    if cordovaVersion == Undefined then options else options["cordovaVersion" := cordovaVersion]
  }

  /** Finding, as written: without `taco.json` the build is submitted with
      `vcordova` undefined, although the merged options always hold a
      version (5.1.1 unless the user gave one). */
  lemma VersionDiscarded(options: map<string, JsValue>)
    ensures "cordovaVersion" in MergeOptions(None) && MergeOptions(None)["cordovaVersion"] == Str("5.1.1")
    ensures SubmitRequest(SetVersion(options, Undefined)).query["vcordova"] == Undefined
  {
  }

  /** Corrected: the submitted version is the one from `taco.json` when there
      was one, else the one the options already held. */
  lemma VersionKept(options: map<string, JsValue>, cordovaVersion: JsValue)
    ensures SubmitRequest(SetVersionCorrected(options, cordovaVersion)).query["vcordova"] ==
      if cordovaVersion != Undefined then cordovaVersion else Get(options, "cordovaVersion")
  {
  }

  /** What the stream emits: the build log as `taco.log`, then each file of
      the artifact. */
  datatype Contents = Log(log: Decoded) | Bytes(data: seq<bv8>)
  datatype OutFile = OutFile(path: string, contents: Contents)

  /** A file `decompress` extracted from the artifact. */
  datatype Extracted = Extracted(path: string, data: seq<bv8>)

  /** The emitted files of the extracted ones, in order, each keeping its path. */
  function ExtractedFiles(files: seq<Extracted>): (r: seq<OutFile>)
    ensures |r| == |files|
    ensures forall i :: 0 <= i < |files| ==> r[i] == OutFile(files[i].path, Bytes(files[i].data))
  {
    if files == [] then []
    else ExtractedFiles(files[..|files| - 1]) + [OutFile(files[|files| - 1].path, Bytes(files[|files| - 1].data))]
  }

  /** `new Buffer(buildOutput.log)`: an empty (201) log download is
      `undefined`, which the constructor refuses. */
  function LogBuffer(log: Decoded): Settled<Contents, Error>
  {
    if log.NoContent? then Rejected(InvalidArgument("Buffer")) else Resolved(Log(log))
  }

  /** The files the corrected flush emits for a build settled as `built`. */
  function Emitted(built: Settled<BuildOutput, Error>, decompress: Decoded -> Settled<seq<Extracted>, Error>): seq<OutFile>
  {
    if !built.Resolved? || !LogBuffer(built.value.log).Resolved? then []
    else
      var logFile := OutFile("taco.log", LogBuffer(built.value.log).value);
      var extracted := decompress(built.value.zip);
      [logFile] + (if extracted.Resolved? then ExtractedFiles(extracted.value) else [])
  }

  /** How the corrected flush calls back: with the first failure of the
      build, the log buffer or the extraction, else with success. */
  function FlushDone(built: Settled<BuildOutput, Error>, decompress: Decoded -> Settled<seq<Extracted>, Error>): Settled<(), Error>
  {
    if !built.Resolved? then Propagate(built)
    else if !LogBuffer(built.value.log).Resolved? then Propagate(LogBuffer(built.value.log))
    else if !decompress(built.value.zip).Resolved? then Propagate(decompress(built.value.zip))
    else Resolved(())
  }

  /** The corrected flush emits `taco.log` first, then every extracted file
      in order with its own path; it succeeds exactly when it emitted all of
      them, and emits nothing when the build fails. */
  lemma EmittedOrder(built: Settled<BuildOutput, Error>, decompress: Decoded -> Settled<seq<Extracted>, Error>)
    ensures var out := Emitted(built, decompress);
      |out| > 0 ==> out[0].path == "taco.log" && out[0].contents == Log(built.value.log)
    ensures !built.Resolved? ==> Emitted(built, decompress) == []
    ensures FlushDone(built, decompress) == Resolved(()) <==>
      built.Resolved? && !built.value.log.NoContent? && decompress(built.value.zip).Resolved?
    ensures FlushDone(built, decompress) == Resolved(()) ==>
      var files := decompress(built.value.zip).value; var out := Emitted(built, decompress);
      |out| == |files| + 1 &&
      forall i :: 0 <= i < |files| ==> out[i + 1].path == files[i].path && out[i + 1].contents == Bytes(files[i].data)
  {
    if !built.Resolved? {
      assert Emitted(built, decompress) == [];
      assert FlushDone(built, decompress).Rejected? || FlushDone(built, decompress).Pending?;
    } else if built.value.log.NoContent? {
      assert Emitted(built, decompress) == [];
      assert FlushDone(built, decompress) == Rejected(InvalidArgument("Buffer"));
    } else {
      var extracted := decompress(built.value.zip);
      var head := OutFile("taco.log", Log(built.value.log));
      if extracted.Resolved? {
        var rest := ExtractedFiles(extracted.value);
        assert FlushDone(built, decompress) == Resolved(());
        assert Emitted(built, decompress) == [head] + rest;
      } else {
        assert Emitted(built, decompress) == [head];
        assert FlushDone(built, decompress).Rejected? || FlushDone(built, decompress).Pending?;
      }
    }
  }

  /** The options the plugin factory starts from: every key of the defaults
      and of the user's options, the user's values over the defaults, and
      `hostname` and `port` split out of the merged `host`. */
  lemma ConfiguredOptions(user: Option<map<string, JsValue>>)
    ensures var r := WithHost(MergeOptions(user));
      r.Keys == DEFAULTS.Keys + (if user.Some? then user.value.Keys else {}) + {"hostname", "port"}
    ensures var r := WithHost(MergeOptions(user));
      user.Some? ==> forall k :: k in user.value && k != "hostname" && k != "port" ==> r[k] == user.value[k]
    ensures var r := WithHost(MergeOptions(user));
      forall k :: k in DEFAULTS && (user.None? || k !in user.value) && k != "hostname" && k != "port" ==> r[k] == DEFAULTS[k]
    ensures var r := WithHost(MergeOptions(user)); var host := ToStr(Get(r, "host"));
      r["hostname"].Str? && ':' !in r["hostname"].s &&
      (r["port"] == Null <==> ':' !in host) &&
      (r["port"] == Null ==> r["hostname"].s == host) &&
      (r["port"] != Null ==> r["port"].Str? && r["hostname"].s + ":" + r["port"].s == host)
  {
    WithHostSplits(MergeOptions(user));
  }

  /** The options the plugin factory starts from, computed outside the
      constructor; `ConfiguredOptions` states what they hold. */
  method Configure(user: Option<map<string, JsValue>>) returns (r: map<string, JsValue>)
    ensures r == WithHost(MergeOptions(user))
  {
    r := WithHost(MergeOptions(user));
  }

  /** The plugin's state across the stream: the options, the archive being
      written, the count of archived files, the version read from
      `taco.json`, and what it has pushed downstream. `seen` is every file
      the transform has been given. */
  class Plugin {
    var options: map<string, JsValue>
    var tar: seq<ArchiveEntry>
    var finalized: bool
    var filesCompressed: nat
    var cordovaVersion: JsValue
    var pushed: seq<OutFile>
    ghost var seen: seq<VinylFile>

    /** `filesCompressed` counts the entries of the archive. */
    ghost predicate Valid()
      reads this
    {
      filesCompressed == |tar|
    }

    /** Every file the transform archived is counted: with the archive
        built from the files seen so far, the count is the number of those
        files the filter lets through. */
    lemma CountsIncluded()
      requires Valid() && tar == Archived(seen)
      ensures filesCompressed == IncludedCount(seen)
    {
      ArchivedEntries(seen);
    }

    /** The plugin factory: merged options with host name and port. */
    constructor(user: Option<map<string, JsValue>>)
      ensures Valid() && tar == []
      ensures options == WithHost(MergeOptions(user))
      ensures seen == [] && !finalized && cordovaVersion == Undefined && pushed == []
    {
      var configured := Configure(user);
      options := configured;
      tar := [];
      finalized := false;
      filesCompressed := 0;
      cordovaVersion := Undefined;
      pushed := [];
      seen := [];
    }

    /** The transform of one file: archive it unless excluded, then read the
        Cordova version when it is `taco.json`. The result is how the
        transform's callback is called: never, when the handler that reads
        `cordova-cli` throws, because that handler's own promise is dropped. */
    method Transform(file: VinylFile) returns (done: Settled<(), Error>)
      requires Valid()
      modifies this
      ensures Valid() && seen == old(seen) + [file]
      ensures old(tar) == Archived(old(seen)) ==> tar == Archived(seen)
      ensures tar == old(tar) + (if EntryOf(file).Some? then [EntryOf(file).value] else [])
      ensures filesCompressed == old(filesCompressed) + (if EntryOf(file).Some? then 1 else 0)
      ensures IsTacoJson(file) ==> cordovaVersion == TacoVersion(file.parsed, old(cordovaVersion)) && done == TacoCallback(file.parsed)
      ensures !IsTacoJson(file) ==> cordovaVersion == old(cordovaVersion) && done == Resolved(())
      ensures options == old(options) && pushed == old(pushed) && finalized == old(finalized)
    {
      Archive(file);
      done := ReadTacoJson(file);
    }

    /** The first half of the transform: `tar.append` and `filesCompressed++`
        for a file outside the excluded directories. */
    method Archive(file: VinylFile)
      requires Valid()
      modifies this`tar, this`filesCompressed, this`seen
      ensures Valid() && seen == old(seen) + [file]
      ensures old(tar) == Archived(old(seen)) ==> tar == Archived(seen)
      ensures tar == old(tar) + (if EntryOf(file).Some? then [EntryOf(file).value] else [])
      ensures filesCompressed == old(filesCompressed) + (if EntryOf(file).Some? then 1 else 0)
    {
      var entry := EntryOf(file);
      ArchivedAppend(seen, file);
      seen := seen + [file];
      if entry.Some? {
        tar := tar + [entry.value];
        filesCompressed := filesCompressed + 1;
      }
    }

    /** The second half of the transform: for `taco.json`, whether archived
        or not, `readJSON(file)` and `cordovaVersion = json['cordova-cli']`. */
    method ReadTacoJson(file: VinylFile) returns (done: Settled<(), Error>)
      modifies this`cordovaVersion
      ensures IsTacoJson(file) ==> cordovaVersion == TacoVersion(file.parsed, old(cordovaVersion)) && done == TacoCallback(file.parsed)
      ensures !IsTacoJson(file) ==> cordovaVersion == old(cordovaVersion) && done == Resolved(())
    {
      done := Resolved(());
      if IsTacoJson(file) {
        match file.parsed
        case Rejected(e) =>
          done := Rejected(e);
        case Pending =>
          done := Pending;
        case Resolved(json) =>
          var version := Property(json, "cordova-cli");
          if version.Resolved? {
            cordovaVersion := version.value;
          } else {
            done := Pending;
          }
      }
    }

    /** The flush as written: finalize the archive, store the version in the
        options, then call `client.buildWorkflow` on a `RemoteBuildClient`,
        which has no such method, so the callback gets a TypeError and
        nothing is sent or pushed. */
    method Flush() returns (done: Settled<(), Error>)
      requires Valid()
      modifies this
      ensures Valid() && finalized
      ensures options == SetVersion(old(options), old(cordovaVersion))
      ensures done == Rejected(NotAFunction("buildWorkflow"))
      ensures pushed == old(pushed) && tar == old(tar) && seen == old(seen)
      ensures filesCompressed == old(filesCompressed) && cordovaVersion == old(cordovaVersion)
    {
      finalized := true;
      options := SetVersion(options, cordovaVersion);
      done := Rejected(NotAFunction("buildWorkflow"));
    }

    /** The flush as evidently intended, with both corrections applied:
        `client.build(tar)` in place of the missing `buildWorkflow`, which
        resolves with `{ zip, log }`, then push `taco.log` and each extracted
        file; and the version stored only when `taco.json` gave one
        (`SetVersionCorrected` in place of `SetVersion`, see `VersionKept`). */
    method FlushCorrected(clock: int -> int, net: RemoteBuildClient.Network,
                          decompress: Decoded -> Settled<seq<Extracted>, Error>)
      returns (done: Settled<(), Error>, requests: seq<Request>)
      requires Valid()
      modifies this`finalized, this`options, this`pushed
      ensures Valid() && finalized
      ensures options == SetVersionCorrected(old(options), old(cordovaVersion))
      ensures var run := RemoteBuildClient.BuildOf(options, clock, net);
        requests == run.requests &&
        pushed == old(pushed) + Emitted(run.result, decompress) &&
        done == FlushDone(run.result, decompress)
      ensures tar == old(tar) && seen == old(seen)
      ensures filesCompressed == old(filesCompressed) && cordovaVersion == old(cordovaVersion)
    {
      finalized := true;
      options := SetVersionCorrected(options, cordovaVersion);
      var run := RemoteBuildClient.Build(options, clock, net);
      requests := run.requests;
      done := Emit(run.result, decompress);
    }

    /** The `.then` chain after the build in flush: push `taco.log`, then
        decompress the artifact and push each extracted file in order. */
    method Emit(built: Settled<BuildOutput, Error>, decompress: Decoded -> Settled<seq<Extracted>, Error>)
      returns (done: Settled<(), Error>)
      modifies this`pushed
      ensures pushed == old(pushed) + Emitted(built, decompress)
      ensures done == FlushDone(built, decompress)
    {
      if !built.Resolved? {
        return Propagate(built);
      }
      var output := built.value;
      var logFile := LogBuffer(output.log);
      if !logFile.Resolved? {
        return Propagate(logFile);
      }
      pushed := pushed + [OutFile("taco.log", logFile.value)];
      var extracted := decompress(output.zip);
      if !extracted.Resolved? {
        return Propagate(extracted);
      }
      var files := extracted.value;
      ghost var before := pushed;
      var i := 0;
      while i < |files|
        invariant 0 <= i <= |files|
        invariant pushed == before + ExtractedFiles(files[..i])
      {
        assert files[..i + 1][..i] == files[..i];
        pushed := pushed + [OutFile(files[i].path, Bytes(files[i].data))];
        i := i + 1;
      }
      assert files[..i] == files;
      done := Resolved(());
    }
  }
}
