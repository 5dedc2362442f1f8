/** The package store and the tools that call it, step by step (packages/server/src/store/PackageState.ts,
    packages/server/src/packages/Packages.ts, packages/server/src/packages/Publish.ts).

    Between two calls of the store other tool calls may run. What they do is an argument of each
    tool: any list of guarded events. Every tool is proved to add guarded events only, so that any
    number of tools running at once make a run of `PackageEvents`. */
module PackageTools {
  import opened Wrappers
  import opened Manifest
  import opened PackageEvents
  import opened PackageEffects
  import Lexicographic
  import PublishTheorems

  datatype PublishSource = PublishSource(manifest: PackageManifest, files: seq<PackageFile>, revision: nat)

  datatype Failure =
    | Malformed | NameTaken | NoSuchPackage | NoSuchRun | InvalidPackage(invalid: Invalid)
    | CheckFailed | PublishRaced | StoreThrew

  /** An edit names a file with its content, or some half of the manifest, and not both. */
  predicate WellFormedEdit(path: Option<string>, content: Option<string>, changes: Changes) {
    if changes.summary.Some? || changes.exports.Some? then path.None? && content.None? else path.Some? && content.Some?
  }

  /** The published packages as the store lists them. */
  datatype Live = Live(name: string, snapshot: Snapshot)

  /** The last entry of a list decides what a map of it says. */
  lemma AsMapSnoc(files: seq<PackageFile>, f: PackageFile)
    ensures AsMap(files + [f]) == AsMap(files)[f.path := f.content]
  {
  }

  lemma NoRows(rows: map<FileKey, string>, name: string)
    ensures rows + FileRows(name, AsMap([])) == rows && Distinct(Paths([]))
  {
  }

  lemma RowsOfOneMore(rows: map<FileKey, string>, name: string, m: FileMap, path: string, content: string)
    ensures var now := rows + FileRows(name, m);
      && (FileKey(name, path) in now <==> FileKey(name, path) in rows || path in m)
      && now[FileKey(name, path) := content] == rows + FileRows(name, m[path := content])
  {
  }

  lemma OneMoreRow(rows: map<FileKey, string>, name: string, files: seq<PackageFile>, f: PackageFile)
    ensures var now := rows + FileRows(name, AsMap(files));
      && (FileKey(name, f.path) in now <==> FileKey(name, f.path) in rows || f.path in Paths(files))
      && now[FileKey(name, f.path) := f.content] == rows + FileRows(name, AsMap(files + [f]))
    ensures Distinct(Paths(files + [f])) <==> Distinct(Paths(files)) && f.path !in Paths(files)
  {
    hide AsMap, Distinct, FileRows;
    AsMapSnoc(files, f);
    RowsOfOneMore(rows, name, AsMap(files), f.path, f.content);
    assert Paths(files + [f]) == Paths(files) + [f.path];
    DistinctOneMore(Paths(files), f.path);
  }

  lemma DistinctPrefix(files: seq<PackageFile>, n: nat)
    requires n <= |files| && Distinct(Paths(files))
    ensures Distinct(Paths(files[..n]))
  {
  }

  lemma CheckedAlike(files: seq<PackageFile>)
    requires Distinct(Paths(files))
    ensures FilesOk(files) <==> FileMapOk(AsMap(files))
    ensures EntryFile(Paths(files)) == EntryOf(AsMap(files))
  {
  }

  /** The outcome of all checks of a publish depends on these alone. */
  ghost predicate Passes(env: Env, name: string, source: Working, others: map<string, Snapshot>) {
    exists emitted :: ChecksPass(env, name, source, others, emitted)
  }

  class Owner {
    const env: Env
    var packages: map<string, Row>
    var packageFiles: map<FileKey, string>
    ghost var history: map<Pin, Working>
    ghost var moments: seq<Rows>
    ghost var log: seq<Event>

    ghost function View(): World
      reads this
    {
      World(packages, packageFiles, history, moments)
    }

    /** The store is what a run of guarded events made of an empty one. */
    ghost predicate Valid()
      reads this
    {
      GuardedRun(env, EmptyWorld(), log) && View() == Run(EmptyWorld(), log)
    }

    constructor (env: Env)
      ensures Valid() && this.env == env && View() == EmptyWorld()
    {
      this.env := env;
      packages, packageFiles, history, moments, log := map[], map[], map[], [map[]], [];
    }

    // -------------------------------------------------------------- the store

    method InsertFiles(name: string, files: seq<PackageFile>) returns (ok: bool)
      modifies `packageFiles
      ensures ok <==> Distinct(Paths(files)) && forall f :: f in files ==> FileKey(name, f.path) !in old(packageFiles)
      ensures ok ==> packageFiles == old(packageFiles) + FileRows(name, AsMap(files))
    {
      hide AsMap, FileRows, Distinct;
      NoRows(packageFiles, name);
      for i := 0 to |files|
        invariant packageFiles == old(packageFiles) + FileRows(name, AsMap(files[..i]))
        invariant Distinct(Paths(files[..i]))
        invariant forall j :: 0 <= j < i ==> FileKey(name, files[j].path) !in old(packageFiles)
      {
        var key := FileKey(name, files[i].path);
        assert files[..i + 1] == files[..i] + [files[i]];
        OneMoreRow(old(packageFiles), name, files[..i], files[i]);
        if Distinct(Paths(files)) { DistinctPrefix(files, i + 1); }
        if key in packageFiles { return false; }
        packageFiles := packageFiles[key := files[i].content];
      }
      assert files[..|files|] == files;
      return true;
    }

    /** A transaction: a conflicting insert undoes the rows before it. */
    method CreatePackage(name: string, manifest: PackageManifest, files: seq<PackageFile>, now: nat)
      returns (v: Verdict)
      modifies this
      ensures (View(), v) == Create(old(View()), name, manifest, files, now)
      ensures log == old(log) + [CreateEvent(name, manifest, files, now)]
    {
      hide FilesOf, AsMap, FileRows, Distinct;
      log := log + [CreateEvent(name, manifest, files, now)];
      if name in packages { return Refused; }
      var packagesBefore, filesBefore := packages, packageFiles;
      packages := packages[name := Row(now, now, 1, manifest, None)];
      var ok := InsertFiles(name, files);
      if !ok {
        packages, packageFiles := packagesBefore, filesBefore;
        return Thrown;
      }
      history, moments := Remember(View(), name).history, moments + [packages];
      return Accepted;
    }

    method TouchRow(name: string, now: nat)
      requires name in packages
      modifies this
      ensures View() == Touch(old(View()), name, now) && log == old(log)
    {
      hide FilesOf;
      packages := packages[name := packages[name].(revision := packages[name].revision + 1, updatedAt := now)];
      history, moments := Remember(View(), name).history, moments + [packages];
    }

    method EditPackageFile(name: string, file: PackageFile, now: nat) returns (v: Verdict)
      modifies this
      ensures (View(), v) == EditFile(old(View()), name, file, now) && log == old(log) + [FileEvent(name, file, now)]
    {
      hide Touch;
      log := log + [FileEvent(name, file, now)];
      if name !in packages { return Refused; }
      packageFiles := packageFiles[FileKey(name, file.path) := file.content];
      TouchRow(name, now);
      return Accepted;
    }

    method EditPackageManifest(name: string, changes: Changes, now: nat) returns (v: Verdict)
      modifies this
      ensures (View(), v) == EditManifest(old(View()), name, changes, now)
      ensures log == old(log) + [ManifestEvent(name, changes, now)]
    {
      hide Touch;
      log := log + [ManifestEvent(name, changes, now)];
      if name !in packages { return Refused; }
      var current := packages[name].manifest;
      var next := PackageManifest(if changes.summary.Some? then changes.summary.value else current.summary,
                                  if changes.exports.Some? then changes.exports.value else current.exports);
      packages := packages[name := packages[name].(manifest := next)];
      TouchRow(name, now);
      return Accepted;
    }

    /** The files of a package, ordered by path. */
    method FilesFor(name: string) returns (files: seq<PackageFile>)
      ensures AsMap(files) == FilesOf(View(), name) && Lexicographic.Ascending(Paths(files)) && Distinct(Paths(files))
    {
      hide AsMap, SelectFiles;
      var table := SelectFiles(packageFiles, name);
      var paths := Lexicographic.Sorted(table.Keys);
      files := [];
      for i := 0 to |paths|
        invariant Paths(files) == paths[..i]
        invariant forall p :: p in AsMap(files) ==> p in table && AsMap(files)[p] == table[p]
      {
        assert paths[i] in table;
        AsMapSnoc(files, PackageFile(paths[i], table[paths[i]]));
        files := files + [PackageFile(paths[i], table[paths[i]])];
      }
      assert paths[..|paths|] == paths;
      Lexicographic.AscendingDiffer(paths);
    }

    method ReadSource(name: string) returns (source: Option<PublishSource>)
      ensures source.None? <==> name !in packages
      ensures source.Some? ==>
        && source.value.manifest == packages[name].manifest && source.value.revision == packages[name].revision
        && AsMap(source.value.files) == FilesOf(View(), name) && Distinct(Paths(source.value.files))
    {
      if name !in packages { return None; }
      var files := FilesFor(name);
      return Some(PublishSource(packages[name].manifest, files, packages[name].revision));
    }

    method CommitPublish(name: string, checkedRevision: nat, emitted: FileMap, now: nat) returns (v: Verdict)
      modifies this
      ensures (View(), v) == PackageEvents.CommitPublish(old(View()), name, checkedRevision, emitted, now)
      ensures log == old(log) + [CommitEvent(name, checkedRevision, emitted, now)]
    {
      log := log + [CommitEvent(name, checkedRevision, emitted, now)];
      if name !in packages { return Refused; }
      if packages[name].revision != checkedRevision { return Refused; }
      var files := FilesFor(name);
      CheckedAlike(files);
      var entry := EntryFile(Paths(files));
      if entry.None? { return Refused; }
      var snapshot := Snapshot(packages[name].manifest, EmittedPath(entry.value), emitted, packages[name].revision,
                               now);
      packages := packages[name := packages[name].(published := Some(snapshot))];
      moments := moments + [packages];
      return Accepted;
    }

    /** Every live version, ordered by name. */
    method ListPublished() returns (live: seq<Live>)
      ensures forall i :: 0 <= i < |live| ==>
        live[i].name in packages && packages[live[i].name].published == Some(live[i].snapshot)
      ensures forall n :: n in packages && packages[n].published.Some? ==> Live(n, packages[n].published.value) in live
    {
      var names := Lexicographic.Sorted(set n | n in packages && packages[n].published.Some?);
      live := [];
      for i := 0 to |names|
        invariant forall j :: 0 <= j < |live| ==>
          live[j].name in packages && packages[live[j].name].published == Some(live[j].snapshot)
        invariant forall j :: 0 <= j < i ==>
          (names[j] in packages && packages[names[j]].published.Some? &&
           Live(names[j], packages[names[j]].published.value) in live)
      {
        assert names[i] in names;
        live := live + [Live(names[i], packages[names[i]].published.value)];
      }
      forall n | n in packages && packages[n].published.Some? ensures Live(n, packages[n].published.value) in live {
        assert n in names;
      }
    }

    // -------------------------------------------------------------- what runs in between

    /** Other tool calls get their turn. */
    method Await(events: seq<Event>)
      requires Valid() && GuardedRun(env, View(), events)
      modifies this
      ensures Valid() && View() == Run(old(View()), events) && log == old(log) + events
    {
      hide GuardedRun, Run, Guarded, Create, EditFile, EditManifest, PackageEvents.CommitPublish;
      RunConcat(env, EmptyWorld(), log, events);
      ghost var before := View();
      RunNone(env, before);
      for i := 0 to |events|
        invariant View() == Run(before, events[..i]) && log == old(log) + events[..i]
      {
        RunOneMore(before, events, i);
        var _ := Perform(events[i]);
      }
      assert events[..|events|] == events;
    }

    method Perform(e: Event) returns (v: Verdict)
      modifies this
      ensures (View(), v) == Apply(old(View()), e) && log == old(log) + [e]
    {
      hide Create, EditFile, EditManifest, PackageEvents.CommitPublish;
      match e {
        case CreateEvent(name, manifest, files, now) => v := CreatePackage(name, manifest, files, now);
        case FileEvent(name, file, now) => v := EditPackageFile(name, file, now);
        case ManifestEvent(name, changes, now) => v := EditPackageManifest(name, changes, now);
        case CommitEvent(name, revision, emitted, now) => v := CommitPublish(name, revision, emitted, now);
      }
    }

    // -------------------------------------------------------------- create

    /** One operation of a tool, after it checked what the store relies on. */
    method Guard(e: Event) returns (v: Verdict)
      requires Valid() && Guarded(env, View(), e)
      modifies this
      ensures Valid() && (View(), v) == Apply(old(View()), e) && log == old(log) + [e]
    {
      hide GuardedRun, Run, Guarded, Create, EditFile, EditManifest, PackageEvents.CommitPublish;
      OneEvent(env, View(), e);
      RunConcat(env, EmptyWorld(), log, [e]);
      v := Perform(e);
    }

    /** The files and the manifest that a create request stands for. */
    method Prepare(input: CreateInput) returns (r: Result<(seq<PackageFile>, PackageManifest), Failure>)
      ensures r.Ok? <==> Prepared(input).Some?
      ensures r.Ok? ==> Prepared(input) == Some(r.value)
    {
      match input {
        case FromRun(runId, code, summary, hasSource) =>
          if hasSource { return Err(Malformed); }
          if code.None? { return Err(NoSuchRun); }
          var files := [PackageFile("run.js", code.value), PackageFile("index.js", FROZEN_INDEX)];
          var text := if summary.Some? then summary.value else FrozenSummary(runId);
          return Ok((files, PackageManifest(text, [Export("run", "run(): Promise<unknown>")])));
        case FromSource(files, exports, summary) =>
          if files.None? || exports.None? || summary.None? { return Err(Malformed); }
          return Ok((files.value, PackageManifest(summary.value, exports.value)));
      }
    }

    /** The create action; `before` is what other calls do ahead of the insert. */
    method CreateAction(name: Option<string>, reserved: set<string>, input: CreateInput, before: seq<Event>, now: nat)
      returns (result: Result<string, Failure>)
      requires Valid() && GuardedRun(env, View(), before)
      modifies this
      ensures Valid()
      ensures result.Ok? <==>
        && name.Some? && NameOk(name.value) && name.value !in reserved
        && (match input
            case FromRun(_, code, _, hasSource) => code.Some? && !hasSource
            case FromSource(files, exports, summary) => files.Some? && exports.Some? && summary.Some?)
        && FilesOk(Prepared(input).value.0) && ManifestOk(Prepared(input).value.1)
        && name.value !in Run(old(View()), before).packages
      ensures result.Ok? ==>
        View() == Create(Run(old(View()), before), name.value, Prepared(input).value.1, Prepared(input).value.0, now).0
      // row by row: the given source, or the run's module behind one export
      ensures result.Ok? ==> var met := Run(old(View()), before);
        match input
        case FromRun(runId, code, summary, _) =>
          PackageStored(met, View(), name.value,
                        PackageManifest(if summary.Some? then summary.value
                                        else "Created from run " + runId + "; a frozen first attempt.",
                                        [Export("run", "run(): Promise<unknown>")]),
                        [PackageFile("run.js", code.value),
                         PackageFile("index.js", "export { default as run } from \"./run.js\";\n")], now)
        case FromSource(files, exports, summary) =>
          PackageStored(met, View(), name.value, PackageManifest(summary.value, exports.value), files.value, now)
      ensures result.Err? ==> View() == old(View()) || View() == Run(old(View()), before)
    {
      PreparedFrom(input);
      hide GuardedRun, Run, Create, FilesOk, ManifestOk, Prepared, PackageStored;
      if name.None? { return Err(Malformed); }
      var badName := CheckName(name.value);
      if badName.Some? { return Err(InvalidPackage(badName.value)); }
      if name.value in reserved { return Err(NameTaken); }
      var prepared := Prepare(input);
      if prepared.Err? { return Err(prepared.error); }
      var (files, manifest) := prepared.value;
      var invalid := CheckFiles(files);
      if invalid.None? { invalid := CheckManifest(manifest); }
      if invalid.Some? { return Err(InvalidPackage(invalid.value)); }
      Await(before);
      CreateOutcome(env, View(), log, name.value, manifest, files, now);
      CreationStores(View(), name.value, manifest, files, now);
      var verdict := Guard(CreateEvent(name.value, manifest, files, now));
      if !verdict.Accepted? { return Err(NameTaken); }
      return Ok(name.value);
    }

    // -------------------------------------------------------------- edit

    /** The edit action: one file or the manifest of an existing package, one at a time. `meanwhile` is
        what other calls do before a file is stored, or between reading a manifest and storing it. */
    method EditAction(name: Option<string>, path: Option<string>, content: Option<string>, changes: Changes,
                      meanwhile: seq<Event>, now: nat) returns (result: Result<string, Failure>)
      requires Valid() && GuardedRun(env, View(), meanwhile)
      modifies this
      ensures Valid()
      ensures result.Ok? <==>
        && name.Some? && NameOk(name.value) && WellFormedEdit(path, content, changes)
        && if path.Some? then
             FilePathOk(path.value) && name.value in Run(old(View()), meanwhile).packages
           else
             && name.value in old(packages)
             && var current := old(packages)[name.value].manifest;
                ManifestOk(PackageManifest(if changes.summary.Some? then changes.summary.value else current.summary,
                                           if changes.exports.Some? then changes.exports.value else current.exports))
      ensures result == Err(Malformed) <==>
        name.None? || (NameOk(name.value) && !WellFormedEdit(path, content, changes))
      ensures result.Ok? ==> var met := Run(old(View()), meanwhile);
        View() == if path.Some? then EditFile(met, name.value, PackageFile(path.value, content.value), now).0
                  else EditManifest(met, name.value, changes, now).0
      // row by row
      ensures result.Ok? ==> var met := Run(old(View()), meanwhile);
        if path.Some? then FileStored(met, View(), name.value, path.value, content.value, now)
        else HalvesStored(met, View(), name.value, changes, now)
      ensures result.Err? ==> View() == old(View()) || View() == Run(old(View()), meanwhile)
    {
      hide GuardedRun, Run, Touch, FilePathOk, ManifestOk, NameOk, EditFile, EditManifest, FileStored, HalvesStored;
      if name.None? { return Err(Malformed); }
      var badName := CheckName(name.value);
      if badName.Some? { return Err(InvalidPackage(badName.value)); }
      var editsFile := path.Some? || content.Some?;
      var editsManifest := changes.summary.Some? || changes.exports.Some?;
      if editsFile == editsManifest { return Err(Malformed); }
      if editsFile {
        if path.None? || content.None? { return Err(Malformed); }
        result := EditFileAction(name.value, path.value, content.value, meanwhile, now);
      } else {
        result := EditManifestAction(name.value, changes, meanwhile, now);
      }
    }

    /** The edit action on one file. */
    method EditFileAction(name: string, path: string, content: string, before: seq<Event>, now: nat)
      returns (result: Result<string, Failure>)
      requires Valid() && GuardedRun(env, View(), before)
      modifies this
      ensures Valid()
      ensures result.Ok? <==> FilePathOk(path) && name in Run(old(View()), before).packages
      ensures result.Ok? ==> View() == EditFile(Run(old(View()), before), name, PackageFile(path, content), now).0
      ensures result.Ok? ==> FileStored(Run(old(View()), before), View(), name, path, content, now)
      ensures result.Err? ==> result.error != Malformed && (View() == old(View()) || View() == Run(old(View()), before))
    {
      hide GuardedRun, Run, Touch, FilePathOk, FileStored;
      if !FilePathOk(path) { return Err(InvalidPackage(BadPath(0))); }
      Await(before);
      FileEditStores(View(), name, PackageFile(path, content), now);
      var verdict := Guard(FileEvent(name, PackageFile(path, content), now));
      if !verdict.Accepted? { return Err(NoSuchPackage); }
      return Ok(name);
    }

    /** The edit action on the manifest: the merged manifest is checked, then only the given halves
        are stored, even if `between` changes this very manifest. */
    method EditManifestAction(name: string, changes: Changes, between: seq<Event>, now: nat)
      returns (result: Result<string, Failure>)
      requires Valid() && GuardedRun(env, View(), between)
      modifies this
      ensures Valid()
      ensures result.Ok? <==>
        && name in old(packages)
        && var current := old(packages)[name].manifest;
           ManifestOk(PackageManifest(if changes.summary.Some? then changes.summary.value else current.summary,
                                      if changes.exports.Some? then changes.exports.value else current.exports))
      ensures result.Ok? ==> View() == EditManifest(Run(old(View()), between), name, changes, now).0
      ensures result.Ok? ==> HalvesStored(Run(old(View()), between), View(), name, changes, now)
      ensures result.Err? ==> result.error != Malformed && View() == old(View())
    {
      hide GuardedRun, Run, Touch, ManifestOk, Inv, Evolves, HalvesStored;
      if name !in packages { return Err(NoSuchPackage); }
      var current := packages[name].manifest;
      var merged := PackageManifest(if changes.summary.Some? then changes.summary.value else current.summary,
                                    if changes.exports.Some? then changes.exports.value else current.exports);
      var invalid := CheckManifest(merged);
      if invalid.Some? { return Err(InvalidPackage(invalid.value)); }
      HalvesOk(current, changes);
      StoreOk(env, log);
      RunKeepsInv(env, View(), between);
      PackageStays(View(), Run(View(), between), name);
      Await(between);
      ManifestEditStores(View(), name, changes, now);
      var _ := Guard(ManifestEvent(name, changes, now));
      return Ok(name);
    }

    // -------------------------------------------------------------- publish

    /** The other live versions, and the declarations of what the package may import. */
    method Imports(name: string, live: seq<Live>) returns (others: map<string, Snapshot>, ambient: FileMap)
      requires forall i :: 0 <= i < |live| ==>
        live[i].name in packages && packages[live[i].name].published == Some(live[i].snapshot)
      requires forall n :: n in packages && packages[n].published.Some? ==> Live(n, packages[n].published.value) in live
      ensures others == LiveOthers(View(), name) && ambient == Ambient(env, others)
    {
      hide Ambient, AmbientPath;
      others, ambient := map[], map[CAPABILITIES_PATH := env.capabilitiesDts];
      NoImports(env);
      for i := 0 to |live|
        invariant ambient == Ambient(env, others)
        invariant forall n :: n in others ==> n != name && n in packages && packages[n].published == Some(others[n])
        invariant forall j :: 0 <= j < i && live[j].name != name ==> live[j].name in others
      {
        if live[i].name != name {
          OneMoreImport(env, others, live[i].name, live[i].snapshot);
          others := others[live[i].name := live[i].snapshot];
          ambient := ambient[AmbientPath(live[i].name) := env.packageDts(live[i].snapshot.manifest)];
        }
      }
      forall n | n in LiveOthers(View(), name) ensures n in others {
        assert Live(n, packages[n].published.value) in live;
      }
    }

    /** What is compiled: the conformance check, then every source file; none takes its place. */
    method CompilerFiles(sources: seq<PackageFile>, check: string) returns (files: FileMap)
      requires FilesOk(sources)
      ensures files == AsMap(sources)[CHECK_FILE := check]
    {
      hide AsMap, FilesOk;
      files := map[CHECK_FILE := check];
      CheckFileStays(sources);
      NoFilesYet();
      for i := 0 to |sources|
        invariant files == AsMap(sources[..i])[CHECK_FILE := check]
      {
        assert sources[..i + 1] == sources[..i] + [sources[i]];
        AsMapSnoc(sources[..i], sources[i]);
        files := files[sources[i].path := sources[i].content];
      }
      assert sources[..|sources|] == sources;
    }

    /** All checks, in order, against the pinned source and the other live versions as they were then. */
    method Check(name: string, source: PublishSource, others: map<string, Snapshot>, ambient: FileMap)
      returns (emitted: Option<FileMap>)
      requires Distinct(Paths(source.files)) && FilesOk(source.files) && ManifestOk(source.manifest)
      requires ambient == Ambient(env, others)
      ensures emitted.Some? ==>
        ChecksPass(env, name, Working(source.manifest, AsMap(source.files)), others, emitted.value)
      ensures emitted.None? ==> !Passes(env, name, Working(source.manifest, AsMap(source.files)), others)
    {
      hide AsMap, Ambient, FilesOk, FilePathOk, ManifestOk;
      CheckedAlike(source.files);
      var entry := EntryFile(Paths(source.files));
      assert EntryOf(AsMap(source.files)).Some?;
      var emittedEntry := EmittedPath(entry.value);
      var exportNames := Names(source.manifest.exports);
      var files := CompilerFiles(source.files, env.conformance(emittedEntry, source.manifest));
      var compiled := env.compile(CompileInput(files, ambient));
      if compiled.None? { return None; }
      var all := compiled.value - {EmittedPath(CHECK_FILE)};
      var missing := env.boot(others, Candidate(name, emittedEntry, all, exportNames));
      if missing.None? || |missing.value| > 0 { return None; }
      assert missing == Some([]);
      return Some(all);
    }

    /** The publish action: pin the source, check it, commit. The arguments are what other calls do
        after the pin, while the checks run, and before the commit. */
    method PublishAction(name: string, afterPin: seq<Event>, duringChecks: seq<Event>, now: nat)
      returns (result: Result<seq<string>, Failure>)
      requires Valid() && GuardedRun(env, View(), afterPin) && GuardedRun(env, Run(View(), afterPin), duringChecks)
      modifies this
      ensures Valid()
      ensures result.Ok? <==>
        && name in old(packages)
        && Passes(env, name, old(WorkingOf(View(), name)), LiveOthers(Run(old(View()), afterPin), name))
        && forall e :: e in afterPin + duringChecks ==> !PublishTheorems.Edits(e, name)
      ensures result.Ok? ==>
        && name in packages && StateOf(packages[name]) == Published && packages[name].published.value.publishedAt == now
        && WorkingOf(View(), name) == old(WorkingOf(View(), name))
        && result.value == Names(packages[name].manifest.exports)
        // what is live now is what passed, beside the packages that were live when they were listed
        && ChecksPass(env, name, old(WorkingOf(View(), name)), LiveOthers(Run(old(View()), afterPin), name),
                      packages[name].published.value.files)
        // and nothing but the live version changed
        && VersionStored(Run(old(View()), afterPin + duringChecks), View(), name,
                         packages[name].published.value.files, now)
      ensures result.Err? ==> exists others :: others <= afterPin + duringChecks && View() == Run(old(View()), others)
    {
      hide GuardedRun, Run, ChecksPass, Passes, AsMap, SelectFiles, FilesOk, ManifestOk, FileMapOk, Ambient, Apply,
           OthersIn,
           Guarded, StateOf, PublishTheorems.Edits, VersionStored;
      ghost var before, all := View(), afterPin + duringChecks;
      RunNone(env, before);
      assert [] <= all && afterPin <= all;
      var source := ReadSource(name);
      if source.None? { return Err(NoSuchPackage); }
      ghost var pinned := WorkingOf(before, name);
      var invalid := CheckFiles(source.value.files);
      if invalid.None? { invalid := CheckManifest(source.value.manifest); }
      CheckedAlike(source.value.files);
      if invalid.Some? {
        NotPassing(env, name, pinned, LiveOthers(Run(before, afterPin), name));
        return Err(InvalidPackage(invalid.value));
      }
      Await(afterPin);
      var live := ListPublished();
      var others, ambient := Imports(name, live);
      var emitted := Check(name, source.value, others, ambient);
      RunConcat(env, before, afterPin, duringChecks);
      Await(duringChecks);
      if emitted.None? { return Err(CheckFailed); }
      assert Passes(env, name, pinned, others) by { PassesWith(env, name, pinned, others, emitted.value); }
      assert all[..|afterPin|] == afterPin;
      CommitOutcome(env, before, old(log), all, |afterPin|, name, emitted.value, now);
      var verdict := Guard(CommitEvent(name, source.value.revision, emitted.value, now));
      if !verdict.Accepted? { return Err(PublishRaced); }
      return Ok(Names(source.value.manifest.exports));
    }
  }

  lemma NotPassing(env: Env, name: string, source: Working, others: map<string, Snapshot>)
    requires !ManifestOk(source.manifest) || !FileMapOk(source.files)
    ensures !Passes(env, name, source, others)
  {
  }

  lemma PassesWith(env: Env, name: string, source: Working, others: map<string, Snapshot>, emitted: FileMap)
    requires ChecksPass(env, name, source, others, emitted)
    ensures Passes(env, name, source, others)
  {
    hide ChecksPass;
  }

  /** What the commit of a checked source does, after whatever happened since the pin. */
  lemma CommitOutcome(env: Env, w: World, log: seq<Event>, events: seq<Event>, listed: nat, name: string,
                      emitted: FileMap, now: nat)
    requires GuardedRun(env, EmptyWorld(), log) && w == Run(EmptyWorld(), log) && GuardedRun(env, w, events)
    requires name in w.packages && listed <= |events|
    requires ChecksPass(env, name, WorkingOf(w, name), LiveOthers(Run(w, events[..listed]), name), emitted)
    ensures var e := CommitEvent(name, w.packages[name].revision, emitted, now);
      var (after, v) := Apply(Run(w, events), e);
      && Guarded(env, Run(w, events), e)
      && (v.Accepted? <==> forall e :: e in events ==> !PublishTheorems.Edits(e, name))
      && (!v.Accepted? ==> after == Run(w, events))
      && (v.Accepted? ==> VersionStored(Run(w, events), after, name, emitted, now))
      && (v.Accepted? ==>
            && name in after.packages && StateOf(after.packages[name]) == Published
            && after.packages[name].published.value.publishedAt == now
            && after.packages[name].published.value.files == emitted
            && WorkingOf(after, name) == WorkingOf(w, name))
  {
    hide GuardedRun, Run, ChecksPass, FilesOf, Inv, Evolves, LiveOthers, VersionStored;
    StoreOk(env, log);
    CommitStores(Run(w, events), name, w.packages[name].revision, emitted, now);
    PublishTheorems.CommitMovesUnlessEdited(env, w, events, listed, name, emitted, now);
  }

  const FROZEN_INDEX := "export { default as run } from \"./run.js\";\n"

  function FrozenSummary(runId: string): string { "Created from run " + runId + "; a frozen first attempt." }

  datatype CreateInput =
    | FromRun(runId: string, code: Option<string>, runSummary: Option<string>, hasSource: bool)
    | FromSource(files: Option<seq<PackageFile>>, exports: Option<seq<Export>>, summary: Option<string>)

  /** What a create request creates: the given source, or a run's module behind one export `run`. */
  function Prepared(input: CreateInput): Option<(seq<PackageFile>, PackageManifest)> {
    match input
    case FromRun(runId, code, summary, hasSource) =>
      if hasSource || code.None? then None
      else
        Some(([PackageFile("run.js", code.value), PackageFile("index.js", FROZEN_INDEX)],
              PackageManifest(if summary.Some? then summary.value else FrozenSummary(runId),
                              [Export("run", "run(): Promise<unknown>")])))
    case FromSource(files, exports, summary) =>
      if files.None? || exports.None? || summary.None? then None
      else Some((files.value, PackageManifest(summary.value, exports.value)))
  }

  lemma PreparedFrom(input: CreateInput)
    ensures Prepared(input).Some? <==>
      match input
      case FromRun(_, code, _, hasSource) => code.Some? && !hasSource
      case FromSource(files, exports, summary) => files.Some? && exports.Some? && summary.Some?
    ensures Prepared(input).Some? ==>
      Prepared(input).value ==
      match input
      case FromRun(runId, code, summary, _) =>
        ([PackageFile("run.js", code.value),
          PackageFile("index.js", "export { default as run } from \"./run.js\";\n")],
         PackageManifest(if summary.Some? then summary.value
                         else "Created from run " + runId + "; a frozen first attempt.",
                         [Export("run", "run(): Promise<unknown>")]))
      case FromSource(files, exports, summary) => (files.value, PackageManifest(summary.value, exports.value))
  {
  }

  lemma OneEvent(env: Env, w: World, e: Event)
    requires Guarded(env, w, e)
    ensures GuardedRun(env, w, [e]) && Run(w, [e]) == Step(w, e)
  {
  }

  lemma StoreOk(env: Env, log: seq<Event>)
    requires GuardedRun(env, EmptyWorld(), log)
    ensures Inv(env, Run(EmptyWorld(), log))
  {
    hide GuardedRun, Run;
    PublishTheorems.EmptyWorldOk(env);
    RunKeepsInv(env, EmptyWorld(), log);
  }

  lemma CreateOutcome(env: Env, w: World, log: seq<Event>, name: string, manifest: PackageManifest,
                      files: seq<PackageFile>, now: nat)
    requires GuardedRun(env, EmptyWorld(), log) && w == Run(EmptyWorld(), log)
    requires NameOk(name) && FilesOk(files) && ManifestOk(manifest)
    ensures Guarded(env, w, CreateEvent(name, manifest, files, now))
    ensures Create(w, name, manifest, files, now).1.Accepted? <==> name !in w.packages
    ensures !Create(w, name, manifest, files, now).1.Accepted? ==> Create(w, name, manifest, files, now).0 == w
  {
    hide GuardedRun, Run, Inv, Evolves, FilesOk, ManifestOk, NameOk;
    StoreOk(env, log);
    CreateKeepsInv(env, w, name, manifest, files, now);
  }

  /** A check of the merged manifest is a check of both given halves. */
  lemma HalvesOk(m: PackageManifest, c: Changes)
    requires ManifestOk(Merge(m, c))
    ensures (c.summary.Some? ==> SummaryOk(c.summary.value)) && (c.exports.Some? ==> ExportsOk(c.exports.value))
  {
  }

  lemma PackageStays(w: World, w': World, name: string)
    requires Evolves(w, w') && name in w.packages
    ensures name in w'.packages
  {
  }

  lemma NoImports(env: Env)
    ensures Ambient(env, map[]) == map[CAPABILITIES_PATH := env.capabilitiesDts]
  {
  }

  lemma OneMoreImport(env: Env, others: map<string, Snapshot>, name: string, s: Snapshot)
    ensures Ambient(env, others[name := s]) == Ambient(env, others)[AmbientPath(name) := env.packageDts(s.manifest)]
  {
    hide AmbientPath;
    AmbientPathsDiffer();
  }

  /** No source file can take the place of the conformance check. */
  lemma CheckFileStays(files: seq<PackageFile>)
    requires FilesOk(files)
    ensures forall f :: f in files ==> f.path != CHECK_FILE
  {
    hide FilePathOk;
    CheckFileIsNoPackageFile();
  }

  lemma NoFilesYet()
    ensures AsMap([]) == map[]
  {
  }

  lemma RunNone(env: Env, w: World)
    ensures Run(w, []) == w
  {
  }

  lemma RunOneMore(w: World, events: seq<Event>, i: nat)
    requires i < |events|
    ensures Run(w, events[..i + 1]) == Step(Run(w, events[..i]), events[i])
    ensures events[..i + 1] == events[..i] + [events[i]]
    decreases i
  {
    hide Step;
    if i > 0 {
      RunOneMore(Step(w, events[0]), events[1..], i - 1);
      assert events[1..][..i] == events[..i + 1][1..] && events[1..][..i - 1] == events[..i][1..];
    } else {
      assert events[..1][1..] == [];
    }
  }
}
