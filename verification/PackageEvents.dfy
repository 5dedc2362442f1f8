/** The owner's package store as a state machine: creation, edits and publish commits, in any order
    the concurrent tool calls produce (packages/server/src/store/PackageState.ts, packages/server/src/packages/). */
module PackageEvents {
  import opened Wrappers
  import opened Manifest

  type FileMap = map<string, string>

  /** The live version: self-contained, and only it ever runs. */
  datatype Snapshot = Snapshot(manifest: PackageManifest, entry: string, files: FileMap, revision: nat,
                               publishedAt: nat)

  datatype Row = Row(createdAt: nat, updatedAt: nat, revision: nat, manifest: PackageManifest,
                     published: Option<Snapshot>)

  datatype FileKey = FileKey(name: string, path: string)

  /** A package's working state at one revision. */
  datatype Working = Working(manifest: PackageManifest, files: FileMap)

  datatype Pin = Pin(name: string, revision: nat)

  type Rows = map<string, Row>

  /** The two tables, and as bookkeeping the working state each revision had and every state that the
      table of packages has been in. */
  datatype World = World(packages: Rows, packageFiles: map<FileKey, string>, history: map<Pin, Working>,
                         moments: seq<Rows>)

  datatype Verdict = Accepted | Refused | Thrown

  datatype State = Draft | Published | Modified

  function EmptyWorld(): World { World(map[], map[], map[], [map[]]) }

  /** The files in the rows of one package. */
  function SelectFiles(rows: map<FileKey, string>, name: string): FileMap {
    map k | k in rows && k.name == name :: k.path := rows[k]
  }

  function FilesOf(w: World, name: string): FileMap { SelectFiles(w.packageFiles, name) }

  function WorkingOf(w: World, name: string): Working
    requires name in w.packages
  {
    Working(w.packages[name].manifest, FilesOf(w, name))
  }

  function StateOf(row: Row): State {
    if row.published.None? then Draft
    else if row.published.value.revision == row.revision then Published else Modified
  }

  function AsMap(files: seq<PackageFile>): (m: FileMap)
    ensures m.Keys == set p | p in Paths(files)
  {
    if files == [] then map[]
    else
      var n := |files| - 1;
      assert Paths(files) == Paths(files[..n]) + [files[n].path];
      AsMap(files[..n])[files[n].path := files[n].content]
  }

  // ---------------------------------------------------------------- the store's operations

  datatype Changes = Changes(summary: Option<string>, exports: Option<seq<Export>>)

  function Merge(m: PackageManifest, c: Changes): PackageManifest {
    PackageManifest(if c.summary.Some? then c.summary.value else m.summary,
                    if c.exports.Some? then c.exports.value else m.exports)
  }

  function Remember(w: World, name: string): World
    requires name in w.packages
  {
    w.(history := w.history[Pin(name, w.packages[name].revision) := WorkingOf(w, name)],
       moments := w.moments + [w.packages])
  }

  /** The rows that inserting files adds. */
  function FileRows(name: string, files: FileMap): map<FileKey, string> {
    map p | p in files :: FileKey(name, p) := files[p]
  }

  function Create(w: World, name: string, manifest: PackageManifest, files: seq<PackageFile>,
                  now: nat): (World, Verdict)
  {
    if name in w.packages then (w, Refused)
    else if !Distinct(Paths(files)) || (exists f :: f in files && FileKey(name, f.path) in w.packageFiles)
    then (w, Thrown)
    else
      (Remember(w.(packages := w.packages[name := Row(now, now, 1, manifest, None)],
                   packageFiles := w.packageFiles + FileRows(name, AsMap(files))), name), Accepted)
  }

  function Touch(w: World, name: string, now: nat): World
    requires name in w.packages
  {
    var row := w.packages[name];
    Remember(w.(packages := w.packages[name := row.(revision := row.revision + 1, updatedAt := now)]), name)
  }

  function EditFile(w: World, name: string, file: PackageFile, now: nat): (World, Verdict) {
    if name !in w.packages then (w, Refused)
    else (Touch(w.(packageFiles := w.packageFiles[FileKey(name, file.path) := file.content]), name, now), Accepted)
  }

  function EditManifest(w: World, name: string, c: Changes, now: nat): (World, Verdict) {
    if name !in w.packages then (w, Refused)
    else
      var row := w.packages[name];
      (Touch(w.(packages := w.packages[name := row.(manifest := Merge(row.manifest, c))]), name, now), Accepted)
  }

  function EntryOf(files: FileMap): Option<string> {
    if "index.ts" in files then Some("index.ts") else if "index.js" in files then Some("index.js") else None
  }

  function CommitPublish(w: World, name: string, checkedRevision: nat, emitted: FileMap, now: nat): (World, Verdict) {
    if name !in w.packages then (w, Refused)
    else
      var row := w.packages[name];
      if row.revision != checkedRevision then (w, Refused)
      else
        var entry := EntryOf(FilesOf(w, name));
        if entry.None? then (w, Refused)
        else
          var snapshot := Snapshot(row.manifest, EmittedPath(entry.value), emitted, row.revision, now);
          var packages := w.packages[name := row.(published := Some(snapshot))];
          (w.(packages := packages, moments := w.moments + [packages]), Accepted)
  }

  // ---------------------------------------------------------------- the checks

  datatype CompileInput = CompileInput(files: FileMap, ambient: FileMap)
  datatype Candidate = Candidate(name: string, entry: string, files: FileMap, exportNames: seq<string>)

  /** The compiler, the isolate and the generated texts. The boot probe answers with the declared
      exports that are missing, or not at all. */
  datatype Env = Env(
    compile: CompileInput -> Option<FileMap>,
    boot: (map<string, Snapshot>, Candidate) -> Option<seq<string>>,
    capabilitiesDts: string, packageDts: PackageManifest -> string, conformance: (string, PackageManifest) -> string)

  function AmbientPath(name: string): string { "/types/packages/" + name + ".d.ts" }

  const CAPABILITIES_PATH := "/types/opti-capabilities.d.ts"

  lemma AmbientPathsDiffer()
    ensures forall n, m :: AmbientPath(n) == AmbientPath(m) ==> n == m
    ensures forall n :: AmbientPath(n) != CAPABILITIES_PATH
  {
    forall n, m | AmbientPath(n) == AmbientPath(m) ensures n == m {
      assert AmbientPath(n)[16..|AmbientPath(n)| - 5] == n && AmbientPath(m)[16..|AmbientPath(m)| - 5] == m;
    }
    forall n ensures AmbientPath(n) != CAPABILITIES_PATH {
      assert AmbientPath(n)[7] == 'p' && CAPABILITIES_PATH[7] == 'o';
    }
  }

  /** Declarations for everything a package may import: the capabilities and the other packages. */
  function Ambient(env: Env, others: map<string, Snapshot>): FileMap {
    AmbientPathsDiffer();
    (map n | n in others :: AmbientPath(n) := env.packageDts(others[n].manifest))
    [CAPABILITIES_PATH := env.capabilitiesDts]
  }

  ghost predicate FileMapOk(files: FileMap) {
    (forall p :: p in files ==> FilePathOk(p)) && ("index.ts" in files <==> "index.js" !in files)
  }

  /** What the compiler gets: every source file, and the conformance check beside them. */
  function CompilerInput(env: Env, source: Working, entry: string, others: map<string, Snapshot>): CompileInput {
    CompileInput(source.files[CHECK_FILE := env.conformance(entry, source.manifest)], Ambient(env, others))
  }

  /** All checks of a publish accept `source`, and `emitted` is what its compilation emitted. */
  ghost predicate ChecksPass(env: Env, name: string, source: Working, others: map<string, Snapshot>, emitted: FileMap) {
    && ManifestOk(source.manifest) && FileMapOk(source.files) && EntryOf(source.files).Some?
    && var entry := EmittedPath(EntryOf(source.files).value);
       var compiled := env.compile(CompilerInput(env, source, entry, others));
    && compiled.Some? && emitted == compiled.value - {EmittedPath(CHECK_FILE)}
    && env.boot(others, Candidate(name, entry, emitted, Names(source.manifest.exports))) == Some([])
  }

  /** The packages that are live beside `name`. */
  function OthersIn(rows: Rows, name: string): map<string, Snapshot> {
    map n | n in rows && rows[n].published.Some? && n != name :: rows[n].published.value
  }

  function LiveOthers(w: World, name: string): map<string, Snapshot> { OthersIn(w.packages, name) }

  /** All checks accept `source` beside what was live when the package had reached `revision`. */
  ghost predicate CheckedBeside(env: Env, name: string, revision: nat, source: Working, rows: Rows, emitted: FileMap) {
    name in rows && revision <= rows[name].revision && ChecksPass(env, name, source, OthersIn(rows, name), emitted)
  }

  // ---------------------------------------------------------------- runs

  datatype Event =
    | CreateEvent(name: string, manifest: PackageManifest, files: seq<PackageFile>, now: nat)
    | FileEvent(name: string, file: PackageFile, now: nat)
    | ManifestEvent(name: string, changes: Changes, now: nat)
    | CommitEvent(name: string, checkedRevision: nat, emitted: FileMap, now: nat)

  function Apply(w: World, e: Event): (World, Verdict) {
    match e
    case CreateEvent(name, manifest, files, now) => Create(w, name, manifest, files, now)
    case FileEvent(name, file, now) => EditFile(w, name, file, now)
    case ManifestEvent(name, changes, now) => EditManifest(w, name, changes, now)
    case CommitEvent(name, revision, emitted, now) => CommitPublish(w, name, revision, emitted, now)
  }

  function Step(w: World, e: Event): World { Apply(w, e).0 }

  /** What the tools check before they call the store. A commit carries the files emitted from the
      working state of the pinned revision, beside the other packages that were live at some moment since. */
  ghost predicate Guarded(env: Env, w: World, e: Event) {
    match e
    case CreateEvent(name, manifest, files, now) => NameOk(name) && FilesOk(files) && ManifestOk(manifest)
    case FileEvent(name, file, now) => FilePathOk(file.path)
    case ManifestEvent(name, c, now) =>
      (c.summary.Some? ==> SummaryOk(c.summary.value)) && (c.exports.Some? ==> ExportsOk(c.exports.value))
    case CommitEvent(name, revision, emitted, now) =>
      Pin(name, revision) in w.history && exists rows ::
        rows in w.moments && CheckedBeside(env, name, revision, w.history[Pin(name, revision)], rows, emitted)
  }

  function Run(w: World, events: seq<Event>): World
    decreases |events|
  {
    if events == [] then w else Run(Step(w, events[0]), events[1..])
  }

  ghost predicate GuardedRun(env: Env, w: World, events: seq<Event>)
    decreases |events|
  {
    events == [] || (Guarded(env, w, events[0]) && GuardedRun(env, Step(w, events[0]), events[1..]))
  }

  // ---------------------------------------------------------------- the invariant

  /** A live version is the manifest, entry and emitted files of one working state that passed, beside
      what was live at a moment when the package was at that revision. */
  ghost predicate SnapshotOk(env: Env, w: World, name: string, s: Snapshot) {
    Pin(name, s.revision) in w.history &&
    var source := w.history[Pin(name, s.revision)];
    && s.manifest == source.manifest
    && EntryOf(source.files).Some? && s.entry == EmittedPath(EntryOf(source.files).value)
    && exists rows: Rows ::
         rows in w.moments && CheckedBeside(env, name, s.revision, source, rows, s.files) &&
         rows[name].revision == s.revision
  }

  /** The present is the last moment, and no moment was ahead of it. */
  ghost predicate MomentsOk(w: World) {
    && w.moments != [] && w.moments[|w.moments| - 1] == w.packages
    && forall rows: Rows, name :: rows in w.moments && name in rows ==>
         name in w.packages && rows[name].revision <= w.packages[name].revision
  }

  ghost predicate RowOk(env: Env, w: World, name: string)
    requires name in w.packages
  {
    var row := w.packages[name];
    && NameOk(name) && row.revision >= 1 && ManifestOk(row.manifest)
    && Pin(name, row.revision) in w.history && w.history[Pin(name, row.revision)] == WorkingOf(w, name)
    && EntryOf(FilesOf(w, name)).Some?
    && (row.published.Some? ==>
          row.published.value.revision <= row.revision && SnapshotOk(env, w, name, row.published.value))
  }

  ghost predicate Inv(env: Env, w: World) {
    && MomentsOk(w)
    && (forall name :: name in w.packages ==> RowOk(env, w, name))
    && (forall pin :: pin in w.history ==> pin.name in w.packages && pin.revision <= w.packages[pin.name].revision)
    && (forall k :: k in w.packageFiles ==> k.name in w.packages && FilePathOk(k.path))
  }

  /** Neither past revisions nor past moments are rewritten. */
  ghost predicate Remembers(w: World, w': World) {
    && (forall pin :: pin in w.history ==> pin in w'.history && w'.history[pin] == w.history[pin])
    && w.moments <= w'.moments
  }

  /** What time does to a store: packages and past revisions stay, revisions of working states and of
      live versions never go down, and a live version changes only by a commit at its own revision. */
  ghost predicate Evolves(w: World, w': World) {
    && Remembers(w, w')
    && (forall name :: name in w.packages ==>
          && name in w'.packages && w.packages[name].revision <= w'.packages[name].revision
          && (w.packages[name].published.Some? ==>
                && w'.packages[name].published.Some?
                && w.packages[name].published.value.revision <= w'.packages[name].published.value.revision))
  }

  lemma SnapshotStays(env: Env, w: World, w': World, name: string, s: Snapshot)
    requires SnapshotOk(env, w, name, s)
    requires Remembers(w, w')
    ensures SnapshotOk(env, w', name, s)
  {
    hide CheckedBeside;
  }

  lemma OtherFilesStay(w: World, w': World, name: string)
    requires forall k: FileKey :: k.name == name ==> (k in w.packageFiles <==> k in w'.packageFiles)
    requires forall k: FileKey :: k.name == name && k in w.packageFiles ==> w.packageFiles[k] == w'.packageFiles[k]
    ensures FilesOf(w, name) == FilesOf(w', name)
  {
  }

  lemma RowStays(env: Env, w: World, w': World, name: string)
    requires name in w.packages && RowOk(env, w, name)
    requires name in w'.packages && w'.packages[name] == w.packages[name] && FilesOf(w, name) == FilesOf(w', name)
    requires Remembers(w, w')
    ensures RowOk(env, w', name)
  {
  }

  /** A step that changes one package's row, files and new revisions keeps the invariant for all. */
  lemma OneRowKeepsInv(env: Env, w: World, w': World, name: string)
    requires Inv(env, w) && name in w'.packages && RowOk(env, w', name)
    requires w'.packages == w.packages[name := w'.packages[name]]
    requires name in w.packages ==> w.packages[name].revision <= w'.packages[name].revision
    requires Remembers(w, w') && w'.moments == w.moments + [w'.packages]
    requires forall pin :: pin in w'.history ==>
      pin in w.history || (pin.name == name && pin.revision <= w'.packages[name].revision)
    requires forall k :: k in w'.packageFiles ==>
      if k.name == name then FilePathOk(k.path) else k in w.packageFiles && w'.packageFiles[k] == w.packageFiles[k]
    requires forall k :: k in w.packageFiles && k.name != name ==> k in w'.packageFiles
    ensures Inv(env, w')
  {
    hide RowOk, FilePathOk, FilesOf;
    forall n | n in w'.packages && n != name ensures RowOk(env, w', n) {
      OtherFilesStay(w, w', n);
      RowStays(env, w, w', n);
    }
  }

  lemma EditedRowOk(env: Env, w: World, w': World, name: string)
    requires name in w.packages && RowOk(env, w, name) && name in w'.packages
    requires Remembers(w, w')
    requires forall k :: k in w.packageFiles ==> k in w'.packageFiles
    requires var row, row' := w.packages[name], w'.packages[name];
      && row'.revision == row.revision + 1 && row'.published == row.published && ManifestOk(row'.manifest)
      && Pin(name, row'.revision) in w'.history && w'.history[Pin(name, row'.revision)] == WorkingOf(w', name)
    ensures RowOk(env, w', name)
  {
    hide SnapshotOk, ManifestOk, FilesOf, NameOk;
    IndexStays(w, w', name);
    if w.packages[name].published.Some? { SnapshotStays(env, w, w', name, w.packages[name].published.value); }
  }

  /** One edit: the new revision gets the new working state, and everything else stays. */
  lemma TouchKeepsInv(env: Env, w: World, name: string, manifest: PackageManifest, packageFiles: map<FileKey, string>,
                      now: nat)
    requires Inv(env, w) && name in w.packages && ManifestOk(manifest)
    requires forall k :: k in w.packageFiles ==> k in packageFiles
    requires forall k :: k in packageFiles ==>
      if k.name == name then FilePathOk(k.path) else k in w.packageFiles && packageFiles[k] == w.packageFiles[k]
    ensures var edited := w.packages[name].(manifest := manifest);
      var w' := Touch(w.(packages := w.packages[name := edited], packageFiles := packageFiles), name, now);
      Inv(env, w') && Evolves(w, w')
  {
    hide RowOk, SnapshotOk, ManifestOk, FilePathOk, FilesOf;
    var edited := w.packages[name].(manifest := manifest);
    var w' := Touch(w.(packages := w.packages[name := edited], packageFiles := packageFiles), name, now);
    assert RowOk(env, w, name);
    PastPins(env, w, name);
    RememberedState(w'.(history := w.history, moments := w.moments), name);
    EditedRowOk(env, w, w', name);
    OneRowKeepsInv(env, w, w', name);
  }

  lemma PastPins(env: Env, w: World, name: string)
    requires Inv(env, w) && name in w.packages
    ensures Pin(name, w.packages[name].revision + 1) !in w.history
  {
    hide RowOk;
  }

  lemma RememberedState(w: World, name: string)
    requires name in w.packages
    ensures Remember(w, name).history[Pin(name, w.packages[name].revision)] == WorkingOf(Remember(w, name), name)
  {
  }

  lemma IndexStays(w: World, w': World, name: string)
    requires EntryOf(FilesOf(w, name)).Some? && forall k :: k in w.packageFiles ==> k in w'.packageFiles
    ensures EntryOf(FilesOf(w', name)).Some?
  {
  }

  lemma FilesAfterInsert(w: World, name: string, files: FileMap)
    requires forall k :: k in w.packageFiles ==> k.name != name
    ensures FilesOf(w.(packageFiles := w.packageFiles + FileRows(name, files)), name) == files
  {
  }

  lemma ListedIndex(files: seq<PackageFile>)
    requires FilesOk(files)
    ensures EntryOf(AsMap(files)).Some? && forall p :: p in AsMap(files) ==> FilePathOk(p)
  {
  }

  lemma NewRowOk(env: Env, w: World, name: string, manifest: PackageManifest, files: seq<PackageFile>, now: nat)
    requires name in w.packages && w.packages[name] == Row(now, now, 1, manifest, None)
    requires NameOk(name) && ManifestOk(manifest) && FilesOk(files) && FilesOf(w, name) == AsMap(files)
    requires Pin(name, 1) in w.history && w.history[Pin(name, 1)] == WorkingOf(w, name)
    ensures RowOk(env, w, name)
  {
  }

  lemma CreateKeepsInv(env: Env, w: World, name: string, manifest: PackageManifest, files: seq<PackageFile>, now: nat)
    requires Inv(env, w) && NameOk(name) && FilesOk(files) && ManifestOk(manifest)
    ensures var (w', v) := Create(w, name, manifest, files, now);
      Inv(env, w') && Evolves(w, w') && (v.Accepted? <==> name !in w.packages)
  {
    hide RowOk, ManifestOk, FilePathOk, FilesOf, NameOk, FilesOk, SnapshotOk, FileRows, AsMap;
    DistinctPaths(files);
    if name !in w.packages {
      var filled := w.(packages := w.packages[name := Row(now, now, 1, manifest, None)],
                       packageFiles := w.packageFiles + FileRows(name, AsMap(files)));
      NewFiles(w, name, files);
      var w' := Remember(filled, name);
      assert Create(w, name, manifest, files, now) == (w', Accepted);
      OtherFilesStay(w.(packageFiles := filled.packageFiles), w', name);
      RememberedState(filled, name);
      NewRowOk(env, w', name, manifest, files, now);
      OneRowKeepsInv(env, w, w', name);
    }
  }

  lemma NewFiles(w: World, name: string, files: seq<PackageFile>)
    requires FilesOk(files) && forall k :: k in w.packageFiles ==> k.name != name
    ensures FilesOf(w.(packageFiles := w.packageFiles + FileRows(name, AsMap(files))), name) == AsMap(files)
    ensures forall k :: k in FileRows(name, AsMap(files)) ==> k.name == name && FilePathOk(k.path)
  {
    hide FilePathOk;
    FilesAfterInsert(w, name, AsMap(files));
    ListedIndex(files);
  }

  lemma DistinctPaths(files: seq<PackageFile>)
    requires FilesOk(files)
    ensures Distinct(Paths(files))
  {
  }

  lemma CommittedRowOk(env: Env, w: World, w': World, name: string, rows: Rows, s: Snapshot)
    requires name in w.packages && RowOk(env, w, name) && w'.history == w.history
    requires FilesOf(w', name) == FilesOf(w, name)
    requires name in w'.packages && w'.packages[name] == w.packages[name].(published := Some(s))
    requires s.manifest == w.packages[name].manifest && s.revision == w.packages[name].revision
    requires EntryOf(FilesOf(w, name)).Some? && s.entry == EmittedPath(EntryOf(FilesOf(w, name)).value)
    requires rows in w'.moments && CheckedBeside(env, name, s.revision, WorkingOf(w, name), rows, s.files)
    requires rows[name].revision == s.revision
    ensures RowOk(env, w', name)
  {
    hide ChecksPass, OthersIn, FilesOf, ManifestOk, NameOk;
  }

  lemma MomentOfRevision(env: Env, w: World, name: string, source: Working, rows: Rows, emitted: FileMap)
    requires MomentsOk(w) && name in w.packages && rows in w.moments
    requires CheckedBeside(env, name, w.packages[name].revision, source, rows, emitted)
    ensures name in rows && rows[name].revision == w.packages[name].revision
  {
    hide ChecksPass, OthersIn;
  }

  /** A guarded commit is accepted exactly when the working state is still at the pinned revision;
      the store's branch for a package without an index file is never taken. */
  lemma CommitKeepsInv(env: Env, w: World, name: string, revision: nat, emitted: FileMap, now: nat)
    requires Inv(env, w) && Guarded(env, w, CommitEvent(name, revision, emitted, now))
    ensures var (w', v) := CommitPublish(w, name, revision, emitted, now);
      && Inv(env, w') && Evolves(w, w') && name in w.packages
      && (v.Accepted? <==> w.packages[name].revision == revision)
  {
    hide RowOk, ChecksPass, FilePathOk, FilesOf, EntryOf, EmittedPath, OthersIn, CheckedBeside;
    assert Pin(name, revision) in w.history;
    CurrentState(env, w, name);
    if w.packages[name].revision == revision {
      var rows :| rows in w.moments &&
        CheckedBeside(env, name, revision, w.history[Pin(name, revision)], rows, emitted);
      MomentOfRevision(env, w, name, w.history[Pin(name, revision)], rows, emitted);
      var w' := CommitPublish(w, name, revision, emitted, now).0;
      OtherFilesStay(w, w', name);
      CommittedRowOk(env, w, w', name, rows, w'.packages[name].published.value);
      OneRowKeepsInv(env, w, w', name);
    }
  }

  lemma CurrentState(env: Env, w: World, name: string)
    requires Inv(env, w) && name in w.packages
    ensures var row := w.packages[name];
      && RowOk(env, w, name) && EntryOf(FilesOf(w, name)).Some?
      && Pin(name, row.revision) in w.history && w.history[Pin(name, row.revision)] == WorkingOf(w, name)
      && (row.published.Some? ==> row.published.value.revision <= row.revision)
  {
  }

  /** Each half of an accepted edit is sound by itself, so the merge is, whatever it is merged into. */
  lemma MergeOk(m: PackageManifest, c: Changes)
    requires ManifestOk(m)
    requires (c.summary.Some? ==> SummaryOk(c.summary.value)) && (c.exports.Some? ==> ExportsOk(c.exports.value))
    ensures ManifestOk(Merge(m, c))
  {
  }

  lemma RowManifest(env: Env, w: World, name: string)
    requires Inv(env, w) && name in w.packages
    ensures ManifestOk(w.packages[name].manifest)
  {
    assert RowOk(env, w, name);
  }

  lemma StepKeepsInv(env: Env, w: World, e: Event)
    requires Inv(env, w) && Guarded(env, w, e)
    ensures Inv(env, Step(w, e)) && Evolves(w, Step(w, e))
  {
    hide Inv, ManifestOk, FilePathOk, FilesOf, Touch, SummaryOk, ExportsOk, ChecksPass, Create, CommitPublish;
    match e {
      case CreateEvent(name, manifest, files, now) => CreateKeepsInv(env, w, name, manifest, files, now);
      case FileEvent(name, file, now) =>
        if name in w.packages {
          RowManifest(env, w, name);
          FilePathsOk(env, w);
          TouchKeepsInv(env, w, name, w.packages[name].manifest,
                        w.packageFiles[FileKey(name, file.path) := file.content], now);
          assert w.packages[name := w.packages[name]] == w.packages;
        }
      case ManifestEvent(name, c, now) =>
        if name in w.packages {
          RowManifest(env, w, name);
          FilePathsOk(env, w);
          MergeOk(w.packages[name].manifest, c);
          TouchKeepsInv(env, w, name, Merge(w.packages[name].manifest, c), w.packageFiles, now);
        }
      case CommitEvent(name, revision, emitted, now) => CommitKeepsInv(env, w, name, revision, emitted, now);
    }
  }

  lemma FilePathsOk(env: Env, w: World)
    requires Inv(env, w)
    ensures forall k :: k in w.packageFiles ==> FilePathOk(k.path)
  {
  }

  lemma EvolvesTransitive(a: World, b: World, c: World)
    requires Evolves(a, b) && Evolves(b, c)
    ensures Evolves(a, c)
  {
  }

  lemma {:induction false} RunKeepsInv(env: Env, w: World, events: seq<Event>)
    requires Inv(env, w) && GuardedRun(env, w, events)
    ensures Inv(env, Run(w, events)) && Evolves(w, Run(w, events))
    decreases |events|
  {
    hide Inv, Evolves, Guarded, Step;
    if events == [] {
      EvolvesReflexive(w);
    } else {
      StepKeepsInv(env, w, events[0]);
      RunKeepsInv(env, Step(w, events[0]), events[1..]);
      EvolvesTransitive(w, Step(w, events[0]), Run(w, events));
    }
  }

  lemma EvolvesReflexive(w: World)
    ensures Evolves(w, w)
  {
  }

  lemma {:induction false} RunConcat(env: Env, w: World, a: seq<Event>, b: seq<Event>)
    ensures Run(w, a + b) == Run(Run(w, a), b)
    ensures GuardedRun(env, w, a + b) <==> GuardedRun(env, w, a) && GuardedRun(env, Run(w, a), b)
    decreases |a|
  {
    hide Guarded, Step;
    if a == [] {
      assert a + b == b;
    } else {
      RunConcat(env, Step(w, a[0]), a[1..], b);
      assert (a + b)[1..] == a[1..] + b;
    }
  }
}
