/** What each operation of the package store stores, row by row, in terms of the tables that it met
    (packages/server/src/store/PackageState.ts). */
module PackageEffects {
  import opened Wrappers
  import opened Manifest
  import opened PackageEvents

  /** The file is the only row written, whether or not its path was there, and the package is a revision on. */
  ghost predicate FileStored(met: World, w: World, name: string, path: string, content: string, now: nat) {
    && name in met.packages
    && var row := met.packages[name];
    && w.packageFiles == met.packageFiles[FileKey(name, path) := content]
    && w.packages ==
         met.packages[name := Row(row.createdAt, now, row.revision + 1, row.manifest, row.published)]
  }

  /** Each half that was given is stored, a half that was not is what was there, and the package is a
      revision on; no file is touched. */
  ghost predicate HalvesStored(met: World, w: World, name: string, c: Changes, now: nat) {
    && name in met.packages && name in w.packages
    && var row, row' := met.packages[name], w.packages[name];
    && w.packageFiles == met.packageFiles && w.packages == met.packages[name := row']
    && row' == Row(row.createdAt, now, row.revision + 1, row'.manifest, row.published)
    && row'.manifest.summary == (if c.summary.Some? then c.summary.value else row.manifest.summary)
    && row'.manifest.exports == (if c.exports.Some? then c.exports.value else row.manifest.exports)
  }

  /** A new draft at revision 1 with these files and no others; every other row stays. */
  ghost predicate PackageStored(met: World, w: World, name: string, manifest: PackageManifest,
                                files: seq<PackageFile>, now: nat) {
    && name !in met.packages && w.packages == met.packages[name := Row(now, now, 1, manifest, None)]
    && (forall f :: f in files ==>
          FileKey(name, f.path) in w.packageFiles && w.packageFiles[FileKey(name, f.path)] == f.content)
    && (forall k :: k in w.packageFiles ==> k in met.packageFiles || (k.name == name && k.path in Paths(files)))
    && (forall k :: k in met.packageFiles ==> k in w.packageFiles && w.packageFiles[k] == met.packageFiles[k])
  }

  /** The emitted files are live, with the manifest and the revision of the working state and the entry
      that its index file is emitted as; nothing else changes. */
  ghost predicate VersionStored(met: World, w: World, name: string, emitted: FileMap, now: nat) {
    && name in met.packages
    && var row := met.packages[name];
    && w.packageFiles == met.packageFiles
    && w.packages ==
         met.packages[name := Row(row.createdAt, row.updatedAt, row.revision, row.manifest,
                                  Some(Snapshot(row.manifest, "index.js", emitted, row.revision, now)))]
  }

  lemma FileEditStores(w: World, name: string, file: PackageFile, now: nat)
    ensures EditFile(w, name, file, now).1 == if name in w.packages then Accepted else Refused
    ensures name in w.packages ==> FileStored(w, EditFile(w, name, file, now).0, name, file.path, file.content, now)
  {
  }

  lemma ManifestEditStores(w: World, name: string, c: Changes, now: nat)
    ensures EditManifest(w, name, c, now).1 == if name in w.packages then Accepted else Refused
    ensures name in w.packages ==> HalvesStored(w, EditManifest(w, name, c, now).0, name, c, now)
  {
  }

  lemma CreationStores(w: World, name: string, manifest: PackageManifest, files: seq<PackageFile>, now: nat)
    ensures var (w', v) := Create(w, name, manifest, files, now);
      && (v.Accepted? <==>
            && name !in w.packages && Distinct(Paths(files))
            && forall f :: f in files ==> FileKey(name, f.path) !in w.packageFiles)
      && (v.Accepted? ==> PackageStored(w, w', name, manifest, files, now))
      && (!v.Accepted? ==> w' == w && v == if name in w.packages then Refused else Thrown)
  {
    hide AsMap, Distinct, PackageStored, FileRows, FilesOf;
    var (w', v) := Create(w, name, manifest, files, now);
    if v.Accepted? { RowsAreAdded(w, w', name, manifest, files, now); }
  }

  lemma RowsAreAdded(w: World, w': World, name: string, manifest: PackageManifest, files: seq<PackageFile>, now: nat)
    requires name !in w.packages && w'.packages == w.packages[name := Row(now, now, 1, manifest, None)]
    requires Distinct(Paths(files)) && w'.packageFiles == w.packageFiles + FileRows(name, AsMap(files))
    requires forall f :: f in files ==> FileKey(name, f.path) !in w.packageFiles
    ensures PackageStored(w, w', name, manifest, files, now)
  {
    hide AsMap, Distinct;
    AsMapHolds(files);
    RowsAfter(name, AsMap(files));
    hide FileRows;
    forall k | k in FileRows(name, AsMap(files)) ensures k !in w.packageFiles {
      var i :| 0 <= i < |files| && Paths(files)[i] == k.path;
      assert files[i] in files;
    }
  }

  lemma RowsAfter(name: string, files: FileMap)
    ensures forall k :: k in FileRows(name, files) <==> k.name == name && k.path in files
    ensures forall p :: p in files ==> FileRows(name, files)[FileKey(name, p)] == files[p]
  {
  }

  lemma {:induction false} AsMapHolds(files: seq<PackageFile>)
    requires Distinct(Paths(files))
    ensures forall f :: f in files ==> f.path in AsMap(files) && AsMap(files)[f.path] == f.content
    ensures forall p :: p in AsMap(files) ==> p in Paths(files)
  {
    hide Distinct, AsMap;
    if files == [] {
      NoFiles(files);
    } else {
      var n := |files| - 1;
      DistinctUpTo(files, n);
      AsMapHolds(files[..n]);
      LastRow(files);
      forall f | f in files ensures f.path in AsMap(files) && AsMap(files)[f.path] == f.content {
        var i :| 0 <= i < |files| && files[i] == f;
        if i < n { assert files[..n][i] == f; }
      }
    }
  }

  lemma DistinctUpTo(files: seq<PackageFile>, n: nat)
    requires n < |files| && Distinct(Paths(files))
    ensures Distinct(Paths(files[..n])) && forall i :: 0 <= i < n ==> files[i].path != files[n].path
  {
    assert forall i :: 0 <= i < n ==> Paths(files)[i] != Paths(files)[n];
  }

  lemma NoFiles(files: seq<PackageFile>)
    requires files == []
    ensures AsMap(files) == map[]
  {
  }

  lemma LastRow(files: seq<PackageFile>)
    requires files != []
    ensures var n := |files| - 1; AsMap(files) == AsMap(files[..n])[files[n].path := files[n].content]
  {
  }

  lemma CommitStores(w: World, name: string, checkedRevision: nat, emitted: FileMap, now: nat)
    ensures var (w', v) := CommitPublish(w, name, checkedRevision, emitted, now);
      && (v.Accepted? <==>
            && name in w.packages && w.packages[name].revision == checkedRevision
            && (FileKey(name, "index.ts") in w.packageFiles || FileKey(name, "index.js") in w.packageFiles))
      && (v.Accepted? ==> VersionStored(w, w', name, emitted, now))
      && (!v.Accepted? ==> w' == w && v == Refused)
  {
    IndexIsEmitted();
  }

  lemma IndexIsEmitted()
    ensures EmittedPath("index.ts") == "index.js" && EmittedPath("index.js") == "index.js"
  {
    assert "index.ts"[..5] + ".js" == "index.js";
    assert "index.ts"[5..] == ".ts" && "index.js"[5..] == ".js";
  }

  /** The packages whose declarations and live files a publish of `name` is checked beside. */
  lemma OthersAreLive(rows: Rows, name: string)
    ensures forall n :: n in OthersIn(rows, name) <==> n != name && n in rows && rows[n].published.Some?
    ensures forall n :: n in OthersIn(rows, name) ==> rows[n].published == Some(OthersIn(rows, name)[n])
  {
  }

  /** What the checks of a publish are: the manifest and the files obey the rules; the sources with the
      conformance check beside them compile against the declarations of the capabilities and of all other
      live packages, and nothing else; and what that emits, without the check, boots beside the others
      with none of the declared exports missing. */
  lemma ChecksPassExactly(env: Env, name: string, source: Working, others: map<string, Snapshot>, emitted: FileMap)
    ensures ChecksPass(env, name, source, others, emitted) <==>
      && ManifestOk(source.manifest)
      && (forall p :: p in source.files ==> FilePathOk(p))
      && ("index.ts" in source.files <==> "index.js" !in source.files)
      && (exists files, ambient ::
            && Checked(env, source, files) && Declares(env, others, ambient)
            && env.compile(CompileInput(files, ambient)).Some?
            && emitted == env.compile(CompileInput(files, ambient)).value - {"OPTI.check.js"})
      && env.boot(others, Candidate(name, "index.js", emitted, Names(source.manifest.exports))) == Some([])
  {
    hide ManifestOk, FilePathOk, CompilerInput, Checked, Declares, EmittedPath;
    IndexIsEmitted();
    CheckIsEmitted();
    var input := CompilerInput(env, source, "index.js", others);
    InputExactly(env, source, others, input.files, input.ambient);
    forall files, ambient | Checked(env, source, files) && Declares(env, others, ambient)
      ensures CompileInput(files, ambient) == input
    {
      InputExactly(env, source, others, files, ambient);
    }
  }

  lemma InputExactly(env: Env, source: Working, others: map<string, Snapshot>, files: FileMap, ambient: FileMap)
    ensures CompilerInput(env, source, "index.js", others) == CompileInput(files, ambient) <==>
      Checked(env, source, files) && Declares(env, others, ambient)
  {
    hide Declares;
    var input := CompilerInput(env, source, "index.js", others);
    AmbientDeclares(env, others);
    if Checked(env, source, files) { assert files == input.files; }
    if Declares(env, others, ambient) { SameDeclarations(env, others, ambient, input.ambient); }
  }

  lemma AmbientDeclares(env: Env, others: map<string, Snapshot>)
    ensures Declares(env, others, Ambient(env, others))
  {
    AmbientPathsDiffer();
  }

  /** The source files and the conformance check for the entry `index.js`. */
  ghost predicate Checked(env: Env, source: Working, files: FileMap) {
    && (forall p :: p in files <==> p in source.files || p == "OPTI.check.ts")
    && files["OPTI.check.ts"] == env.conformance("index.js", source.manifest)
    && (forall p :: p in source.files && p != "OPTI.check.ts" ==> files[p] == source.files[p])
  }

  /** The declarations of the capabilities and of each of the other packages, each at its own path. */
  ghost predicate Declares(env: Env, others: map<string, Snapshot>, ambient: FileMap) {
    && (forall p :: p in ambient <==>
          p == "/types/opti-capabilities.d.ts" || exists n :: n in others && p == "/types/packages/" + n + ".d.ts")
    && ambient["/types/opti-capabilities.d.ts"] == env.capabilitiesDts
    && (forall n :: n in others ==>
          "/types/packages/" + n + ".d.ts" in ambient &&
          ambient["/types/packages/" + n + ".d.ts"] == env.packageDts(others[n].manifest))
  }

  lemma SameDeclarations(env: Env, others: map<string, Snapshot>, a: FileMap, b: FileMap)
    requires Declares(env, others, a) && Declares(env, others, b)
    ensures a == b
  {
  }

  lemma CheckIsEmitted()
    ensures EmittedPath(CHECK_FILE) == "OPTI.check.js"
  {
    assert "OPTI.check.ts"[..10] + ".js" == "OPTI.check.js" && "OPTI.check.ts"[10..] == ".ts";
  }
}
