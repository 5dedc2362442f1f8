/** What every interleaving of creations, edits and publishes guarantees
    (packages/server/src/store/PackageState.ts, packages/server/src/packages/Publish.ts). */
module PublishTheorems {
  import opened Wrappers
  import opened Manifest
  import opened Texts
  import opened PackageEvents

  lemma EmptyWorldOk(env: Env)
    ensures Inv(env, EmptyWorld())
  {
  }

  /** Every live version in every run is exactly the manifest, entry and emitted files of one source
      that passed all checks, beside the packages that were live together at one moment of the run, when
      that source was the package's working state at the revision the version names. */
  lemma PublishedWasChecked(env: Env, events: seq<Event>, name: string)
    requires GuardedRun(env, EmptyWorld(), events)
    requires name in Run(EmptyWorld(), events).packages && Run(EmptyWorld(), events).packages[name].published.Some?
    ensures var live := Run(EmptyWorld(), events).packages[name].published.value;
      exists n :: 0 <= n <= |events| && PublishedFrom(env, name, Run(EmptyWorld(), events[..n]), live)
  {
    hide ChecksPass, FilesOf, ManifestOk, GuardedRun, Run, Inv;
    EmptyWorldOk(env);
    RunKeepsInv(env, EmptyWorld(), events);
    var w := Run(EmptyWorld(), events);
    CurrentState(env, w, name);
    var live := w.packages[name].published.value;
    var rows: Rows :| rows in w.moments &&
      CheckedBeside(env, name, live.revision, w.history[Pin(name, live.revision)], rows, live.files) &&
      rows[name].revision == live.revision;
    var n := MomentHappened(env, events, rows);
    var past := Run(EmptyWorld(), events[..n]);
    PastState(env, events, n, name);
    assert PublishedFrom(env, name, past, live);
  }

  /** The version is made from this very state of the store. */
  ghost predicate PublishedFrom(env: Env, name: string, w: World, live: Snapshot) {
    && name in w.packages && w.packages[name].revision == live.revision
    && w.packages[name].manifest == live.manifest
    && EntryOf(FilesOf(w, name)).Some? && live.entry == EmittedPath(EntryOf(FilesOf(w, name)).value)
    && ChecksPass(env, name, WorkingOf(w, name), LiveOthers(w, name), live.files)
  }

  lemma StepAddsItsMoment(w: World, e: Event)
    ensures Step(w, e).moments == w.moments || Step(w, e).moments == w.moments + [Step(w, e).packages]
  {
    hide FilesOf, EntryOf;
  }

  lemma RunSnoc(env: Env, w: World, events: seq<Event>)
    requires events != []
    ensures Run(w, events) == Step(Run(w, events[..|events| - 1]), events[|events| - 1])
  {
    hide Step;
    var n := |events| - 1;
    RunConcat(env, w, events[..n], [events[n]]);
    assert events == events[..n] + [events[n]] && [events[n]][1..] == [];
    assert Run(Run(w, events[..n]), [events[n]]) == Step(Run(w, events[..n]), events[n]);
  }

  /** Every moment in the bookkeeping is a state that the run went through. */
  lemma {:induction false} MomentHappened(env: Env, events: seq<Event>, rows: Rows) returns (n: nat)
    requires rows in Run(EmptyWorld(), events).moments
    ensures n <= |events| && Run(EmptyWorld(), events[..n]).packages == rows
    decreases |events|
  {
    hide Step;
    if events == [] {
      n := 0;
    } else {
      var last := |events| - 1;
      RunSnoc(env, EmptyWorld(), events);
      StepAddsItsMoment(Run(EmptyWorld(), events[..last]), events[last]);
      if rows in Run(EmptyWorld(), events[..last]).moments {
        n := MomentHappened(env, events[..last], rows);
        assert events[..last][..n] == events[..n];
      } else {
        n := |events|;
        assert events[..n] == events;
      }
    }
  }

  /** What the run's end remembers of an earlier state is what that state was. */
  lemma PastState(env: Env, events: seq<Event>, n: nat, name: string)
    requires GuardedRun(env, EmptyWorld(), events) && n <= |events| && name in Run(EmptyWorld(), events[..n]).packages
    ensures var w, past := Run(EmptyWorld(), events), Run(EmptyWorld(), events[..n]);
      var pin := Pin(name, past.packages[name].revision);
      && pin in w.history && w.history[pin] == WorkingOf(past, name)
  {
    hide Inv, GuardedRun, Run, FilesOf;
    EmptyWorldOk(env);
    assert events == events[..n] + events[n..];
    RunConcat(env, EmptyWorld(), events[..n], events[n..]);
    RunKeepsInv(env, EmptyWorld(), events[..n]);
    var past := Run(EmptyWorld(), events[..n]);
    CurrentState(env, past, name);
    RunKeepsInv(env, past, events[n..]);
    HistoryStays(past, Run(EmptyWorld(), events));
  }

  /** A package once live stays live, at a revision that never goes down, and no revision's working
      state is ever rewritten. */
  lemma LiveVersionsNeverGoBack(env: Env, w: World, events: seq<Event>, name: string)
    requires Inv(env, w) && GuardedRun(env, w, events) && name in w.packages && w.packages[name].published.Some?
    ensures var row, row' := w.packages[name], Run(w, events).packages;
      name in row' && row'[name].published.Some? && row.published.value.revision <= row'[name].published.value.revision
    ensures forall pin :: pin in w.history ==>
      pin in Run(w, events).history && Run(w, events).history[pin] == w.history[pin]
  {
    hide Inv, GuardedRun, Run;
    RunKeepsInv(env, w, events);
  }

  /** An operation that is refused, or throws, changes nothing: the old version keeps serving. */
  lemma RefusedChangesNothing(w: World, e: Event)
    requires !Apply(w, e).1.Accepted?
    ensures Step(w, e) == w
  {
  }

  /** State "published" is exact: the working manifest is the live one, and the working files are
      those that passed the checks and from which the live files were emitted. */
  lemma PublishedMeansLive(env: Env, w: World, name: string)
    requires Inv(env, w) && name in w.packages && w.packages[name].published.Some?
    ensures var row := w.packages[name];
      && (StateOf(row) == Published <==> row.published.value.revision == row.revision)
      && (StateOf(row) == Modified <==> row.published.value.revision < row.revision)
      && (StateOf(row) == Published ==>
            && row.published.value.manifest == row.manifest
            && exists rows ::
                 rows in w.moments &&
                 CheckedBeside(env, name, row.revision, WorkingOf(w, name), rows, row.published.value.files))
  {
    hide CheckedBeside, FilesOf, ManifestOk;
    assert RowOk(env, w, name);
  }

  /** The event changes the working state of `name`. */
  predicate Edits(e: Event, name: string) {
    (e.FileEvent? || e.ManifestEvent?) && e.name == name
  }

  function EditCount(events: seq<Event>, name: string): nat {
    if events == [] then 0 else (if Edits(events[0], name) then 1 else 0) + EditCount(events[1..], name)
  }

  lemma {:induction false} RevisionCountsEdits(w: World, events: seq<Event>, name: string)
    requires name in w.packages
    ensures name in Run(w, events).packages
    ensures Run(w, events).packages[name].revision == w.packages[name].revision + EditCount(events, name)
    decreases |events|
  {
    if events != [] { RevisionCountsEdits(Step(w, events[0]), events[1..], name); }
  }

  lemma {:induction false} NoEdits(events: seq<Event>, name: string)
    ensures EditCount(events, name) == 0 <==> forall e :: e in events ==> !Edits(e, name)
  {
    if events != [] {
      NoEdits(events[1..], name);
      assert events == [events[0]] + events[1..];
    }
  }

  /** A publish that pinned the working state, and whose checks passed beside what was live at some moment
      since, moves the pointer if and only if no edit of the package landed in between, whatever else
      happened. */
  lemma CommitMovesUnlessEdited(env: Env, w: World, events: seq<Event>, listed: nat, name: string, emitted: FileMap,
                                now: nat)
    requires Inv(env, w) && GuardedRun(env, w, events) && name in w.packages && listed <= |events|
    requires ChecksPass(env, name, WorkingOf(w, name), LiveOthers(Run(w, events[..listed]), name), emitted)
    ensures var w' := Run(w, events);
      var (w'', v) := CommitPublish(w', name, w.packages[name].revision, emitted, now);
      && Guarded(env, w', CommitEvent(name, w.packages[name].revision, emitted, now))
      && (v.Accepted? <==> forall e :: e in events ==> !Edits(e, name))
      && (v.Accepted? ==>
            && name in w''.packages && StateOf(w''.packages[name]) == Published
            && WorkingOf(w'', name) == WorkingOf(w, name) && w''.packages[name].published.value.files == emitted)
  {
    hide Inv, ChecksPass, FilesOf, GuardedRun, Run, Evolves, OthersIn;
    var w' := Run(w, events);
    CurrentState(env, w, name);
    RunKeepsInv(env, w, events);
    HistoryStays(w, w');
    RevisionCountsEdits(w, events, name);
    NoEdits(events, name);
    CurrentState(env, w', name);
    ListedMoment(env, w, events, listed, name);
    assert CheckedBeside(env, name, w.packages[name].revision, WorkingOf(w, name), Run(w, events[..listed]).packages,
                         emitted);
    assert Guarded(env, w', CommitEvent(name, w.packages[name].revision, emitted, now));
    CommitKeepsInv(env, w', name, w.packages[name].revision, emitted, now);
    OtherFilesStay(w', CommitPublish(w', name, w.packages[name].revision, emitted, now).0, name);
  }

  /** What a publish lists on the way is a moment that the store remembers. */
  lemma ListedMoment(env: Env, w: World, events: seq<Event>, listed: nat, name: string)
    requires Inv(env, w) && GuardedRun(env, w, events) && name in w.packages && listed <= |events|
    ensures var rows := Run(w, events[..listed]).packages;
      rows in Run(w, events).moments && name in rows && w.packages[name].revision <= rows[name].revision
  {
    hide Inv, GuardedRun, Run;
    assert events == events[..listed] + events[listed..];
    RunConcat(env, w, events[..listed], events[listed..]);
    RunKeepsInv(env, w, events[..listed]);
    RunKeepsInv(env, Run(w, events[..listed]), events[listed..]);
    PresentIsAMoment(env, Run(w, events[..listed]));
  }

  lemma PresentIsAMoment(env: Env, w: World)
    requires Inv(env, w)
    ensures w.packages in w.moments
  {
  }

  lemma HistoryStays(w: World, w': World)
    requires Evolves(w, w')
    ensures forall pin :: pin in w.history ==> pin in w'.history && w'.history[pin] == w.history[pin]
  {
  }

  /** The store never holds a manifest that could not publish, even when edits of its halves race:
      each was checked against a manifest that may be gone by the time it is stored. */
  lemma ManifestsAlwaysPass(env: Env, events: seq<Event>, name: string)
    requires GuardedRun(env, EmptyWorld(), events) && name in Run(EmptyWorld(), events).packages
    ensures ManifestOk(Run(EmptyWorld(), events).packages[name].manifest)
  {
    EmptyWorldOk(env);
    RunKeepsInv(env, EmptyWorld(), events);
    RowManifest(env, Run(EmptyWorld(), events), name);
  }

  /** Nor files that could not publish, with one exception: an edit may add the second index file. */
  lemma FilesPassUnlessTwoIndexes(env: Env, events: seq<Event>, name: string)
    requires GuardedRun(env, EmptyWorld(), events) && name in Run(EmptyWorld(), events).packages
    ensures var files := FilesOf(Run(EmptyWorld(), events), name);
      && EntryOf(files).Some?
      && (FileMapOk(files) <==> !("index.ts" in files && "index.js" in files))
  {
    hide FilePathOk, GuardedRun, Run;
    EmptyWorldOk(env);
    RunKeepsInv(env, EmptyWorld(), events);
    CurrentState(env, Run(EmptyWorld(), events), name);
    forall p | p in FilesOf(Run(EmptyWorld(), events), name) ensures FilePathOk(p) {
      assert FileKey(name, p) in Run(EmptyWorld(), events).packageFiles;
    }
  }

  /** That exception is real: a package whose index is index.js takes an index.ts by a file edit. */
  lemma SecondIndexByEdit(env: Env, w: World, name: string, content: string, now: nat)
    requires name in w.packages && "index.js" in FilesOf(w, name)
    ensures var e := FileEvent(name, PackageFile("index.ts", content), now);
      Guarded(env, w, e) && Apply(w, e).1.Accepted? && !FileMapOk(FilesOf(Step(w, e), name))
  {
    hide FilePathOk;
    IndexPathOk();
    var w' := Step(w, FileEvent(name, PackageFile("index.ts", content), now));
    assert FileKey(name, "index.js") in w'.packageFiles && FileKey(name, "index.ts") in w'.packageFiles;
    assert "index.js" in FilesOf(w', name) && "index.ts" in FilesOf(w', name);
  }

  lemma IndexPathOk()
    ensures FilePathOk("index.ts")
  {
    OnePart("index.ts", '/');
    OnePart("index", '/');
    assert "index.ts"[..5] == "index" && "index.ts"[5..] == ".ts";
  }
}
