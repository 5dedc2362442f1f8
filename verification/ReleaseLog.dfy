/** What a release may do, and what its history guarantees
    (repos/workers-sdk/tools/deployments/publish-packages.ts).

    A version is "read" when a packument lists it, and "resolved" when its tarball was fetched too.
    Only the wait between two tiers resolves; the check for what is missing only reads. */
module ReleaseLog {
  import opened Tiers

  /** Everything that happens, and every answer the surroundings give, over all runs, in order. */
  datatype Event =
    | RunStarted
    // the run asked what is missing: the packument lists the version, or does not, though the registry may
    // hold it, or cannot be read after all retries
    | Read(p: Package)
    | Unlisted(p: Package, held: bool)
    | Unreadable(p: Package)
    // `pnpm publish` started, the version was accepted by the registry, an error was reported
    | Called(p: Package)
    | Landed(p: Package)
    | Failed(p: Package)
    // the wait for a tier started; a version is listed and its tarball is there, or not yet
    | WaitStarted(at: int)
    | Resolved(p: Package)
    | Unresolved(p: Package)
    // `changeset tag` started, and exited with an error
    | Tagged
    | TagError

  type Log = seq<Event>

  /** The events since the current run started. */
  ghost function ThisRun(log: Log): Log {
    if log == [] || log[|log| - 1].RunStarted? then []
    else ThisRun(log[..|log| - 1]) + [log[|log| - 1]]
  }

  lemma ThisRunStep(log: Log, e: Event)
    ensures ThisRun(log + [e]) == if e.RunStarted? then [] else ThisRun(log) + [e]
  {
    assert (log + [e])[..|log|] == log;
  }

  lemma {:induction false} ThisRunIsSuffix(log: Log)
    ensures |ThisRun(log)| <= |log| && log[|log| - |ThisRun(log)|..] == ThisRun(log)
  {
    if log != [] && !log[|log| - 1].RunStarted? {
      ThisRunIsSuffix(log[..|log| - 1]);
      assert log == log[..|log| - 1] + [log[|log| - 1]];
    }
  }

  ghost function EarlierRuns(log: Log): Log {
    ThisRunIsSuffix(log);
    log[..|log| - |ThisRun(log)|]
  }

  /** The workspace packages that `p` pins. */
  ghost predicate Pins(packages: seq<Package>, p: Package, d: Package) {
    p in packages && d in packages && d.name in p.workspaceDependencies
  }

  /** The run knows that `p` is on the registry. */
  ghost predicate Published(run: Log, p: Package) {
    Read(p) in run || Landed(p) in run
  }

  /** The run lets dependents of `p` go ahead: it found `p` published, or it published `p` itself and,
      unless that wait is skipped, saw it resolve. */
  ghost predicate Ready(run: Log, p: Package, skipWait: bool) {
    Read(p) in run || (Landed(p) in run && (skipWait || Resolved(p) in run))
  }

  /** The run asked for `p`, and the packument did not list it. */
  ghost predicate FoundMissing(run: Log, p: Package) {
    Unlisted(p, true) in run || Unlisted(p, false) in run
  }

  /** Some answer of this run was out of date: a version that the registry held was not listed. */
  ghost predicate Stale(run: Log) {
    exists p :: Unlisted(p, true) in run
  }

  /** What may happen next in a run. */
  ghost predicate Allowed(packages: seq<Package>, run: Log, e: Event, skipWait: bool) {
    match e
    case RunStarted => true
    case Read(p) => Called(p) !in run
    case Unlisted(p, _) => Called(p) !in run
    case Unreadable(p) => Called(p) !in run
    // nothing is published twice, or without asking, or when it was found published, or before what it pins
    case Called(p) => Called(p) !in run && Read(p) !in run && FoundMissing(run, p) &&
                      forall d :: Pins(packages, p, d) ==> Ready(run, d, skipWait)
    case Landed(p) => Called(p) in run
    case Failed(p) => Called(p) in run
    case WaitStarted(_) => true
    case Resolved(p) => Landed(p) in run
    case Unresolved(p) => Landed(p) in run
    // nothing is tagged before everything is published, or once something failed
    case Tagged => forall p :: p in packages ==>
      Published(run, p) && Failed(p) !in run && Unreadable(p) !in run
    case TagError => Tagged in run
  }

  /** A history in which every run did only what it may do. */
  ghost predicate Legal(packages: seq<Package>, log: Log, skipWait: bool) {
    forall i :: 0 <= i < |log| ==> Allowed(packages, ThisRun(log[..i]), log[i], skipWait)
  }

  lemma LegalStep(packages: seq<Package>, log: Log, e: Event, skipWait: bool)
    requires Legal(packages, log, skipWait) && Allowed(packages, ThisRun(log), e, skipWait)
    ensures Legal(packages, log + [e], skipWait)
  {
    var next := log + [e];
    forall i | 0 <= i < |next| ensures Allowed(packages, ThisRun(next[..i]), next[i], skipWait) {
      assert next[..i] == log[..i];
      if i == |log| { assert log[..i] == log; }
    }
  }

  lemma LegalPrefix(packages: seq<Package>, log: Log, n: nat, skipWait: bool)
    requires Legal(packages, log, skipWait) && n <= |log|
    ensures Legal(packages, log[..n], skipWait)
  {
    forall i | 0 <= i < n ensures Allowed(packages, ThisRun(log[..n][..i]), log[..n][i], skipWait) {
      assert log[..n][..i] == log[..i];
    }
  }

  /** Within a run, what lands was published by it, what resolves has landed, and nothing is both found
      published and published. */
  lemma {:induction false} RunIsOrderly(packages: seq<Package>, log: Log, skipWait: bool)
    requires Legal(packages, log, skipWait)
    ensures forall p :: Resolved(p) in ThisRun(log) ==> Landed(p) in ThisRun(log)
    ensures forall p :: Landed(p) in ThisRun(log) ==> Called(p) in ThisRun(log)
    ensures forall p :: Read(p) in ThisRun(log) ==> Called(p) !in ThisRun(log)
  {
    if log != [] {
      var n := |log| - 1;
      LegalPrefix(packages, log, n, skipWait);
      RunIsOrderly(packages, log[..n], skipWait);
      assert Allowed(packages, ThisRun(log[..n]), log[n], skipWait);
    }
  }

  /** The release waits "until every given package version is resolvable and its tarball is available",
      but only for what the run itself published. So when a package is published, a package that it
      pins was ever seen to resolve exactly when this run published it, or an earlier run resolved it;
      and this run published it unless it found it listed. */
  lemma ResolvedExactlyWhen(packages: seq<Package>, log: Log, i: nat, d: Package)
    requires Legal(packages, log, false) && i < |log| && log[i].Called? && Pins(packages, log[i].p, d)
    ensures var run := ThisRun(log[..i]);
      && (Resolved(d) in log[..i] <==> Called(d) in run || Resolved(d) in EarlierRuns(log[..i]))
      && (Called(d) in run <==> Read(d) !in run)
  {
    var before := log[..i];
    LegalPrefix(packages, log, i, false);
    RunIsOrderly(packages, before, false);
    ThisRunIsSuffix(before);
    assert before == EarlierRuns(before) + ThisRun(before);
    assert Allowed(packages, ThisRun(before), log[i], false);
  }

  /** Re-running a release whose wait timed out: the second run finds `d` listed, does not wait for its
      tarball, and publishes `p`, which pins it. */
  lemma ReRunSkipsTheWait(d: Package, p: Package)
    requires d.name != p.name && d.workspaceDependencies == [] && p.workspaceDependencies == [d.name]
    ensures var log := [RunStarted, Unlisted(d, false), Called(d), Landed(d),
                  RunStarted, Read(d), Unlisted(p, false), Called(p)];
      && Legal([d, p], log, false) && Pins([d, p], p, d)
      && Resolved(d) !in log
  {
    hide Legal, ThisRun, Allowed;
    var packages := [d, p];
    assert d in packages && p in packages;
    var log4 := FirstRun(packages, d);
    LateAllowed(packages, d, p);
    var log5 := LegalAfter(packages, log4, RunStarted);
    var log6 := LegalAfter(packages, log5, Read(d));
    var log7 := LegalAfter(packages, log6, Unlisted(p, false));
    assert ThisRun(log7) == [Read(d), Unlisted(p, false)];
    var log8 := LegalAfter(packages, log7, Called(p));
    assert log8 == [RunStarted, Unlisted(d, false), Called(d), Landed(d),
                    RunStarted, Read(d), Unlisted(p, false), Called(p)];
  }

  /** What the second run does is allowed: it found `d` listed. */
  lemma LateAllowed(packages: seq<Package>, d: Package, p: Package)
    requires d.name != p.name && p.workspaceDependencies == [d.name]
    requires forall q :: q in packages ==> q in {d, p}
    ensures forall run :: Allowed(packages, run, RunStarted, false)
    ensures Allowed(packages, [], Read(d), false)
    ensures Allowed(packages, [Read(d)], Unlisted(p, false), false)
    ensures Allowed(packages, [Read(d), Unlisted(p, false)], Called(p), false)
  {
    assert [Read(d), Unlisted(p, false)][0] == Read(d) && [Read(d), Unlisted(p, false)][1] == Unlisted(p, false);
  }

  /** A run whose wait for `d` never ends. */
  lemma FirstRun(packages: seq<Package>, d: Package) returns (log: Log)
    requires d.workspaceDependencies == []
    ensures Legal(packages, log, false) && log == [RunStarted, Unlisted(d, false), Called(d), Landed(d)]
  {
    hide Legal, ThisRun;
    NothingIsLegal(packages);
    log := LegalAfter(packages, [], RunStarted);
    log := LegalAfter(packages, log, Unlisted(d, false));
    log := LegalAfter(packages, log, Called(d));
    log := LegalAfter(packages, log, Landed(d));
  }

  lemma NothingIsLegal(packages: seq<Package>)
    ensures Legal(packages, [], false) && ThisRun([]) == []
  {
  }

  lemma LegalAfter(packages: seq<Package>, log: Log, e: Event) returns (next: Log)
    requires Legal(packages, log, false) && Allowed(packages, ThisRun(log), e, false)
    ensures next == log + [e] && Legal(packages, next, false)
    ensures ThisRun(next) == if e.RunStarted? then [] else ThisRun(log) + [e]
  {
    next := log + [e];
    LegalStep(packages, log, e, false);
    ThisRunStep(log, e);
  }
}
