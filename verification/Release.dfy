/** The tiered, re-runnable release (repos/workers-sdk/tools/deployments/publish-packages.ts).

    The registry, the network, the clock and `pnpm publish` are the environment: whenever the
    script asks them something, any answer they could give is considered. An answer "present" is
    taken to be true, an answer "absent" may be stale; a publish that reports an error may still
    have landed. */
module Release {
  import opened Wrappers
  import opened WorkerPool
  import opened Tiers
  import opened ReleaseLog

  datatype Version = Version(name: string, version: string)

  function VersionOf(p: Package): Version { Version(p.name, p.version) }

  /** More of the same run has happened. */
  ghost predicate Extends(now: Log, before: Log) {
    before <= now && ThisRun(now) == ThisRun(before) + now[|before|..]
  }

  /** What a run does to a tier, one after the other. */
  datatype Phase = Ask | Publish | Await

  lemma Same(log: Log)
    ensures Extends(log, log)
  {
  }

  lemma OneMore(before: Log, now: Log, e: Event)
    requires now == before + [e] && ThisRun(now) == ThisRun(before) + [e]
    ensures Extends(now, before) && forall x :: x in ThisRun(before) ==> x in ThisRun(now)
  {
    assert now[|before|..] == [e];
  }

  lemma KeepsAll(before: Log, now: Log)
    requires Extends(now, before)
    ensures forall x :: x in ThisRun(before) ==> x in ThisRun(now)
  {
  }

  lemma Later(before: Log, log: Log, now: Log)
    requires Extends(log, before) && Extends(now, log)
    ensures Extends(now, before) && forall x :: x in ThisRun(log) ==> x in ThisRun(now)
  {
    assert now[|before|..] == log[|before|..] + now[|log|..];
  }

  /** The new events of the run belong to this phase and are about these packages. */
  ghost predicate OnlyAbout(run: Log, before: Log, phase: Phase, about: seq<Package>) {
    forall e :: e in run && e !in before ==>
      match e
      case Read(p) => phase.Ask? && p in about
      case Unlisted(p, _) => phase.Ask? && p in about
      case Unreadable(p) => phase.Ask? && p in about
      case Called(p) => phase.Publish? && p in about
      case Landed(p) => phase.Publish? && p in about
      case Failed(p) => phase.Publish? && p in about
      case WaitStarted(_) => phase.Await?
      case Resolved(p) => phase.Await? && p in about
      case Unresolved(p) => phase.Await? && p in about
      case _ => false
  }

  /** The run has neither found these packages published nor published them. */
  ghost predicate Untouched(run: Log, packages: seq<Package>) {
    forall p :: p in packages ==> Read(p) !in run && Called(p) !in run
  }

  /** The run has not found these packages missing. */
  ghost predicate Unasked(run: Log, packages: seq<Package>) {
    forall p :: p in packages ==> !FoundMissing(run, p)
  }

  /** The run has found all these packages missing. */
  ghost predicate AllMissing(run: Log, packages: seq<Package>) {
    forall p :: p in packages ==> FoundMissing(run, p)
  }

  lemma OneAnswer(run: Log, now: Log, p: Package, held: bool)
    requires now in {run + [Read(p)], run + [Unlisted(p, held)], run + [Unreadable(p)]}
    ensures forall q :: FoundMissing(now, q) <==> FoundMissing(run, q) || (q == p && now == run + [Unlisted(p, held)])
    ensures forall q :: Read(q) in now <==> Read(q) in run || (q == p && now == run + [Read(p)])
    ensures forall q :: Called(q) in now <==> Called(q) in run
  {
    assert now[|run|] in now && now[|run|] == now[|now| - 1];
    forall e ensures e in now <==> e in run || e == now[|run|] {
      assert now == run + [now[|run|]];
    }
  }

  /** Nothing has gone wrong in the run, and it has not come to an end. */
  ghost predicate Untroubled(run: Log) {
    forall e :: e in run ==> !e.Unreadable? && !e.Failed? && !e.Tagged? && !e.TagError?
  }

  /** Everything that these packages pin is ready. */
  ghost predicate PinsReady(packages: seq<Package>, pending: seq<Package>, run: Log, skipWait: bool) {
    forall p, d :: p in pending && Pins(packages, p, d) ==> Ready(run, d, skipWait)
  }

  lemma PinsStayReady(packages: seq<Package>, pending: seq<Package>, before: Log, now: Log, skipWait: bool)
    requires (forall e :: e in before ==> e in now) && PinsReady(packages, pending, before, skipWait)
    ensures PinsReady(packages, pending, now, skipWait)
  {
  }

  /** The result names its package, success means that the version landed, and failure that an error
      was reported. */
  ghost predicate Reported(p: Package, r: PublishResult, run: Log) {
    r.name == p.name && r.version == p.version && if r.failed then Failed(p) in run else Landed(p) in run
  }

  /** Every error that was reported is in the results. */
  ghost predicate FailuresKnown(run: Log, before: Log, pending: seq<Package>, results: seq<Option<PublishResult>>)
    requires |results| == |pending|
  {
    forall p :: Failed(p) in run && Failed(p) !in before ==>
      exists i :: 0 <= i < |pending| && pending[i] == p && results[i].Some? && results[i].value.failed
  }

  lemma NothingFailedYet(run: Log, pending: seq<Package>, results: seq<Option<PublishResult>>)
    requires |results| == |pending|
    ensures FailuresKnown(run, run, pending, results)
  {
  }

  lemma CallFailsNothing(run: Log, before: Log, p: Package, pending: seq<Package>, results: seq<Option<PublishResult>>)
    requires |results| == |pending| && FailuresKnown(run, before, pending, results)
    ensures FailuresKnown(run + [Called(p)], before, pending, results)
  {
  }

  lemma OneSettled(run: Log, later: Log, before: Log, pending: seq<Package>, results: seq<Option<PublishResult>>,
                   index: nat, r: PublishResult)
    requires |results| == |pending| && FailuresKnown(run, before, pending, results)
    requires index < |pending| && results[index].None?
    requires forall e :: e in later ==>
      e in run || e == Landed(pending[index]) || (e == Failed(pending[index]) && r.failed)
    ensures FailuresKnown(later, before, pending, results[index := Some(r)])
  {
    var results' := results[index := Some(r)];
    forall p | Failed(p) in later && Failed(p) !in before
      ensures exists i :: 0 <= i < |pending| && pending[i] == p && results'[i].Some? && results'[i].value.failed
    {
      if Failed(p) in run {
        var i :| 0 <= i < |pending| && pending[i] == p && results[i].Some? && results[i].value.failed;
        assert results'[i] == results[i];
      } else {
        assert results'[index] == Some(r);
      }
    }
  }

  lemma AllFailuresKnown(run: Log, before: Log, pending: seq<Package>, settled: seq<Option<PublishResult>>,
                         results: seq<PublishResult>)
    requires |results| == |settled| == |pending| && FailuresKnown(run, before, pending, settled)
    requires forall i :: 0 <= i < |results| ==> Some(results[i]) == settled[i]
    ensures forall p :: Failed(p) in run && Failed(p) !in before ==>
      exists i :: 0 <= i < |pending| && pending[i] == p && results[i].failed
  {
  }

  lemma ReportedLater(before: Log, now: Log)
    requires forall e :: e in before ==> e in now
    ensures forall p, r :: Reported(p, r, before) ==> Reported(p, r, now)
  {
  }

  /** The packages whose publish was started, in order. */
  ghost function Calls(log: Log): seq<Package> {
    if log == [] then []
    else Calls(log[..|log| - 1]) + if log[|log| - 1].Called? then [log[|log| - 1].p] else []
  }

  lemma CallsStep(log: Log, e: Event)
    ensures Calls(log + [e]) == Calls(log) + if e.Called? then [e.p] else []
  {
  }

  datatype PublishResult = PublishResult(name: string, version: string, failed: bool)

  datatype RunResult =
    | DryRun
    | CycleFound
    | ReadFailed          // the registry could not be read after all retries
    | PublishFailed       // some package of a tier failed; no tags
    | TimedOut            // a published version did not become resolvable
    | TagFailed
    | Completed

  datatype Options = Options(dryRun: bool, concurrency: int, skipWait: bool, minMs: int, timeoutMs: int, pollMs: int)

  /** What the registry says about a version, if it can be read. */
  datatype Answer = Listed | NotListed | NoAnswer

  /** A run that publishes ends the way it does for a reason in its own history. */
  ghost predicate EndsFor(r: RunResult, run: Log, clock: int, timeoutMs: int) {
    && (r.ReadFailed? <==> exists p :: Unreadable(p) in run)
    && (r.PublishFailed? <==> exists p :: Failed(p) in run)
    && (r.TagFailed? <==> TagError in run)
    && (r.Completed? <==> Tagged in run && TagError !in run)
    // it waited for a version of its own that never resolved, and for long enough
    && (r.TimedOut? ==>
          exists p, from :: Landed(p) in run && Unresolved(p) in run && Resolved(p) !in run &&
            WaitStarted(from) in run && clock >= from + timeoutMs)
  }

  class Release {
    /** What the registry holds; only publishing adds to it. */
    var registry: set<Version>
    var clock: int
    ghost var log: Log

    /** What was seen or done is on the registry, and no run did what it may not do. */
    ghost predicate Valid(packages: seq<Package>, skipWait: bool)
      reads `registry, `log
    {
      && (forall p :: Read(p) in log || Landed(p) in log || Resolved(p) in log ==> VersionOf(p) in registry)
      && Legal(packages, log, skipWait)
    }

    constructor (initial: set<Version>, now: int, ghost packages: seq<Package>, ghost skipWait: bool)
      ensures Valid(packages, skipWait) && registry == initial && log == []
    {
      registry, clock, log := initial, now, [];
    }

    /** An allowed event happens. */
    ghost method Record(e: Event, packages: seq<Package>, skipWait: bool)
      requires Valid(packages, skipWait) && Allowed(packages, ThisRun(log), e, skipWait)
      requires e.Read? || e.Landed? || e.Resolved? ==> VersionOf(e.p) in registry
      modifies `log
      ensures Valid(packages, skipWait) && log == old(log) + [e]
      ensures ThisRun(log) == if e.RunStarted? then [] else old(ThisRun(log)) + [e]
      ensures Calls(log) == old(Calls(log)) + if e.Called? then [e.p] else []
    {
      hide Legal, Allowed, Calls;
      LegalStep(packages, log, e, skipWait);
      ThisRunStep(log, e);
      CallsStep(log, e);
      log := log + [e];
    }

    /** The registry is asked whether it lists a version: it may not answer, and it may not list what it holds. */
    method AskRegistry(p: Package, ghost packages: seq<Package>, ghost skipWait: bool) returns (answer: Answer)
      requires Valid(packages, skipWait) && Called(p) !in ThisRun(log)
      modifies `log
      ensures Valid(packages, skipWait) && Calls(log) == old(Calls(log))
      ensures var e := match answer
                       case Listed => Read(p)
                       case NotListed => Unlisted(p, VersionOf(p) in registry)
                       case NoAnswer => Unreadable(p);
        log == old(log) + [e] && ThisRun(log) == old(ThisRun(log)) + [e]
      ensures answer.Listed? ==> VersionOf(p) in registry
    {
      hide Legal, Calls, ThisRun;
      var answers: bool := *;
      var listed: bool := *;
      if !answers {
        Record(Unreadable(p), packages, skipWait);
        return NoAnswer;
      }
      if listed && VersionOf(p) in registry {
        Record(Read(p), packages, skipWait);
        return Listed;
      }
      Record(Unlisted(p, VersionOf(p) in registry), packages, skipWait);
      return NotListed;
    }

    /** `filterUnpublished`: the packages of a tier whose version the packument does not list. */
    method FilterUnpublished(tier: seq<Package>, ghost packages: seq<Package>, ghost skipWait: bool)
      returns (r: Option<seq<Package>>)
      requires Valid(packages, skipWait) && NoDuplicates(tier)
      requires Untouched(ThisRun(log), tier) && Unasked(ThisRun(log), tier)
      modifies `log
      ensures Valid(packages, skipWait) && Extends(log, old(log))
      ensures Calls(log) == old(Calls(log))
      ensures OnlyAbout(ThisRun(log), old(ThisRun(log)), Ask, tier)
      ensures r.Some? ==> NoDuplicates(r.value) && forall p :: p in r.value ==> p in tier
      // every package is asked for: what is kept was not listed, and what is dropped was
      ensures r.Some? ==> forall p :: p in tier ==>
        (p in r.value <==> FoundMissing(ThisRun(log), p)) && (p in r.value <==> Read(p) !in ThisRun(log))
      // without an outdated answer, what is kept is exactly what the registry does not hold
      ensures r.Some? && !Stale(ThisRun(log)) ==>
        forall p :: p in tier ==> (p in r.value <==> VersionOf(p) !in registry)
      // it gives up exactly when a version cannot be read
      ensures if r.None? then exists p :: p in tier && Unreadable(p) in ThisRun(log)
              else forall p :: Unreadable(p) in ThisRun(log) ==> Unreadable(p) in old(ThisRun(log))
    {
      hide Legal, Calls, ThisRun;
      var unpublished: seq<Package> := [];
      for i := 0 to |tier|
        invariant Valid(packages, skipWait) && Extends(log, old(log))
        invariant Calls(log) == old(Calls(log)) && NoDuplicates(unpublished)
        invariant OnlyAbout(ThisRun(log), old(ThisRun(log)), Ask, tier)
        invariant forall p :: p in unpublished ==> p in tier[..i]
        invariant forall p :: p in tier[..i] ==>
          (p in unpublished <==> FoundMissing(ThisRun(log), p)) && (p in unpublished <==> Read(p) !in ThisRun(log))
        invariant Untouched(ThisRun(log), tier[i..]) && Unasked(ThisRun(log), tier[i..])
        invariant forall p :: p in tier[..i] ==>
          if p in unpublished then Unlisted(p, VersionOf(p) in registry) in ThisRun(log) else VersionOf(p) in registry
        invariant forall p :: Unreadable(p) in ThisRun(log) ==> Unreadable(p) in old(ThisRun(log))
      {
        var pkg := tier[i];
        assert pkg !in tier[..i] && pkg !in tier[i + 1..];
        assert tier[..i + 1] == tier[..i] + [pkg] && tier[i..] == [pkg] + tier[i + 1..];
        ghost var run := ThisRun(log);
        var answer := AskRegistry(pkg, packages, skipWait);
        OneAnswer(run, ThisRun(log), pkg, VersionOf(pkg) in registry);
        if answer.NoAnswer? {
          return None;
        }
        if answer.NotListed? {
          unpublished := unpublished + [pkg];
        }
      }
      assert tier[..|tier|] == tier;
      return Some(unpublished);
    }

    /** A package's publish settles: an error may hide that the version did land. */
    method SettlePublish(p: Package, ghost packages: seq<Package>, ghost skipWait: bool) returns (r: PublishResult)
      requires Valid(packages, skipWait) && Called(p) in ThisRun(log)
      modifies `log, `registry
      ensures Valid(packages, skipWait) && Extends(log, old(log)) && Calls(log) == old(Calls(log))
      ensures forall e :: e in ThisRun(log) ==>
        e in old(ThisRun(log)) || e == Landed(p) || (e == Failed(p) && r.failed)
      ensures Reported(p, r, ThisRun(log))
      ensures registry == old(registry) || registry == old(registry) + {VersionOf(p)}
    {
      hide Legal, Calls, ThisRun;
      var failed: bool := *;
      var landed: bool := *;
      if !failed || landed {
        registry := registry + {VersionOf(p)};
        Record(Landed(p), packages, skipWait);
      }
      if failed { Record(Failed(p), packages, skipWait); }
      return PublishResult(p.name, p.version, failed);
    }

    /** A tier being published, from `log0` and `registry0` on: the first `next` packages were called, and
        what has settled has these results. */
    ghost predicate Progress(next: nat, results: seq<Option<PublishResult>>, pending: seq<Package>,
                             log0: Log, registry0: set<Version>)
      requires next <= |pending| == |results|
      reads `log, `registry
    {
      && Extends(log, log0) && registry0 <= registry
      && Calls(log) == Calls(log0) + pending[..next]
      && OnlyAbout(ThisRun(log), ThisRun(log0), Publish, pending[..next])
      && FailuresKnown(ThisRun(log), ThisRun(log0), pending, results)
      && (forall p :: p in pending[..next] ==> Called(p) in ThisRun(log))
      && (forall v :: v in registry && v !in registry0 ==> exists p :: p in pending && v == VersionOf(p))
      && (forall i :: 0 <= i < |pending| && results[i].Some? ==> Reported(pending[i], results[i].value, ThisRun(log)))
    }

    /** Some publish settles. */
    method Settle(index: nat, pending: seq<Package>, ghost next: nat, ghost results: seq<Option<PublishResult>>,
                  ghost log0: Log, ghost registry0: set<Version>, ghost packages: seq<Package>, ghost skipWait: bool)
      returns (result: PublishResult)
      requires Valid(packages, skipWait) && index < next <= |pending| == |results| && results[index].None?
      requires Progress(next, results, pending, log0, registry0)
      modifies `log, `registry
      ensures Valid(packages, skipWait)
      ensures Progress(next, results[index := Some(result)], pending, log0, registry0)
    {
      hide Legal, Calls, ThisRun, Reported, OnlyAbout, FailuresKnown, Extends, Valid;
      ghost var log1, run := log, ThisRun(log);
      assert pending[index] in pending[..next];
      result := SettlePublish(pending[index], packages, skipWait);
      Later(log0, log1, log);
      ReportedLater(run, ThisRun(log));
      OneLanded(pending, next, pending[index], ThisRun(log0), run, ThisRun(log));
      OneSettled(run, ThisRun(log), ThisRun(log0), pending, results, index, result);
    }

    /** A worker takes the next package. */
    ghost method CallNext(pending: seq<Package>, next: nat, results: seq<Option<PublishResult>>,
                          log0: Log, registry0: set<Version>, packages: seq<Package>, skipWait: bool)
      requires Valid(packages, skipWait) && next < |pending| == |results|
      requires Progress(next, results, pending, log0, registry0)
      requires NoDuplicates(pending) && Untouched(ThisRun(log0), pending)
      requires AllMissing(ThisRun(log0), pending) && PinsReady(packages, pending, ThisRun(log0), skipWait)
      modifies `log
      ensures Valid(packages, skipWait) && Progress(next + 1, results, pending, log0, registry0)
    {
      hide Legal, Calls, ThisRun, Ready, Pins, Reported, OnlyAbout, PinsReady, NoDuplicates, Untouched, Allowed,
           AllMissing, FoundMissing, FailuresKnown, Extends, Valid;
      ghost var log1, run := log, ThisRun(log);
      KeepsAll(log0, log);
      MayBePublished(packages, pending, next, ThisRun(log0), run, skipWait);
      OneMoreCalled(pending, next, ThisRun(log0), run);
      CallFailsNothing(run, ThisRun(log0), pending[next], pending, results);
      Record(Called(pending[next]), packages, skipWait);
      OneMore(log1, log, Called(pending[next]));
      Later(log0, log1, log);
      ReportedLater(run, ThisRun(log));
    }

    /** One await of `publishTier`: some publish settles and its worker takes the next package. */
    method ResumeWorker(pool: Pool<PublishResult>, w: nat, pending: seq<Package>,
                        ghost log0: Log, ghost registry0: set<Version>,
                        ghost packages: seq<Package>, ghost skipWait: bool)
      requires pool.Valid() && |pool.awaiting| >= 1 && pool.size == |pending|
      requires Valid(packages, skipWait) && Progress(pool.next, pool.results, pending, log0, registry0)
      requires w < |pool.awaiting| && pool.awaiting[w].Some?
      requires NoDuplicates(pending) && Untouched(ThisRun(log0), pending)
      requires AllMissing(ThisRun(log0), pending) && PinsReady(packages, pending, ThisRun(log0), skipWait)
      modifies pool, `log, `registry
      ensures pool.Valid() && |pool.awaiting| >= 1
      ensures Valid(packages, skipWait) && Progress(pool.next, pool.results, pending, log0, registry0)
      ensures pool.Unsettled() < old(pool.Unsettled())
    {
      hide Progress, Valid, PinsReady, NoDuplicates, Untouched, AllMissing;
      var index := pool.awaiting[w].value;
      ghost var next := pool.next;
      var result := Settle(index, pending, next, pool.results, log0, registry0, packages, skipWait);
      pool.Resume(w, result);
      if next < |pending| { CallNext(pending, next, pool.results, log0, registry0, packages, skipWait); }
    }

    /** `publishTier`: the worker pool, with the workers resumed in any order. */
    method PublishTier(pending: seq<Package>, concurrency: int, ghost packages: seq<Package>, ghost skipWait: bool)
      returns (results: seq<PublishResult>)
      requires Valid(packages, skipWait)
      requires NoDuplicates(pending) && Untouched(ThisRun(log), pending)
      requires AllMissing(ThisRun(log), pending) && PinsReady(packages, pending, ThisRun(log), skipWait)
      modifies `log, `registry
      ensures Valid(packages, skipWait) && Extends(log, old(log))
      // every package is published exactly once, and result i is that of package i
      ensures Calls(log) == old(Calls(log)) + pending
      ensures OnlyAbout(ThisRun(log), old(ThisRun(log)), Publish, pending)
      ensures |results| == |pending|
      // every error that was reported is in the results
      ensures forall p :: Failed(p) in ThisRun(log) && Failed(p) !in old(ThisRun(log)) ==>
        exists i :: 0 <= i < |pending| && pending[i] == p && results[i].failed
      ensures forall i :: 0 <= i < |pending| ==> Reported(pending[i], results[i], ThisRun(log))
      ensures old(registry) <= registry
      ensures forall v :: v in registry && v !in old(registry) ==> exists p :: p in pending && v == VersionOf(p)
    {
      hide Progress, Valid, PinsReady, NoDuplicates, Untouched, AllMissing, OnlyAbout, Extends, Calls, ThisRun,
           Reported;
      var pool := new Pool<PublishResult>.Start(|pending|, concurrency);
      NothingPublished(pending, pool.results);
      for called := 0 to pool.next
        invariant pool.Valid() && |pool.awaiting| >= 1 && fresh(pool) && pool.size == |pending|
        invariant Valid(packages, skipWait) && Progress(called, pool.results, pending, old(log), old(registry))
      {
        CallNext(pending, called, pool.results, old(log), old(registry), packages, skipWait);
      }
      while exists w :: 0 <= w < |pool.awaiting| && pool.awaiting[w].Some?
        invariant fresh(pool) && pool.Valid() && |pool.awaiting| >= 1
        invariant Valid(packages, skipWait) && Progress(pool.next, pool.results, pending, old(log), old(registry))
        decreases pool.Unsettled()
      {
        var w :| 0 <= w < |pool.awaiting| && pool.awaiting[w].Some?;
        ResumeWorker(pool, w, pending, old(log), old(registry), packages, skipWait);
      }
      pool.Complete();
      NoHoles(pool.results);
      results := Present(pool.results);
      AllPublished(pending, pool.results, results, old(log), old(registry));
    }

    lemma NothingPublished(pending: seq<Package>, results: seq<Option<PublishResult>>)
      requires |results| == |pending| && forall i :: 0 <= i < |results| ==> results[i].None?
      ensures Progress(0, results, pending, log, registry)
    {
      hide Calls, ThisRun;
      NothingFailedYet(ThisRun(log), pending, results);
      Same(log);
    }

    lemma AllPublished(pending: seq<Package>, settled: seq<Option<PublishResult>>, results: seq<PublishResult>,
                       log0: Log, registry0: set<Version>)
      requires |results| == |settled| == |pending| && Progress(|pending|, settled, pending, log0, registry0)
      requires forall i :: 0 <= i < |results| ==> Some(results[i]) == settled[i]
      ensures Extends(log, log0) && registry0 <= registry && Calls(log) == Calls(log0) + pending
      ensures OnlyAbout(ThisRun(log), ThisRun(log0), Publish, pending)
      ensures forall p :: Failed(p) in ThisRun(log) && Failed(p) !in ThisRun(log0) ==>
        exists i :: 0 <= i < |pending| && pending[i] == p && results[i].failed
      ensures forall i :: 0 <= i < |pending| ==> Reported(pending[i], results[i], ThisRun(log))
      ensures forall v :: v in registry && v !in registry0 ==> exists p :: p in pending && v == VersionOf(p)
    {
      hide Extends, OnlyAbout, Reported, Calls, ThisRun, FailuresKnown;
      assert pending[..|pending|] == pending;
      AllFailuresKnown(ThisRun(log), ThisRun(log0), pending, settled, results);
    }

    /** A version that landed is looked up, and its tarball with it. */
    method Probe(p: Package, ghost packages: seq<Package>, ghost skipWait: bool) returns (resolvable: bool)
      requires Valid(packages, skipWait) && Landed(p) in ThisRun(log) && VersionOf(p) in registry
      modifies `log
      ensures Valid(packages, skipWait) && Calls(log) == old(Calls(log))
      ensures var e := if resolvable then Resolved(p) else Unresolved(p);
        log == old(log) + [e] && ThisRun(log) == old(ThisRun(log)) + [e]
    {
      hide Legal, Calls, ThisRun;
      var listed: bool := *;
      var tarballThere: bool := *;
      resolvable := listed && tarballThere;
      Record(if resolvable then Resolved(p) else Unresolved(p), packages, skipWait);
    }

    /** One round of `waitForPropagation`: what is still pending after it was looked up and did not resolve. */
    method Poll(pending: set<Package>, ghost packages: seq<Package>, ghost skipWait: bool) returns (left: set<Package>)
      requires Valid(packages, skipWait)
      requires forall p :: p in pending ==> Landed(p) in ThisRun(log) && VersionOf(p) in registry
      modifies `log
      ensures Valid(packages, skipWait) && Extends(log, old(log)) && Calls(log) == old(Calls(log)) && left <= pending
      ensures forall e :: e in ThisRun(log) ==>
        e in old(ThisRun(log)) || ((e.Resolved? || e.Unresolved?) && e.p in pending)
      ensures forall p :: p in pending ==>
        if p in left
        then Unresolved(p) in ThisRun(log) && (Resolved(p) in ThisRun(log) ==> Resolved(p) in old(ThisRun(log)))
        else Resolved(p) in ThisRun(log)
    {
      hide Legal, Calls, ThisRun;
      left := pending;
      var round := pending;
      while round != {}
        invariant Valid(packages, skipWait) && Extends(log, old(log)) && Calls(log) == old(Calls(log))
        invariant round <= left <= pending
        invariant forall e :: e in ThisRun(log) ==>
          e in old(ThisRun(log)) || ((e.Resolved? || e.Unresolved?) && e.p in pending - round)
        invariant forall p :: p in pending - round ==>
          if p in left
          then Unresolved(p) in ThisRun(log) && (Resolved(p) in ThisRun(log) ==> Resolved(p) in old(ThisRun(log)))
          else Resolved(p) in ThisRun(log)
        decreases round
      {
        var p :| p in round;
        round := round - {p};
        var resolvable := Probe(p, packages, skipWait);
        if resolvable { left := left - {p}; }
      }
    }

    /** At least this long passes, and some time with any read. */
    method Sleep(ms: int)
      modifies `clock
      ensures clock > old(clock) && clock >= old(clock) + ms
    {
      var elapsed: int := *;
      clock := clock + Max(Max(1, ms), elapsed);
    }

    /** `waitForPropagation`: poll until everything resolves and then let it settle, or give up at the deadline. */
    method WaitForPropagation(published: seq<Package>, options: Options,
                              ghost packages: seq<Package>, ghost skipWait: bool)
      returns (resolved: bool)
      requires Valid(packages, skipWait)
      requires forall p :: p in published ==> Landed(p) in ThisRun(log)
      modifies `log, `clock
      ensures Valid(packages, skipWait) && Extends(log, old(log)) && Calls(log) == old(Calls(log))
      ensures OnlyAbout(ThisRun(log), old(ThisRun(log)), Await, published) && clock >= old(clock)
      // the packument and the tarball of each version were both there
      ensures resolved ==> forall p :: p in published ==> Resolved(p) in ThisRun(log)
      ensures resolved && published != [] ==> clock >= old(clock) + options.minMs
      // some version was not, until after the deadline
      ensures !resolved ==>
        && WaitStarted(old(clock)) in ThisRun(log) && clock >= old(clock) + options.timeoutMs
        && exists p :: p in published && Unresolved(p) in ThisRun(log) &&
             (Resolved(p) in ThisRun(log) ==> Resolved(p) in old(ThisRun(log)))
    {
      hide *;
      ghost var before := log;
      Same(before);
      NothingNew(ThisRun(log), published);
      if |published| == 0 { return true; }
      var start := clock;
      var pending := set p | p in published;
      OnThisRun(packages, skipWait);
      WaitIsAllowed(packages, ThisRun(log), start, skipWait);
      Record(WaitStarted(start), packages, skipWait);
      WaitGoesOn(old(ThisRun(log)), ThisRun(log), old(ThisRun(log)), published);
      OneMore(before, log, WaitStarted(start));
      AllPending(old(ThisRun(log)), ThisRun(log), published);
      while pending != {}
        invariant Valid(packages, skipWait) && Extends(log, old(log)) && Calls(log) == old(Calls(log))
        invariant OnlyAbout(ThisRun(log), old(ThisRun(log)), Await, published)
        invariant WaitStarted(start) in ThisRun(log) && clock >= start
        invariant StillPending(old(ThisRun(log)), ThisRun(log), published, pending)
        invariant forall p :: p in published ==> Landed(p) in ThisRun(log)
        invariant forall p :: p in pending ==> p in published
        decreases pending != {}, start + options.timeoutMs - clock
      {
        ghost var log1, run, asked := log, ThisRun(log), pending;
        pending := Poll(pending, packages, skipWait);
        Later(before, log1, log);
        WaitGoesOn(run, ThisRun(log), old(ThisRun(log)), published);
        LessPending(old(ThisRun(log)), run, ThisRun(log), published, asked, pending);
        if pending != {} {
          if clock >= start + options.timeoutMs {
            StillStuck(old(ThisRun(log)), ThisRun(log), published, pending);
            return false;
          }
          Sleep(options.pollMs);
        }
      }
      NothingPending(old(ThisRun(log)), ThisRun(log), published);
      if options.minMs > 0 { Sleep(options.minMs); }
      return true;
    }

    lemma NothingResolvedYet(packages: seq<Package>, skipWait: bool, pending: seq<Package>)
      requires Valid(packages, skipWait) && Untouched(ThisRun(log), pending)
      ensures forall p :: p in pending ==> Resolved(p) !in ThisRun(log)
    {
      RunIsOrderly(packages, log, skipWait);
    }

    lemma OnThisRun(packages: seq<Package>, skipWait: bool)
      requires Valid(packages, skipWait)
      ensures forall p :: Landed(p) in ThisRun(log) ==> VersionOf(p) in registry
    {
      ThisRunIsSuffix(log);
      assert forall e :: e in ThisRun(log) ==> e in log;
    }

    lemma PublishedIsHeld(packages: seq<Package>, skipWait: bool)
      requires Valid(packages, skipWait)
      ensures forall p :: Published(ThisRun(log), p) ==> VersionOf(p) in registry
    {
      ThisRunIsSuffix(log);
      assert forall e :: e in ThisRun(log) ==> e in log;
    }

    /** `changeset tag`, started only when every package version is on the registry. */
    method RunChangesetTag(ghost packages: seq<Package>, ghost skipWait: bool) returns (success: bool)
      requires Valid(packages, skipWait) && Untroubled(ThisRun(log))
      requires forall p :: p in packages ==> Published(ThisRun(log), p)
      modifies `log
      ensures Valid(packages, skipWait) && Calls(log) == old(Calls(log)) && Extends(log, old(log))
      ensures ThisRun(log) == old(ThisRun(log)) + if success then [Tagged] else [Tagged, TagError]
      ensures forall p :: p in packages ==> VersionOf(p) in registry
    {
      hide Legal, Calls, ThisRun;
      PublishedIsHeld(packages, skipWait);
      Record(Tagged, packages, skipWait);
      success := *;
      if !success { Record(TagError, packages, skipWait); }
    }

    /** One run of the release. */
    method PublishAllPackages(packages: seq<Package>, options: Options, ghost skipWait: bool) returns (r: RunResult)
      requires UniqueNames(packages) && Valid(packages, skipWait) && (options.skipWait ==> skipWait)
      modifies this
      ensures Valid(packages, skipWait) && old(log) <= log && old(registry) <= registry
      // a cycle comes first, then a dry run; neither publishes anything
      ensures r.CycleFound? <==> exists c :: Cycle(ByName(packages), c)
      ensures r.DryRun? <==> options.dryRun && !exists c :: Cycle(ByName(packages), c)
      ensures options.dryRun || r.CycleFound? ==> log == old(log) && registry == old(registry)
      // any other run ends for the reason it names
      ensures !options.dryRun && !r.CycleFound? ==>
        log == old(log) + [RunStarted] + ThisRun(log) && EndsFor(r, ThisRun(log), clock, options.timeoutMs)
      // a run that gets as far as tagging leaves every version on the registry
      ensures r.Completed? || r.TagFailed? ==> forall p :: p in packages ==> VersionOf(p) in registry
      // unless an answer was out of date, a run publishes only what was missing, each package once,
      // and a run that gets as far as tagging has published exactly what was missing
      ensures !options.dryRun && !Stale(ThisRun(log)) ==>
        PublishesMissing(packages, old(registry), old(Calls(log)), Calls(log))
      ensures !Stale(ThisRun(log)) && (r.Completed? || r.TagFailed?) ==>
        forall p :: p in packages && VersionOf(p) !in old(registry) ==> p in Calls(log)[|old(Calls(log))|..]
    {
      hide *;
      NothingPublishedYet(packages, registry, Calls(log));
      var tiering := ComputeTiers(packages);
      if tiering.Cyclic? { return CycleFound; }
      if options.dryRun { return DryRun; }
      StartIsAllowed(packages, ThisRun(log), skipWait);
      Record(RunStarted, packages, skipWait);
      ghost var start := log;
      assert Calls(start) == old(Calls(log));
      r := PublishTiers(packages, tiering.tiers, options, skipWait);
      RunIs(start, log);
      Prefixes(old(log), RunStarted, start, log);
    }

    /** The tiers one after the other, then the tags. */
    method PublishTiers(packages: seq<Package>, tiers: seq<seq<Package>>, options: Options, ghost skipWait: bool)
      returns (r: RunResult)
      requires UniqueNames(packages) && WellTiered(packages, tiers) && (options.skipWait ==> skipWait)
      requires Valid(packages, skipWait) && ThisRun(log) == []
      modifies this
      ensures Valid(packages, skipWait) && Extends(log, old(log)) && old(registry) <= registry
      ensures EndsFor(r, ThisRun(log), clock, options.timeoutMs) && !r.DryRun? && !r.CycleFound?
      ensures r.Completed? || r.TagFailed? ==> forall p :: p in packages ==> VersionOf(p) in registry
      ensures !Stale(ThisRun(log)) ==> PublishesMissing(packages, old(registry), old(Calls(log)), Calls(log))
      ensures !Stale(ThisRun(log)) && (r.Completed? || r.TagFailed?) ==>
        forall p :: p in packages && VersionOf(p) !in old(registry) ==> p in Calls(log)[|old(Calls(log))|..]
    {
      hide *;
      ghost var start := log;
      RunStarts(packages, tiers, skipWait, registry, Calls(log));
      Same(start);
      for k := 0 to |tiers|
        invariant Valid(packages, skipWait) && Extends(log, start) && old(registry) <= registry
        invariant TiersDone(tiers, k, ThisRun(log), skipWait) && TiersAhead(tiers, k, ThisRun(log))
        invariant Untroubled(ThisRun(log))
        invariant !Stale(ThisRun(log)) ==>
          RunSoFar(packages, tiers, k, old(registry), registry, old(Calls(log)), Calls(log))
      {
        TierIsListed(packages, tiers, k, ThisRun(log));
        ghost var log0, registry0, calls := log, registry, Calls(log);
        var pending := FilterUnpublished(tiers[k], packages, skipWait);
        Later(start, log0, log);
        TierGoesOn(packages, tiers, k, log0, log, skipWait, Ask, tiers[k]);
        if pending.None? {
          if !Stale(ThisRun(log)) {
            RunIsMinimal(packages, tiers, k, old(registry), registry, old(Calls(log)), calls);
          }
          EndsReading(ThisRun(log0), ThisRun(log), tiers[k], clock, options.timeoutMs);
          return ReadFailed;
        }
        StillUntroubled(ThisRun(log0), ThisRun(log), Ask, tiers[k]);
        if pending.value == [] {
          TierDone(tiers, k, ThisRun(log), skipWait, []);
          if !Stale(ThisRun(log)) {
            RunNextTier(packages, tiers, k, old(registry), registry, old(Calls(log)), calls, [], registry);
            assert calls + [] == calls;
          }
          continue;
        }
        StillUntouched(tiers[k], pending.value, ThisRun(log0), ThisRun(log));
        TierMayStart(packages, tiers, k, ThisRun(log), skipWait, pending.value);
        NothingResolvedYet(packages, skipWait, pending.value);
        ghost var log1 := log;
        var results := PublishTier(pending.value, options.concurrency, packages, skipWait);
        Later(start, log1, log);
        TierGoesOn(packages, tiers, k, log1, log, skipWait, Publish, pending.value);
        if !Stale(ThisRun(log)) {
          RunNextTier(packages, tiers, k, old(registry), registry0, old(Calls(log)), calls, pending.value, registry);
          RunIsMinimal(packages, tiers, k + 1, old(registry), registry, old(Calls(log)), calls + pending.value);
        }
        if exists i :: 0 <= i < |results| && results[i].failed {
          EndsPublishing(ThisRun(log1), ThisRun(log), pending.value, results, clock, options.timeoutMs);
          return PublishFailed;
        }
        NoFailures(pending.value, results, ThisRun(log1), ThisRun(log));
        if k == |tiers| - 1 || options.skipWait {
          TierDone(tiers, k, ThisRun(log), skipWait, pending.value);
          continue;
        }
        ghost var log2 := log;
        NotYetResolved(ThisRun(log1), ThisRun(log2), pending.value);
        var resolved := WaitForPropagation(pending.value, options, packages, skipWait);
        Later(start, log2, log);
        TierGoesOn(packages, tiers, k, log2, log, skipWait, Await, pending.value);
        StillUntroubled(ThisRun(log2), ThisRun(log), Await, pending.value);
        if !resolved {
          EndsWaiting(ThisRun(log2), ThisRun(log), pending.value, clock, options.timeoutMs);
          return TimedOut;
        }
        TierDone(tiers, k, ThisRun(log), skipWait, pending.value);
      }
      AllTiersDone(packages, tiers, ThisRun(log), skipWait);
      if !Stale(ThisRun(log)) {
        RunIsMinimal(packages, tiers, |tiers|, old(registry), registry, old(Calls(log)), Calls(log));
        AllTiersPublished(packages, tiers, old(registry), registry, old(Calls(log)), Calls(log));
      }
      ghost var log3 := log;
      var tagged := RunChangesetTag(packages, skipWait);
      Later(start, log3, log);
      EndsTagging(ThisRun(log3), ThisRun(log), tagged, clock, options.timeoutMs);
      return if tagged then Completed else TagFailed;
    }

    /** Re-running: however many runs there are and however they end, each keeps to what it may do. The
        runs stop at the first one that completes. */
    method RunUntilDone(packages: seq<Package>, options: Options, attempts: nat) returns (done: bool)
      requires UniqueNames(packages) && Valid(packages, options.skipWait)
      modifies this
      ensures Valid(packages, options.skipWait) && old(log) <= log
      ensures done ==> forall p :: p in packages ==> VersionOf(p) in registry
    {
      hide *;
      done := false;
      for i := 0 to attempts
        invariant Valid(packages, options.skipWait) && old(log) <= log
      {
        var r := PublishAllPackages(packages, options, options.skipWait);
        if r.Completed? { return true; }
      }
    }
  }

  // ---------------------------------------------------------------- one run, tier by tier

  /** Package names come from the keys of a Map. */
  ghost predicate UniqueNames(packages: seq<Package>) {
    forall i, j :: 0 <= i < j < |packages| ==> packages[i].name != packages[j].name
  }

  ghost predicate NoDuplicates(s: seq<Package>) {
    forall i, j :: 0 <= i < j < |s| ==> s[i] != s[j]
  }

  /** The calls of this run, `calls` after `calls0`, are for distinct packages missing at its start. */
  ghost predicate PublishesMissing(packages: seq<Package>, registry0: set<Version>, calls0: seq<Package>,
                                   calls: seq<Package>)
  {
    && calls0 <= calls && NoDuplicates(calls[|calls0|..])
    && forall p :: p in calls[|calls0|..] ==> p in packages && VersionOf(p) !in registry0
  }

  ghost predicate InTierBelow(tiers: seq<seq<Package>>, k: nat, p: Package)
    requires k <= |tiers|
  {
    exists j :: 0 <= j < k && p in tiers[j]
  }

  /** The run knows the first `k` tiers to be published, and lets dependents of all but the last go ahead. */
  ghost predicate TiersDone(tiers: seq<seq<Package>>, k: nat, run: Log, skipWait: bool)
    requires k <= |tiers|
  {
    forall j, p :: 0 <= j < k && p in tiers[j] ==>
      Published(run, p) && (j < |tiers| - 1 ==> Ready(run, p, skipWait))
  }

  /** The run has not come to the tiers from `k` on. */
  ghost predicate TiersAhead(tiers: seq<seq<Package>>, k: nat, run: Log)
    requires k <= |tiers|
  {
    forall j :: k <= j < |tiers| ==> Untouched(run, tiers[j]) && Unasked(run, tiers[j])
  }

  /** Of the first `k` tiers, this run has published exactly what was missing, and nothing else. */
  ghost predicate RunSoFar(packages: seq<Package>, tiers: seq<seq<Package>>, k: nat,
                           registry0: set<Version>, registry: set<Version>, calls0: seq<Package>, calls: seq<Package>)
    requires k <= |tiers|
  {
    && PublishesMissing(packages, registry0, calls0, calls)
    && registry0 <= registry
    && (forall p :: p in calls[|calls0|..] ==> InTierBelow(tiers, k, p))
    && (forall p :: InTierBelow(tiers, k, p) && VersionOf(p) !in registry0 ==> p in calls[|calls0|..])
    && (forall v :: v in registry && v !in registry0 ==> exists p :: p in calls[|calls0|..] && v == VersionOf(p))
  }

  lemma RunStarts(packages: seq<Package>, tiers: seq<seq<Package>>, skipWait: bool,
                  registry: set<Version>, calls: seq<Package>)
    ensures TiersDone(tiers, 0, [], skipWait) && TiersAhead(tiers, 0, []) && Untroubled([])
    ensures RunSoFar(packages, tiers, 0, registry, registry, calls, calls)
  {
  }

  lemma StartIsAllowed(packages: seq<Package>, run: Log, skipWait: bool)
    ensures Allowed(packages, run, RunStarted, skipWait)
  {
  }

  /** What a run does to one tier leaves the other tiers as they were. */
  lemma TierGoesOn(packages: seq<Package>, tiers: seq<seq<Package>>, k: nat, before: Log, now: Log, skipWait: bool,
                   phase: Phase, about: seq<Package>)
    requires WellTiered(packages, tiers) && k < |tiers| && TiersDone(tiers, k, ThisRun(before), skipWait)
    requires TiersAhead(tiers, k, ThisRun(before)) || TiersAhead(tiers, k + 1, ThisRun(before))
    requires Extends(now, before) && OnlyAbout(ThisRun(now), ThisRun(before), phase, about)
    requires forall p :: p in about ==> p in tiers[k]
    ensures forall e :: e in ThisRun(before) ==> e in ThisRun(now)
    ensures Stale(ThisRun(before)) ==> Stale(ThisRun(now))
    ensures !phase.Ask? && Stale(ThisRun(now)) ==> Stale(ThisRun(before))
    ensures TiersDone(tiers, k, ThisRun(now), skipWait) && TiersAhead(tiers, k + 1, ThisRun(now))
  {
    hide WellTiered;
    assert forall e :: e in ThisRun(before) ==> e in ThisRun(now);
    forall j, p | 0 <= j < k && p in tiers[j]
      ensures Published(ThisRun(now), p) && (j < |tiers| - 1 ==> Ready(ThisRun(now), p, skipWait))
    {
      assert Published(ThisRun(before), p);
    }
    forall j, p | k + 1 <= j < |tiers| && p in tiers[j] 
      ensures Read(p) !in ThisRun(now) && Called(p) !in ThisRun(now) && !FoundMissing(ThisRun(now), p)
    {
      assert Untouched(ThisRun(before), tiers[j]) && Unasked(ThisRun(before), tiers[j]);
      if p in tiers[k] { TiersDisjoint(packages, tiers, k, j, p); }
    }
  }

  /** Of a tier just looked at, what was not found is still untouched. */
  lemma StillUntouched(tier: seq<Package>, pending: seq<Package>, before: Log, now: Log)
    requires Untouched(before, tier) && OnlyAbout(now, before, Ask, tier)
    requires forall p :: p in pending ==> p in tier && Read(p) !in now && FoundMissing(now, p)
    ensures Untouched(now, pending) && AllMissing(now, pending)
  {
  }

  /** While a tier is being published, its next package may be published. */
  lemma MayBePublished(packages: seq<Package>, pending: seq<Package>, next: nat, before: Log, now: Log, skipWait: bool)
    requires next < |pending| && NoDuplicates(pending) && Untouched(before, pending)
    requires (forall e :: e in before ==> e in now) && OnlyAbout(now, before, Publish, pending[..next])
    requires AllMissing(before, pending)
    requires PinsReady(packages, pending, before, skipWait)
    ensures Allowed(packages, now, Called(pending[next]), skipWait)
  {
    PinsStayReady(packages, pending, before, now, skipWait);
    assert pending[next] !in pending[..next];
  }

  lemma OneMoreCalled(pending: seq<Package>, next: nat, before: Log, now: Log)
    requires next < |pending| && OnlyAbout(now, before, Publish, pending[..next])
    requires forall p :: p in pending[..next] ==> Called(p) in now
    ensures pending[..next + 1] == pending[..next] + [pending[next]]
    ensures OnlyAbout(now + [Called(pending[next])], before, Publish, pending[..next + 1])
    ensures forall p :: p in pending[..next + 1] ==> Called(p) in now + [Called(pending[next])]
  {
  }

  lemma OneLanded(pending: seq<Package>, next: nat, p: Package, before: Log, now: Log, later: Log)
    requires next <= |pending| && p in pending[..next] && OnlyAbout(now, before, Publish, pending[..next])
    requires forall e :: e in later ==> e in now || e == Landed(p) || e == Failed(p)
    ensures OnlyAbout(later, before, Publish, pending[..next])
  {
  }

  lemma NothingPublishedYet(packages: seq<Package>, registry: set<Version>, calls: seq<Package>)
    ensures PublishesMissing(packages, registry, calls, calls)
  {
  }

  lemma RunIsMinimal(packages: seq<Package>, tiers: seq<seq<Package>>, k: nat,
                     registry0: set<Version>, registry: set<Version>, calls0: seq<Package>, calls: seq<Package>)
    requires k <= |tiers| && RunSoFar(packages, tiers, k, registry0, registry, calls0, calls)
    ensures PublishesMissing(packages, registry0, calls0, calls)
  {
  }

  /** A tier is done when what was missing landed and, unless it is the last, has resolved. */
  lemma TierDone(tiers: seq<seq<Package>>, k: nat, run: Log, skipWait: bool, pending: seq<Package>)
    requires k < |tiers| && TiersDone(tiers, k, run, skipWait)
    requires forall p :: p in tiers[k] && p !in pending ==> Read(p) in run
    requires forall p :: p in pending ==> Landed(p) in run
    requires k < |tiers| - 1 && !skipWait ==> forall p :: p in pending ==> Resolved(p) in run
    ensures TiersDone(tiers, k + 1, run, skipWait)
  {
  }

  lemma NoFailures(pending: seq<Package>, results: seq<PublishResult>, before: Log, run: Log)
    requires |results| == |pending| && !exists i :: 0 <= i < |results| && results[i].failed
    requires forall i :: 0 <= i < |pending| ==> Reported(pending[i], results[i], run)
    requires forall p :: Failed(p) in run && Failed(p) !in before ==>
      exists i :: 0 <= i < |pending| && pending[i] == p && results[i].failed
    requires Untroubled(before) && OnlyAbout(run, before, Publish, pending)
    ensures Untroubled(run) && forall p :: p in pending ==> Landed(p) in run
  {
  }

  lemma StillUntroubled(before: Log, run: Log, phase: Phase, about: seq<Package>)
    requires Untroubled(before) && OnlyAbout(run, before, phase, about) && !phase.Publish?
    requires phase.Ask? ==> forall p :: Unreadable(p) in run ==> Unreadable(p) in before
    ensures Untroubled(run)
  {
  }

  /** The events of a run are those since its start. */
  lemma RunIs(start: Log, now: Log)
    requires Extends(now, start) && ThisRun(start) == []
    ensures now == start + ThisRun(now)
  {
  }

  lemma Prefixes(before: Log, e: Event, start: Log, now: Log)
    requires start == before + [e] && now == start + ThisRun(now)
    ensures before <= now && now == before + [e] + ThisRun(now)
  {
  }

  /** Of a tier that is being published, nothing has resolved. */
  lemma NotYetResolved(before: Log, now: Log, pending: seq<Package>)
    requires OnlyAbout(now, before, Publish, pending) && forall p :: p in pending ==> Resolved(p) !in before
    ensures forall p :: p in pending ==> Resolved(p) !in now
  {
  }

  /** What is pending has not resolved since; the rest has resolved. */
  ghost predicate StillPending(before: Log, run: Log, published: seq<Package>, pending: set<Package>) {
    && (forall p :: p in published ==> Landed(p) in run)
    && (forall p :: p in pending ==> p in published && (Resolved(p) in run ==> Resolved(p) in before))
    && (forall p :: p in published && p !in pending ==> Resolved(p) in run)
  }

  lemma AllPending(before: Log, run: Log, published: seq<Package>)
    requires (forall p :: p in published ==> Landed(p) in before) && exists from :: run == before + [WaitStarted(from)]
    ensures StillPending(before, run, published, set p | p in published)
  {
  }

  lemma LessPending(before: Log, run: Log, now: Log, published: seq<Package>, pending: set<Package>, left: set<Package>)
    requires StillPending(before, run, published, pending) && left <= pending
    requires forall e :: e in run ==> e in now
    requires forall p :: p in pending ==>
      if p in left then Resolved(p) in now ==> Resolved(p) in run else Resolved(p) in now
    ensures StillPending(before, now, published, left)
  {
  }

  lemma StillStuck(before: Log, run: Log, published: seq<Package>, pending: set<Package>)
    requires StillPending(before, run, published, pending) && pending != {}
    requires forall p :: p in pending ==> Unresolved(p) in run
    ensures exists p :: p in published && Unresolved(p) in run && (Resolved(p) in run ==> Resolved(p) in before)
  {
    var p :| p in pending;
  }

  lemma NothingPending(before: Log, run: Log, published: seq<Package>)
    requires StillPending(before, run, published, {})
    ensures forall p :: p in published ==> Resolved(p) in run
  {
  }

  lemma WaitIsAllowed(packages: seq<Package>, run: Log, at: int, skipWait: bool)
    ensures Allowed(packages, run, WaitStarted(at), skipWait)
  {
  }

  lemma NothingNew(run: Log, about: seq<Package>)
    ensures OnlyAbout(run, run, Await, about)
  {
  }

  lemma WaitGoesOn(run: Log, now: Log, before: Log, published: seq<Package>)
    requires OnlyAbout(run, before, Await, published)
    requires forall e :: e in now ==>
      e in run || e.WaitStarted? || ((e.Resolved? || e.Unresolved?) && e.p in published)
    ensures OnlyAbout(now, before, Await, published)
  {
  }

  lemma EndsReading(before: Log, run: Log, tier: seq<Package>, clock: int, timeoutMs: int)
    requires Untroubled(before) && OnlyAbout(run, before, Ask, tier)
    requires exists p :: p in tier && Unreadable(p) in run
    ensures EndsFor(ReadFailed, run, clock, timeoutMs)
  {
  }

  lemma EndsPublishing(before: Log, run: Log, pending: seq<Package>, results: seq<PublishResult>, clock: int,
                       timeoutMs: int)
    requires Untroubled(before) && OnlyAbout(run, before, Publish, pending)
    requires |results| == |pending| && exists i :: 0 <= i < |results| && results[i].failed
    requires forall i :: 0 <= i < |pending| ==> Reported(pending[i], results[i], run)
    ensures EndsFor(PublishFailed, run, clock, timeoutMs)
  {
  }

  lemma EndsWaiting(before: Log, run: Log, pending: seq<Package>, clock: int, timeoutMs: int)
    requires Untroubled(run) && forall p :: p in pending ==> Landed(p) in run && Resolved(p) !in before
    requires exists p :: p in pending && Unresolved(p) in run && (Resolved(p) in run ==> Resolved(p) in before)
    requires exists from :: WaitStarted(from) in run && clock >= from + timeoutMs
    ensures EndsFor(TimedOut, run, clock, timeoutMs)
  {
  }

  lemma EndsTagging(before: Log, run: Log, tagged: bool, clock: int, timeoutMs: int)
    requires Untroubled(before) && run == before + if tagged then [Tagged] else [Tagged, TagError]
    ensures EndsFor(if tagged then Completed else TagFailed, run, clock, timeoutMs)
    ensures Stale(run) <==> Stale(before)
  {
  }

  lemma UniqueByName(packages: seq<Package>, p: Package)
    requires UniqueNames(packages) && p in packages
    ensures ByName(packages)[p.name] == p
    ensures forall q :: q in packages && q.name == p.name ==> q == p
  {
    hide ByName;
    assert p.name in ByName(packages);
  }

  lemma {:induction false} TierMembers(byName: map<string, Package>, packages: seq<Package>, k: nat)
    requires UniqueNames(packages)
    ensures NoDuplicates(OfDepth(byName, packages, k))
  {
    if packages != [] {
      var n := |packages| - 1;
      TierMembers(byName, packages[..n], k);
      assert packages[n] !in packages[..n];
    }
  }

  lemma TierIsListed(packages: seq<Package>, tiers: seq<seq<Package>>, k: nat, run: Log)
    requires UniqueNames(packages) && WellTiered(packages, tiers) && k < |tiers| && TiersAhead(tiers, k, run)
    ensures NoDuplicates(tiers[k]) && Untouched(run, tiers[k]) && Unasked(run, tiers[k])
  {
    TierMembers(ByName(packages), packages, k);
  }

  /** A package is in one tier only. */
  lemma TiersDisjoint(packages: seq<Package>, tiers: seq<seq<Package>>, i: nat, j: nat, p: Package)
    requires WellTiered(packages, tiers) && i < |tiers| && j < |tiers| && p in tiers[i] && p in tiers[j]
    ensures i == j && p in packages
  {
    DepthIsUnique(ByName(packages), p.name, i, j);
  }

  /** What the next tier depends on is done. */
  lemma TierMayStart(packages: seq<Package>, tiers: seq<seq<Package>>, k: nat, run: Log, skipWait: bool,
                     pending: seq<Package>)
    requires UniqueNames(packages) && WellTiered(packages, tiers) && k < |tiers| && TiersDone(tiers, k, run, skipWait)
    requires forall p :: p in pending ==> p in tiers[k]
    ensures PinsReady(packages, pending, run, skipWait)
  {
    hide WellTiered, ByName;
    forall p, d | p in pending && Pins(packages, p, d) ensures Ready(run, d, skipWait) {
      UniqueByName(packages, p);
      DependenciesInEarlierTiers(packages, tiers, k, p, d);
    }
  }

  lemma InSomeTier(packages: seq<Package>, tiers: seq<seq<Package>>, p: Package)
    requires WellTiered(packages, tiers) && p in packages
    ensures exists k :: 0 <= k < |tiers| && p in tiers[k]
  {
  }

  /** Every package is in a tier, so when all tiers are done nothing is missing. */
  lemma AllTiersDone(packages: seq<Package>, tiers: seq<seq<Package>>, run: Log, skipWait: bool)
    requires WellTiered(packages, tiers) && TiersDone(tiers, |tiers|, run, skipWait)
    ensures forall p :: p in packages ==> Published(run, p)
  {
    hide WellTiered, Published, Ready;
    forall p | p in packages ensures Published(run, p) { InSomeTier(packages, tiers, p); }
  }

  lemma AllTiersPublished(packages: seq<Package>, tiers: seq<seq<Package>>,
                          registry0: set<Version>, registry: set<Version>, calls0: seq<Package>, calls: seq<Package>)
    requires WellTiered(packages, tiers) && RunSoFar(packages, tiers, |tiers|, registry0, registry, calls0, calls)
    ensures forall p :: p in packages && VersionOf(p) !in registry0 ==> p in calls[|calls0|..]
  {
  }

  /** Publishing what does not read back from the next tier keeps a run minimal. */
  lemma RunNextTier(packages: seq<Package>, tiers: seq<seq<Package>>, k: nat, registry0: set<Version>,
                    registry: set<Version>,
                    calls0: seq<Package>, calls: seq<Package>, pending: seq<Package>, after: set<Version>)
    requires UniqueNames(packages) && WellTiered(packages, tiers) && k < |tiers|
    requires RunSoFar(packages, tiers, k, registry0, registry, calls0, calls)
    requires NoDuplicates(pending)
    requires forall p :: p in pending ==> p in tiers[k]
    requires forall p :: p in tiers[k] ==> (p in pending <==> VersionOf(p) !in registry)
    requires registry <= after
    requires forall v :: v in after && v !in registry ==> exists p :: p in pending && v == VersionOf(p)
    ensures RunSoFar(packages, tiers, k + 1, registry0, after, calls0, calls + pending)
  {
    hide WellTiered, ByName;
    var run, next := calls[|calls0|..], (calls + pending)[|calls0|..];
    assert next == run + pending;
    forall p | p in tiers[k]
      ensures p in packages && p !in run && (VersionOf(p) in registry ==> VersionOf(p) in registry0)
    {
      TiersDisjoint(packages, tiers, k, k, p);
      UniqueByName(packages, p);
      if p in run {
        var j :| 0 <= j < k && p in tiers[j];
        TiersDisjoint(packages, tiers, j, k, p);
      }
    }
    forall i, j | 0 <= i < j < |next| ensures next[i] != next[j] {
      if j < |run| {
        assert run[i] != run[j];
      } else if i < |run| {
        assert next[i] in run && next[j] in pending;
      } else {
        assert pending[i - |run|] != pending[j - |run|];
      }
    }
    forall p | InTierBelow(tiers, k + 1, p) ensures InTierBelow(tiers, k, p) || p in tiers[k] {
      var j :| 0 <= j < k + 1 && p in tiers[j];
    }
    forall p | p in next ensures InTierBelow(tiers, k + 1, p) {
      if p in run { assert InTierBelow(tiers, k, p); } else { assert p in tiers[k]; }
    }
    forall v | v in after && v !in registry0 ensures exists p :: p in next && v == VersionOf(p) {
      if v in registry {
        var p :| p in run && v == VersionOf(p);
        assert p in next;
      } else {
        var p :| p in pending && v == VersionOf(p);
        assert p in next;
      }
    }
  }
}
