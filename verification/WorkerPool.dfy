/** The bounded worker pool of `publishTier` (repos/workers-sdk/tools/deployments/publish-packages.ts).

    A worker runs without interruption between two awaits, so a run of the pool is a sequence of
    resumptions in an order nobody controls: `Start` is what happens before the first await, and
    `Resume` is what one worker does from the settling of its publish to its next await. */
module WorkerPool {
  import opened Wrappers

  /** Dropping the holes of a sparse array. */
  function Present<R>(results: seq<Option<R>>): seq<R> {
    if results == [] then []
    else Present(results[..|results| - 1]) +
         match results[|results| - 1] case Some(r) => [r] case None => []
  }

  /** Without holes nothing is dropped: result `i` still belongs to package `i`. */
  lemma {:induction false} NoHoles<R>(results: seq<Option<R>>)
    requires forall i :: 0 <= i < |results| ==> results[i].Some?
    ensures |Present(results)| == |results|
    ensures forall i :: 0 <= i < |results| ==> Some(Present(results)[i]) == results[i]
  {
    if results != [] { NoHoles(results[..|results| - 1]); }
  }

  class Pool<R> {
    const size: nat
    var next: nat
    var results: seq<Option<R>>
    /** For every worker, the index of the package whose publish it awaits. */
    var awaiting: seq<Option<nat>>
    /** The indices `publish` was called with, in the order of the calls. */
    ghost var calls: seq<nat>

    ghost predicate Valid()
      reads this
    {
      && |results| == size && next <= size
      // publish was called for the first `next` packages, once each, in order
      && calls == seq(next, i => i)
      // what is awaited was called and has not settled, and no two workers await the same
      && (forall w :: 0 <= w < |awaiting| && awaiting[w].Some? ==>
            awaiting[w].value < next && results[awaiting[w].value].None?)
      && (forall v, w :: 0 <= v < w < |awaiting| && awaiting[v].Some? ==> awaiting[v] != awaiting[w])
      // a call has settled or is awaited, and nothing settles without a call
      && (forall i :: 0 <= i < next && results[i].None? ==> Some(i) in awaiting)
      && (forall i :: next <= i < size ==> results[i].None?)
      // a worker stops only when nothing is left to take
      && (forall w :: 0 <= w < |awaiting| && awaiting[w].None? ==> next == size)
    }

    /** The calls that have not settled. */
    ghost function InFlight(): set<nat>
      reads this
    {
      set w | 0 <= w < |awaiting| && awaiting[w].Some? :: awaiting[w].value
    }

    ghost function Unsettled(): set<nat>
      reads this
    {
      set i | 0 <= i < |results| && results[i].None?
    }

    /** At no time are more publishes in flight than there are workers. */
    lemma Bounded()
      requires Valid()
      ensures |InFlight()| <= |awaiting|
    {
      BoundedUpTo(awaiting, |awaiting|);
      assert InFlight() == set w | 0 <= w < |awaiting| && awaiting[w].Some? :: awaiting[w].value;
    }

    static lemma {:induction false} BoundedUpTo(s: seq<Option<nat>>, n: nat)
      requires n <= |s|
      ensures |set w | 0 <= w < n && s[w].Some? :: s[w].value| <= n
    {
      if n > 0 {
        BoundedUpTo(s, n - 1);
        var smaller := set w | 0 <= w < n - 1 && s[w].Some? :: s[w].value;
        var whole := set w | 0 <= w < n && s[w].Some? :: s[w].value;
        if s[n - 1].Some? {
          assert whole == smaller + {s[n - 1].value};
        } else {
          assert whole == smaller;
        }
      }
    }

    /** All workers run up to their first await. */
    constructor Start(n: nat, concurrency: int)
      ensures Valid() && size == n
      ensures |awaiting| == Max(1, Min(concurrency, n))
      ensures next == Min(|awaiting|, n)
      ensures forall i :: 0 <= i < n ==> results[i].None?
    {
      var workers := Max(1, Min(concurrency, n));
      size := n;
      results := seq(n, _ => None);
      next := Min(workers, n);
      awaiting := seq(workers, w => if w < n then Some(w) else None);
      calls := seq(Min(workers, n), i => i);
      new;
      assert forall i :: 0 <= i < next ==> awaiting[i] == Some(i);
    }

    /** The publish awaited by worker `w` settles, and the worker runs up to its next await. */
    method Resume(w: nat, result: R)
      requires Valid() && w < |awaiting| && awaiting[w].Some?
      modifies this
      ensures Valid() && |awaiting| == |old(awaiting)|
      ensures results == old(results)[old(awaiting)[w].value := Some(result)]
      ensures next == Min(old(next) + 1, size)
      ensures calls == old(calls) + if old(next) < size then [old(next)] else []
      ensures awaiting == old(awaiting)[w := if old(next) < size then Some(old(next)) else None]
      ensures Unsettled() < old(Unsettled())
    {
      ghost var before := awaiting;
      var index := awaiting[w].value;
      results := results[index := Some(result)];
      if next < size {
        awaiting := awaiting[w := Some(next)];
        calls := calls + [next];
        next := next + 1;
      } else {
        awaiting := awaiting[w := None];
      }
      forall i | 0 <= i < next && results[i].None? ensures Some(i) in awaiting {
        if i == old(next) {
          assert awaiting[w] == Some(i);
        } else {
          var v :| 0 <= v < |before| && before[v] == Some(i);
          assert v != w;
          assert awaiting[v] == Some(i);
        }
      }
      assert index in old(Unsettled());
    }

    /** When every worker has stopped, every package was published exactly once and has its result. */
    lemma Complete()
      requires Valid() && |awaiting| >= 1 && forall w :: 0 <= w < |awaiting| ==> awaiting[w].None?
      ensures calls == seq(size, i => i)
      ensures forall i :: 0 <= i < size ==> results[i].Some?
    {
      assert awaiting[0].None?;
      assert forall i :: 0 <= i < next ==> Some(i) !in awaiting;
    }
  }
}
