/** Greedy longest-first assignment of test files to CI shards (repos/workers-sdk/tools/e2e/runIndividualE2EFiles.ts).

    Files are jobs, estimated durations are job sizes, shards are machines. An assignment is a
    sequence that gives, for every job in sorted order, the index of its shard. */
module Sharding {

  const DEFAULT_DURATION: nat := 30

  /** Looking a file up in the table of measured durations; unlisted files get the default. */
  function Duration(table: map<string, nat>, file: string): nat {
    if file in table then table[file] else DEFAULT_DURATION
  }

  function Durations(table: map<string, nat>, files: seq<string>): (p: seq<nat>)
    ensures |p| == |files|
  {
    seq(|files|, i requires 0 <= i < |files| => Duration(table, files[i]))
  }

  ghost predicate Descending(p: seq<nat>) {
    forall i, j :: 0 <= i < j < |p| ==> p[i] >= p[j]
  }

  // ---------------------------------------------------------------- sorting

  /** Insertion behind every entry that is at least as long, which keeps the sort stable. */
  function Insert(table: map<string, nat>, sorted: seq<string>, file: string): (r: seq<string>)
    requires Descending(Durations(table, sorted))
    ensures Descending(Durations(table, r))
    ensures multiset(r) == multiset(sorted) + multiset{file} && |r| == |sorted| + 1
  {
    if sorted == [] then [file]
    else
      var n := |sorted| - 1;
      assert sorted == sorted[..n] + [sorted[n]];
      if Duration(table, sorted[n]) >= Duration(table, file) then
        AppendKeepsOrder(table, sorted, file);
        sorted + [file]
      else
        assert Descending(Durations(table, sorted[..n])) by {
          assert forall i | 0 <= i < n :: Durations(table, sorted[..n])[i] == Durations(table, sorted)[i];
        }
        var r := Insert(table, sorted[..n], file);
        InsertKeepsLast(table, sorted, file, r);
        r + [sorted[n]]
  }

  lemma AppendKeepsOrder(table: map<string, nat>, sorted: seq<string>, file: string)
    requires Descending(Durations(table, sorted))
    requires sorted != [] ==> Duration(table, sorted[|sorted| - 1]) >= Duration(table, file)
    ensures Descending(Durations(table, sorted + [file]))
  {
    var p, q := Durations(table, sorted), Durations(table, sorted + [file]);
    forall i, j | 0 <= i < j < |q| ensures q[i] >= q[j] {
      assert q[i] == p[i];
      if j < |p| { assert p[i] >= p[j]; } else { assert p[i] >= p[|p| - 1]; }
    }
  }

  lemma InsertKeepsLast(table: map<string, nat>, sorted: seq<string>, file: string, r: seq<string>)
    requires sorted != [] && Descending(Durations(table, sorted))
    requires Duration(table, sorted[|sorted| - 1]) < Duration(table, file)
    requires multiset(r) == multiset(sorted[..|sorted| - 1]) + multiset{file}
    requires Descending(Durations(table, r))
    ensures Descending(Durations(table, r + [sorted[|sorted| - 1]]))
  {
    var n := |sorted| - 1;
    forall i | 0 <= i < |r|
      ensures Duration(table, r[i]) >= Duration(table, sorted[n])
    {
      assert r[i] in multiset(r);
      if r[i] != file {
        assert r[i] in sorted[..n];
        var k :| 0 <= k < n && sorted[k] == r[i];
        assert Durations(table, sorted)[k] >= Durations(table, sorted)[n];
      }
    }
    AppendKeepsOrder(table, r, sorted[n]);
  }

  function SortByDuration(table: map<string, nat>, files: seq<string>): (r: seq<string>)
    ensures Descending(Durations(table, r))
    ensures multiset(r) == multiset(files) && |r| == |files|
  {
    if files == [] then []
    else
      assert files == files[..|files| - 1] + [files[|files| - 1]];
      Insert(table, SortByDuration(table, files[..|files| - 1]), files[|files| - 1])
  }

  // ---------------------------------------------------------------- loads

  /** The size that the first `k` jobs put on shard `s`. */
  function Load(a: seq<nat>, p: seq<nat>, s: nat, k: nat): nat
    requires k <= |a| && k <= |p|
  {
    if k == 0 then 0 else Load(a, p, s, k - 1) + if a[k - 1] == s then p[k - 1] else 0
  }

  function SumTo(p: seq<nat>, k: nat): nat
    requires k <= |p|
  {
    if k == 0 then 0 else SumTo(p, k - 1) + p[k - 1]
  }

  /** The loads of shards `0..m` added up. */
  function TotalLoad(a: seq<nat>, p: seq<nat>, m: nat, k: nat): nat
    requires k <= |a| == |p|
  {
    if m == 0 then 0 else TotalLoad(a, p, m - 1, k) + Load(a, p, m - 1, k)
  }

  ghost predicate Assignment(a: seq<nat>, p: seq<nat>, m: nat) {
    |a| == |p| && forall i :: 0 <= i < |a| ==> a[i] < m
  }

  /** Every shard of assignment `b` finishes within `c`. */
  ghost predicate FitsWithin(b: seq<nat>, p: seq<nat>, m: nat, c: nat) {
    Assignment(b, p, m) && forall s :: 0 <= s < m ==> Load(b, p, s, |p|) <= c
  }

  /** Job `k` went to the first shard whose load was then the lowest. */
  ghost predicate GreedyChoice(a: seq<nat>, p: seq<nat>, m: nat, k: nat)
    requires k < |a| <= |p|
  {
    && a[k] < m
    && (forall s :: 0 <= s < m ==> Load(a, p, a[k], k) <= Load(a, p, s, k))
    && (forall s :: 0 <= s < a[k] ==> Load(a, p, a[k], k) < Load(a, p, s, k))
  }

  /** Every job placed so far was placed greedily. */
  ghost predicate Greedy(a: seq<nat>, p: seq<nat>, m: nat) {
    |a| <= |p| && forall k :: 0 <= k < |a| ==> GreedyChoice(a, p, m, k)
  }

  lemma {:induction false} LoadDependsOnPrefix(a: seq<nat>, b: seq<nat>, p: seq<nat>, s: nat, k: nat)
    requires k <= |a| && k <= |b| && k <= |p| && a[..k] == b[..k]
    ensures Load(a, p, s, k) == Load(b, p, s, k)
  {
    if k > 0 {
      assert a[..k - 1] == a[..k][..k - 1] && b[..k - 1] == b[..k][..k - 1] && a[k - 1] == a[..k][k - 1];
      LoadDependsOnPrefix(a, b, p, s, k - 1);
    }
  }

  lemma {:induction false} LoadMonotone(a: seq<nat>, p: seq<nat>, s: nat, j: nat, k: nat)
    requires j <= k <= |a| == |p|
    ensures Load(a, p, s, j) <= Load(a, p, s, k)
  {
    if j < k { LoadMonotone(a, p, s, j, k - 1); }
  }

  lemma {:induction false} TotalLoadStep(a: seq<nat>, p: seq<nat>, m: nat, k: nat)
    requires k < |a| == |p|
    ensures TotalLoad(a, p, m, k + 1) == TotalLoad(a, p, m, k) + if a[k] < m then p[k] else 0
  {
    if m > 0 { TotalLoadStep(a, p, m - 1, k); }
  }

  /** Conservation: no job is lost or counted twice, whatever the assignment. */
  lemma {:induction false} LoadsAddUp(a: seq<nat>, p: seq<nat>, m: nat, k: nat)
    requires Assignment(a, p, m) && k <= |p|
    ensures TotalLoad(a, p, m, k) == SumTo(p, k)
  {
    if k == 0 {
      NothingLoaded(a, p, m);
    } else {
      LoadsAddUp(a, p, m, k - 1);
      TotalLoadStep(a, p, m, k - 1);
    }
  }

  lemma {:induction false} NothingLoaded(a: seq<nat>, p: seq<nat>, m: nat)
    requires |a| == |p|
    ensures TotalLoad(a, p, m, 0) == 0
  {
    if m > 0 { NothingLoaded(a, p, m - 1); }
  }

  lemma {:induction false} TotalLoadAtLeast(a: seq<nat>, p: seq<nat>, m: nat, k: nat, low: nat)
    requires k <= |a| == |p|
    requires forall s :: 0 <= s < m ==> low <= Load(a, p, s, k)
    ensures m * low <= TotalLoad(a, p, m, k)
  {
    if m > 0 {
      TotalLoadAtLeast(a, p, m - 1, k, low);
      assert m * low == (m - 1) * low + low;
    }
  }

  lemma {:induction false} TotalLoadAtMost(a: seq<nat>, p: seq<nat>, m: nat, k: nat, high: nat)
    requires k <= |a| == |p|
    requires forall s :: 0 <= s < m ==> Load(a, p, s, k) <= high
    ensures TotalLoad(a, p, m, k) <= m * high
  {
    if m > 0 {
      TotalLoadAtMost(a, p, m - 1, k, high);
      assert m * high == (m - 1) * high + high;
    }
  }

  /** No schedule beats the average load or the longest of its jobs. */
  lemma ScheduleLowerBounds(b: seq<nat>, p: seq<nat>, m: nat, c: nat, k: nat)
    requires FitsWithin(b, p, m, c) && k <= |p|
    ensures SumTo(p, k) <= m * c
    ensures forall i :: 0 <= i < |p| ==> p[i] <= c
  {
    forall s | 0 <= s < m ensures Load(b, p, s, k) <= c { LoadMonotone(b, p, s, k, |p|); }
    TotalLoadAtMost(b, p, m, k, c);
    LoadsAddUp(b, p, m, k);
    forall i | 0 <= i < |p| ensures p[i] <= c {
      LoadMonotone(b, p, b[i], i + 1, |p|);
    }
  }

  /** `j` is the last job that assignment `a` gives to its shard. */
  ghost predicate LastOnShard(a: seq<nat>, j: nat) {
    j < |a| && forall i :: j < i < |a| ==> a[i] != a[j]
  }

  lemma {:induction false} LoadFixedAfter(a: seq<nat>, p: seq<nat>, j: nat, k: nat)
    requires LastOnShard(a, j) && j < k <= |a| == |p|
    ensures Load(a, p, a[j], k) == Load(a, p, a[j], j) + p[j]
  {
    if k > j + 1 { LoadFixedAfter(a, p, j, k - 1); }
  }

  lemma GreedyIsAssignment(a: seq<nat>, p: seq<nat>, m: nat)
    requires Greedy(a, p, m) && |a| == |p|
    ensures Assignment(a, p, m)
  {
    forall i | 0 <= i < |a| ensures a[i] < m { assert GreedyChoice(a, p, m, i); }
  }

  lemma AddLast(m: nat, low: nat, last: nat, sum: nat, total: nat, all: nat)
    requires m >= 1 && m * low <= sum && total == low + last && all == sum + last
    ensures m * total <= all + (m - 1) * last
  {
  }

  /** The chosen shard is no fuller than the average of what was placed so far. */
  lemma ChosenBelowAverage(a: seq<nat>, p: seq<nat>, m: nat, j: nat)
    requires Greedy(a, p, m) && j < |a| == |p|
    ensures m * Load(a, p, a[j], j) <= SumTo(p, j)
  {
    assert GreedyChoice(a, p, m, j);
    TotalLoadAtLeast(a, p, m, j, Load(a, p, a[j], j));
    GreedyIsAssignment(a, p, m);
    LoadsAddUp(a, p, m, j);
  }

  /** The greedy bound: m times a shard's total is at most the sum of all jobs up to its last
      one plus m - 1 times that last job. It holds in whatever order the jobs come. */
  lemma GreedyBound(a: seq<nat>, p: seq<nat>, m: nat, j: nat)
    requires Greedy(a, p, m) && |a| == |p| && LastOnShard(a, j)
    ensures m * Load(a, p, a[j], |p|) <= SumTo(p, j + 1) + (m - 1) * p[j]
  {
    hide Load;
    GreedyIsAssignment(a, p, m);
    hide Greedy;
    ChosenBelowAverage(a, p, m, j);
    LoadFixedAfter(a, p, j, |p|);
    AddLast(m, Load(a, p, a[j], j), p[j], SumTo(p, j), Load(a, p, a[j], |p|), SumTo(p, j + 1));
  }

  lemma {:induction false} FindLastOnShard(a: seq<nat>, p: seq<nat>, s: nat, k: nat) returns (j: nat)
    requires k <= |a| == |p| && Load(a, p, s, k) > 0
    requires forall i :: k <= i < |a| ==> a[i] != s
    ensures LastOnShard(a, j) && a[j] == s
  {
    if a[k - 1] == s { j := k - 1; } else { j := FindLastOnShard(a, p, s, k - 1); }
  }

  // ---------------------------------------------------------------- Graham's bounds

  lemma TwiceBound(m: nat, t: nat, sum: nat, last: nat, c: nat)
    requires m >= 1 && m * t <= sum + (m - 1) * last && sum <= m * c && last <= c
    ensures m * t <= (2 * m - 1) * c
  {
  }

  lemma ThirdBound(m: nat, t: nat, sum: nat, last: nat, c: nat)
    requires m >= 1 && m * t <= sum + (m - 1) * last && sum <= m * c && 3 * last <= c
    ensures 3 * m * t <= (4 * m - 1) * c
  {
  }

  lemma FitsBound(m: nat, t: nat, c: nat)
    requires m >= 1 && t <= c
    ensures 3 * m * t <= (4 * m - 1) * c
  {
  }

  /** In any order, the heaviest greedy shard is within 2 - 1/m of every alternative. */
  lemma GreedyWithinTwice(a: seq<nat>, p: seq<nat>, m: nat, s: nat, b: seq<nat>, c: nat)
    requires Greedy(a, p, m) && |a| == |p| && s < m && FitsWithin(b, p, m, c)
    ensures m * Load(a, p, s, |p|) <= (2 * m - 1) * c
  {
    var t := Load(a, p, s, |p|);
    if t == 0 {
      TwiceBound(m, t, 0, 0, c);
    } else {
      var j := FindLastOnShard(a, p, s, |p|);
      GreedyBound(a, p, m, j);
      ScheduleLowerBounds(b, p, m, c, j + 1);
      TwiceBound(m, t, SumTo(p, j + 1), p[j], c);
    }
  }

  /** A job that leaves no room for another job of size `last` within `c` weighs 2, others 1. */
  function Weights(p: seq<nat>, c: nat, last: nat): (w: seq<nat>)
    ensures |w| == |p|
    ensures forall i :: 0 <= i < |p| ==> w[i] == if p[i] + last > c then 2 else 1
  {
    seq(|p|, i requires 0 <= i < |p| => if p[i] + last > c then 2 else 1)
  }

  /** When every job exceeds c/3, a shard that fits within `c` weighs at most 2. */
  lemma {:induction false} FittingShardWeight(b: seq<nat>, p: seq<nat>, c: nat, last: nat, s: nat, k: nat)
    requires k <= |b| == |p| && 3 * last > c
    requires forall i :: 0 <= i < k ==> last <= p[i]
    ensures var w := Load(b, Weights(p, c, last), s, k);
            var l := Load(b, p, s, k);
            && (w >= 1 ==> l >= last)
            && (w >= 2 ==> l + last > c)
            && (w >= 3 ==> l > c)
  {
    if k > 0 { FittingShardWeight(b, p, c, last, s, k - 1); }
  }

  /** A shard with no room left for a job of size `last` weighs at least 2. */
  lemma {:induction false} FullShardWeight(a: seq<nat>, p: seq<nat>, c: nat, last: nat, s: nat, k: nat)
    requires k <= |a| == |p| && last <= c
    ensures var w := Load(a, Weights(p, c, last), s, k);
            var l := Load(a, p, s, k);
            && (w == 0 ==> l == 0)
            && (w == 1 ==> l + last <= c)
  {
    if k > 0 { FullShardWeight(a, p, c, last, s, k - 1); }
  }

  /** If the job `j` is longer than a third of `c` and no earlier job is shorter, greedy placed it
      without exceeding `c`: otherwise the weights of the jobs would be at least 2m + 1 counted by
      greedy's shards and at most 2m counted by the shards that fit. */
  lemma LongJobsFit(a: seq<nat>, p: seq<nat>, m: nat, j: nat, b: seq<nat>, c: nat)
    requires Greedy(a, p, m) && j < |a| == |p| && FitsWithin(b, p, m, c)
    requires 3 * p[j] > c && forall i :: 0 <= i < j ==> p[j] <= p[i]
    ensures Load(a, p, a[j], j) + p[j] <= c
  {
    assert GreedyChoice(a, p, m, j);
    ScheduleLowerBounds(b, p, m, c, 0);
    if Load(a, p, a[j], j) + p[j] > c {
      GreedyIsAssignment(a, p, m);
      HeavyWithoutRoom(a, p, m, j, c);
      LightIfFitting(b, p, m, j, c);
      assert false;
    }
  }

  lemma HeavyWithoutRoom(a: seq<nat>, p: seq<nat>, m: nat, j: nat, c: nat)
    requires Assignment(a, p, m) && j < |p| && p[j] <= c
    requires forall s :: 0 <= s < m ==> Load(a, p, s, j) + p[j] > c
    ensures SumTo(Weights(p, c, p[j]), j) >= m * 2
  {
    var w := Weights(p, c, p[j]);
    forall s: nat | s < m ensures 2 <= Load(a, w, s, j) { FullShardWeight(a, p, c, p[j], s, j); }
    TotalLoadAtLeast(a, w, m, j, 2);
    LoadsAddUp(a, w, m, j);
  }

  lemma LightIfFitting(b: seq<nat>, p: seq<nat>, m: nat, j: nat, c: nat)
    requires FitsWithin(b, p, m, c) && j < |p|
    requires 3 * p[j] > c && forall i :: 0 <= i < j ==> p[j] <= p[i]
    ensures SumTo(Weights(p, c, p[j]), j + 1) <= m * 2
  {
    var w, k := Weights(p, c, p[j]), j + 1;
    forall s: nat | s < m ensures Load(b, w, s, k) <= 2 {
      FittingShardWeight(b, p, c, p[j], s, k);
      LoadMonotone(b, p, s, k, |p|);
    }
    TotalLoadAtMost(b, w, m, k, 2);
    LoadsAddUp(b, w, m, k);
  }

  /** Longest first, the heaviest shard is within 4/3 - 1/(3m) of every alternative. */
  lemma LongestFirstWithinFourThirds(a: seq<nat>, p: seq<nat>, m: nat, s: nat, b: seq<nat>, c: nat)
    requires Greedy(a, p, m) && |a| == |p| && Descending(p) && s < m && FitsWithin(b, p, m, c)
    ensures 3 * m * Load(a, p, s, |p|) <= (4 * m - 1) * c
  {
    var t := Load(a, p, s, |p|);
    if t == 0 {
      FitsBound(m, t, c);
    } else {
      var j := FindLastOnShard(a, p, s, |p|);
      if 3 * p[j] > c {
        LongJobsFit(a, p, m, j, b, c);
        LoadFixedAfter(a, p, j, |p|);
        FitsBound(m, t, c);
      } else {
        GreedyBound(a, p, m, j);
        ScheduleLowerBounds(b, p, m, c, j + 1);
        ThirdBound(m, t, SumTo(p, j + 1), p[j], c);
      }
    }
  }

  // ---------------------------------------------------------------- the loop

  /** The files that assignment `a` sends to shard `s`, in the order they were assigned. */
  function FilesOf(files: seq<string>, a: seq<nat>, s: nat, k: nat): seq<string>
    requires k <= |a| && k <= |files|
  {
    if k == 0 then [] else FilesOf(files, a, s, k - 1) + if a[k - 1] == s then [files[k - 1]] else []
  }

  lemma {:induction false} FilesOfDependsOnPrefix(files: seq<string>, a: seq<nat>, b: seq<nat>, s: nat, k: nat)
    requires k <= |a| && k <= |b| && k <= |files| && a[..k] == b[..k]
    ensures FilesOf(files, a, s, k) == FilesOf(files, b, s, k)
  {
    if k > 0 {
      assert a[..k - 1] == a[..k][..k - 1] && b[..k - 1] == b[..k][..k - 1] && a[k - 1] == a[..k][k - 1];
      FilesOfDependsOnPrefix(files, a, b, s, k - 1);
    }
  }

  lemma {:induction false} SumDependsOnPrefix(p: seq<nat>, q: seq<nat>, k: nat)
    requires k <= |p| && k <= |q| && p[..k] == q[..k]
    ensures SumTo(p, k) == SumTo(q, k)
  {
    if k > 0 {
      assert p[..k - 1] == p[..k][..k - 1] && q[..k - 1] == q[..k][..k - 1] && p[k - 1] == p[..k][k - 1];
      SumDependsOnPrefix(p, q, k - 1);
    }
  }

  /** The load of a shard is the total duration of the files on it. */
  lemma {:induction false} TotalIsLength(table: map<string, nat>, files: seq<string>, a: seq<nat>, s: nat, k: nat)
    requires k <= |a| == |files|
    ensures var mine := FilesOf(files, a, s, k);
            SumTo(Durations(table, mine), |mine|) == Load(a, Durations(table, files), s, k)
  {
    if k > 0 {
      TotalIsLength(table, files, a, s, k - 1);
      var before, mine := FilesOf(files, a, s, k - 1), FilesOf(files, a, s, k);
      assert Durations(table, mine)[..|before|] == Durations(table, before)[..|before|];
      SumDependsOnPrefix(Durations(table, mine), Durations(table, before), |before|);
    }
  }

  /** Everything on the given shards. */
  function Gathered(shards: seq<seq<string>>): multiset<string> {
    if shards == [] then multiset{} else Gathered(shards[..|shards| - 1]) + multiset(shards[|shards| - 1])
  }

  lemma {:induction false} GatherOneMore(shards: seq<seq<string>>, i: nat, file: string)
    requires i < |shards|
    ensures Gathered(shards[i := shards[i] + [file]]) == Gathered(shards) + multiset{file}
  {
    var n := |shards| - 1;
    var grown := shards[i := shards[i] + [file]];
    if i < n {
      GatherOneMore(shards[..n], i, file);
      assert grown[..n] == shards[..n][i := shards[i] + [file]];
    } else {
      assert grown[..n] == shards[..n];
    }
  }

  lemma {:induction false} NothingGathered(shards: seq<seq<string>>)
    requires forall s :: 0 <= s < |shards| ==> shards[s] == []
    ensures Gathered(shards) == multiset{}
  {
    if shards != [] { NothingGathered(shards[..|shards| - 1]); }
  }

  lemma GreedyExtends(a: seq<nat>, p: seq<nat>, m: nat, totals: seq<nat>, next: nat)
    requires Greedy(a, p, m) && |a| < |p| && next < m == |totals|
    requires forall s :: 0 <= s < m ==> totals[s] == Load(a, p, s, |a|)
    requires forall s :: 0 <= s < m ==> totals[next] <= totals[s]
    requires forall s :: 0 <= s < next ==> totals[next] < totals[s]
    ensures Greedy(a + [next], p, m)
    ensures forall s :: 0 <= s < m ==>
      Load(a + [next], p, s, |a| + 1) == if s == next then totals[s] + p[|a|] else totals[s]
  {
    hide GreedyChoice, Load;
    var b := a + [next];
    forall k | 0 <= k < |b| ensures GreedyChoice(b, p, m, k) {
      if k < |a| {
        ChoiceStays(a, next, p, m, k);
      } else {
        ChoiceOfLightest(a, next, p, m, totals);
      }
    }
    forall s: nat | s < m
      ensures Load(b, p, s, |a| + 1) == if s == next then totals[s] + p[|a|] else totals[s]
    {
      LoadOneMore(a, next, p, s);
    }
  }

  lemma LoadOneMore(a: seq<nat>, next: nat, p: seq<nat>, s: nat)
    requires |a| < |p|
    ensures Load(a + [next], p, s, |a|) == Load(a, p, s, |a|)
    ensures Load(a + [next], p, s, |a| + 1) == Load(a, p, s, |a|) + if s == next then p[|a|] else 0
  {
    LoadDependsOnPrefix(a + [next], a, p, s, |a|);
  }

  lemma ChoiceStays(a: seq<nat>, next: nat, p: seq<nat>, m: nat, k: nat)
    requires k < |a| < |p| && GreedyChoice(a, p, m, k)
    ensures GreedyChoice(a + [next], p, m, k)
  {
    var b := a + [next];
    forall s: nat ensures Load(b, p, s, k) == Load(a, p, s, k) {
      assert b[..k] == a[..k];
      LoadDependsOnPrefix(b, a, p, s, k);
    }
  }

  lemma ChoiceOfLightest(a: seq<nat>, next: nat, p: seq<nat>, m: nat, totals: seq<nat>)
    requires |a| < |p| && next < m == |totals|
    requires forall s :: 0 <= s < m ==> totals[s] == Load(a, p, s, |a|)
    requires forall s :: 0 <= s < m ==> totals[next] <= totals[s]
    requires forall s :: 0 <= s < next ==> totals[next] < totals[s]
    ensures GreedyChoice(a + [next], p, m, |a|)
  {
    forall s: nat | s < m ensures Load(a + [next], p, s, |a|) == totals[s] { LoadOneMore(a, next, p, s); }
  }

  lemma FilesOfExtends(files: seq<string>, a: seq<nat>, shards: seq<seq<string>>, next: nat)
    requires |a| < |files| && next < |shards|
    requires forall s :: 0 <= s < |shards| ==> shards[s] == FilesOf(files, a, s, |a|)
    ensures var grown := shards[next := shards[next] + [files[|a|]]];
            forall s :: 0 <= s < |shards| ==> grown[s] == FilesOf(files, a + [next], s, |a| + 1)
  {
    var b, n := a + [next], |a|;
    forall s: nat ensures FilesOf(files, b, s, n) == FilesOf(files, a, s, n) {
      assert b[..n] == a[..n];
      FilesOfDependsOnPrefix(files, b, a, s, n);
    }
  }

  /** No assignment whatsoever finishes much earlier than one whose shards total `totals`. */
  ghost predicate NearOptimal(totals: seq<nat>, p: seq<nat>) {
    forall s, b, c :: 0 <= s < |totals| && FitsWithin(b, p, |totals|, c) ==>
      3 * |totals| * totals[s] <= (4 * |totals| - 1) * c
  }

  lemma GreedyIsNearOptimal(a: seq<nat>, p: seq<nat>, totals: seq<nat>)
    requires Greedy(a, p, |totals|) && |a| == |p| && Descending(p)
    requires forall s :: 0 <= s < |totals| ==> totals[s] == Load(a, p, s, |p|)
    ensures NearOptimal(totals, p)
  {
    forall s, b, c | 0 <= s < |totals| && FitsWithin(b, p, |totals|, c)
      ensures 3 * |totals| * totals[s] <= (4 * |totals| - 1) * c
    {
      LongestFirstWithinFourThirds(a, p, |totals|, s, b, c);
    }
  }

  /** The shard with the lowest total duration, the first of them on a tie. */
  method LightestShard(shardTotals: array<nat>) returns (minIdx: nat)
    requires shardTotals.Length >= 1
    ensures minIdx < shardTotals.Length
    ensures forall s :: 0 <= s < shardTotals.Length ==> shardTotals[minIdx] <= shardTotals[s]
    ensures forall s :: 0 <= s < minIdx ==> shardTotals[minIdx] < shardTotals[s]
  {
    minIdx := 0;
    for i := 1 to shardTotals.Length
      invariant minIdx < i
      invariant forall s :: 0 <= s < i ==> shardTotals[minIdx] <= shardTotals[s]
      invariant forall s :: 0 <= s < minIdx ==> shardTotals[minIdx] < shardTotals[s]
    {
      if shardTotals[i] < shardTotals[minIdx] {
        minIdx := i;
      }
    }
  }

  /** Where every file went, what every shard holds and how long it takes. */
  ghost predicate Assigned(shards: seq<seq<string>>, totals: seq<nat>, a: seq<nat>, files: seq<string>, p: seq<nat>)
    requires |a| <= |files| == |p|
  {
    && |shards| == |totals|
    && Greedy(a, p, |totals|)
    && (forall s :: 0 <= s < |totals| ==> totals[s] == Load(a, p, s, |a|))
    && (forall s :: 0 <= s < |shards| ==> shards[s] == FilesOf(files, a, s, |a|))
  }

  lemma NothingAssigned(shards: seq<seq<string>>, totals: seq<nat>, files: seq<string>, p: seq<nat>)
    requires |shards| == |totals| && |files| == |p|
    requires forall s :: 0 <= s < |shards| ==> shards[s] == [] && totals[s] == 0
    ensures Assigned(shards, totals, [], files, p) && Gathered(shards) == multiset(files[..0])
  {
    NothingGathered(shards);
  }

  lemma AssignOneMore(shards: seq<seq<string>>, totals: seq<nat>, a: seq<nat>, files: seq<string>, p: seq<nat>, i: nat)
    requires |a| < |files| == |p| && Assigned(shards, totals, a, files, p)
    requires i < |totals| && forall s :: 0 <= s < |totals| ==> totals[i] <= totals[s]
    requires forall s :: 0 <= s < i ==> totals[i] < totals[s]
    ensures Assigned(shards[i := shards[i] + [files[|a|]]], totals[i := totals[i] + p[|a|]], a + [i], files, p)
  {
    GreedyExtends(a, p, |totals|, totals, i);
    FilesOfExtends(files, a, shards, i);
  }

  lemma GatherNext(shards: seq<seq<string>>, files: seq<string>, n: nat, i: nat)
    requires n < |files| && i < |shards| && Gathered(shards) == multiset(files[..n])
    ensures Gathered(shards[i := shards[i] + [files[n]]]) == multiset(files[..n + 1])
  {
    GatherOneMore(shards, i, files[n]);
    assert files[..n + 1] == files[..n] + [files[n]];
  }

  /** Give one file to the lightest shard. */
  method AssignFile(shards: array<seq<string>>, shardTotals: array<nat>, table: map<string, nat>, file: string)
    returns (minIdx: nat)
    requires shards.Length == shardTotals.Length >= 1
    modifies shards, shardTotals
    ensures minIdx < shards.Length
    ensures forall s :: 0 <= s < shards.Length ==> old(shardTotals[minIdx]) <= old(shardTotals[s])
    ensures forall s :: 0 <= s < minIdx ==> old(shardTotals[minIdx]) < old(shardTotals[s])
    ensures shards[..] == old(shards[..])[minIdx := old(shards[minIdx]) + [file]]
    ensures shardTotals[..] == old(shardTotals[..])[minIdx := old(shardTotals[minIdx]) + Duration(table, file)]
  {
    minIdx := LightestShard(shardTotals);
    shards[minIdx] := shards[minIdx] + [file];
    shardTotals[minIdx] := shardTotals[minIdx] + Duration(table, file);
  }

  /** The sharding loop over the sorted files. `a` records, as a ghost, where each of them went. */
  method AssignSorted(table: map<string, nat>, sorted: seq<string>, shards: array<seq<string>>, shardTotals: array<nat>)
    returns (ghost a: seq<nat>)
    requires shards.Length == shardTotals.Length >= 1
    requires forall s :: 0 <= s < shards.Length ==> shards[s] == [] && shardTotals[s] == 0
    modifies shards, shardTotals
    ensures |a| == |sorted| && Assigned(shards[..], shardTotals[..], a, sorted, Durations(table, sorted))
    ensures Gathered(shards[..]) == multiset(sorted)
  {
    hide Assigned, Gathered;
    ghost var p := Durations(table, sorted);
    a := [];
    NothingAssigned(shards[..], shardTotals[..], sorted, p);
    for n := 0 to |sorted|
      invariant |a| == n && Assigned(shards[..], shardTotals[..], a, sorted, p)
      invariant Gathered(shards[..]) == multiset(sorted[..n])
    {
      ghost var before, totals := shards[..], shardTotals[..];
      var minIdx := AssignFile(shards, shardTotals, table, sorted[n]);
      AssignOneMore(before, totals, a, sorted, p, minIdx);
      GatherNext(before, sorted, n, minIdx);
      a := a + [minIdx];
    }
    assert sorted[..|sorted|] == sorted;
  }

  // ---------------------------------------------------------------- against any distribution of the tests

  /** How long a shard takes: the measured time of each file, and 30 seconds for a file without one. */
  function TotalTime(table: map<string, nat>, shard: seq<string>): nat {
    if shard == [] then 0
    else
      var n := |shard| - 1;
      TotalTime(table, shard[..n]) + if shard[n] in table then table[shard[n]] else 30
  }

  lemma {:induction false} SumIsTime(table: map<string, nat>, shard: seq<string>)
    ensures SumTo(Durations(table, shard), |shard|) == TotalTime(table, shard)
  {
    if shard != [] {
      var n := |shard| - 1;
      SumIsTime(table, shard[..n]);
      assert Durations(table, shard)[..n] == Durations(table, shard[..n]);
      SumDependsOnPrefix(Durations(table, shard), Durations(table, shard[..n]), n);
    }
  }

  lemma {:induction false} TimeWithout(table: map<string, nat>, shard: seq<string>, i: nat)
    requires i < |shard|
    ensures TotalTime(table, shard) == TotalTime(table, shard[..i] + shard[i + 1..]) + Duration(table, shard[i])
  {
    var n, less := |shard| - 1, shard[..i] + shard[i + 1..];
    if i < n {
      TimeWithout(table, shard[..n], i);
      assert less[..n - 1] == shard[..n][..i] + shard[..n][i + 1..] && less[n - 1] == shard[n];
    } else {
      assert less == shard[..n];
    }
  }

  lemma {:induction false} GatherReplaced(shards: seq<seq<string>>, s: nat, files: seq<string>, x: string)
    requires s < |shards|
    ensures Gathered(shards[s := files])[x] + multiset(shards[s])[x] == Gathered(shards)[x] + multiset(files)[x]
  {
    var n, replaced := |shards| - 1, shards[s := files];
    assert Gathered(replaced)[x] == Gathered(replaced[..n])[x] + multiset(replaced[n])[x];
    if s < n {
      GatherReplaced(shards[..n], s, files, x);
      assert replaced[..n] == shards[..n][s := files];
    } else {
      assert replaced[..n] == shards[..n];
    }
  }

  lemma GatheredWithout(shards: seq<seq<string>>, s: nat, i: nat)
    requires s < |shards| && i < |shards[s]|
    ensures Gathered(shards[s := shards[s][..i] + shards[s][i + 1..]]) == Gathered(shards) - multiset{shards[s][i]}
  {
    hide Gathered;
    var less := shards[s][..i] + shards[s][i + 1..];
    assert shards[s] == shards[s][..i] + ([shards[s][i]] + shards[s][i + 1..]);
    assert multiset(shards[s]) == multiset(less) + multiset{shards[s][i]};
    forall x ensures Gathered(shards[s := less])[x] == (Gathered(shards) - multiset{shards[s][i]})[x] {
      GatherReplaced(shards, s, less, x);
    }
  }

  lemma {:induction false} OnSomeShard(shards: seq<seq<string>>, file: string) returns (s: nat, i: nat)
    requires file in Gathered(shards)
    ensures s < |shards| && i < |shards[s]| && shards[s][i] == file
  {
    var n := |shards| - 1;
    if file in shards[n] {
      s := n;
      i :| 0 <= i < |shards[n]| && shards[n][i] == file;
    } else {
      s, i := OnSomeShard(shards[..n], file);
    }
  }

  lemma {:induction false} LoadOfPrefix(a: seq<nat>, b: seq<nat>, p: seq<nat>, q: seq<nat>, s: nat, k: nat)
    requires k <= |a| && k <= |b| && k <= |p| && k <= |q|
    requires forall i :: 0 <= i < k ==> a[i] == b[i] && p[i] == q[i]
    ensures Load(a, p, s, k) == Load(b, q, s, k)
  {
    if k > 0 { LoadOfPrefix(a, b, p, q, s, k - 1); }
  }

  lemma {:induction false} EmptyShards(table: map<string, nat>, shards: seq<seq<string>>, s: nat)
    requires Gathered(shards) == multiset{} && s < |shards|
    ensures TotalTime(table, shards[s]) == 0
  {
    var n := |shards| - 1;
    if s < n {
      EmptyShards(table, shards[..n], s);
    } else {
      assert multiset(shards[n]) <= Gathered(shards);
      assert multiset(shards[n]) == multiset{};
    }
  }

  lemma NoLoad(a: seq<nat>, p: seq<nat>, s: nat)
    ensures Load(a, p, s, 0) == 0
  {
  }

  lemma LastLoad(table: map<string, nat>, files: seq<string>, before: seq<nat>, s: nat, t: nat)
    requires files != [] && |before| == |files| - 1
    ensures var n := |files| - 1;
      Load(before + [s], Durations(table, files), t, |files|) ==
      Load(before, Durations(table, files[..n]), t, n) + if t == s then Duration(table, files[n]) else 0
  {
    var n := |files| - 1;
    LoadOfPrefix(before + [s], before, Durations(table, files), Durations(table, files[..n]), t, n);
  }

  /** Every distribution of the files over shards is an assignment with the same load on every shard. */
  lemma {:induction false} DistributionIsAssignment(table: map<string, nat>, files: seq<string>,
                                                    shards: seq<seq<string>>) returns (b: seq<nat>)
    requires Gathered(shards) == multiset(files)
    ensures Assignment(b, Durations(table, files), |shards|)
    ensures forall s: nat :: s < |shards| ==>
      Load(b, Durations(table, files), s, |files|) == TotalTime(table, shards[s])
  {
    hide Gathered, TotalTime, Load;
    if files == [] {
      b := [];
      forall s: nat | s < |shards| ensures Load(b, Durations(table, files), s, 0) == TotalTime(table, shards[s]) {
        EmptyShards(table, shards, s);
        NoLoad(b, Durations(table, files), s);
      }
    } else {
      var n := |files| - 1;
      assert files == files[..n] + [files[n]];
      assert multiset(files) == multiset(files[..n]) + multiset{files[n]};
      var s, i := OnSomeShard(shards, files[n]);
      var less := shards[s][..i] + shards[s][i + 1..];
      GatheredWithout(shards, s, i);
      var before := DistributionIsAssignment(table, files[..n], shards[s := less]);
      TimeWithout(table, shards[s], i);
      b := before + [s];
      forall t: nat | t < |shards|
        ensures Load(b, Durations(table, files), t, |files|) == TotalTime(table, shards[t])
      {
        LastLoad(table, files, before, s, t);
      }
    }
  }

  /** The shards hold exactly the tests, and all of them are done within `c`. */
  ghost predicate DistributesWithin(table: map<string, nat>, tests: seq<string>, shards: seq<seq<string>>, c: nat) {
    Gathered(shards) == multiset(tests) && forall t :: 0 <= t < |shards| ==> TotalTime(table, shards[t]) <= c
  }

  /** However the tests are distributed over as many shards, if that is done within `c` then none of these
      totals is above 4/3 - 1/(3m) times `c`. */
  ghost predicate HardlyBeaten(table: map<string, nat>, tests: seq<string>, totals: seq<nat>) {
    forall shards, c, s ::
      |shards| == |totals| && DistributesWithin(table, tests, shards, c) && 0 <= s < |totals| ==>
        3 * |totals| * totals[s] <= (4 * |totals| - 1) * c
  }

  /** A bound against all assignments is one against all distributions. */
  lemma NoDistributionIsMuchBetter(table: map<string, nat>, sorted: seq<string>, tests: seq<string>, totals: seq<nat>)
    requires NearOptimal(totals, Durations(table, sorted)) && multiset(sorted) == multiset(tests)
    ensures HardlyBeaten(table, tests, totals)
  {
    forall shards, c, s | |shards| == |totals| && DistributesWithin(table, tests, shards, c) && 0 <= s < |totals|
      ensures 3 * |totals| * totals[s] <= (4 * |totals| - 1) * c
    {
      var b := DistributionIsAssignment(table, sorted, shards);
      assert FitsWithin(b, Durations(table, sorted), |totals|, c);
    }
  }

  /** Sort longest first, then assign greedily: the shards partition the tests, each total is the
      length of its shard, and the heaviest is within 4/3 - 1/(3m) of the best possible. */
  method AssignShards(table: map<string, nat>, tests: seq<string>, shardCount: nat)
    returns (shards: array<seq<string>>, shardTotals: array<nat>)
    requires shardCount >= 1
    ensures shards.Length == shardTotals.Length == shardCount
    ensures Gathered(shards[..]) == multiset(tests)
    ensures forall s :: 0 <= s < shardCount ==> shardTotals[s] == SumTo(Durations(table, shards[s]), |shards[s]|)
    ensures NearOptimal(shardTotals[..], Durations(table, SortByDuration(table, tests)))
    // in terms of the table
    ensures forall s :: 0 <= s < shardCount ==> shardTotals[s] == TotalTime(table, shards[s])
    ensures HardlyBeaten(table, tests, shardTotals[..])
  {
    hide NearOptimal, HardlyBeaten, Greedy;
    var sorted := SortByDuration(table, tests);
    ghost var a;
    shards := new seq<string>[shardCount](_ => []);
    shardTotals := new nat[shardCount](_ => 0);
    a := AssignSorted(table, sorted, shards, shardTotals);
    ghost var p := Durations(table, sorted);
    GreedyIsNearOptimal(a, p, shardTotals[..]);
    GreedyIsAssignment(a, p, shardCount);
    forall s: nat | s < shardCount
      ensures SumTo(Durations(table, FilesOf(sorted, a, s, |sorted|)), |FilesOf(sorted, a, s, |sorted|)|) ==
        Load(a, p, s, |p|)
    {
      TotalIsLength(table, sorted, a, s, |sorted|);
    }
    forall s | 0 <= s < shardCount ensures shardTotals[s] == TotalTime(table, shards[s]) {
      SumIsTime(table, shards[s]);
    }
    NoDistributionIsMuchBetter(table, sorted, tests, shardTotals[..]);
  }
}
