/** Dependency tiers of the publishable packages (repos/workers-sdk/tools/deployments/publish-packages.ts).

    A memoised depth-first search assigns to every package the length of its longest chain of
    workspace dependencies, or finds a dependency cycle. */
module Tiers {

  datatype Package = Package(name: string, version: string, workspaceDependencies: seq<string>)

  /** The packages by name; as in a JavaScript Map, the last entry of a name wins. */
  function ByName(packages: seq<Package>): (byName: map<string, Package>)
    ensures forall n :: n in byName ==> byName[n] in packages && byName[n].name == n
    ensures forall p :: p in packages ==> p.name in byName
  {
    if packages == [] then map[]
    else
      var last := packages[|packages| - 1];
      assert packages == packages[..|packages| - 1] + [last];
      ByName(packages[..|packages| - 1])[last.name := last]
  }

  /** `a` depends on `b`, and both are known. An unknown name imposes no ordering. */
  ghost predicate Edge(byName: map<string, Package>, a: string, b: string) {
    a in byName && b in byName && b in byName[a].workspaceDependencies
  }

  /** A chain of dependencies starting at `n`. */
  ghost predicate Chain(byName: map<string, Package>, n: string, c: seq<string>) {
    && c != [] && c[0] == n && n in byName
    && forall i :: 0 <= i < |c| - 1 ==> Edge(byName, c[i], c[i + 1])
  }

  ghost predicate Cycle(byName: map<string, Package>, c: seq<string>) {
    |c| >= 2 && Chain(byName, c[0], c) && c[|c| - 1] == c[0]
  }

  /** The longest dependency chain of `n` has `d` steps. */
  ghost predicate HasDepth(byName: map<string, Package>, n: string, d: nat) {
    && (exists c :: Chain(byName, n, c) && |c| == d + 1)
    && (forall c :: Chain(byName, n, c) ==> |c| <= d + 1)
  }

  lemma DepthIsUnique(byName: map<string, Package>, n: string, d: nat, e: nat)
    requires HasDepth(byName, n, d) && HasDepth(byName, n, e)
    ensures d == e
  {
  }

  /** Dependencies first: a package is strictly deeper than everything it depends on. */
  lemma DependencyIsShallower(byName: map<string, Package>, a: string, b: string, d: nat, e: nat)
    requires Edge(byName, a, b) && HasDepth(byName, a, d) && HasDepth(byName, b, e)
    ensures e < d
  {
    var c :| Chain(byName, b, c) && |c| == e + 1;
    assert Chain(byName, a, [a] + c);
  }

  /** Along a longest chain the depth falls by exactly one, so every smaller depth occurs. */
  lemma DepthBelow(byName: map<string, Package>, n: string, d: nat) returns (m: string)
    requires HasDepth(byName, n, d) && d > 0
    ensures Edge(byName, n, m) && HasDepth(byName, m, d - 1)
  {
    var c :| Chain(byName, n, c) && |c| == d + 1;
    m := c[1];
    assert Edge(byName, c[0], c[1]);
    var t := c[1..];
    assert Chain(byName, m, t) by {
      forall i | 0 <= i < |t| - 1 ensures Edge(byName, t[i], t[i + 1]) { assert Edge(byName, c[i + 1], c[i + 2]); }
    }
    forall e | Chain(byName, m, e) ensures |e| <= d {
      assert Chain(byName, n, [n] + e);
    }
  }

  /** What one call of the search computes from the depths of the dependencies. */
  lemma DepthFromDependencies(byName: map<string, Package>, n: string, depths: map<string, nat>, d: nat)
    requires n in byName
    requires forall m :: Edge(byName, n, m) ==> m in depths && HasDepth(byName, m, depths[m]) && depths[m] + 1 <= d
    requires d == 0 || exists m :: Edge(byName, n, m) && d == depths[m] + 1
    ensures HasDepth(byName, n, d)
  {
    if d == 0 {
      assert Chain(byName, n, [n]);
    } else {
      var m :| Edge(byName, n, m) && d == depths[m] + 1;
      var c :| Chain(byName, m, c) && |c| == depths[m] + 1;
      assert Chain(byName, n, [n] + c);
    }
    forall c | Chain(byName, n, c) ensures |c| <= d + 1 {
      if |c| > 1 {
        var t := c[1..];
        assert Edge(byName, c[0], c[1]);
        assert Chain(byName, c[1], t) by {
          forall i | 0 <= i < |t| - 1 ensures Edge(byName, t[i], t[i + 1]) { assert Edge(byName, c[i + 1], c[i + 2]); }
        }
      }
    }
  }

  /** If every package has a longest chain, there is no cycle: going round it would lower the depth. */
  lemma {:induction false} DepthFallsAlong(byName: map<string, Package>, c: seq<string>, depths: map<string, nat>,
                                           i: nat)
    requires c != [] && Chain(byName, c[0], c) && i < |c|
    requires forall n :: n in byName ==> n in depths && HasDepth(byName, n, depths[n])
    ensures c[i] in byName && depths[c[i]] + i <= depths[c[0]]
  {
    if i > 0 {
      DepthFallsAlong(byName, c, depths, i - 1);
      assert Edge(byName, c[i - 1], c[i]);
      DependencyIsShallower(byName, c[i - 1], c[i], depths[c[i - 1]], depths[c[i]]);
    }
  }

  lemma DepthsExcludeCycles(byName: map<string, Package>, depths: map<string, nat>)
    requires forall n :: n in byName ==> n in depths && HasDepth(byName, n, depths[n])
    ensures !exists c :: Cycle(byName, c)
  {
    forall c | Cycle(byName, c) ensures false {
      DepthFallsAlong(byName, c, depths, |c| - 1);
    }
  }

  /** The result of looking for the depth of one name: its depth, or the path on which the search
      came back to a name it was still visiting. */
  datatype Found = Depth(depth: nat) | CycleDetected(path: seq<string>)

  /** `path` follows dependencies and ends on a name it went through before. */
  ghost predicate ReturnsToItself(byName: map<string, Package>, path: seq<string>) {
    && path != [] && Chain(byName, path[0], path)
    && exists i :: 0 <= i < |path| - 1 && path[i] == path[|path| - 1]
  }

  lemma ReturningIsCyclic(byName: map<string, Package>, path: seq<string>)
    requires ReturnsToItself(byName, path)
    ensures exists c :: Cycle(byName, c)
  {
    var i :| 0 <= i < |path| - 1 && path[i] == path[|path| - 1];
    var c := path[i..];
    forall k | 0 <= k < |c| - 1 ensures Edge(byName, c[k], c[k + 1]) {
      assert Edge(byName, path[i + k], path[i + k + 1]);
    }
    assert Edge(byName, path[i], path[i + 1]);
    assert Cycle(byName, c);
  }

  lemma NameRepeats(byName: map<string, Package>, path: seq<string>, name: string)
    requires name in path && Chain(byName, (path + [name])[0], path + [name])
    ensures ReturnsToItself(byName, path + [name])
  {
    var i :| 0 <= i < |path| && path[i] == name;
    assert (path + [name])[i] == name;
  }

  class DepthSearch {
    const byName: map<string, Package>
    var depths: map<string, nat>
    var visiting: set<string>

    /** Every memoised depth is right, and is memoised after those of the dependencies. */
    ghost predicate Valid()
      reads this
    {
      && visiting <= byName.Keys && visiting !! depths.Keys
      && (forall n :: n in depths ==> n in byName && HasDepth(byName, n, depths[n]))
    }

    constructor (packages: seq<Package>)
      ensures byName == ByName(packages) && depths == map[] && visiting == {} && Valid()
    {
      byName := ByName(packages);
      depths, visiting := map[], {};
    }

    /** The memoised recursion. It terminates because the names not being visited get fewer. */
    method DepthOf(name: string, path: seq<string>) returns (r: Found)
      requires Valid() && forall n :: n in visiting <==> n in path
      requires name in byName && Chain(byName, (path + [name])[0], path + [name])
      modifies `depths, `visiting
      ensures r.Depth? ==> Valid() && visiting == old(visiting)
      ensures r.Depth? ==> name in depths && depths[name] == r.depth
      ensures r.Depth? ==> forall n :: n in old(depths) ==> n in depths && depths[n] == old(depths[n])
      ensures r.CycleDetected? ==> ReturnsToItself(byName, r.path)
      decreases byName.Keys - visiting
    {
      hide HasDepth, Chain, ReturnsToItself;
      if name in depths {
        return Depth(depths[name]);
      }
      if name in visiting {
        NameRepeats(byName, path, name);
        return CycleDetected(path + [name]);
      }
      visiting := visiting + {name};

      var depth := 0;
      var deps := byName[name].workspaceDependencies;
      for k := 0 to |deps|
        invariant Valid() && visiting == old(visiting) + {name}
        invariant forall n :: n in old(depths) ==> n in depths && depths[n] == old(depths[n])
        invariant forall m :: m in deps[..k] && m in byName ==> m in depths && depths[m] + 1 <= depth
        invariant depth == 0 || exists m :: m in deps && m in depths && depth == depths[m] + 1
      {
        var dependency := deps[k];
        if dependency in byName {
          ExtendChain(byName, path, name, dependency);
          var below := DepthOf(dependency, path + [name]);
          if below.CycleDetected? {
            return below;
          }
          if below.depth + 1 > depth {
            depth := below.depth + 1;
          }
        }
        assert deps[..k + 1] == deps[..k] + [dependency];
      }
      assert deps[..|deps|] == deps;

      DepthFromDependencies(byName, name, depths, depth);
      visiting := visiting - {name};
      depths := depths[name := depth];
      return Depth(depth);
    }
  }

  lemma StartOfPath(byName: map<string, Package>, name: string)
    requires name in byName
    ensures Chain(byName, ([] + [name])[0], [] + [name])
  {
  }

  lemma ExtendChain(byName: map<string, Package>, path: seq<string>, name: string, dependency: string)
    requires Chain(byName, (path + [name])[0], path + [name]) && Edge(byName, name, dependency)
    ensures Chain(byName, (path + [name] + [dependency])[0], path + [name] + [dependency])
  {
  }

  // ---------------------------------------------------------------- tiers

  /** The packages of depth `k`, in their original order. */
  ghost function OfDepth(byName: map<string, Package>, packages: seq<Package>, k: nat): (r: seq<Package>)
    ensures forall p :: p in r <==> p in packages && HasDepth(byName, p.name, k)
  {
    if packages == [] then []
    else
      var n := |packages| - 1;
      assert packages == packages[..n] + [packages[n]];
      OfDepth(byName, packages[..n], k) + if HasDepth(byName, packages[n].name, k) then [packages[n]] else []
  }

  datatype Tiering = Tiered(tiers: seq<seq<Package>>) | Cyclic(path: seq<string>)

  /** What `computeTiers` promises of its tiers. */
  ghost predicate WellTiered(packages: seq<Package>, tiers: seq<seq<Package>>) {
    // tier k holds, in the listed order, exactly the packages whose longest chain has k steps
    && (forall k :: 0 <= k < |tiers| ==> tiers[k] == OfDepth(ByName(packages), packages, k))
    // every package is in some tier
    && (forall p :: p in packages ==> exists k :: 0 <= k < |tiers| && p in tiers[k])
    // no tier is empty
    && (forall k :: 0 <= k < |tiers| ==> tiers[k] != [])
  }

  /** In a well-formed tiering every dependency of a package lies in an earlier tier. */
  lemma DependenciesInEarlierTiers(packages: seq<Package>, tiers: seq<seq<Package>>, i: nat, p: Package, q: Package)
    requires WellTiered(packages, tiers) && i < |tiers| && p in tiers[i]
    requires ByName(packages)[p.name] == p && q in packages && q.name in p.workspaceDependencies
    ensures exists j :: 0 <= j < i && q in tiers[j]
  {
    hide HasDepth;
    var j :| 0 <= j < |tiers| && q in tiers[j];
    assert Edge(ByName(packages), p.name, q.name);
    DependencyIsShallower(ByName(packages), p.name, q.name, i, j);
  }

  ghost predicate DepthsOf(packages: seq<Package>, depths: map<string, nat>) {
    forall n :: n in ByName(packages) ==> n in depths && HasDepth(ByName(packages), n, depths[n])
  }

  lemma {:induction false} EveryDepthOccurs(packages: seq<Package>, depths: map<string, nat>, p: Package, k: nat)
    requires DepthsOf(packages, depths) && p in packages && k <= depths[p.name]
    ensures OfDepth(ByName(packages), packages, k) != []
    decreases depths[p.name]
  {
    hide HasDepth;
    var byName := ByName(packages);
    if k == depths[p.name] {
      assert p in OfDepth(byName, packages, k);
    } else {
      var m := DepthBelow(byName, p.name, depths[p.name]);
      DepthIsUnique(byName, m, depths[m], depths[p.name] - 1);
      EveryDepthOccurs(packages, depths, byName[m], k);
    }
  }

  /** One package goes into the tier of its depth and into no other. */
  lemma OfDepthSnoc(packages: seq<Package>, depths: map<string, nat>, n: nat, k: nat)
    requires DepthsOf(packages, depths) && n < |packages|
    ensures OfDepth(ByName(packages), packages[..n + 1], k) ==
            OfDepth(ByName(packages), packages[..n], k) + if depths[packages[n].name] == k then [packages[n]] else []
  {
    hide HasDepth;
    var name := packages[n].name;
    assert packages[..n + 1][..n] == packages[..n];
    if HasDepth(ByName(packages), name, k) { DepthIsUnique(ByName(packages), name, k, depths[name]); }
  }

  /** The first `i` packages are in their tiers. */
  ghost predicate Filled(packages: seq<Package>, depths: map<string, nat>, i: nat, tiers: seq<seq<Package>>)
    requires i <= |packages| && DepthsOf(packages, depths)
  {
    && (forall j :: 0 <= j < i ==> depths[packages[j].name] < |tiers|)
    && (forall k :: 0 <= k < |tiers| ==> tiers[k] == OfDepth(ByName(packages), packages[..i], k))
  }

  lemma EmptyBeyond(packages: seq<Package>, depths: map<string, nat>, i: nat, tiers: seq<seq<Package>>)
    requires i <= |packages| && DepthsOf(packages, depths) && Filled(packages, depths, i, tiers)
    ensures Filled(packages, depths, i, tiers + [[]])
  {
    hide HasDepth;
    var r := OfDepth(ByName(packages), packages[..i], |tiers|);
    if 0 < |r| {
      var j :| 0 <= j < i && packages[j] == r[0];
      DepthIsUnique(ByName(packages), r[0].name, |tiers|, depths[r[0].name]);
    }
  }

  lemma FillNext(packages: seq<Package>, depths: map<string, nat>, i: nat, tiers: seq<seq<Package>>)
    requires i < |packages| && DepthsOf(packages, depths) && Filled(packages, depths, i, tiers)
    requires depths[packages[i].name] < |tiers|
    ensures var d := depths[packages[i].name];
            Filled(packages, depths, i + 1, tiers[d := tiers[d] + [packages[i]]])
  {
    hide HasDepth;
    forall k: nat { OfDepthSnoc(packages, depths, i, k); }
  }

  /** Filling the tiers from the finished depths. */
  method FillTiers(packages: seq<Package>, depths: map<string, nat>) returns (tiers: seq<seq<Package>>)
    requires DepthsOf(packages, depths)
    ensures Filled(packages, depths, |packages|, tiers)
    ensures tiers != [] ==> exists p :: p in packages && depths[p.name] == |tiers| - 1
  {
    hide HasDepth, Filled;
    tiers := [];
    assert Filled(packages, depths, 0, tiers) by { NothingFilled(packages, depths); }
    for i := 0 to |packages|
      invariant Filled(packages, depths, i, tiers)
      invariant tiers != [] ==> exists p :: p in packages && depths[p.name] == |tiers| - 1
    {
      var pkg := packages[i];
      var depth := depths[pkg.name];
      while |tiers| <= depth
        invariant Filled(packages, depths, i, tiers)
        invariant tiers == [] || |tiers| <= depth + 1 || exists p :: p in packages && depths[p.name] == |tiers| - 1
        decreases depth - |tiers|
      {
        EmptyBeyond(packages, depths, i, tiers);
        tiers := tiers + [[]];
      }
      FillNext(packages, depths, i, tiers);
      tiers := tiers[depth := tiers[depth] + [pkg]];
      assert pkg in packages;
    }
  }

  lemma NothingFilled(packages: seq<Package>, depths: map<string, nat>)
    requires DepthsOf(packages, depths)
    ensures Filled(packages, depths, 0, [])
  {
  }

  lemma FilledIsWellTiered(packages: seq<Package>, depths: map<string, nat>, tiers: seq<seq<Package>>)
    requires DepthsOf(packages, depths) && Filled(packages, depths, |packages|, tiers)
    requires tiers != [] ==> exists p :: p in packages && depths[p.name] == |tiers| - 1
    ensures WellTiered(packages, tiers)
  {
    hide HasDepth;
    assert packages[..|packages|] == packages;
    forall p | p in packages ensures exists k :: 0 <= k < |tiers| && p in tiers[k] {
      assert p in tiers[depths[p.name]];
    }
    forall k | 0 <= k < |tiers| ensures tiers[k] != [] {
      var p :| p in packages && depths[p.name] == |tiers| - 1;
      EveryDepthOccurs(packages, depths, p, k);
    }
  }

  datatype Searched = AllDepths(depths: map<string, nat>) | Returned(path: seq<string>)

  /** One search per package, sharing the memo. */
  method SearchAll(packages: seq<Package>) returns (r: Searched)
    ensures r.AllDepths? ==> DepthsOf(packages, r.depths)
    ensures r.Returned? ==> ReturnsToItself(ByName(packages), r.path)
  {
    hide HasDepth, Chain, Edge, ReturnsToItself, ByName;
    var search := new DepthSearch(packages);
    for i := 0 to |packages|
      invariant search.Valid() && search.visiting == {} && search.byName == ByName(packages)
      invariant forall j :: 0 <= j < i ==> packages[j].name in search.depths
    {
      StartOfPath(search.byName, packages[i].name);
      var found := search.DepthOf(packages[i].name, []);
      if found.CycleDetected? {
        return Returned(found.path);
      }
    }
    return AllDepths(search.depths);
  }

  /** The tiers, or a cycle: the search fails exactly when the known dependencies are cyclic. */
  method ComputeTiers(packages: seq<Package>) returns (r: Tiering)
    ensures r.Cyclic? <==> exists c :: Cycle(ByName(packages), c)
    ensures r.Cyclic? ==> ReturnsToItself(ByName(packages), r.path)
    ensures r.Tiered? ==> WellTiered(packages, r.tiers)
  {
    hide HasDepth, Cycle, ReturnsToItself, WellTiered, Filled;
    var searched := SearchAll(packages);
    if searched.Returned? {
      ReturningIsCyclic(ByName(packages), searched.path);
      return Cyclic(searched.path);
    }
    DepthsExcludeCycles(ByName(packages), searched.depths);
    var tiers := FillTiers(packages, searched.depths);
    FilledIsWellTiered(packages, searched.depths, tiers);
    return Tiered(tiers);
  }
}
