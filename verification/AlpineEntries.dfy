/**
 What tools/alpine-tools/alpine_index.py makes of the entries of an index, from their text: which
 packages a package pulls in, and which names it leaves missing, decided by the characters of its
 dependencies and of what other entries provide.
 */
module AlpineEntries {
  import opened Common
  import opened AlpineIndex
  import opened AlpineResolve

  // ---------------------------------------------------------------------------
  // Dependencies and features as text

  predicate Compares(c: char) {
    c == '<' || c == '>' || c == '=' || c == '~'
  }

  /** `u` is the text of `d` up to its first comparison character, if it has one. */
  predicate NameIn(d: string, u: string) {
    u <= d && (forall i | 0 <= i < |u| :: !Compares(u[i])) && (|u| < |d| ==> Compares(d[|u|]))
  }

  predicate StartsWith(s: string, prefix: string) {
    |prefix| <= |s| && s[..|prefix|] == prefix
  }

  /** Shared libraries, commands and pkg-config modules are looked up among what packages provide. */
  predicate Virtual(u: string) {
    StartsWith(u, "so:") || StartsWith(u, "cmd:") || StartsWith(u, "pc:")
  }

  predicate Conflict(d: string) {
    |d| > 0 && d[0] == '!'
  }

  /** A feature gives a name when it is that name, or that name and a version. */
  predicate Gives(feature: string, v: string) {
    feature == v || StartsWith(feature, v + "=")
  }

  predicate Provides(pkg: Package, v: string) {
    pkg.name != "" && exists k :: 0 <= k < |pkg.features| && Gives(pkg.features[k], v)
  }

  predicate FirstToProvide(pkgs: seq<Package>, v: string, j: nat) {
    j < |pkgs| && Provides(pkgs[j], v) && forall i | 0 <= i < j :: !Provides(pkgs[i], v)
  }

  predicate Provided(pkgs: seq<Package>, v: string) {
    exists j :: 0 <= j < |pkgs| && Provides(pkgs[j], v)
  }

  predicate Named(pkgs: seq<Package>, n: string) {
    n != "" && exists j :: 0 <= j < |pkgs| && pkgs[j].name == n
  }

  /** Text cut at the first stop is cut at one place only. */
  lemma OneCut(s: string, a: string, b: string, stop: char -> bool)
    requires a <= s && (|a| < |s| ==> stop(s[|a|])) && forall i | 0 <= i < |a| :: !stop(a[i])
    requires b <= s && (|b| < |s| ==> stop(s[|b|])) && forall i | 0 <= i < |b| :: !stop(b[i])
    ensures a == b
  {
    assert forall i | 0 <= i < |a| :: !stop(s[i]);
    assert forall i | 0 <= i < |b| :: !stop(s[i]);
  }

  lemma NameIsStripped(d: string, u: string)
    ensures NameIn(d, u) <==> u == StripVersion(d)
  {
    var r := StripVersion(d);
    assert forall i | 0 <= i < |r| :: r[i] in r;
    if NameIn(d, u) {
      OneCut(d, u, r, Compares);
    }
  }

  lemma VersionDropped(feature: string, v: string)
    requires '=' !in v
    ensures Before(feature, {'='}) == v <==> Gives(feature, v)
  {
    var r := Before(feature, {'='});
    assert forall i | 0 <= i < |r| :: r[i] in r;
    if Gives(feature, v) {
      if |v| < |feature| {
        assert feature[|v|] == (v + "=")[|v|] == '=';
        assert feature[..|v|] == (v + "=")[..|v|] == v;
      }
      OneCut(feature, v, r, c => c == '=');
    }
    if r == v && |v| < |feature| {
      assert feature[..|v + "="|] == v + "=";
    }
  }

  lemma ProvidesExactly(pkg: Package, v: string)
    requires '=' !in v
    ensures Provides(pkg, v) <==> ProvidesName(pkg, v)
  {
    forall k | 0 <= k < |pkg.features| ensures Keys(pkg)[k] == v <==> Gives(pkg.features[k], v) {
      VersionDropped(pkg.features[k], v);
    }
  }

  /** The index knows a virtual name that some entry provides, and puts the first such entry first. */
  lemma ProviderExactly(pkgs: seq<Package>, v: string, q: string)
    requires '=' !in v
    ensures WellFormed(RepoOf(pkgs))
    ensures v in RepoOf(pkgs).providers <==> Provided(pkgs, v)
    ensures (v in RepoOf(pkgs).providers && RepoOf(pkgs).providers[v][0] == q) <==>
            exists j: nat :: FirstToProvide(pkgs, v, j) && pkgs[j].name == q
  {
    RepoIsWellFormed(pkgs);
    FirstProvider(pkgs, v);
    forall j | 0 <= j < |pkgs| ensures Provides(pkgs[j], v) <==> ProvidesName(pkgs[j], v) {
      ProvidesExactly(pkgs[j], v);
    }
    if v in RepoOf(pkgs).providers {
      var i :| && 0 <= i < |pkgs| && ProvidesName(pkgs[i], v) && RepoOf(pkgs).providers[v][0] == pkgs[i].name
               && forall j | 0 <= j < i :: !ProvidesName(pkgs[j], v);
      assert FirstToProvide(pkgs, v, i);
      forall j: nat | FirstToProvide(pkgs, v, j) ensures j == i {
      }
    }
  }

  // ---------------------------------------------------------------------------
  // What a dependency leads to

  /** Dependency `d`, whose name is `u`, pulls in package `q`. */
  ghost predicate PullsIn(pkgs: seq<Package>, d: string, u: string, q: string) {
    && NameIn(d, u) && !Conflict(d)
    && if Virtual(u) then exists j: nat :: FirstToProvide(pkgs, u, j) && pkgs[j].name == q else q == u && Named(pkgs, u)
  }

  /** Dependency `d` leaves its name `u` missing. */
  predicate LeavesMissing(pkgs: seq<Package>, d: string, u: string) {
    NameIn(d, u) && !Conflict(d) && !(if Virtual(u) then Provided(pkgs, u) else Named(pkgs, u))
  }

  lemma SameWords(d: string, u: string)
    ensures Virtual(u) <==> IsVirtual(u)
    ensures Conflict(d) <==> IsConflict(d)
  {
    assert forall p: string :: p <= u <==> StartsWith(u, p);
    assert "!" <= d <==> |d| > 0 && d[0] == '!';
  }

  /** In any index, merged ones included: where a dependency leads, and what it leaves missing. */
  lemma DependencyInWords(repo: Repo, d: string, u: string)
    requires WellFormed(repo) && NameIn(d, u)
    ensures Conflict(d) ==> Target(repo, d) == None && Unmet(repo, d) == None
    ensures !Conflict(d) && Virtual(u) && u in repo.providers ==>
              Target(repo, d) == Some(repo.providers[u][0]) && Unmet(repo, d) == None
    ensures !Conflict(d) && !Virtual(u) && u in repo.index ==> Target(repo, d) == Some(u) && Unmet(repo, d) == None
    ensures !Conflict(d) && (if Virtual(u) then u !in repo.providers else u !in repo.index) ==>
              Target(repo, d) == None && Unmet(repo, d) == Some(u)
  {
    NameIsStripped(d, u);
    SameWords(d, u);
  }

  lemma TargetExactly(pkgs: seq<Package>, d: string, u: string, q: string)
    requires NameIn(d, u)
    ensures WellFormed(RepoOf(pkgs))
    ensures Target(RepoOf(pkgs), d) == Some(q) <==> PullsIn(pkgs, d, u, q)
    ensures Unmet(RepoOf(pkgs), d) == (if LeavesMissing(pkgs, d, u) then Some(u) else None)
  {
    assert '=' !in u by {
      assert forall i | 0 <= i < |u| :: !Compares(u[i]);
    }
    ProviderExactly(pkgs, u, q);
    IndexHoldsLastEntry(pkgs, u);
    DependencyInWords(RepoOf(pkgs), d, u);
  }

  /** A package depends on exactly the packages its last entry's dependencies pull in. */
  lemma EdgeExactly(pkgs: seq<Package>, n: string, i: nat, q: string)
    requires n != "" && LastEntry(pkgs, n, i)
    ensures WellFormed(RepoOf(pkgs))
    ensures Edge(RepoOf(pkgs), n, q) <==> exists d, u :: d in pkgs[i].depends && PullsIn(pkgs, d, u, q)
  {
    RepoIsWellFormed(pkgs);
    LastEntryWins(pkgs, n, i);
    forall d, u | d in pkgs[i].depends && PullsIn(pkgs, d, u, q) ensures Target(RepoOf(pkgs), d) == Some(q) {
      TargetExactly(pkgs, d, u, q);
    }
    forall d | d in pkgs[i].depends && Target(RepoOf(pkgs), d) == Some(q) ensures PullsIn(pkgs, d, StripVersion(d), q) {
      NameIsStripped(d, StripVersion(d));
      TargetExactly(pkgs, d, StripVersion(d), q);
    }
  }

  /** A package leaves exactly the names missing that its last entry's dependencies do. */
  lemma MissingExactly(pkgs: seq<Package>, n: string, i: nat, u: string)
    requires n != "" && LastEntry(pkgs, n, i)
    ensures WellFormed(RepoOf(pkgs))
    ensures u in UnmetNames(RepoOf(pkgs), {n}) <==> exists d :: d in pkgs[i].depends && LeavesMissing(pkgs, d, u)
  {
    RepoIsWellFormed(pkgs);
    LastEntryWins(pkgs, n, i);
    forall d | d in pkgs[i].depends ensures Unmet(RepoOf(pkgs), d) == Some(u) <==> LeavesMissing(pkgs, d, u) {
      NameIsStripped(d, StripVersion(d));
      NameIsStripped(d, u);
      TargetExactly(pkgs, d, StripVersion(d), "");
    }
  }

  // ---------------------------------------------------------------------------
  // What follows for the closure

  lemma EdgeReaches(repo: Repo, n: string, q: string)
    requires WellFormed(repo) && n in repo.index && q in repo.index && Edge(repo, n, q)
    ensures q in Closure(repo, {}, Some(n))
  {
    var path := [n, q];
    assert IsPath(repo, {}, path) && path[0] == n && path[|path| - 1] == q;
  }

  /** A provided virtual name brings in its first provider and is not missing. */
  lemma VirtualBringsProvider(pkgs: seq<Package>, n: string, i: nat, d: string, j: nat)
    requires n != "" && LastEntry(pkgs, n, i) && d in pkgs[i].depends
    requires StartsWith(d, "so:") || StartsWith(d, "cmd:") || StartsWith(d, "pc:")
    requires forall k | 0 <= k < |d| :: !Compares(d[k])
    requires FirstToProvide(pkgs, d, j)
    ensures WellFormed(RepoOf(pkgs))
    ensures pkgs[j].name in Closure(RepoOf(pkgs), {}, Some(n))
    ensures d !in UnmetNames(RepoOf(pkgs), {n})
  {
    LastEntryWins(pkgs, n, i);
    assert NameIn(d, d) && PullsIn(pkgs, d, d, pkgs[j].name);
    EdgeExactly(pkgs, n, i, pkgs[j].name);
    IndexHoldsLastEntry(pkgs, pkgs[j].name);
    EdgeReaches(RepoOf(pkgs), n, pkgs[j].name);
    MissingExactly(pkgs, n, i, d);
  }

  lemma FirstStep(repo: Repo, path: seq<string>)
    requires WellFormed(repo) && IsPath(repo, {}, path)
    ensures |path| == 1 || Edge(repo, path[0], path[1])
  {
  }

  /** Conflicts bring in no package and leave no name missing. */
  lemma ConflictsAddNothing(pkgs: seq<Package>, n: string, i: nat)
    requires n != "" && LastEntry(pkgs, n, i)
    requires forall k | 0 <= k < |pkgs[i].depends| :: Conflict(pkgs[i].depends[k])
    ensures WellFormed(RepoOf(pkgs))
    ensures Closure(RepoOf(pkgs), {}, Some(n)) == {n}
    ensures UnmetNames(RepoOf(pkgs), {n}) == {}
  {
    var repo := RepoOf(pkgs);
    RepoIsWellFormed(pkgs);
    LastEntryWins(pkgs, n, i);
    forall q ensures !Edge(repo, n, q) {
      EdgeExactly(pkgs, n, i, q);
    }
    forall p | p in Closure(repo, {}, Some(n)) ensures p == n {
      var path :| IsPath(repo, {}, path) && path[0] == n && path[|path| - 1] == p;
      FirstStep(repo, path);
    }
    ReachesSelf(repo, {}, n);
    forall u ensures u !in UnmetNames(repo, {n}) {
      MissingExactly(pkgs, n, i, u);
    }
  }

  /** A requested name stands for the package of that name, or else for the first entry that provides it. */
  lemma RootExactly(pkgs: seq<Package>, n: string, q: string)
    requires '=' !in n
    ensures WellFormed(RepoOf(pkgs))
    ensures Root(RepoOf(pkgs), n) == Some(q) <==>
            if Named(pkgs, n) then q == n else exists j: nat :: FirstToProvide(pkgs, n, j) && pkgs[j].name == q
  {
    RepoIsWellFormed(pkgs);
    IndexHoldsLastEntry(pkgs, n);
    ProviderExactly(pkgs, n, q);
  }
}
