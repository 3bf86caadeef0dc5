/**
 The migration path of tools/alpine-tools/alpine_migrate.py: resolve every requested package
 on every architecture, file the results by branch, and classify them into common and
 per-architecture lists (classify_packages of alpine_index.py).
 */
module AlpineMigrate {
  import opened AlpineIndex
  import opened AlpineResolve

  const MAIN := "main"
  const BRANCHES: set<string> := {MAIN, "community"}

  /** Package sets by architecture and then by branch. */
  type Lists = map<string, map<string, set<string>>>

  type Repos = map<string, Repo>

  predicate Usable(repos: Repos, archs: seq<string>) {
    forall a | a in archs :: a in repos && WellFormed(repos[a])
  }

  // ---------------------------------------------------------------------------
  // What a migration should produce

  ghost predicate Wanted(repo: Repo, inputs: set<string>, p: string)
    requires WellFormed(repo)
  {
    exists n :: n in inputs && p in Closure(repo, {}, Root(repo, n))
  }

  /** Everything the requested packages need on one architecture. */
  ghost function ClosureOf(repo: Repo, inputs: set<string>): set<string>
    requires WellFormed(repo)
  {
    set p | p in repo.index.Keys && Wanted(repo, inputs, p)
  }

  ghost function MissingOf(repo: Repo, inputs: set<string>): set<string>
    requires WellFormed(repo)
  {
    UnmetNames(repo, ClosureOf(repo, inputs)) + Unknown(repo, inputs)
  }

  /** The requested names that no package has or provides. */
  function Unknown(repo: Repo, inputs: set<string>): set<string>
    requires WellFormed(repo)
  {
    set n | n in inputs && Root(repo, n).None?
  }

  lemma UnknownMore(repo: Repo, inputs: set<string>, n: string)
    requires WellFormed(repo)
    ensures Unknown(repo, inputs + {n}) == Unknown(repo, inputs) + if Root(repo, n).None? then {n} else {}
  {
  }

  /** The packages of `pkgs` that live in branch `b`. */
  function OfBranch(repo: Repo, pkgs: set<string>, b: string): set<string>
    requires pkgs <= repo.index.Keys
  {
    set p | p in pkgs && repo.index[p].branch == b
  }

  lemma ClosureOfMore(repo: Repo, inputs: set<string>, n: string)
    requires WellFormed(repo)
    ensures ClosureOf(repo, inputs + {n}) == ClosureOf(repo, inputs) + Closure(repo, {}, Root(repo, n))
  {
    forall p | p in Closure(repo, {}, Root(repo, n)) ensures p in ClosureOf(repo, inputs + {n}) {
      assert n in inputs + {n};
      assert Wanted(repo, inputs + {n}, p);
    }
    forall p | p in ClosureOf(repo, inputs) ensures p in ClosureOf(repo, inputs + {n}) {
      var m :| m in inputs && p in Closure(repo, {}, Root(repo, m));
      assert m in inputs + {n};
      assert Wanted(repo, inputs + {n}, p);
    }
    forall p | p in ClosureOf(repo, inputs + {n})
      ensures p in ClosureOf(repo, inputs) + Closure(repo, {}, Root(repo, n))
    {
      var m :| m in inputs + {n} && p in Closure(repo, {}, Root(repo, m));
      if m != n {
        assert Wanted(repo, inputs, p);
      }
    }
  }

  // ---------------------------------------------------------------------------
  // One architecture

  /** The accumulators once the packages of `done` have been resolved. */
  ghost predicate InputsDone(repo: Repo, done: set<string>, arch: string, seen0: set<Sighting>,
                             resolved: set<string>, missing: set<string>, seen: set<Sighting>)
    requires WellFormed(repo)
  {
    && Closed(repo, resolved)
    && resolved == ClosureOf(repo, done)
    && missing == MissingOf(repo, done)
    && seen == seen0 + Sightings(repo, resolved, arch)
  }

  lemma InputDone(repo: Repo, done: set<string>, name: string, arch: string, seen0: set<Sighting>,
                  resolved: set<string>, missing: set<string>, seen: set<Sighting>,
                  resolved': set<string>, missing': set<string>, seen': set<Sighting>)
    requires WellFormed(repo) && InputsDone(repo, done, arch, seen0, resolved, missing, seen)
    requires Explored(repo, resolved, resolved', Root(repo, name))
    requires missing' == missing + NewlyMissing(repo, name, resolved' - resolved)
    requires seen' == seen + Sightings(repo, resolved' - resolved, arch)
    ensures InputsDone(repo, done + {name}, arch, seen0, resolved', missing', seen')
  {
    FromClosedSet(repo, resolved, resolved', Root(repo, name));
    ClosureOfMore(repo, done, name);
    MissingMore(repo, done, name, resolved, resolved');
    SightingsSplit(repo, resolved, resolved', arch);
  }

  lemma MissingMore(repo: Repo, done: set<string>, name: string, resolved: set<string>, resolved': set<string>)
    requires WellFormed(repo) && resolved <= resolved'
    requires resolved == ClosureOf(repo, done) && resolved' == ClosureOf(repo, done + {name})
    ensures MissingOf(repo, done + {name}) == MissingOf(repo, done) + NewlyMissing(repo, name, resolved' - resolved)
  {
    UnknownMore(repo, done, name);
    UnmetNamesSplit(repo, resolved, resolved' - resolved);
    assert resolved' == resolved + (resolved' - resolved);
  }

  /** The requested packages are visited in any order, sharing one resolved set. */
  method ResolveForArch(inputs: set<string>, repo: Repo, arch: string, presence: Presence)
    returns (resolved: set<string>, missing: set<string>)
    requires WellFormed(repo)
    modifies presence
    ensures resolved == ClosureOf(repo, inputs)
    ensures missing == MissingOf(repo, inputs)
    ensures presence.entries == old(presence.entries) + Sightings(repo, ClosureOf(repo, inputs), arch)
  {
    var data := new ArchData();
    var todo := inputs;
    assert inputs - todo == {};
    while todo != {}
      invariant todo <= inputs
      invariant InputsDone(repo, inputs - todo, arch, old(presence.entries), data.resolved, data.missing, presence.entries)
    {
      var name :| name in todo;
      ghost var before, missing0, seen0 := data.resolved, data.missing, presence.entries;
      ResolveDependencies(name, repo, arch, data, presence);
      InputDone(repo, inputs - todo, name, arch, old(presence.entries), before, missing0, seen0,
                data.resolved, data.missing, presence.entries);
      assert inputs - (todo - {name}) == inputs - todo + {name};
      todo := todo - {name};
    }
    assert inputs - todo == inputs;
    resolved, missing := data.resolved, data.missing;
  }

  // ---------------------------------------------------------------------------
  // Filing by branch

  /** Does some package live outside the known branches? */
  predicate Strays(repo: Repo, pkgs: set<string>)
    requires pkgs <= repo.index.Keys
  {
    exists p :: p in pkgs && repo.index[p].branch !in BRANCHES
  }

  /** One set per branch, each holding its part of `pkgs`. */
  predicate FiledByBranch(byBranch: map<string, set<string>>, repo: Repo, pkgs: set<string>)
    requires pkgs <= repo.index.Keys
  {
    forall b | b in BRANCHES :: b in byBranch && byBranch[b] == OfBranch(repo, pkgs, b)
  }

  lemma FileOne(byBranch: map<string, set<string>>, repo: Repo, pkgs: set<string>, p: string)
    requires pkgs <= repo.index.Keys && p in repo.index && repo.index[p].branch in BRANCHES
    requires FiledByBranch(byBranch, repo, pkgs)
    ensures var b := repo.index[p].branch;
            FiledByBranch(byBranch[b := byBranch[b] + {p}], repo, pkgs + {p})
  {
  }

  /** File the resolved packages of one architecture; a package of another branch is a lookup error. */
  method OrganizeByBranch(resolved: set<string>, presence: set<Sighting>, arch: string, ghost repo: Repo)
    returns (ok: bool, byBranch: map<string, set<string>>)
    requires resolved <= repo.index.Keys
    requires forall p, b | p in resolved :: Sighting(p, b, arch) in presence <==> b == repo.index[p].branch
    ensures ok <==> !Strays(repo, resolved)
    ensures ok ==> FiledByBranch(byBranch, repo, resolved)
  {
    byBranch := map b | b in BRANCHES :: {};
    var todo := resolved;
    assert resolved - todo == {};
    while todo != {}
      invariant todo <= resolved
      invariant !Strays(repo, resolved - todo)
      invariant FiledByBranch(byBranch, repo, resolved - todo)
    {
      var p :| p in todo;
      var branches := set s | s in presence && s.pkg == p && s.arch == arch :: s.branch;
      assert Sighting(p, repo.index[p].branch, arch) in presence;
      assert repo.index[p].branch in branches;
      var b :| b in branches;
      assert Sighting(p, b, arch) in presence;
      if b !in BRANCHES {
        return false, byBranch;
      }
      FileOne(byBranch, repo, resolved - todo, p);
      byBranch := byBranch[b := byBranch[b] + {p}];
      assert resolved - (todo - {p}) == resolved - todo + {p};
      todo := todo - {p};
    }
    assert resolved - todo == resolved;
    ok := true;
  }

  /** The sightings made on the first `n` architectures. */
  ghost function Seen(repos: Repos, archs: seq<string>, inputs: set<string>, n: nat): set<Sighting>
    requires Usable(repos, archs) && n <= |archs|
  {
    set a, p | a in archs[..n] && p in ClosureOf(repos[a], inputs) :: Sighting(p, repos[a].index[p].branch, a)
  }

  lemma SeenNext(repos: Repos, archs: seq<string>, inputs: set<string>, n: nat)
    requires Usable(repos, archs) && n < |archs|
    ensures Seen(repos, archs, inputs, n + 1) ==
            Seen(repos, archs, inputs, n) + Sightings(repos[archs[n]], ClosureOf(repos[archs[n]], inputs), archs[n])
  {
    assert archs[..n + 1] == archs[..n] + [archs[n]];
  }

  lemma SeenTruthful(repos: Repos, archs: seq<string>, inputs: set<string>, n: nat, a: string, p: string, b: string)
    requires Usable(repos, archs) && n <= |archs| && a in archs[..n]
    ensures Sighting(p, b, a) in Seen(repos, archs, inputs, n) <==>
            p in ClosureOf(repos[a], inputs) && b == repos[a].index[p].branch
  {
  }

  /** The first `n` architectures are resolved, filed and free of strays. */
  ghost predicate Progress(lists: Lists, repos: Repos, archs: seq<string>, inputs: set<string>, n: nat)
    requires Usable(repos, archs) && n <= |archs|
  {
    forall a | a in archs[..n] ::
      && !Strays(repos[a], ClosureOf(repos[a], inputs))
      && a in lists && FiledByBranch(lists[a], repos[a], ClosureOf(repos[a], inputs))
  }

  /** Missing names by branch and architecture. */
  type Missing = map<string, map<string, set<string>>>

  ghost function MissingUpTo(repos: Repos, archs: seq<string>, inputs: set<string>, n: nat, a: string): set<string>
    requires Usable(repos, archs) && n <= |archs| && a in archs
  {
    if a in archs[..n] then MissingOf(repos[a], inputs) else {}
  }

  ghost predicate MainHolds(inMain: map<string, set<string>>, repos: Repos, archs: seq<string>, inputs: set<string>, n: nat)
    requires Usable(repos, archs) && n <= |archs|
  {
    inMain.Keys == ArchSet(archs) && forall a | a in archs :: inMain[a] == MissingUpTo(repos, archs, inputs, n, a)
  }

  predicate HoldsNothing(inBranch: map<string, set<string>>, archs: seq<string>) {
    inBranch.Keys == ArchSet(archs) && forall a | a in archs :: inBranch[a] == {}
  }

  /** All missing names are filed under the main branch, whatever branch asked for them. */
  ghost predicate MissingFiled(missing: Missing, repos: Repos, archs: seq<string>, inputs: set<string>, n: nat)
    requires Usable(repos, archs) && n <= |archs|
  {
    && missing.Keys == BRANCHES && MainHolds(missing[MAIN], repos, archs, inputs, n)
    && forall b | b in BRANCHES && b != MAIN :: HoldsNothing(missing[b], archs)
  }

  method FileUnderMain(inMain: map<string, set<string>>, unresolved: set<string>, ghost repos: Repos, archs: seq<string>,
                       ghost inputs: set<string>, n: nat)
    returns (inMain': map<string, set<string>>)
    requires Usable(repos, archs) && n < |archs| && MainHolds(inMain, repos, archs, inputs, n)
    requires unresolved == MissingOf(repos[archs[n]], inputs)
    ensures MainHolds(inMain', repos, archs, inputs, n + 1)
  {
    var arch := archs[n];
    assert arch in archs;
    inMain' := inMain[arch := inMain[arch] + unresolved];
    forall a | a in archs ensures inMain'[a] == MissingUpTo(repos, archs, inputs, n + 1, a) {
      MissingNext(repos, archs, inputs, n, a);
    }
  }

  lemma MissingNext(repos: Repos, archs: seq<string>, inputs: set<string>, n: nat, a: string)
    requires Usable(repos, archs) && n < |archs| && a in archs
    ensures MissingUpTo(repos, archs, inputs, n + 1, a) ==
            MissingUpTo(repos, archs, inputs, n, a) + if a == archs[n] then MissingOf(repos[a], inputs) else {}
  {
    assert archs[..n + 1] == archs[..n] + [archs[n]];
  }

  method FileMissing(missing: Missing, unresolved: set<string>, ghost repos: Repos, archs: seq<string>,
                     ghost inputs: set<string>, n: nat)
    returns (missing': Missing)
    requires Usable(repos, archs) && n < |archs| && MissingFiled(missing, repos, archs, inputs, n)
    requires unresolved == MissingOf(repos[archs[n]], inputs)
    ensures MissingFiled(missing', repos, archs, inputs, n + 1)
  {
    var inMain := FileUnderMain(missing[MAIN], unresolved, repos, archs, inputs, n);
    missing' := missing[MAIN := inMain];
  }

  datatype Resolution =
    | LookupError
    | Resolved(lists: Lists, missing: Missing)

  lemma ProgressNext(lists: Lists, repos: Repos, archs: seq<string>, inputs: set<string>, n: nat,
                     byBranch: map<string, set<string>>)
    requires Usable(repos, archs) && n < |archs| && Progress(lists, repos, archs, inputs, n)
    requires var repo := repos[archs[n]];
             !Strays(repo, ClosureOf(repo, inputs)) && FiledByBranch(byBranch, repo, ClosureOf(repo, inputs))
    ensures Progress(lists[archs[n] := byBranch], repos, archs, inputs, n + 1)
  {
    assert archs[..n + 1] == archs[..n] + [archs[n]];
  }

  /** One architecture: resolve, then file by branch what was seen of it. */
  method ResolveArch(inputs: set<string>, repos: Repos, archs: seq<string>, n: nat, presence: Presence)
    returns (ok: bool, byBranch: map<string, set<string>>, unresolved: set<string>)
    requires Usable(repos, archs) && n < |archs| && presence.entries == Seen(repos, archs, inputs, n)
    modifies presence
    ensures presence.entries == Seen(repos, archs, inputs, n + 1)
    ensures var repo := repos[archs[n]];
            && unresolved == MissingOf(repo, inputs)
            && (ok <==> !Strays(repo, ClosureOf(repo, inputs)))
            && (ok ==> FiledByBranch(byBranch, repo, ClosureOf(repo, inputs)))
  {
    var arch := archs[n];
    var resolved;
    resolved, unresolved := ResolveForArch(inputs, repos[arch], arch, presence);
    SeenNext(repos, archs, inputs, n);
    assert archs[..n + 1] == archs[..n] + [arch];
    forall p, b | p in resolved
      ensures Sighting(p, b, arch) in presence.entries <==> b == repos[arch].index[p].branch
    {
      SeenTruthful(repos, archs, inputs, n + 1, arch, p, b);
    }
    ok, byBranch := OrganizeByBranch(resolved, presence.entries, arch, repos[arch]);
  }

  method ResolveAllPackages(inputs: set<string>, repos: Repos, archs: seq<string>, presence: Presence)
    returns (r: Resolution)
    requires Usable(repos, archs) && presence.entries == {}
    modifies presence
    ensures r.LookupError? <==> exists a :: a in archs && Strays(repos[a], ClosureOf(repos[a], inputs))
    ensures r.Resolved? ==> Progress(r.lists, repos, archs, inputs, |archs|)
    ensures r.Resolved? ==> MissingFiled(r.missing, repos, archs, inputs, |archs|)
    ensures r.Resolved? ==> presence.entries == Seen(repos, archs, inputs, |archs|)
  {
    var lists: Lists := map[];
    var missing: Missing := map b | b in BRANCHES :: map a | a in archs :: {};
    var n := 0;
    while n < |archs|
      invariant 0 <= n <= |archs|
      invariant Progress(lists, repos, archs, inputs, n)
      invariant MissingFiled(missing, repos, archs, inputs, n)
      invariant presence.entries == Seen(repos, archs, inputs, n)
    {
      var arch := archs[n];
      assert arch in archs;
      var ok, byBranch, unresolved := ResolveArch(inputs, repos, archs, n, presence);
      if !ok {
        return LookupError;
      }
      ProgressNext(lists, repos, archs, inputs, n, byBranch);
      lists := lists[arch := byBranch];
      missing := FileMissing(missing, unresolved, repos, archs, inputs, n);
      n := n + 1;
    }
    assert archs[..n] == archs;
    r := Resolved(lists, missing);
  }

  // ---------------------------------------------------------------------------
  // Common and per-architecture lists

  function ArchSet(archs: seq<string>): set<string> {
    set a | a in archs
  }

  /** The architectures on which `p` was seen in branch `b`. */
  function PresentOn(presence: set<Sighting>, p: string, b: string): set<string> {
    set s | s in presence && s.pkg == p && s.branch == b :: s.arch
  }

  predicate IsCommon(presence: set<Sighting>, archs: seq<string>, b: string, p: string) {
    PresentOn(presence, p, b) == ArchSet(archs)
  }

  function CommonAmong(presence: set<Sighting>, archs: seq<string>, b: string, pkgs: set<string>): set<string> {
    set p | p in pkgs && IsCommon(presence, archs, b, p)
  }

  function OnlyOn(presence: set<Sighting>, archs: seq<string>, b: string, pkgs: set<string>, a: string): set<string> {
    set p | p in pkgs && !IsCommon(presence, archs, b, p) && a in PresentOn(presence, p, b)
  }

  method AddToEach(perArch: map<string, set<string>>, present: set<string>, p: string)
    returns (perArch': map<string, set<string>>)
    requires present <= perArch.Keys
    ensures perArch'.Keys == perArch.Keys
    ensures forall a | a in perArch :: perArch'[a] == perArch[a] + if a in present then {p} else {}
  {
    perArch' := perArch;
    var todo := present;
    while todo != {}
      invariant todo <= present && perArch'.Keys == perArch.Keys
      invariant forall a | a in perArch :: perArch'[a] == perArch[a] + if a in present - todo then {p} else {}
    {
      var a :| a in todo;
      perArch' := perArch'[a := perArch'[a] + {p}];
      todo := todo - {a};
    }
  }

  lemma ClassifyOne(presence: set<Sighting>, archs: seq<string>, b: string, pkgs: set<string>, p: string, a: string)
    ensures CommonAmong(presence, archs, b, pkgs + {p}) ==
            CommonAmong(presence, archs, b, pkgs) + if IsCommon(presence, archs, b, p) then {p} else {}
    ensures OnlyOn(presence, archs, b, pkgs + {p}, a) ==
            OnlyOn(presence, archs, b, pkgs, a) +
            if !IsCommon(presence, archs, b, p) && a in PresentOn(presence, p, b) then {p} else {}
  {
  }

  /** One branch of classify_packages. */
  method ClassifyBranch(pkgs: set<string>, presence: set<Sighting>, b: string, archs: seq<string>)
    returns (common: set<string>, perArch: map<string, set<string>>)
    requires forall p | p in pkgs :: PresentOn(presence, p, b) <= ArchSet(archs)
    ensures common == CommonAmong(presence, archs, b, pkgs)
    ensures perArch.Keys == ArchSet(archs)
    ensures forall a | a in archs :: perArch[a] == OnlyOn(presence, archs, b, pkgs, a)
  {
    common, perArch := {}, map a | a in archs :: {};
    var todo := pkgs;
    assert pkgs - todo == {};
    while todo != {}
      invariant todo <= pkgs
      invariant common == CommonAmong(presence, archs, b, pkgs - todo)
      invariant perArch.Keys == ArchSet(archs)
      invariant forall a | a in archs :: perArch[a] == OnlyOn(presence, archs, b, pkgs - todo, a)
    {
      var p :| p in todo;
      forall a { ClassifyOne(presence, archs, b, pkgs - todo, p, a); }
      assert pkgs - (todo - {p}) == pkgs - todo + {p};
      var present := PresentOn(presence, p, b);
      if present == ArchSet(archs) {
        common := common + {p};
      } else {
        perArch := AddToEach(perArch, present, p);
      }
      todo := todo - {p};
    }
    assert pkgs - todo == pkgs;
  }

  /** Everything resolved in branch `b` on some architecture. */
  method GatherBranch(lists: Lists, b: string, archs: seq<string>) returns (all: set<string>)
    requires forall a | a in archs :: a in lists && b in lists[a]
    ensures forall p :: p in all <==> exists a :: a in archs && p in lists[a][b]
  {
    all := {};
    var n := 0;
    while n < |archs|
      invariant 0 <= n <= |archs|
      invariant forall p :: p in all <==> exists a :: a in archs[..n] && p in lists[a][b]
    {
      assert archs[..n + 1] == archs[..n] + [archs[n]];
      all := all + lists[archs[n]][b];
      n := n + 1;
    }
    assert archs[..n] == archs;
  }

  // ---------------------------------------------------------------------------
  // The whole migration

  datatype Classified = Classified(common: map<string, set<string>>, perArch: map<string, map<string, set<string>>>)

  datatype Migration =
    | Failed
    | Migrated(lists: Classified, missing: Missing)

  /** The package is needed on architecture `a`, where it lives in branch `b`. */
  ghost predicate Needed(repos: Repos, archs: seq<string>, inputs: set<string>, a: string, b: string, p: string)
    requires Usable(repos, archs) && a in archs
  {
    p in ClosureOf(repos[a], inputs) && repos[a].index[p].branch == b
  }

  /** A package is listed as common in a branch when every architecture needs it there. */
  ghost predicate CommonToAll(repos: Repos, archs: seq<string>, inputs: set<string>, b: string, p: string)
    requires Usable(repos, archs)
  {
    archs != [] && forall a | a in archs :: Needed(repos, archs, inputs, a, b, p)
  }

  ghost predicate BranchClassified(common: set<string>, perArch: map<string, set<string>>,
                                   repos: Repos, archs: seq<string>, inputs: set<string>, b: string)
    requires Usable(repos, archs)
  {
    && perArch.Keys == ArchSet(archs)
    && (forall p :: p in common <==> CommonToAll(repos, archs, inputs, b, p))
    && (forall a, p | a in archs ::
          p in perArch[a] <==> Needed(repos, archs, inputs, a, b, p) && !CommonToAll(repos, archs, inputs, b, p))
  }

  /** Every list of the two branches is exact. */
  ghost predicate AllClassified(c: Classified, repos: Repos, archs: seq<string>, inputs: set<string>)
    requires Usable(repos, archs)
  {
    && c.common.Keys == c.perArch.Keys == BRANCHES
    && forall b | b in BRANCHES :: BranchClassified(c.common[b], c.perArch[b], repos, archs, inputs, b)
  }

  lemma PresentWhereNeeded(repos: Repos, archs: seq<string>, inputs: set<string>, b: string, p: string)
    requires Usable(repos, archs)
    ensures forall a :: a in PresentOn(Seen(repos, archs, inputs, |archs|), p, b) <==>
                        a in archs && Needed(repos, archs, inputs, a, b, p)
  {
    var seen := Seen(repos, archs, inputs, |archs|);
    assert archs[..|archs|] == archs;
    forall a ensures a in PresentOn(seen, p, b) <==> a in archs && Needed(repos, archs, inputs, a, b, p) {
      assert a in PresentOn(seen, p, b) <==> Sighting(p, b, a) in seen;
      if a in archs {
        SeenTruthful(repos, archs, inputs, |archs|, a, p, b);
      }
    }
  }

  lemma CommonExactly(repos: Repos, archs: seq<string>, inputs: set<string>, b: string, p: string, a: string)
    requires Usable(repos, archs) && a in archs && Needed(repos, archs, inputs, a, b, p)
    ensures IsCommon(Seen(repos, archs, inputs, |archs|), archs, b, p) <==> CommonToAll(repos, archs, inputs, b, p)
  {
    PresentWhereNeeded(repos, archs, inputs, b, p);
    var present := PresentOn(Seen(repos, archs, inputs, |archs|), p, b);
    assert present <= ArchSet(archs);
    if CommonToAll(repos, archs, inputs, b, p) {
      assert ArchSet(archs) <= present;
    } else {
      var a' :| a' in archs && !Needed(repos, archs, inputs, a', b, p);
      assert a' in ArchSet(archs) && a' !in present;
    }
  }

  method MigrateBranch(lists: Lists, presence: set<Sighting>, ghost repos: Repos, archs: seq<string>,
                       ghost inputs: set<string>, b: string)
    returns (common: set<string>, perArch: map<string, set<string>>)
    requires Usable(repos, archs) && b in BRANCHES
    requires presence == Seen(repos, archs, inputs, |archs|)
    requires forall a | a in archs :: a in lists && FiledByBranch(lists[a], repos[a], ClosureOf(repos[a], inputs))
    ensures BranchClassified(common, perArch, repos, archs, inputs, b)
  {
    var all := GatherBranch(lists, b, archs);
    forall p ensures p in all <==> exists a :: a in archs && Needed(repos, archs, inputs, a, b, p) {
      assert forall a | a in archs :: p in lists[a][b] <==> Needed(repos, archs, inputs, a, b, p);
    }
    forall p ensures PresentOn(presence, p, b) <= ArchSet(archs) {
      PresentWhereNeeded(repos, archs, inputs, b, p);
    }
    common, perArch := ClassifyBranch(all, presence, b, archs);
    forall p, a | a in archs && Needed(repos, archs, inputs, a, b, p)
      ensures IsCommon(presence, archs, b, p) <==> CommonToAll(repos, archs, inputs, b, p)
    {
      CommonExactly(repos, archs, inputs, b, p, a);
    }
    forall p, a | a in archs
      ensures a in PresentOn(presence, p, b) <==> Needed(repos, archs, inputs, a, b, p)
    {
      PresentWhereNeeded(repos, archs, inputs, b, p);
    }
    assert archs != [] ==> archs[0] in archs;
  }

  /**
   The migration fails on a lookup error exactly when some needed package lives outside the
   two branches; otherwise each list is exact, and so are the names reported missing.
   */
  method Migrate(inputs: set<string>, repos: Repos, archs: seq<string>) returns (r: Migration)
    requires Usable(repos, archs)
    ensures r.Failed? <==> exists a :: a in archs && Strays(repos[a], ClosureOf(repos[a], inputs))
    ensures r.Migrated? ==> AllClassified(r.lists, repos, archs, inputs)
    ensures r.Migrated? ==> MissingFiled(r.missing, repos, archs, inputs, |archs|)
  {
    var presence := new Presence();
    var resolution := ResolveAllPackages(inputs, repos, archs, presence);
    if resolution.LookupError? {
      return Failed;
    }
    var c := ClassifyAll(resolution.lists, presence.entries, repos, archs, inputs);
    r := Migrated(c, resolution.missing);
  }

  method ClassifyAll(lists: Lists, seen: set<Sighting>, ghost repos: Repos, archs: seq<string>, ghost inputs: set<string>)
    returns (c: Classified)
    requires Usable(repos, archs) && seen == Seen(repos, archs, inputs, |archs|)
    requires Progress(lists, repos, archs, inputs, |archs|)
    ensures AllClassified(c, repos, archs, inputs)
  {
    assert archs[..|archs|] == archs;
    c := Classified(map[], map[]);
    var todo := BRANCHES;
    while todo != {}
      invariant todo <= BRANCHES
      invariant c.common.Keys == c.perArch.Keys == BRANCHES - todo
      invariant forall b | b in c.common :: BranchClassified(c.common[b], c.perArch[b], repos, archs, inputs, b)
    {
      var b :| b in todo;
      var common, perArch := MigrateBranch(lists, seen, repos, archs, inputs, b);
      c := Classified(c.common[b := common], c.perArch[b := perArch]);
      todo := todo - {b};
    }
  }

  /** Common and per-architecture lists never repeat a package, and together give the closure back. */
  lemma ListsGiveClosure(c: Classified, repos: Repos, archs: seq<string>, inputs: set<string>, a: string)
    requires Usable(repos, archs) && a in archs
    requires AllClassified(c, repos, archs, inputs)
    requires !Strays(repos[a], ClosureOf(repos[a], inputs))
    ensures forall b | b in BRANCHES :: c.common[b] !! c.perArch[b][a]
    ensures forall b, b' | b in BRANCHES && b' in BRANCHES && b != b' ::
              (c.common[b] + c.perArch[b][a]) !! (c.common[b'] + c.perArch[b'][a])
    ensures ClosureOf(repos[a], inputs) == set b, p | b in BRANCHES && p in c.common[b] + c.perArch[b][a] :: p
  {
    forall b, p | b in BRANCHES
      ensures p in c.common[b] + c.perArch[b][a] <==> Needed(repos, archs, inputs, a, b, p)
    {
      assert BranchClassified(c.common[b], c.perArch[b], repos, archs, inputs, b);
    }
    forall p | p in ClosureOf(repos[a], inputs)
      ensures p in set b, q | b in BRANCHES && q in c.common[b] + c.perArch[b][a] :: q
    {
      assert Needed(repos, archs, inputs, a, repos[a].index[p].branch, p);
    }
  }

  /** The branches by name: a package of any other fails the migration. */
  lemma StraysExactly(repo: Repo, pkgs: set<string>)
    requires pkgs <= repo.index.Keys
    ensures Strays(repo, pkgs) <==>
            exists p :: p in pkgs && repo.index[p].branch != "main" && repo.index[p].branch != "community"
  {
    assert forall p | p in pkgs :: repo.index[p].branch !in BRANCHES <==>
                                   repo.index[p].branch != "main" && repo.index[p].branch != "community";
  }

  /** Both branches get their lists; the names missing on an architecture are all under "main". */
  lemma BranchesByName(c: Classified, missing: Missing, repos: Repos, archs: seq<string>, inputs: set<string>, a: string)
    requires Usable(repos, archs) && a in archs
    requires AllClassified(c, repos, archs, inputs) && MissingFiled(missing, repos, archs, inputs, |archs|)
    ensures c.common.Keys == c.perArch.Keys == missing.Keys == {"main", "community"}
    ensures a in missing["main"] && missing["main"][a] == MissingOf(repos[a], inputs)
    ensures a in missing["community"] && missing["community"][a] == {}
  {
    assert archs[..|archs|] == archs;
    assert "community" != MAIN by { assert "community"[0] != MAIN[0]; }
    assert "community" in BRANCHES && HoldsNothing(missing["community"], archs);
  }
}
