/**
 The recursive dependency resolution of tools/alpine-tools/alpine_index.py, as the source
 writes it: accumulators grown in place by a recursive traversal of a graph with cycles.
 */
module AlpineResolve {
  import opened Common
  import opened AlpineIndex

  // ---------------------------------------------------------------------------
  // The dependency graph

  predicate IsVirtual(name: string) {
    "so:" <= name || "cmd:" <= name || "pc:" <= name
  }

  predicate IsConflict(dep: string) {
    "!" <= dep
  }

  /** The package a dependency leads to; conflicts and unresolvable names lead nowhere. */
  function Target(repo: Repo, dep: string): (t: Option<string>)
    requires WellFormed(repo)
    ensures t.Some? ==> t.value in repo.index
  {
    var name := StripVersion(dep);
    if IsConflict(dep) then None
    else if IsVirtual(name) then (if name in repo.providers then Some(repo.providers[name][0]) else None)
    else if name in repo.index then Some(name)
    else None
  }

  /** The name reported missing for a dependency. */
  function Unmet(repo: Repo, dep: string): Option<string>
    requires WellFormed(repo)
  {
    if IsConflict(dep) || Target(repo, dep).Some? then None else Some(StripVersion(dep))
  }

  /** The package a requested name stands for. */
  function Root(repo: Repo, name: string): (t: Option<string>)
    requires WellFormed(repo)
    ensures t.Some? ==> t.value in repo.index
  {
    if name in repo.index then Some(name)
    else if name in repo.providers then Some(repo.providers[name][0])
    else None
  }

  predicate Edge(repo: Repo, a: string, b: string)
    requires WellFormed(repo)
  {
    a in repo.index && exists d :: d in repo.index[a].depends && Target(repo, d) == Some(b)
  }

  /** A path along dependencies that stays clear of `avoid`. */
  predicate IsPath(repo: Repo, avoid: set<string>, path: seq<string>)
    requires WellFormed(repo)
  {
    && path != []
    && (forall i | 0 <= i < |path| :: path[i] in repo.index && path[i] !in avoid)
    && (forall i | 0 < i < |path| :: Edge(repo, path[i - 1], path[i]))
  }

  ghost predicate Reaches(repo: Repo, avoid: set<string>, a: string, b: string)
    requires WellFormed(repo)
  {
    exists path :: IsPath(repo, avoid, path) && path[0] == a && path[|path| - 1] == b
  }

  /** The packages reachable from `root` by paths clear of `avoid`. */
  ghost function Closure(repo: Repo, avoid: set<string>, root: Option<string>): set<string>
    requires WellFormed(repo)
  {
    if root.None? then {} else set p | p in repo.index.Keys && Reaches(repo, avoid, root.value, p)
  }

  /** The names that cannot be resolved among the dependencies of `pkgs`. */
  function UnmetNames(repo: Repo, pkgs: set<string>): set<string>
    requires WellFormed(repo)
  {
    set p, d | p in pkgs && p in repo.index && d in repo.index[p].depends && Unmet(repo, d).Some? :: Unmet(repo, d).value
  }

  /** A set of packages with all their resolvable dependencies. */
  predicate Closed(repo: Repo, pkgs: set<string>)
    requires WellFormed(repo)
  {
    && pkgs <= repo.index.Keys
    && forall p, d | p in pkgs && d in repo.index[p].depends && Target(repo, d).Some? :: Target(repo, d).value in pkgs
  }

  // ---------------------------------------------------------------------------
  // The accumulators

  /** One entry of the presence table, a dictionary of sets: package, branch and architecture. */
  datatype Sighting = Sighting(pkg: string, branch: string, arch: string)

  /** Each package of `pkgs` recorded under its own branch. */
  function Sightings(repo: Repo, pkgs: set<string>, arch: string): set<Sighting>
    requires pkgs <= repo.index.Keys
  {
    set p | p in pkgs :: Sighting(p, repo.index[p].branch, arch)
  }

  lemma SightingsSplit(repo: Repo, pkgs: set<string>, pkgs': set<string>, arch: string)
    requires pkgs <= pkgs' <= repo.index.Keys
    ensures Sightings(repo, pkgs', arch) == Sightings(repo, pkgs, arch) + Sightings(repo, pkgs' - pkgs, arch)
  {
  }

  class ArchData {
    var resolved: set<string>
    var missing: set<string>

    constructor ()
      ensures resolved == {} && missing == {}
    {
      resolved, missing := {}, {};
    }
  }

  class Presence {
    var entries: set<Sighting>

    constructor ()
      ensures entries == {}
    {
      entries := {};
    }
  }

  // ---------------------------------------------------------------------------
  // Starting from a closed set

  /** A path that ends outside a closed set never enters it. */
  lemma {:induction false} PathAvoidsClosed(repo: Repo, closed: set<string>, path: seq<string>)
    requires WellFormed(repo) && Closed(repo, closed) && IsPath(repo, {}, path)
    requires path[|path| - 1] !in closed
    ensures IsPath(repo, closed, path)
    decreases |path|
  {
    if |path| > 1 {
      var front := path[..|path| - 1];
      assert forall i | 0 < i < |front| :: Edge(repo, front[i - 1], front[i]);
      assert Edge(repo, path[|path| - 2], path[|path| - 1]);
      PathAvoidsClosed(repo, closed, front);
    }
  }

  /**
   From a set closed under resolvable dependencies, a call adds exactly what the root reaches
   at all, and the set stays closed.
   */
  lemma FromClosedSet(repo: Repo, before: set<string>, after: set<string>, root: Option<string>)
    requires WellFormed(repo) && Closed(repo, before) && Explored(repo, before, after, root)
    ensures after == before + Closure(repo, {}, root)
    ensures Closed(repo, after)
  {
    ExploredExactly(repo, before, after, root);
    forall p | p in Closure(repo, {}, root) ensures p in after {
      if p !in before {
        var path :| IsPath(repo, {}, path) && path[0] == root.value && path[|path| - 1] == p;
        PathAvoidsClosed(repo, before, path);
        assert p in Closure(repo, before, root);
      }
    }
    forall p | p in after - before ensures p in Closure(repo, {}, root) {
      var path :| IsPath(repo, before, path) && path[0] == root.value && path[|path| - 1] == p;
      assert IsPath(repo, {}, path);
    }
    forall p, d | p in after && d in repo.index[p].depends && Target(repo, d).Some?
      ensures Target(repo, d).value in after
    {
      if p !in before {
        assert p in after - before && Edge(repo, p, Target(repo, d).value);
      }
    }
  }

  // ---------------------------------------------------------------------------
  // What one call explores

  /**
   The traversal's own invariant: everything new was reached without passing through what
   was resolved before, the root is in, and every new package has all its targets in.
   */
  ghost predicate Explored(repo: Repo, before: set<string>, after: set<string>, root: Option<string>)
    requires WellFormed(repo)
  {
    && before <= after <= repo.index.Keys
    && (root.Some? ==> root.value in after)
    && (forall p | p in after - before :: root.Some? && Reaches(repo, before, root.value, p))
    && (forall p, q | p in after - before && Edge(repo, p, q) :: q in after)
  }

  lemma {:induction false} PathStaysInside(repo: Repo, before: set<string>, after: set<string>, path: seq<string>)
    requires WellFormed(repo) && IsPath(repo, before, path)
    requires path[0] in after
    requires forall p, q | p in after - before && Edge(repo, p, q) :: q in after
    ensures path[|path| - 1] in after - before
    decreases |path|
  {
    if |path| > 1 {
      var front := path[..|path| - 1];
      assert forall i | 0 < i < |front| :: Edge(repo, front[i - 1], front[i]);
      PathStaysInside(repo, before, after, front);
      assert Edge(repo, path[|path| - 2], path[|path| - 1]);
    }
  }

  /** What a call adds is exactly what can be reached around the packages already resolved. */
  lemma ExploredExactly(repo: Repo, before: set<string>, after: set<string>, root: Option<string>)
    requires WellFormed(repo) && Explored(repo, before, after, root)
    ensures after == before + Closure(repo, before, root)
    ensures before !! Closure(repo, before, root)
  {
    forall p | p in Closure(repo, before, root) ensures p in after - before {
      var path :| IsPath(repo, before, path) && path[0] == root.value && path[|path| - 1] == p;
      PathStaysInside(repo, before, after, path);
    }
    forall p | p in after - before ensures p in Closure(repo, before, root) {
    }
  }

  lemma ReachesSelf(repo: Repo, avoid: set<string>, a: string)
    requires WellFormed(repo) && a in repo.index && a !in avoid
    ensures Reaches(repo, avoid, a, a)
  {
    assert IsPath(repo, avoid, [a]);
  }

  lemma ReachesThrough(repo: Repo, avoid: set<string>, more: set<string>, a: string, b: string, c: string)
    requires WellFormed(repo) && a in repo.index && a !in avoid && avoid <= more
    requires Edge(repo, a, b) && Reaches(repo, more, b, c)
    ensures Reaches(repo, avoid, a, c)
  {
    var path :| IsPath(repo, more, path) && path[0] == b && path[|path| - 1] == c;
    var longer := [a] + path;
    assert forall i | 0 < i < |longer| :: Edge(repo, longer[i - 1], longer[i]) by {
      forall i | 0 < i < |longer| ensures Edge(repo, longer[i - 1], longer[i]) {
        if i > 1 {
          assert Edge(repo, path[i - 2], path[i - 1]);
        }
      }
    }
    assert IsPath(repo, avoid, longer) && longer[0] == a && longer[|longer| - 1] == c;
  }

  /** The state of the loop over the dependencies of `p` after `i` of them. */
  ghost predicate HalfExplored(repo: Repo, before: set<string>, now: set<string>, p: string, i: nat)
    requires WellFormed(repo) && p in repo.index && i <= |repo.index[p].depends|
  {
    && before + {p} <= now <= repo.index.Keys
    && (forall q | q in now - before :: Reaches(repo, before, p, q))
    && (forall q, t | q in now - before - {p} && Edge(repo, q, t) :: t in now)
    && (forall k | 0 <= k < i :: Target(repo, repo.index[p].depends[k]).Some? ==>
                                   Target(repo, repo.index[p].depends[k]).value in now)
  }

  lemma NextDependency(repo: Repo, before: set<string>, now: set<string>, after: set<string>, p: string, i: nat)
    requires WellFormed(repo) && p in repo.index && p !in before && i < |repo.index[p].depends|
    requires HalfExplored(repo, before, now, p, i)
    requires Explored(repo, now, after, Target(repo, repo.index[p].depends[i]))
    ensures HalfExplored(repo, before, after, p, i + 1)
  {
    forall q | q in after - before ensures Reaches(repo, before, p, q) {
      if q !in now {
        assert q in after - now;
        var t := Target(repo, repo.index[p].depends[i]).value;
        assert Edge(repo, p, t);
        ReachesThrough(repo, before, now, p, t, q);
      }
    }
  }

  lemma LastDependency(repo: Repo, before: set<string>, now: set<string>, p: string)
    requires WellFormed(repo) && p in repo.index && p !in before
    requires HalfExplored(repo, before, now, p, |repo.index[p].depends|)
    ensures Explored(repo, before, now, Some(p))
  {
    forall q, t | q in now - before && Edge(repo, q, t) ensures t in now {
      if q == p {
        var d :| d in repo.index[p].depends && Target(repo, d) == Some(t);
        var k :| 0 <= k < |repo.index[p].depends| && repo.index[p].depends[k] == d;
      }
    }
  }

  lemma UnmetNamesSplit(repo: Repo, a: set<string>, b: set<string>)
    requires WellFormed(repo)
    ensures UnmetNames(repo, a + b) == UnmetNames(repo, a) + UnmetNames(repo, b)
  {
  }

  /** The unresolvable names among the first `i` dependencies of `p`. */
  function UnmetAmong(repo: Repo, deps: seq<string>): set<string>
    requires WellFormed(repo)
  {
    set d | d in deps && Unmet(repo, d).Some? :: Unmet(repo, d).value
  }

  lemma UnmetAmongNext(repo: Repo, deps: seq<string>, i: nat)
    requires WellFormed(repo) && i < |deps|
    ensures UnmetAmong(repo, deps[..i + 1]) ==
            UnmetAmong(repo, deps[..i]) + if Unmet(repo, deps[i]).Some? then {Unmet(repo, deps[i]).value} else {}
  {
    assert deps[..i + 1] == deps[..i] + [deps[i]];
  }

  lemma UnmetOfOne(repo: Repo, p: string)
    requires WellFormed(repo) && p in repo.index
    ensures UnmetNames(repo, {p}) == UnmetAmong(repo, repo.index[p].depends)
  {
  }

  /** What a call may add to the missing names: those of new packages, and an unknown request. */
  function NewlyMissing(repo: Repo, name: string, added: set<string>): set<string>
    requires WellFormed(repo)
  {
    UnmetNames(repo, added) + if Root(repo, name).None? then {name} else {}
  }

  /** The accumulators after `i` dependencies of `p`, compared with those before the call. */
  ghost predicate InLoop(repo: Repo, arch: string, p: string, i: nat,
                         before: set<string>, missing0: set<string>, presence0: set<Sighting>,
                         now: set<string>, missing: set<string>, presence: set<Sighting>)
    requires WellFormed(repo) && p in repo.index && i <= |repo.index[p].depends|
  {
    && HalfExplored(repo, before, now, p, i)
    && missing == missing0 + UnmetNames(repo, now - before - {p}) + UnmetAmong(repo, repo.index[p].depends[..i])
    && presence == presence0 + Sightings(repo, now - before, arch)
  }

  lemma LoopStarts(repo: Repo, arch: string, p: string,
                   before: set<string>, missing0: set<string>, presence0: set<Sighting>)
    requires WellFormed(repo) && p in repo.index && p !in before && before <= repo.index.Keys
    ensures InLoop(repo, arch, p, 0, before, missing0, presence0, before + {p}, missing0,
                   presence0 + {Sighting(p, repo.index[p].branch, arch)})
  {
    assert before + {p} - before == {p};
    ReachesSelf(repo, before, p);
    assert before + {p} - before - {p} == {};
  }

  lemma LoopSteps(repo: Repo, arch: string, p: string, i: nat,
                  before: set<string>, missing0: set<string>, presence0: set<Sighting>,
                  now: set<string>, missing: set<string>, presence: set<Sighting>,
                  now': set<string>, missing': set<string>, presence': set<Sighting>)
    requires WellFormed(repo) && p in repo.index && p !in before && i < |repo.index[p].depends|
    requires InLoop(repo, arch, p, i, before, missing0, presence0, now, missing, presence)
    requires Explored(repo, now, now', Target(repo, repo.index[p].depends[i]))
    requires var u := Unmet(repo, repo.index[p].depends[i]);
             missing' == missing + UnmetNames(repo, now' - now) + if u.Some? then {u.value} else {}
    requires presence' == presence + Sightings(repo, now' - now, arch)
    ensures InLoop(repo, arch, p, i + 1, before, missing0, presence0, now', missing', presence')
  {
    NextDependency(repo, before, now, now', p, i);
    MissingStep(repo, p, i, before, missing0, now, missing, now', missing');
    PresenceStep(repo, arch, before, presence0, now, presence, now', presence');
  }

  lemma MissingStep(repo: Repo, p: string, i: nat, before: set<string>, missing0: set<string>,
                    now: set<string>, missing: set<string>, now': set<string>, missing': set<string>)
    requires WellFormed(repo) && p in repo.index && i < |repo.index[p].depends| && before + {p} <= now <= now'
    requires missing == missing0 + UnmetNames(repo, now - before - {p}) + UnmetAmong(repo, repo.index[p].depends[..i])
    requires var u := Unmet(repo, repo.index[p].depends[i]);
             missing' == missing + UnmetNames(repo, now' - now) + if u.Some? then {u.value} else {}
    ensures missing' == missing0 + UnmetNames(repo, now' - before - {p}) + UnmetAmong(repo, repo.index[p].depends[..i + 1])
  {
    var u, deps := Unmet(repo, repo.index[p].depends[i]), repo.index[p].depends;
    MissingGrows(repo, p, i, before, now, now');
    Regroup(missing0, UnmetNames(repo, now - before - {p}), UnmetAmong(repo, deps[..i]), UnmetNames(repo, now' - now),
            if u.Some? then {u.value} else {}, UnmetNames(repo, now' - before - {p}), UnmetAmong(repo, deps[..i + 1]));
  }

  lemma PresenceStep(repo: Repo, arch: string, before: set<string>, presence0: set<Sighting>,
                     now: set<string>, presence: set<Sighting>, now': set<string>, presence': set<Sighting>)
    requires before <= now <= now' <= repo.index.Keys
    requires presence == presence0 + Sightings(repo, now - before, arch)
    requires presence' == presence + Sightings(repo, now' - now, arch)
    ensures presence' == presence0 + Sightings(repo, now' - before, arch)
  {
    SightingsGrow(repo, before, now, now', arch);
  }

  lemma Regroup<T>(m: set<T>, a: set<T>, b: set<T>, x: set<T>, y: set<T>, a': set<T>, b': set<T>)
    requires a' + b' == a + b + x + y
    ensures m + a + b + x + y == m + a' + b'
  {
    forall e ensures e in m + a + b + x + y <==> e in m + a' + b' {
      assert e in a' + b' <==> e in a + b + x + y;
    }
  }

  lemma SightingsGrow(repo: Repo, before: set<string>, now: set<string>, now': set<string>, arch: string)
    requires before <= now <= now' <= repo.index.Keys
    ensures Sightings(repo, now' - before, arch) == Sightings(repo, now - before, arch) + Sightings(repo, now' - now, arch)
  {
    SightingsSplit(repo, now - before, now' - before, arch);
    assert (now' - before) - (now - before) == now' - now;
  }

  lemma MissingGrows(repo: Repo, p: string, i: nat, before: set<string>, now: set<string>, now': set<string>)
    requires WellFormed(repo) && p in repo.index && i < |repo.index[p].depends| && before + {p} <= now <= now'
    ensures var u, deps := Unmet(repo, repo.index[p].depends[i]), repo.index[p].depends;
            UnmetNames(repo, now' - before - {p}) + UnmetAmong(repo, deps[..i + 1]) ==
            UnmetNames(repo, now - before - {p}) + UnmetAmong(repo, deps[..i]) + UnmetNames(repo, now' - now)
            + if u.Some? then {u.value} else {}
  {
    UnmetAmongNext(repo, repo.index[p].depends, i);
    UnmetNamesSplit(repo, now - before - {p}, now' - now);
    assert now' - before - {p} == (now - before - {p}) + (now' - now);
  }

  lemma LoopEnds(repo: Repo, arch: string, p: string,
                 before: set<string>, missing0: set<string>, presence0: set<Sighting>,
                 now: set<string>, missing: set<string>, presence: set<Sighting>)
    requires WellFormed(repo) && p in repo.index && p !in before
    requires InLoop(repo, arch, p, |repo.index[p].depends|, before, missing0, presence0, now, missing, presence)
    ensures Explored(repo, before, now, Some(p))
    ensures missing == missing0 + UnmetNames(repo, now - before)
  {
    LastDependency(repo, before, now, p);
    assert repo.index[p].depends[..|repo.index[p].depends|] == repo.index[p].depends;
    UnmetOfOne(repo, p);
    UnmetNamesSplit(repo, now - before - {p}, {p});
    assert now - before == (now - before - {p}) + {p};
  }

  method ResolveDependencies(name: string, repo: Repo, arch: string, data: ArchData, presence: Presence)
    requires WellFormed(repo) && data.resolved <= repo.index.Keys
    modifies data, presence
    ensures Explored(repo, old(data.resolved), data.resolved, Root(repo, name))
    ensures data.resolved == old(data.resolved) + Closure(repo, old(data.resolved), Root(repo, name))
    ensures data.missing == old(data.missing) + NewlyMissing(repo, name, data.resolved - old(data.resolved))
    ensures presence.entries == old(presence.entries) + Sightings(repo, data.resolved - old(data.resolved), arch)
    decreases |repo.index.Keys - data.resolved|, if name in repo.index then 2 else 3
  {
    ghost var before := data.resolved;
    assert before - before == {};
    if name in data.resolved {
      ExploredExactly(repo, before, before, Some(name));
      return;
    }
    if name in repo.index {
      ResolveIndexed(name, repo, arch, data, presence);
      ExploredExactly(repo, before, data.resolved, Some(name));
    } else if name in repo.providers {
      ResolveDependencies(repo.providers[name][0], repo, arch, data, presence);
    } else {
      data.missing := data.missing + {name};
      ExploredExactly(repo, before, before, None);
    }
  }

  /** A package of the index, not resolved yet: mark it, then follow its dependencies. */
  method ResolveIndexed(name: string, repo: Repo, arch: string, data: ArchData, presence: Presence)
    requires WellFormed(repo) && data.resolved <= repo.index.Keys && name in repo.index && name !in data.resolved
    modifies data, presence
    ensures Explored(repo, old(data.resolved), data.resolved, Some(name))
    ensures data.missing == old(data.missing) + UnmetNames(repo, data.resolved - old(data.resolved))
    ensures presence.entries == old(presence.entries) + Sightings(repo, data.resolved - old(data.resolved), arch)
    decreases |repo.index.Keys - data.resolved|, 1
  {
    ghost var before, missing0, presence0 := data.resolved, data.missing, presence.entries;
    var pkg := repo.index[name];
    LoopStarts(repo, arch, name, before, missing0, presence0);
    data.resolved := data.resolved + {name};
    presence.entries := presence.entries + {Sighting(name, pkg.branch, arch)};
    var i := 0;
    while i < |pkg.depends|
      invariant 0 <= i <= |pkg.depends|
      invariant InLoop(repo, arch, name, i, before, missing0, presence0,
                       data.resolved, data.missing, presence.entries)
    {
      ResolveNext(name, i, repo, arch, data, presence, before, missing0, presence0);
      i := i + 1;
    }
    LoopEnds(repo, arch, name, before, missing0, presence0, data.resolved, data.missing, presence.entries);
  }

  /** One turn of the loop over the dependencies of `name`. */
  method ResolveNext(name: string, i: nat, repo: Repo, arch: string, data: ArchData, presence: Presence,
                     ghost before: set<string>, ghost missing0: set<string>, ghost presence0: set<Sighting>)
    requires WellFormed(repo) && name in repo.index && name !in before && i < |repo.index[name].depends|
    requires InLoop(repo, arch, name, i, before, missing0, presence0, data.resolved, data.missing, presence.entries)
    modifies data, presence
    ensures InLoop(repo, arch, name, i + 1, before, missing0, presence0, data.resolved, data.missing, presence.entries)
    decreases |repo.index.Keys - before|, 0
  {
    ghost var now, missing, entries := data.resolved, data.missing, presence.entries;
    SmallerSet(repo.index.Keys - now, repo.index.Keys - before, name);
    ResolveDependency(repo.index[name].depends[i], repo, arch, data, presence);
    LoopSteps(repo, arch, name, i, before, missing0, presence0, now, missing, entries,
              data.resolved, data.missing, presence.entries);
  }

  /** The body of the loop over a package's dependencies. */
  method ResolveDependency(dep: string, repo: Repo, arch: string, data: ArchData, presence: Presence)
    requires WellFormed(repo) && data.resolved <= repo.index.Keys
    modifies data, presence
    ensures Explored(repo, old(data.resolved), data.resolved, Target(repo, dep))
    ensures var u := Unmet(repo, dep);
            data.missing == old(data.missing) + UnmetNames(repo, data.resolved - old(data.resolved))
                            + if u.Some? then {u.value} else {}
    ensures presence.entries == old(presence.entries) + Sightings(repo, data.resolved - old(data.resolved), arch)
    decreases |repo.index.Keys - data.resolved|, 4
  {
    assert data.resolved - data.resolved == {};
    if IsConflict(dep) {
      return;
    }
    var depName := StripVersion(dep);
    if IsVirtual(depName) {
      if depName in repo.providers {
        ResolveDependencies(repo.providers[depName][0], repo, arch, data, presence);
      } else {
        data.missing := data.missing + {depName};
      }
    } else if depName in repo.index {
      ResolveDependencies(depName, repo, arch, data, presence);
    } else {
      data.missing := data.missing + {depName};
    }
  }

  lemma SmallerSet<T>(a: set<T>, b: set<T>, x: T)
    requires a <= b && x in b && x !in a
    ensures |a| < |b|
  {
    SubsetSize(a, b - {x});
  }

  lemma {:induction false} SubsetSize<T>(a: set<T>, b: set<T>)
    requires a <= b
    ensures |a| <= |b|
  {
    if a != {} {
      var x :| x in a;
      SubsetSize(a - {x}, b - {x});
    }
  }
}
