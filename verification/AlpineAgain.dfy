/**
 Migrating the lists a migration has produced: main of tools/alpine-tools/alpine_migrate.py
 pools the lists of all architectures and branches and resolves the pool on each architecture.
 */
module AlpineAgain {
  import opened Common
  import opened AlpineIndex
  import opened AlpineResolve
  import opened AlpineMigrate

  // ---------------------------------------------------------------------------
  // The closure is a closure

  lemma ReachesFurther(repo: Repo, a: string, b: string, c: string)
    requires WellFormed(repo) && Reaches(repo, {}, a, b) && Edge(repo, b, c)
    ensures c in repo.index && Reaches(repo, {}, a, c)
  {
    var path :| IsPath(repo, {}, path) && path[0] == a && path[|path| - 1] == b;
    var longer := path + [c];
    forall i | 0 < i < |longer| ensures Edge(repo, longer[i - 1], longer[i]) {
      if i < |path| {
        assert Edge(repo, path[i - 1], path[i]);
      }
    }
    assert IsPath(repo, {}, longer) && longer[0] == a && longer[|longer| - 1] == c;
  }

  lemma ClosureIsClosed(repo: Repo, inputs: set<string>)
    requires WellFormed(repo)
    ensures Closed(repo, ClosureOf(repo, inputs))
  {
    forall p, d | p in ClosureOf(repo, inputs) && d in repo.index[p].depends && Target(repo, d).Some?
      ensures Target(repo, d).value in ClosureOf(repo, inputs)
    {
      var n :| n in inputs && p in Closure(repo, {}, Root(repo, n));
      var t := Target(repo, d).value;
      assert Edge(repo, p, t);
      ReachesFurther(repo, Root(repo, n).value, p, t);
      assert Wanted(repo, inputs, t);
    }
  }

  lemma {:induction false} PathInClosed(repo: Repo, closed: set<string>, path: seq<string>)
    requires WellFormed(repo) && Closed(repo, closed) && IsPath(repo, {}, path) && path[0] in closed
    ensures path[|path| - 1] in closed
    decreases |path|
  {
    if |path| > 1 {
      var front := path[..|path| - 1];
      assert forall i | 0 < i < |front| :: Edge(repo, front[i - 1], front[i]);
      PathInClosed(repo, closed, front);
      assert Edge(repo, path[|path| - 2], path[|path| - 1]);
    }
  }

  /** All requested packages that exist are in `pkgs`. */
  predicate Satisfies(repo: Repo, pkgs: set<string>, inputs: set<string>)
    requires WellFormed(repo)
  {
    forall n | n in inputs && Root(repo, n).Some? :: Root(repo, n).value in pkgs
  }

  /** The closure is the least closed set with the requested packages. */
  lemma ClosureIsLeast(repo: Repo, inputs: set<string>, closed: set<string>)
    requires WellFormed(repo) && Closed(repo, closed) && Satisfies(repo, closed, inputs)
    ensures ClosureOf(repo, inputs) <= closed
  {
    forall p | p in ClosureOf(repo, inputs) ensures p in closed {
      var n :| n in inputs && p in Closure(repo, {}, Root(repo, n));
      var path :| IsPath(repo, {}, path) && path[0] == Root(repo, n).value && path[|path| - 1] == p;
      PathInClosed(repo, closed, path);
    }
  }

  lemma ClosureSatisfies(repo: Repo, inputs: set<string>)
    requires WellFormed(repo)
    ensures Satisfies(repo, ClosureOf(repo, inputs), inputs)
  {
    forall n | n in inputs && Root(repo, n).Some? ensures Root(repo, n).value in ClosureOf(repo, inputs) {
      ReachesSelf(repo, {}, Root(repo, n).value);
      assert Wanted(repo, inputs, Root(repo, n).value);
    }
  }

  lemma OwnRoots(repo: Repo, pkgs: set<string>)
    requires WellFormed(repo) && pkgs <= repo.index.Keys
    ensures Satisfies(repo, pkgs, pkgs)
  {
  }

  /** Resolving a pool that holds what was resolved gives the same again exactly when the pool asks for nothing new. */
  lemma SameClosureExactly(repo: Repo, inputs: set<string>, pool: set<string>)
    requires WellFormed(repo) && ClosureOf(repo, inputs) <= pool
    ensures ClosureOf(repo, pool) == ClosureOf(repo, inputs) <==> Satisfies(repo, ClosureOf(repo, inputs), pool)
  {
    ClosureSatisfies(repo, pool);
    if Satisfies(repo, ClosureOf(repo, inputs), pool) {
      ClosureIsClosed(repo, inputs);
      ClosureIsLeast(repo, pool, ClosureOf(repo, inputs));
      forall p | p in ClosureOf(repo, inputs) ensures p in ClosureOf(repo, pool) {
        assert p in pool && Root(repo, p) == Some(p);
      }
    }
  }

  lemma ClosureIdempotent(repo: Repo, inputs: set<string>)
    requires WellFormed(repo)
    ensures ClosureOf(repo, ClosureOf(repo, inputs)) == ClosureOf(repo, inputs)
  {
    OwnRoots(repo, ClosureOf(repo, inputs));
    SameClosureExactly(repo, inputs, ClosureOf(repo, inputs));
  }

  // ---------------------------------------------------------------------------
  // A second migration

  predicate Complete(c: Classified, archs: seq<string>) {
    && c.common.Keys == c.perArch.Keys == BRANCHES
    && forall b, a | b in BRANCHES && a in archs :: a in c.perArch[b]
  }

  /** What a second run reads: every list of every architecture, in one set. */
  ghost function Pool(c: Classified, archs: seq<string>): set<string>
    requires Complete(c, archs)
  {
    set b, a, p | b in BRANCHES && a in archs && p in c.common[b] + c.perArch[b][a] :: p
  }

  ghost predicate NoStrays(repos: Repos, archs: seq<string>, inputs: set<string>)
    requires Usable(repos, archs)
  {
    forall a | a in archs :: !Strays(repos[a], ClosureOf(repos[a], inputs))
  }

  lemma ClassifiedIsComplete(c: Classified, repos: Repos, archs: seq<string>, inputs: set<string>)
    requires Usable(repos, archs) && AllClassified(c, repos, archs, inputs)
    ensures Complete(c, archs)
  {
    forall b, a | b in BRANCHES && a in archs ensures a in c.perArch[b] {
      assert BranchClassified(c.common[b], c.perArch[b], repos, archs, inputs, b);
      assert a in ArchSet(archs);
    }
  }

  lemma PoolHoldsClosure(c: Classified, repos: Repos, archs: seq<string>, inputs: set<string>, a: string)
    requires Usable(repos, archs) && a in archs && AllClassified(c, repos, archs, inputs) && NoStrays(repos, archs, inputs)
    ensures Complete(c, archs) && ClosureOf(repos[a], inputs) <= Pool(c, archs)
  {
    ClassifiedIsComplete(c, repos, archs, inputs);
    ListsGiveClosure(c, repos, archs, inputs, a);
  }

  /** Nothing of the pool is new on any architecture. */
  ghost predicate Settled(c: Classified, repos: Repos, archs: seq<string>, inputs: set<string>)
    requires Usable(repos, archs) && Complete(c, archs)
  {
    forall a | a in archs :: Satisfies(repos[a], ClosureOf(repos[a], inputs), Pool(c, archs))
  }

  ghost predicate SameClosures(repos: Repos, archs: seq<string>, inputs: set<string>, inputs': set<string>)
    requires Usable(repos, archs)
  {
    forall a | a in archs :: ClosureOf(repos[a], inputs) == ClosureOf(repos[a], inputs')
  }

  lemma SameNeeds(repos: Repos, archs: seq<string>, inputs: set<string>, inputs': set<string>, b: string, p: string)
    requires Usable(repos, archs) && SameClosures(repos, archs, inputs, inputs')
    ensures forall a | a in archs :: Needed(repos, archs, inputs, a, b, p) <==> Needed(repos, archs, inputs', a, b, p)
    ensures CommonToAll(repos, archs, inputs, b, p) <==> CommonToAll(repos, archs, inputs', b, p)
  {
  }

  lemma SameMembers(common: set<string>, perArch: map<string, set<string>>,
                    common': set<string>, perArch': map<string, set<string>>,
                    repos: Repos, archs: seq<string>, inputs: set<string>, inputs': set<string>, b: string, p: string)
    requires Usable(repos, archs) && SameClosures(repos, archs, inputs, inputs')
    requires BranchClassified(common, perArch, repos, archs, inputs, b)
    requires BranchClassified(common', perArch', repos, archs, inputs', b)
    ensures p in common <==> p in common'
    ensures forall a | a in archs :: a in perArch && a in perArch' && (p in perArch[a] <==> p in perArch'[a])
  {
    SameNeeds(repos, archs, inputs, inputs', b, p);
    forall a | a in archs ensures a in perArch && a in perArch' && (p in perArch[a] <==> p in perArch'[a]) {
      assert a in ArchSet(archs);
    }
  }

  lemma SameBranch(common: set<string>, perArch: map<string, set<string>>,
                   common': set<string>, perArch': map<string, set<string>>,
                   repos: Repos, archs: seq<string>, inputs: set<string>, inputs': set<string>, b: string)
    requires Usable(repos, archs) && SameClosures(repos, archs, inputs, inputs')
    requires BranchClassified(common, perArch, repos, archs, inputs, b)
    requires BranchClassified(common', perArch', repos, archs, inputs', b)
    ensures common == common' && perArch == perArch'
  {
    forall p ensures p in common <==> p in common' {
      SameMembers(common, perArch, common', perArch', repos, archs, inputs, inputs', b, p);
    }
    forall a | a in ArchSet(archs) ensures perArch[a] == perArch'[a] {
      forall p ensures p in perArch[a] <==> p in perArch'[a] {
        SameMembers(common, perArch, common', perArch', repos, archs, inputs, inputs', b, p);
      }
    }
  }

  lemma SameLists(c: Classified, c': Classified, repos: Repos, archs: seq<string>, inputs: set<string>, inputs': set<string>)
    requires Usable(repos, archs) && SameClosures(repos, archs, inputs, inputs')
    requires AllClassified(c, repos, archs, inputs) && AllClassified(c', repos, archs, inputs')
    ensures c == c'
  {
    forall b | b in BRANCHES ensures c.common[b] == c'.common[b] && c.perArch[b] == c'.perArch[b] {
      SameBranch(c.common[b], c.perArch[b], c'.common[b], c'.perArch[b], repos, archs, inputs, inputs', b);
    }
    assert c.common == c'.common && c.perArch == c'.perArch;
  }

  lemma ListsDecideClosures(c: Classified, repos: Repos, archs: seq<string>, inputs: set<string>, inputs': set<string>)
    requires Usable(repos, archs) && NoStrays(repos, archs, inputs) && NoStrays(repos, archs, inputs')
    requires AllClassified(c, repos, archs, inputs) && AllClassified(c, repos, archs, inputs')
    ensures SameClosures(repos, archs, inputs, inputs')
  {
    forall a | a in archs ensures ClosureOf(repos[a], inputs) == ClosureOf(repos[a], inputs') {
      ListsGiveClosure(c, repos, archs, inputs, a);
      ListsGiveClosure(c, repos, archs, inputs', a);
    }
  }

  /**
   Migrating the lists again with the same indexes leaves every list as it is exactly when no
   architecture finds a package in the pool that it did not need itself.
   */
  lemma SecondMigrationExactly(c: Classified, c': Classified, repos: Repos, archs: seq<string>, inputs: set<string>)
    requires Usable(repos, archs) && AllClassified(c, repos, archs, inputs) && NoStrays(repos, archs, inputs)
    requires Complete(c, archs)
    requires AllClassified(c', repos, archs, Pool(c, archs)) && NoStrays(repos, archs, Pool(c, archs))
    ensures c == c' <==> Settled(c, repos, archs, inputs)
  {
    var pool := Pool(c, archs);
    forall a | a in archs
      ensures ClosureOf(repos[a], pool) == ClosureOf(repos[a], inputs) <==>
              Satisfies(repos[a], ClosureOf(repos[a], inputs), pool)
    {
      PoolHoldsClosure(c, repos, archs, inputs, a);
      SameClosureExactly(repos[a], inputs, pool);
    }
    assert SameClosures(repos, archs, inputs, pool) <==> Settled(c, repos, archs, inputs);
    if SameClosures(repos, archs, inputs, pool) {
      SameLists(c, c', repos, archs, inputs, pool);
    }
    if c == c' {
      ListsDecideClosures(c, repos, archs, inputs, pool);
    }
  }

  // ---------------------------------------------------------------------------
  // A migration that is not settled

  /** A package "a", which depends on `deps`, and a package "b". */
  function TwoPackages(deps: seq<string>): Repo {
    Repo(map["a" := Package("a", deps, [], MAIN), "b" := Package("b", [], [], MAIN)], map[])
  }

  lemma PlainDependency(repo: Repo)
    requires WellFormed(repo) && "b" in repo.index
    ensures Target(repo, "b") == Some("b")
  {
    assert "b"[0] == 'b' && "b"[1..] == "";
    assert Before("b", {'<', '>', '=', '~'}) == "b";
    assert "so:"[0] == 's' && "cmd:"[0] == 'c' && "pc:"[0] == 'p' && "!"[0] == '!';
  }

  /** What only one architecture needs is resolved on the other, which also has it, the second time. */
  lemma NeededElsewhere()
    ensures var x, y := TwoPackages(["b"]), TwoPackages([]);
            && WellFormed(x) && WellFormed(y)
            && "b" in ClosureOf(x, {"a"}) && "b" !in ClosureOf(y, {"a"})
            && !Satisfies(y, ClosureOf(y, {"a"}), ClosureOf(x, {"a"}) + ClosureOf(y, {"a"}))
  {
    var x, y := TwoPackages(["b"]), TwoPackages([]);
    assert "a"[0] != "b"[0];
    ClosureSatisfies(x, {"a"});
    ClosureIsClosed(x, {"a"});
    PlainDependency(x);
    assert Root(x, "a") == Some("a") && "b" in x.index["a"].depends;
    assert Closed(y, {"a"}) && Satisfies(y, {"a"}, {"a"});
    ClosureIsLeast(y, {"a"}, {"a"});
    assert Root(y, "b") == Some("b");
  }
}
