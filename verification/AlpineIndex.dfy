/**
 The package index of tools/alpine-tools/alpine_index.py: parsing APKINDEX entries and
 merging the indexes of one architecture's branches.
 */
module AlpineIndex {

  datatype Package = Package(name: string, depends: seq<string>, features: seq<string>, branch: string)

  /** One architecture's index and the packages providing each virtual name, in index order. */
  datatype Repo = Repo(index: map<string, Package>, providers: map<string, seq<string>>)

  const EMPTY_REPO := Repo(map[], map[])

  /** Every virtual name has a provider, and every provider is a package of the index. */
  predicate WellFormed(r: Repo) {
    forall v | v in r.providers :: r.providers[v] != [] && forall p | p in r.providers[v] :: p in r.index
  }

  // ---------------------------------------------------------------------------
  // Strings

  predicate IsSpace(c: char) {
    c == ' ' || c == '\t' || c == '\n' || c == '\r'
  }

  /** The maximal runs of non-blank characters, left to right. */
  function Words(s: string): seq<string> {
    if s == "" then []
    else if IsSpace(s[0]) then Words(s[1..])
    else if |s| == 1 || IsSpace(s[1]) then [[s[0]]] + Words(s[1..])
    else
      var rest := Words(s[1..]);
      if rest == [] then [[s[0]]] else [[s[0]] + rest[0]] + rest[1..]
  }

  function TrimLeft(s: string): string {
    if s != "" && IsSpace(s[0]) then TrimLeft(s[1..]) else s
  }

  function TrimRight(s: string): string {
    if s != "" && IsSpace(s[|s| - 1]) then TrimRight(s[..|s| - 1]) else s
  }

  /** The text before the first character of `stops`. */
  function Before(s: string, stops: set<char>): (r: string)
    ensures r <= s && forall c | c in r :: c !in stops
    ensures |r| < |s| ==> s[|r|] in stops
  {
    if s == "" || s[0] in stops then "" else [s[0]] + Before(s[1..], stops)
  }

  /** A dependency without its version constraint. */
  function StripVersion(dep: string): (r: string)
    ensures r <= dep && (forall c | c in r :: c !in {'<', '>', '=', '~'})
    ensures |r| < |dep| ==> dep[|r|] in {'<', '>', '=', '~'}
  {
    Before(dep, {'<', '>', '=', '~'})
  }

  // ---------------------------------------------------------------------------
  // One entry

  /** The text of the last line that starts with `key`. */
  function Field(lines: seq<string>, key: string): string
    requires |key| == 2
  {
    if lines == [] then ""
    else
      var last := lines[|lines| - 1];
      if key <= last then last[2..] else Field(lines[..|lines| - 1], key)
  }

  function ReplaceShell(words: seq<string>): seq<string> {
    seq(|words|, i requires 0 <= i < |words| => if words[i] == "/bin/sh" then "busybox" else words[i])
  }

  function Entry(lines: seq<string>, branch: string): Package {
    Package(TrimRight(TrimLeft(Field(lines, "P:"))), ReplaceShell(Words(Field(lines, "D:"))),
            Words(Field(lines, "p:")), branch)
  }

  method ParseEntry(lines: seq<string>, branch: string) returns (pkg: Package)
    ensures pkg == Entry(lines, branch)
  {
    var name, depends, features := "", [], [];
    var i := 0;
    while i < |lines|
      invariant 0 <= i <= |lines|
      invariant Package(name, depends, features, branch) == Entry(lines[..i], branch)
    {
      var line := lines[i];
      assert lines[..i + 1][..i] == lines[..i];
      assert "P:"[0] == 'P' && "D:"[0] == 'D' && "p:"[0] == 'p';
      if "P:" <= line {
        name := TrimRight(TrimLeft(line[2..]));
      } else if "D:" <= line {
        depends := ReplaceShell(Words(line[2..]));
      } else if "p:" <= line {
        features := Words(line[2..]);
      }
      i := i + 1;
    }
    assert lines[..i] == lines;
    pkg := Package(name, depends, features, branch);
  }

  // ---------------------------------------------------------------------------
  // The whole index

  /** The virtual names a package provides, versions dropped, in the order listed. */
  function Keys(pkg: Package): seq<string> {
    seq(|pkg.features|, i requires 0 <= i < |pkg.features| => Before(pkg.features[i], {'='}))
  }

  function Append(m: map<string, seq<string>>, key: string, names: seq<string>): map<string, seq<string>> {
    m[key := (if key in m then m[key] else []) + names]
  }

  function AddProvider(m: map<string, seq<string>>, keys: seq<string>, name: string): map<string, seq<string>> {
    if keys == [] then m
    else Append(AddProvider(m, keys[..|keys| - 1], name), keys[|keys| - 1], [name])
  }

  function AddPackage(r: Repo, pkg: Package): Repo {
    if pkg.name == "" then r
    else Repo(r.index[pkg.name := pkg], AddProvider(r.providers, Keys(pkg), pkg.name))
  }

  function RepoOf(pkgs: seq<Package>): Repo {
    if pkgs == [] then EMPTY_REPO else AddPackage(RepoOf(pkgs[..|pkgs| - 1]), pkgs[|pkgs| - 1])
  }

  function Entries(entries: seq<seq<string>>, branch: string): seq<Package> {
    seq(|entries|, i requires 0 <= i < |entries| => Entry(entries[i], branch))
  }

  /** Enter a named package in the index and under every name it provides. */
  method EnterPackage(r: Repo, pkg: Package) returns (r': Repo)
    ensures r' == AddPackage(r, pkg)
  {
    r' := r;
    if pkg.name != "" {
      var index := r.index[pkg.name := pkg];
      var providers := r.providers;
      var keys := Keys(pkg);
      var k := 0;
      while k < |keys|
        invariant 0 <= k <= |keys|
        invariant providers == AddProvider(r.providers, keys[..k], pkg.name)
      {
        assert keys[..k + 1][..k] == keys[..k];
        providers := providers[keys[k] := (if keys[k] in providers then providers[keys[k]] else []) + [pkg.name]];
        k := k + 1;
      }
      assert keys[..k] == keys;
      r' := Repo(index, providers);
    }
  }

  method ParseApkIndex(entries: seq<seq<string>>, branch: string) returns (r: Repo)
    ensures r == RepoOf(Entries(entries, branch))
    ensures WellFormed(r)
  {
    r := EMPTY_REPO;
    ghost var pkgs := Entries(entries, branch);
    var i := 0;
    while i < |entries|
      invariant 0 <= i <= |entries|
      invariant r == RepoOf(pkgs[..i])
    {
      var pkg := ParseEntry(entries[i], branch);
      assert pkgs[..i + 1][..i] == pkgs[..i];
      r := EnterPackage(r, pkg);
      i := i + 1;
    }
    assert pkgs[..i] == pkgs;
    RepoIsWellFormed(pkgs);
  }

  // ---------------------------------------------------------------------------
  // What the parsed index holds

  lemma {:induction false} AddProviderAt(m: map<string, seq<string>>, keys: seq<string>, name: string, v: string)
    ensures var n := AddProvider(m, keys, name);
            && (v in n <==> v in m || v in keys)
            && (v in m ==> m[v] <= n[v])
            && (v in n ==> |n[v]| > if v in m then |m[v]| - 1 else 0)
            && (v in n ==> forall p | p in n[v] :: p == name || (v in m && p in m[v]))
  {
    if keys != [] {
      AddProviderAt(m, keys[..|keys| - 1], name, v);
      assert keys == keys[..|keys| - 1] + [keys[|keys| - 1]];
    }
  }

  lemma AddPackageKeepsWellFormed(r: Repo, pkg: Package)
    requires WellFormed(r)
    ensures WellFormed(AddPackage(r, pkg))
  {
    if pkg.name != "" {
      var n := AddPackage(r, pkg);
      forall v | v in n.providers
        ensures n.providers[v] != [] && forall p | p in n.providers[v] :: p in n.index
      {
        AddProviderAt(r.providers, Keys(pkg), pkg.name, v);
      }
    }
  }

  lemma {:induction false} RepoIsWellFormed(pkgs: seq<Package>)
    ensures WellFormed(RepoOf(pkgs))
  {
    if pkgs != [] {
      RepoIsWellFormed(pkgs[..|pkgs| - 1]);
      AddPackageKeepsWellFormed(RepoOf(pkgs[..|pkgs| - 1]), pkgs[|pkgs| - 1]);
    }
  }

  predicate LastEntry(pkgs: seq<Package>, n: string, i: nat) {
    i < |pkgs| && pkgs[i].name == n && forall j | i < j < |pkgs| :: pkgs[j].name != n
  }

  lemma {:induction false} InIndexExactly(pkgs: seq<Package>, n: string)
    ensures n in RepoOf(pkgs).index <==> n != "" && exists i :: 0 <= i < |pkgs| && pkgs[i].name == n
  {
    if pkgs != [] {
      var init, last := pkgs[..|pkgs| - 1], pkgs[|pkgs| - 1];
      InIndexExactly(init, n);
      assert forall i | 0 <= i < |init| :: pkgs[i] == init[i];
      if last.name == n {
        assert pkgs[|pkgs| - 1].name == n;
      }
    }
  }

  lemma {:induction false} LastEntryWins(pkgs: seq<Package>, n: string, i: nat)
    requires n != "" && LastEntry(pkgs, n, i)
    ensures n in RepoOf(pkgs).index && RepoOf(pkgs).index[n] == pkgs[i]
  {
    var init := pkgs[..|pkgs| - 1];
    if i < |init| {
      assert pkgs[|pkgs| - 1].name != n;
      assert forall j | 0 <= j < |init| :: pkgs[j] == init[j];
      LastEntryWins(init, n, i);
    }
  }

  /** A name is in the index when some entry has it, and the last such entry wins. */
  lemma IndexHoldsLastEntry(pkgs: seq<Package>, n: string)
    ensures n in RepoOf(pkgs).index <==> n != "" && exists i :: 0 <= i < |pkgs| && pkgs[i].name == n
    ensures forall i: nat | n in RepoOf(pkgs).index && LastEntry(pkgs, n, i) :: RepoOf(pkgs).index[n] == pkgs[i]
  {
    InIndexExactly(pkgs, n);
    forall i: nat | n in RepoOf(pkgs).index && LastEntry(pkgs, n, i) ensures RepoOf(pkgs).index[n] == pkgs[i] {
      LastEntryWins(pkgs, n, i);
    }
  }

  predicate ProvidesName(pkg: Package, v: string) {
    pkg.name != "" && v in Keys(pkg)
  }

  /** A virtual name resolves to the first entry that provides it. */
  lemma {:induction false} FirstProvider(pkgs: seq<Package>, v: string)
    ensures v in RepoOf(pkgs).providers <==> exists i :: 0 <= i < |pkgs| && ProvidesName(pkgs[i], v)
    ensures v in RepoOf(pkgs).providers ==>
              && RepoOf(pkgs).providers[v] != []
              && exists i :: && 0 <= i < |pkgs| && ProvidesName(pkgs[i], v)
                             && RepoOf(pkgs).providers[v][0] == pkgs[i].name
                             && forall j | 0 <= j < i :: !ProvidesName(pkgs[j], v)
  {
    if pkgs != [] {
      var init, last := pkgs[..|pkgs| - 1], pkgs[|pkgs| - 1];
      FirstProvider(init, v);
      AddProviderAt(RepoOf(init).providers, Keys(last), last.name, v);
      assert forall i | 0 <= i < |init| :: pkgs[i] == init[i];
      if v in RepoOf(init).providers {
        var i :| && 0 <= i < |init| && ProvidesName(init[i], v) && RepoOf(init).providers[v][0] == init[i].name
                 && forall j | 0 <= j < i :: !ProvidesName(init[j], v);
        assert ProvidesName(pkgs[i], v) && RepoOf(pkgs).providers[v][0] == pkgs[i].name;
      } else if ProvidesName(last, v) {
        var names := RepoOf(pkgs).providers[v];
        assert names[0] in names && names[0] == last.name;
        assert ProvidesName(pkgs[|pkgs| - 1], v);
      }
    }
  }

  // ---------------------------------------------------------------------------
  // Merging the branches of an architecture

  function MergeTwo(a: Repo, b: Repo): Repo {
    Repo(a.index + b.index,
         map v | v in a.providers.Keys + b.providers.Keys ::
           (if v in a.providers then a.providers[v] else []) + (if v in b.providers then b.providers[v] else []))
  }

  /** Empty indexes are skipped; later branches override packages and come last as providers. */
  function Merged(branches: seq<Repo>): Repo {
    if branches == [] then EMPTY_REPO
    else
      var init, last := Merged(branches[..|branches| - 1]), branches[|branches| - 1];
      if last.index == map[] then init else MergeTwo(init, last)
  }

  method MergeProviders(a: Repo, b: Repo) returns (providers: map<string, seq<string>>)
    ensures providers == MergeTwo(a, b).providers
  {
    providers := a.providers;
    var todo := b.providers.Keys;
    while todo != {}
      invariant todo <= b.providers.Keys
      invariant providers.Keys == a.providers.Keys + (b.providers.Keys - todo)
      invariant forall v | v in providers ::
                  providers[v] == (if v in a.providers then a.providers[v] else []) +
                                  (if v in b.providers && v !in todo then b.providers[v] else [])
    {
      var v :| v in todo;
      providers := providers[v := (if v in providers then providers[v] else []) + b.providers[v]];
      todo := todo - {v};
    }
  }

  lemma MergeKeepsWellFormed(a: Repo, b: Repo)
    requires WellFormed(a) && WellFormed(b)
    ensures WellFormed(MergeTwo(a, b))
  {
    var m := MergeTwo(a, b);
    forall v | v in m.providers
      ensures m.providers[v] != [] && forall p | p in m.providers[v] :: p in m.index
    {
      if v in a.providers {
        assert a.providers[v] <= m.providers[v];
      }
    }
  }

  /** Merging keeps what parsing established, and finds a package whenever some branch has one. */
  lemma {:induction false} MergedIsWellFormed(branches: seq<Repo>)
    requires forall b | b in branches :: WellFormed(b)
    ensures WellFormed(Merged(branches))
    ensures Merged(branches).index != map[] <==> exists i :: 0 <= i < |branches| && branches[i].index != map[]
  {
    if branches != [] {
      var init, last := branches[..|branches| - 1], branches[|branches| - 1];
      MergedIsWellFormed(init);
      assert forall i | 0 <= i < |init| :: branches[i] == init[i];
      if last.index != map[] {
        MergeKeepsWellFormed(Merged(init), last);
        var k :| k in last.index;
        assert k in Merged(branches).index;
      }
    }
  }

  /** A package of a merged index is the one of the last branch that has it. */
  lemma {:induction false} LastBranchWins(branches: seq<Repo>, n: string)
    ensures n in Merged(branches).index <==> exists i :: 0 <= i < |branches| && n in branches[i].index
    ensures n in Merged(branches).index ==>
              exists i :: && 0 <= i < |branches| && n in branches[i].index
                          && Merged(branches).index[n] == branches[i].index[n]
                          && forall j | i < j < |branches| :: n !in branches[j].index
  {
    if branches != [] {
      var init, last := branches[..|branches| - 1], branches[|branches| - 1];
      LastBranchWins(init, n);
      assert forall i | 0 <= i < |init| :: branches[i] == init[i];
      if n in last.index {
        assert n in branches[|branches| - 1].index;
      } else if n in Merged(init).index {
        var i :| && 0 <= i < |init| && n in init[i].index && Merged(init).index[n] == init[i].index[n]
                 && forall j | i < j < |init| :: n !in init[j].index;
        assert n in branches[i].index;
      }
    }
  }

  lemma MergedNext(branches: seq<Repo>, v: string)
    requires branches != [] && WellFormed(branches[|branches| - 1])
    ensures var init, last := Merged(branches[..|branches| - 1]), branches[|branches| - 1];
            && (v in Merged(branches).providers <==> v in init.providers || v in last.providers)
            && (v in init.providers ==> init.providers[v] <= Merged(branches).providers[v])
            && (v !in init.providers && v in last.providers ==> last.providers[v] <= Merged(branches).providers[v])
  {
    var last := branches[|branches| - 1];
    if v in last.providers {
      ProvidersNeedPackages(last, v);
    }
  }

  /** A virtual name of a merged index is one that some branch has a provider for. */
  lemma {:induction false} SomeBranchProvides(branches: seq<Repo>, v: string)
    requires forall i | 0 <= i < |branches| :: WellFormed(branches[i])
    ensures v in Merged(branches).providers <==> exists i :: 0 <= i < |branches| && v in branches[i].providers
  {
    if branches != [] {
      var init := branches[..|branches| - 1];
      assert forall i | 0 <= i < |init| :: branches[i] == init[i];
      SomeBranchProvides(init, v);
      MergedNext(branches, v);
    }
  }

  /** Its first provider is the first provider in the first branch that has one. */
  lemma {:induction false} FirstBranchProvides(branches: seq<Repo>, v: string, i: nat)
    requires forall k | 0 <= k < |branches| :: WellFormed(branches[k])
    requires i < |branches| && v in branches[i].providers && forall j | 0 <= j < i :: v !in branches[j].providers
    ensures v in Merged(branches).providers && branches[i].providers[v] != []
    ensures branches[i].providers[v] <= Merged(branches).providers[v]
  {
    var init := branches[..|branches| - 1];
    assert forall k | 0 <= k < |init| :: branches[k] == init[k];
    MergedNext(branches, v);
    if i < |init| {
      FirstBranchProvides(init, v, i);
    } else {
      SomeBranchProvides(init, v);
    }
  }

  lemma ProvidersNeedPackages(r: Repo, v: string)
    requires WellFormed(r) && v in r.providers
    ensures r.index != map[]
  {
    assert r.providers[v][0] in r.providers[v];
  }

  method MergeBranches(branches: seq<Repo>) returns (r: Repo, found: bool)
    requires forall b | b in branches :: WellFormed(b)
    ensures r == Merged(branches) && WellFormed(r)
    ensures found <==> exists i :: 0 <= i < |branches| && branches[i].index != map[]
  {
    r, found := EMPTY_REPO, false;
    var i := 0;
    while i < |branches|
      invariant 0 <= i <= |branches|
      invariant r == Merged(branches[..i])
      invariant found <==> exists k :: 0 <= k < i && branches[k].index != map[]
    {
      assert branches[..i + 1][..i] == branches[..i];
      var b := branches[i];
      if b.index != map[] {
        var providers := MergeProviders(r, b);
        r := Repo(r.index + b.index, providers);
        found := true;
      }
      i := i + 1;
    }
    assert branches[..i] == branches;
    MergedIsWellFormed(branches);
  }
}
