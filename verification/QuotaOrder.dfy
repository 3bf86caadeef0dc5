/**
 What each of the four directories loses in a whole quota check, and in which order.
 */
module QuotaOrder {
  import opened Common
  import opened LogNames
  import opened Sorting
  import opened Quota

  /** The directories in the order they are purged. */
  function Directory(l: Listing, d: nat): seq<File> {
    if d == 0 then l.keepSent else if d == 1 then l.failSend else if d == 2 then l.appUpload else l.devUpload
  }

  predicate CanGo(files: seq<File>, disk: set<File>, stuck: set<File>, f: File) {
    f in files && f.key.Some? && f in disk && f !in stuck
  }

  predicate NoRepeats<T(==)>(s: seq<T>) {
    forall i, j | 0 <= i < j < |s| :: s[i] != s[j]
  }

  /** The files of a directory that can go, each once, in the order of their keys. */
  ghost predicate OwnInOrder(order: seq<File>, files: seq<File>, disk: set<File>, stuck: set<File>) {
    && KeyOrdered(order) && NoRepeats(order)
    && forall f :: f in order <==> CanGo(files, disk, stuck, f)
  }

  function Flat(gs: seq<seq<File>>): seq<File> {
    if gs == [] then [] else Flat(gs[..|gs| - 1]) + gs[|gs| - 1]
  }

  predicate Unique<T(==)>(s: seq<T>) {
    forall x | x in s :: multiset(s)[x] == 1
  }

  lemma UniqueTail<T>(s: seq<T>)
    requires Unique(s) && s != []
    ensures Unique(s[1..]) && s[0] !in s[1..]
  {
    assert s == [s[0]] + s[1..];
    assert multiset(s) == multiset{s[0]} + multiset(s[1..]);
    assert s[0] in s;
    assert multiset(s[1..])[s[0]] == 0;
    forall x | x in s[1..] ensures multiset(s[1..])[x] == 1 {
      assert x in s && x != s[0];
    }
  }

  lemma {:induction false} KeysFromFiles(files: seq<File>, k: string)
    requires k in KeysOf(files)
    ensures exists i :: 0 <= i < |files| && files[i].key == Some(k)
  {
    var front, last := files[..|files| - 1], files[|files| - 1];
    if last.key != Some(k) {
      KeysFromFiles(front, k);
      var i :| 0 <= i < |front| && front[i].key == Some(k);
      assert files[i] == front[i];
    } else {
      assert files[|files| - 1].key == Some(k);
    }
  }

  lemma {:induction false} KeysUnique(files: seq<File>)
    requires DistinctKeys(files)
    ensures Unique(KeysOf(files))
  {
    if files != [] {
      var front, last := files[..|files| - 1], files[|files| - 1];
      assert forall i | 0 <= i < |front| :: front[i] == files[i];
      KeysUnique(front);
      if last.key.Some? {
        if last.key.value in KeysOf(front) {
          KeysFromFiles(front, last.key.value);
        }
        assert multiset(KeysOf(files)) == multiset(KeysOf(front)) + multiset{last.key.value};
      }
    }
  }

  lemma SortedUniqueKeys(files: seq<File>)
    requires DistinctKeys(files)
    ensures Unique(SortStrings(KeysOf(files)))
    ensures forall k :: k in SortStrings(KeysOf(files)) <==> k in KeysOf(files)
  {
    KeysUnique(files);
    var a, b := SortStrings(KeysOf(files)), KeysOf(files);
    assert multiset(a) == multiset(b);
    forall k ensures k in a <==> k in b {
      assert k in multiset(a) <==> k in multiset(b);
    }
  }

  predicate KeyedRight(sfiles: map<string, File>) {
    forall k | k in sfiles :: sfiles[k].key == Some(k)
  }

  lemma {:induction false} IndexedKeyedRight(sfiles: map<string, File>, files: seq<File>)
    requires KeyedRight(sfiles)
    ensures KeyedRight(Indexed(sfiles, files))
  {
    if files != [] {
      IndexedKeyedRight(sfiles, files[..|files| - 1]);
    }
  }

  /** Is `f` the file its own key makes the loop remove? */
  predicate Chosen(env: Env, disk: set<File>, keys: seq<string>, f: File) {
    f.key.Some? && f.key.value in keys && Removable(env, disk, f.key.value) && env.sfiles[f.key.value] == f
  }

  lemma {:induction false} CandidatesExactly(env: Env, disk: set<File>, keys: seq<string>)
    requires KeyedRight(env.sfiles) && Unique(keys)
    ensures forall f :: f in Candidates(env, disk, keys) <==> Chosen(env, disk, keys, f)
    ensures NoRepeats(Candidates(env, disk, keys))
    decreases |keys|
  {
    if keys != [] {
      UniqueTail(keys);
      var k, rest := keys[0], keys[1..];
      if Removable(env, disk, k) {
        var g := env.sfiles[k];
        var tail := Candidates(env, disk - {g}, rest);
        CandidatesExactly(env, disk - {g}, rest);
        forall f ensures f in [g] + tail <==> Chosen(env, disk, keys, f) {
          HeadOrTail(env, disk, keys, f);
        }
        assert g !in tail;
      } else {
        CandidatesExactly(env, disk, rest);
        forall f ensures Chosen(env, disk, rest, f) <==> Chosen(env, disk, keys, f) {
        }
      }
    }
  }

  lemma HeadOrTail(env: Env, disk: set<File>, keys: seq<string>, f: File)
    requires KeyedRight(env.sfiles) && keys != [] && keys[0] !in keys[1..] && Removable(env, disk, keys[0])
    ensures var g := env.sfiles[keys[0]];
            Chosen(env, disk, keys, f) <==> f == g || Chosen(env, disk - {g}, keys[1..], f)
  {
    assert keys == [keys[0]] + keys[1..];
  }

  predicate Within(files: seq<File>, all: seq<File>) {
    forall f | f in files :: f in all
  }

  /** With distinct keys, what the loop would remove from a directory is that directory's own files. */
  lemma CandidatesAreOwn(l: Listing, files: seq<File>, env: Env, disk: set<File>)
    requires DistinctKeys(AllFiles(l)) && DistinctKeys(files) && Within(files, AllFiles(l)) && env.sfiles == SFiles(l)
    ensures OwnInOrder(Candidates(env, disk, SortStrings(KeysOf(files))), files, disk, env.stuck)
  {
    var keys := SortStrings(KeysOf(files));
    SFilesIndexesAll(l);
    IndexedKeyedRight(map[], AllFiles(l));
    SortedUniqueKeys(files);
    CandidatesExactly(env, disk, keys);
    OldestFirst(env, disk, keys);
    forall f ensures Chosen(env, disk, keys, f) <==> CanGo(files, disk, env.stuck, f) {
      ChosenIsOwn(l, files, env, disk, f);
    }
  }

  lemma ChosenIsOwn(l: Listing, files: seq<File>, env: Env, disk: set<File>, f: File)
    requires DistinctKeys(AllFiles(l)) && DistinctKeys(files) && Within(files, AllFiles(l)) && env.sfiles == SFiles(l)
    ensures Chosen(env, disk, SortStrings(KeysOf(files)), f) <==> CanGo(files, disk, env.stuck, f)
  {
    SortedUniqueKeys(files);
    if f in files && f.key.Some? {
      SortedHasKeys(files, f);
      DistinctIsIndexed(l, f);
    } else if Chosen(env, disk, SortStrings(KeysOf(files)), f) {
      KeysFromFiles(files, f.key.value);
      var i :| 0 <= i < |files| && files[i].key == f.key;
      assert files[i] in files;
      DistinctIsIndexed(l, files[i]);
    }
  }

  // ---------------------------------------------------------------------------
  // The directories one after the other

  lemma SplitDistinct(a: seq<File>, b: seq<File>)
    requires DistinctKeys(a + b)
    ensures DistinctKeys(a) && DistinctKeys(b) && Apart(a, b)
  {
    var all := a + b;
    assert forall i | 0 <= i < |a| :: all[i] == a[i];
    assert forall i | 0 <= i < |b| :: all[|a| + i] == b[i];
    forall f | f in a && f.key.Some? ensures f !in b {
      var i :| 0 <= i < |a| && a[i] == f;
      forall j | 0 <= j < |b| ensures b[j] != f {
        assert all[i] == f && all[|a| + j] == b[j];
      }
    }
  }

  predicate Apart(a: seq<File>, b: seq<File>) {
    forall f | f in a && f.key.Some? :: f !in b
  }

  lemma DirectoriesApart(l: Listing, c: nat, d: nat)
    requires DistinctKeys(AllFiles(l)) && c < d < 4
    ensures Apart(Directory(l, c), Directory(l, d))
  {
    SplitDistinct(l.keepSent + l.appUpload + l.devUpload, l.failSend);
    SplitDistinct(l.keepSent + l.appUpload, l.devUpload);
    SplitDistinct(l.keepSent, l.appUpload);
  }

  lemma DirectoryIsListed(l: Listing, d: nat)
    requires DistinctKeys(AllFiles(l)) && d < 4
    ensures DistinctKeys(Directory(l, d)) && Within(Directory(l, d), AllFiles(l))
  {
    SplitDistinct(l.keepSent + l.appUpload + l.devUpload, l.failSend);
    SplitDistinct(l.keepSent + l.appUpload, l.devUpload);
    SplitDistinct(l.keepSent, l.appUpload);
  }

  lemma PriorityAt(l: Listing, d: nat)
    requires d < 4
    ensures Priority(l)[d] == SortStrings(KeysOf(Directory(l, d)))
  {
    FourAt(SortStrings(KeysOf(l.keepSent)), SortStrings(KeysOf(l.failSend)),
           SortStrings(KeysOf(l.appUpload)), SortStrings(KeysOf(l.devUpload)), d);
  }

  lemma FourAt<T>(a: T, b: T, c: T, d: T, i: nat)
    requires i < 4
    ensures [a, b, c, d][i] == if i == 0 then a else if i == 1 then b else if i == 2 then c else d
  {
  }

  /** A directory's loss when its turn comes at totals `t`: a prefix of what it can lose, as long as needed. */
  predicate Loses(order: seq<File>, g: seq<File>, t: Totals, limit: nat) {
    g <= order && StopsAt(t, order, |g|, limit)
  }

  ghost predicate LosesOwn(l: Listing, d: nat, disk: set<File>, stuck: set<File>, t: Totals, g: seq<File>, limit: nat) {
    exists order :: OwnInOrder(order, Directory(l, d), disk, stuck) && Loses(order, g, t, limit)
  }

  /** All of `files` are keyed files of the first `n` directories. */
  predicate FromFirst(l: Listing, files: seq<File>, n: nat) {
    forall f | f in files :: f.key.Some? && exists c :: 0 <= c < n && f in Directory(l, c)
  }

  /** What earlier directories lost is none of this directory's files. */
  lemma OwnUntouched(l: Listing, d: nat, gone: seq<File>, disk: set<File>, stuck: set<File>, f: File)
    requires DistinctKeys(AllFiles(l)) && d < 4 && FromFirst(l, gone, d)
    ensures CanGo(Directory(l, d), disk - (set x | x in gone), stuck, f) <==> CanGo(Directory(l, d), disk, stuck, f)
  {
    if f in gone && f in Directory(l, d) {
      var c :| 0 <= c < d && f in Directory(l, c);
      DirectoriesApart(l, c, d);
    }
  }

  function Start(l: Listing, disk: set<File>): State {
    State(disk, InitialTotals(l), [])
  }

  /** The state after the directories whose losses are `gs`. */
  predicate Reached(l: Listing, disk: set<File>, s: State, gone: seq<File>) {
    s == State(disk - (set f | f in gone), Less(InitialTotals(l), gone), gone)
  }

  lemma LessConcat(t: Totals, a: seq<File>, b: seq<File>)
    ensures Less(Less(t, a), b) == Less(t, a + b)
  {
    TotalSizeConcat(a, b);
  }

  lemma PurgeReaches(l: Listing, env: Env, disk: set<File>, s: State, gone: seq<File>, keys: seq<string>)
    returns (g: seq<File>)
    requires Reached(l, disk, s, gone)
    ensures Loses(Candidates(env, s.disk, keys), g, Less(InitialTotals(l), gone), env.limit)
    ensures Reached(l, disk, Purge(env, s, keys), gone + g)
  {
    var n := PurgeExactly(env, s, keys);
    g := Candidates(env, s.disk, keys)[..n];
    RemoveSeqEffect(s, g);
    LessConcat(InitialTotals(l), gone, g);
    assert s.disk - (set f | f in g) == disk - (set f | f in gone + g);
  }

  lemma FromNext(l: Listing, gone: seq<File>, g: seq<File>, order: seq<File>, disk: set<File>, stuck: set<File>, d: nat)
    requires FromFirst(l, gone, d) && g <= order && OwnInOrder(order, Directory(l, d), disk, stuck)
    ensures FromFirst(l, gone + g, d + 1)
  {
    forall f | f in gone + g ensures f.key.Some? && exists c :: 0 <= c < d + 1 && f in Directory(l, c) {
      if f in gone {
        var c :| 0 <= c < d && f in Directory(l, c);
      } else {
        assert f in order;
        assert f in Directory(l, d);
      }
    }
  }

  lemma NextDirectory(l: Listing, disk: set<File>, stuck: set<File>, limit: nat, d: nat, s: State, gone: seq<File>)
    returns (g: seq<File>)
    requires DistinctKeys(AllFiles(l)) && d < 4 && FromFirst(l, gone, d) && Reached(l, disk, s, gone)
    ensures LosesOwn(l, d, disk, stuck, Less(InitialTotals(l), gone), g, limit)
    ensures Reached(l, disk, Purge(Env(SFiles(l), stuck, limit), s, SortStrings(KeysOf(Directory(l, d)))), gone + g)
    ensures FromFirst(l, gone + g, d + 1)
  {
    var env, keys := Env(SFiles(l), stuck, limit), SortStrings(KeysOf(Directory(l, d)));
    DirectoryIsListed(l, d);
    CandidatesAreOwn(l, Directory(l, d), env, s.disk);
    var order := Candidates(env, s.disk, keys);
    OwnAgain(l, d, gone, disk, stuck, order);
    g := PurgeReaches(l, env, disk, s, gone, keys);
    FromNext(l, gone, g, order, disk, stuck, d);
  }

  lemma OwnAgain(l: Listing, d: nat, gone: seq<File>, disk: set<File>, stuck: set<File>, order: seq<File>)
    requires DistinctKeys(AllFiles(l)) && d < 4 && FromFirst(l, gone, d)
    requires OwnInOrder(order, Directory(l, d), disk - (set f | f in gone), stuck)
    ensures OwnInOrder(order, Directory(l, d), disk, stuck)
  {
    forall f ensures f in order <==> CanGo(Directory(l, d), disk, stuck, f) {
      OwnUntouched(l, d, gone, disk, stuck, f);
    }
  }

  /** Each directory's losses, given what the ones before it lost. */
  ghost predicate EachLosesOwn(l: Listing, disk: set<File>, stuck: set<File>, limit: nat, gs: seq<seq<File>>) {
    forall d | 0 <= d < |gs| :: LosesOwn(l, d, disk, stuck, Less(InitialTotals(l), Flat(gs[..d])), gs[d], limit)
  }

  lemma EachSnoc(l: Listing, disk: set<File>, stuck: set<File>, limit: nat, gs: seq<seq<File>>, g: seq<File>)
    requires EachLosesOwn(l, disk, stuck, limit, gs)
    requires LosesOwn(l, |gs|, disk, stuck, Less(InitialTotals(l), Flat(gs)), g, limit)
    ensures EachLosesOwn(l, disk, stuck, limit, gs + [g]) && Flat(gs + [g]) == Flat(gs) + g
  {
    var all := gs + [g];
    SnocPrefix(gs, g, |gs|);
    forall d | 0 <= d < |all|
      ensures LosesOwn(l, d, disk, stuck, Less(InitialTotals(l), Flat(all[..d])), all[d], limit)
    {
      SnocPrefix(gs, g, d);
    }
  }

  lemma SnocPrefix<T>(s: seq<T>, x: T, d: nat)
    requires d <= |s|
    ensures (s + [x])[..d] == s[..d] && s[..|s|] == s
    ensures (s + [x])[d] == if d < |s| then s[d] else x
  {
  }

  ghost predicate Account(l: Listing, disk: set<File>, stuck: set<File>, limit: nat, s: State, gs: seq<seq<File>>) {
    EachLosesOwn(l, disk, stuck, limit, gs) && FromFirst(l, Flat(gs), |gs|) && Reached(l, disk, s, Flat(gs))
  }

  lemma AccountNext(l: Listing, disk: set<File>, stuck: set<File>, limit: nat, s: State, gs: seq<seq<File>>)
    returns (gs': seq<seq<File>>)
    requires DistinctKeys(AllFiles(l)) && |gs| < 4 && Account(l, disk, stuck, limit, s, gs)
    ensures |gs'| == |gs| + 1
    ensures Account(l, disk, stuck, limit, Purge(Env(SFiles(l), stuck, limit), s, SortStrings(KeysOf(Directory(l, |gs|)))), gs')
  {
    var g := NextDirectory(l, disk, stuck, limit, |gs|, s, Flat(gs));
    EachSnoc(l, disk, stuck, limit, gs, g);
    gs' := gs + [g];
  }

  lemma {:induction false} AfterDirectories(l: Listing, disk: set<File>, stuck: set<File>, limit: nat, n: nat)
    returns (gs: seq<seq<File>>)
    requires DistinctKeys(AllFiles(l)) && n <= 4
    ensures |gs| == n
    ensures Account(l, disk, stuck, limit, PurgeAll(Env(SFiles(l), stuck, limit), Start(l, disk), Priority(l)[..n]), gs)
  {
    if n == 0 {
      gs := [];
    } else {
      var before := AfterDirectories(l, disk, stuck, limit, n - 1);
      var env, s := Env(SFiles(l), stuck, limit), PurgeAll(Env(SFiles(l), stuck, limit), Start(l, disk), Priority(l)[..n - 1]);
      gs := AccountNext(l, disk, stuck, limit, s, before);
      PriorityAt(l, n - 1);
      PurgeAllNext(env, Start(l, disk), Priority(l), n - 1);
    }
  }

  lemma PurgeAllNext(env: Env, s: State, dirs: seq<seq<string>>, d: nat)
    requires d < |dirs|
    ensures PurgeAll(env, s, dirs[..d + 1]) == Purge(env, PurgeAll(env, s, dirs[..d]), dirs[d])
  {
    assert dirs[..d + 1][..d] == dirs[..d];
  }

  /**
   A check that starts over the quota, with no key twice: the four directories lose, one after
   the other, the shortest nonempty run of their own removable files in key order that brings
   the totals under the limits, or all of them, and nothing else goes.
   */
  lemma EachDirectoryLoses(l: Listing, disk: set<File>, stuck: set<File>, limit: nat) returns (gs: seq<seq<File>>)
    requires DistinctKeys(AllFiles(l)) && Over(InitialTotals(l), limit)
    ensures |gs| == 4 && EachLosesOwn(l, disk, stuck, limit, gs)
    ensures Reached(l, disk, Checked(l, disk, stuck, limit), Flat(gs))
  {
    gs := AfterDirectories(l, disk, stuck, limit, 4);
    assert Priority(l)[..4] == Priority(l);
  }

  /** The totals are under the limits when the first `d` directories have had their turn. */
  predicate UnderAfter(l: Listing, gs: seq<seq<File>>, d: nat, limit: nat) {
    d <= |gs| && Under(Less(InitialTotals(l), Flat(gs[..d])), limit)
  }

  lemma FlatNext(t: Totals, gs: seq<seq<File>>, d: nat)
    requires d < |gs|
    ensures Less(t, Flat(gs[..d + 1])) == Less(Less(t, Flat(gs[..d])), gs[d])
  {
    assert gs[..d + 1][..d] == gs[..d];
    LessConcat(t, Flat(gs[..d]), gs[d]);
  }

  lemma NextStaysUnder(l: Listing, disk: set<File>, stuck: set<File>, limit: nat, gs: seq<seq<File>>, d: nat)
    requires EachLosesOwn(l, disk, stuck, limit, gs) && d < |gs| && UnderAfter(l, gs, d, limit)
    ensures UnderAfter(l, gs, d + 1, limit)
  {
    var t := Less(InitialTotals(l), Flat(gs[..d]));
    assert LosesOwn(l, d, disk, stuck, t, gs[d], limit);
    FlatNext(InitialTotals(l), gs, d);
    LosesOneWhenUnder(l, d, disk, stuck, t, gs[d], limit);
  }

  /** A turn that finds the totals under leaves them under. */
  predicate KeepsUnder(l: Listing, gs: seq<seq<File>>, limit: nat) {
    forall d | 0 <= d < |gs| && UnderAfter(l, gs, d, limit) :: UnderAfter(l, gs, d + 1, limit)
  }

  lemma TurnsKeepUnder(l: Listing, disk: set<File>, stuck: set<File>, limit: nat, gs: seq<seq<File>>)
    requires EachLosesOwn(l, disk, stuck, limit, gs)
    ensures KeepsUnder(l, gs, limit)
  {
    forall d | 0 <= d < |gs| && UnderAfter(l, gs, d, limit) ensures UnderAfter(l, gs, d + 1, limit) {
      NextStaysUnder(l, disk, stuck, limit, gs, d);
    }
  }

  /** Once the totals are under, they stay so. */
  lemma {:induction false} StaysUnder(l: Listing, limit: nat, gs: seq<seq<File>>, c: nat, d: nat)
    requires KeepsUnder(l, gs, limit) && c <= d <= |gs| && UnderAfter(l, gs, c, limit)
    ensures UnderAfter(l, gs, d, limit)
    decreases d
  {
    if c < d {
      StaysUnder(l, limit, gs, c, d - 1);
    }
  }

  /** Every directory after the limits are met still loses one file, if it has one to lose, and no more. */
  lemma LaterLoseOne(l: Listing, disk: set<File>, stuck: set<File>, limit: nat, gs: seq<seq<File>>, c: nat, d: nat)
    requires EachLosesOwn(l, disk, stuck, limit, gs) && c <= d < |gs| && UnderAfter(l, gs, c, limit)
    ensures |gs[d]| <= 1 && (gs[d] == [] <==> forall f :: !CanGo(Directory(l, d), disk, stuck, f))
  {
    TurnsKeepUnder(l, disk, stuck, limit, gs);
    StaysUnder(l, limit, gs, c, d);
    LosesOneWhenUnder(l, d, disk, stuck, Less(InitialTotals(l), Flat(gs[..d])), gs[d], limit);
  }

  lemma LosesOneWhenUnder(l: Listing, d: nat, disk: set<File>, stuck: set<File>, t: Totals, g: seq<File>, limit: nat)
    requires Under(t, limit) && LosesOwn(l, d, disk, stuck, t, g, limit)
    ensures |g| <= 1 && Under(Less(t, g), limit)
    ensures g == [] <==> forall f :: !CanGo(Directory(l, d), disk, stuck, f)
  {
    var order :| OwnInOrder(order, Directory(l, d), disk, stuck) && Loses(order, g, t, limit);
    UnderStopsAtOnce(t, order, |g|, limit);
    assert order[..|g|] == g;
    if g == [] {
      assert forall f :: f !in order;
    } else {
      assert order[0] in order;
    }
  }

  // ---------------------------------------------------------------------------
  // Age

  /** The keys are numbers of `n` digits. */
  predicate DigitKeys(files: seq<File>, n: nat) {
    forall f | f in files && f.key.Some? :: |f.key.value| == n && AllDigits(f.key.value)
  }

  predicate Older(f: File, g: File) {
    && f.key.Some? && g.key.Some? && AllDigits(f.key.value) && AllDigits(g.key.value)
    && Value(f.key.value) < Value(g.key.value)
  }

  lemma SameValueSameKey(a: string, b: string)
    requires AllDigits(a) && AllDigits(b) && |a| == |b| && Value(a) == Value(b)
    ensures a == b
  {
    LexIsNumeric(a, b);
    LexIsNumeric(b, a);
    LexAntisymmetric(a, b);
  }

  /** With numbers of one length for keys, a directory loses its oldest files, oldest first. */
  lemma DirectoryLosesOldest(l: Listing, d: nat, disk: set<File>, stuck: set<File>, t: Totals, g: seq<File>, limit: nat, n: nat)
    requires DistinctKeys(AllFiles(l)) && d < 4 && DigitKeys(Directory(l, d), n)
    requires LosesOwn(l, d, disk, stuck, t, g, limit)
    ensures forall i, j | 0 <= i < j < |g| :: Older(g[i], g[j])
    ensures forall f, x | CanGo(Directory(l, d), disk, stuck, f) && f !in g && x in g :: Older(x, f)
  {
    var order :| OwnInOrder(order, Directory(l, d), disk, stuck) && Loses(order, g, t, limit);
    forall i, j | 0 <= i < j < |order| ensures Older(order[i], order[j]) {
      OlderBefore(l, d, disk, stuck, order, n, i, j);
    }
    forall f, x | CanGo(Directory(l, d), disk, stuck, f) && f !in g && x in g ensures Older(x, f) {
      assert f in order;
      var j :| 0 <= j < |order| && order[j] == f;
      var i :| 0 <= i < |g| && g[i] == x;
      assert forall k | 0 <= k < |g| :: g[k] == order[k];
    }
  }

  lemma OlderBefore(l: Listing, d: nat, disk: set<File>, stuck: set<File>, order: seq<File>, n: nat, i: nat, j: nat)
    requires DistinctKeys(AllFiles(l)) && d < 4 && DigitKeys(Directory(l, d), n)
    requires OwnInOrder(order, Directory(l, d), disk, stuck) && i < j < |order|
    ensures Older(order[i], order[j])
  {
    var f, g := order[i], order[j];
    assert f in order && g in order;
    LexIsNumeric(f.key.value, g.key.value);
    if Value(f.key.value) == Value(g.key.value) {
      SameValueSameKey(f.key.value, g.key.value);
      DirectoryIsListed(l, d);
      SameKeySameFile(Directory(l, d), f, g);
    }
  }

  lemma SameKeySameFile(files: seq<File>, f: File, g: File)
    requires DistinctKeys(files) && f in files && g in files && f.key.Some? && f.key == g.key
    ensures f == g
  {
    var i :| 0 <= i < |files| && files[i] == f;
    var j :| 0 <= j < |files| && files[j] == g;
    assert i == j;
  }
}
