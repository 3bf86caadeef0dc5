/**
 The log quota of pkg/newlog/cmd/checkKeepQuota.go: list four directories, and when the files
 are too many or too big remove them, directory by directory and key by key.
 */
module Quota {
  import opened Common
  import opened LogNames
  import opened Sorting

  datatype Dir = KeepSent | AppUpload | DevUpload | FailSend

  /** A file of a listing, with the key its name gives it. */
  datatype File = File(dir: Dir, name: string, size: nat, key: Option<string>)

  function Listed(dir: Dir, name: string, size: nat): File {
    File(dir, name, size, FileKey(name))
  }

  // ---------------------------------------------------------------------------
  // The limits

  /** The quota in bytes, multiplied out in 32 bits. */
  function MaxSize(limitMbytes: nat): nat {
    limitMbytes * 1000000 % UINT32
  }

  function MaxCount(limitMbytes: nat): nat {
    MaxSize(limitMbytes) / MAX_GZIP_FILE_SIZE
  }

  /** The configured limit is the one enforced exactly up to 4294 megabytes. */
  lemma LimitExactUpTo4294(limitMbytes: nat)
    ensures MaxSize(limitMbytes) == limitMbytes * 1000000 <==> limitMbytes <= 4294
  {
  }

  datatype Totals = Totals(size: int, count: int)

  predicate Over(t: Totals, limit: nat) {
    t.size > MaxSize(limit) || t.count > MaxCount(limit)
  }

  predicate Under(t: Totals, limit: nat) {
    t.size < MaxSize(limit) && t.count < MaxCount(limit)
  }

  // ---------------------------------------------------------------------------
  // Listing

  function TotalSize(files: seq<File>): nat {
    if files == [] then 0 else TotalSize(files[..|files| - 1]) + files[|files| - 1].size
  }

  /** The keys of a directory, in listing order; files without a key are left out. */
  function KeysOf(files: seq<File>): seq<string> {
    if files == [] then []
    else KeysOf(files[..|files| - 1]) +
         match files[|files| - 1].key case None => [] case Some(k) => [k]
  }

  /** The table from key to file, a later file replacing an earlier one of the same key. */
  function Indexed(sfiles: map<string, File>, files: seq<File>): map<string, File> {
    if files == [] then sfiles
    else
      var before, f := Indexed(sfiles, files[..|files| - 1]), files[|files| - 1];
      match f.key case None => before case Some(k) => before[k := f]
  }

  method CheckDirGZFiles(sfiles: map<string, File>, files: seq<File>)
    returns (keys: seq<string>, size: nat, sfiles': map<string, File>)
    ensures keys == KeysOf(files) && size == TotalSize(files) && sfiles' == Indexed(sfiles, files)
  {
    keys, size, sfiles' := [], 0, sfiles;
    var i := 0;
    while i < |files|
      invariant 0 <= i <= |files|
      invariant keys == KeysOf(files[..i]) && size == TotalSize(files[..i]) && sfiles' == Indexed(sfiles, files[..i])
    {
      assert files[..i + 1][..i] == files[..i];
      var f := files[i];
      size := size + f.size;
      if f.key.Some? {
        keys := keys + [f.key.value];
        sfiles' := sfiles'[f.key.value := f];
      }
      i := i + 1;
    }
    assert files[..i] == files;
  }

  // ---------------------------------------------------------------------------
  // Removal

  /** `disk` holds the files that exist; those in `stuck` cannot be removed. */
  datatype State = State(disk: set<File>, totals: Totals, removed: seq<File>)

  datatype Env = Env(sfiles: map<string, File>, stuck: set<File>, limit: nat)

  /** The file this key would make the loop remove, if any. */
  predicate Removable(env: Env, disk: set<File>, key: string) {
    key in env.sfiles && env.sfiles[key] in disk && env.sfiles[key] !in env.stuck
  }

  function Remove(s: State, f: File): State {
    State(s.disk - {f}, Totals(s.totals.size - f.size, s.totals.count - 1), s.removed + [f])
  }

  /** One directory: remove key by key, stopping after a removal that brings the totals under. */
  function Purge(env: Env, s: State, keys: seq<string>): State
    decreases |keys|
  {
    if keys == [] then s
    else if !Removable(env, s.disk, keys[0]) then Purge(env, s, keys[1..])
    else
      var s' := Remove(s, env.sfiles[keys[0]]);
      if Under(s'.totals, env.limit) then s' else Purge(env, s', keys[1..])
  }

  /** All directories in turn; the stop in one directory does not stop the others. */
  function PurgeAll(env: Env, s: State, dirs: seq<seq<string>>): State {
    if dirs == [] then s
    else Purge(env, PurgeAll(env, s, dirs[..|dirs| - 1]), dirs[|dirs| - 1])
  }

  method PurgeDirectory(env: Env, s: State, keys: seq<string>) returns (r: State)
    ensures r == Purge(env, s, keys)
  {
    r := s;
    var i := 0;
    while i < |keys|
      invariant 0 <= i <= |keys|
      invariant Purge(env, s, keys) == Purge(env, r, keys[i..])
    {
      assert keys[i..][1..] == keys[i + 1..];
      var key := keys[i];
      i := i + 1;
      if !(key in env.sfiles) {
        continue;
      }
      var f := env.sfiles[key];
      if f !in r.disk {
        continue;
      }
      if f in env.stuck {
        continue;
      }
      r := State(r.disk - {f}, Totals(r.totals.size - f.size, r.totals.count - 1), r.removed + [f]);
      if r.totals.size < MaxSize(env.limit) && r.totals.count < MaxCount(env.limit) {
        return;
      }
    }
  }

  method PurgeDirectories(env: Env, s: State, priority: seq<seq<string>>) returns (r: State)
    ensures r == PurgeAll(env, s, priority)
  {
    r := s;
    var d := 0;
    while d < |priority|
      invariant 0 <= d <= |priority|
      invariant r == PurgeAll(env, s, priority[..d])
    {
      assert priority[..d + 1][..d] == priority[..d];
      r := PurgeDirectory(env, r, priority[d]);
      d := d + 1;
    }
    assert priority[..d] == priority;
  }

  /** What the four directories hold, each in the order it is read. */
  datatype Listing = Listing(keepSent: seq<File>, appUpload: seq<File>, devUpload: seq<File>, failSend: seq<File>)

  function SFiles(l: Listing): map<string, File> {
    Indexed(Indexed(Indexed(Indexed(map[], l.keepSent), l.appUpload), l.devUpload), l.failSend)
  }

  function InitialTotals(l: Listing): Totals {
    Totals(TotalSize(l.keepSent) + TotalSize(l.appUpload) + TotalSize(l.devUpload) + TotalSize(l.failSend),
           |KeysOf(l.keepSent)| + |KeysOf(l.appUpload)| + |KeysOf(l.devUpload)| + |KeysOf(l.failSend)|)
  }

  /** Already sent files go first, then those that failed to send, then app and device files. */
  function Priority(l: Listing): seq<seq<string>> {
    [SortStrings(KeysOf(l.keepSent)), SortStrings(KeysOf(l.failSend)),
     SortStrings(KeysOf(l.appUpload)), SortStrings(KeysOf(l.devUpload))]
  }

  /** The state after the whole check. */
  function Checked(l: Listing, disk: set<File>, stuck: set<File>, limit: nat): State {
    var start := State(disk, InitialTotals(l), []);
    if Over(start.totals, limit) then PurgeAll(Env(SFiles(l), stuck, limit), start, Priority(l)) else start
  }

  method ListAll(l: Listing) returns (sfiles: map<string, File>, totals: Totals, priority: seq<seq<string>>)
    ensures sfiles == SFiles(l) && totals == InitialTotals(l) && priority == Priority(l)
  {
    var filesKeepSent, sizeKeepSent, filesAppUpload, sizeAppUpload, filesDevUpload, sizeDevUpload;
    var filesFailSend, sizeFailSend;
    sfiles := map[];
    filesKeepSent, sizeKeepSent, sfiles := CheckDirGZFiles(sfiles, l.keepSent);
    filesAppUpload, sizeAppUpload, sfiles := CheckDirGZFiles(sfiles, l.appUpload);
    filesDevUpload, sizeDevUpload, sfiles := CheckDirGZFiles(sfiles, l.devUpload);
    filesFailSend, sizeFailSend, sfiles := CheckDirGZFiles(sfiles, l.failSend);
    totals := Totals(sizeKeepSent + sizeAppUpload + sizeDevUpload + sizeFailSend,
                     |filesKeepSent| + |filesAppUpload| + |filesDevUpload| + |filesFailSend|);
    priority := [SortStrings(filesKeepSent), SortStrings(filesFailSend),
                 SortStrings(filesAppUpload), SortStrings(filesDevUpload)];
  }

  method CheckKeepQuota(l: Listing, disk: set<File>, stuck: set<File>, limit: nat) returns (r: State)
    ensures r == Checked(l, disk, stuck, limit)
    ensures limit <= 4294 ==>
              if TotalSize(AllFiles(l)) <= 1000000 * limit && |Keyed(AllFiles(l))| <= 20 * limit then
                r.removed == [] && r.disk == disk
              else
                (r.totals.size < 1000000 * limit && r.totals.count < 20 * limit) || AllGone(l, r.disk, stuck)
  {
    if limit <= 4294 {
      QuotaInNumbers(l, disk, stuck, limit);
    }
    var sfiles, totals, priority := ListAll(l);
    r := State(disk, totals, []);
    if totals.size > MaxSize(limit) || totals.count > MaxCount(limit) {
      r := PurgeDirectories(Env(sfiles, stuck, limit), r, priority);
    }
  }

  // ---------------------------------------------------------------------------
  // What one directory loses

  /** The files the loop would remove from a directory if it never stopped. */
  function Candidates(env: Env, disk: set<File>, keys: seq<string>): seq<File>
    decreases |keys|
  {
    if keys == [] then []
    else if !Removable(env, disk, keys[0]) then Candidates(env, disk, keys[1..])
    else [env.sfiles[keys[0]]] + Candidates(env, disk - {env.sfiles[keys[0]]}, keys[1..])
  }

  function RemoveSeq(s: State, files: seq<File>): State
    decreases |files|
  {
    if files == [] then s else RemoveSeq(Remove(s, files[0]), files[1..])
  }

  /** The totals less some files. */
  function Less(t: Totals, files: seq<File>): Totals {
    Totals(t.size - TotalSize(files), t.count - |files|)
  }

  /** Stop at `n`: after that many removals the totals are under, and after fewer they are not. */
  predicate StopsAt(t: Totals, files: seq<File>, n: nat, limit: nat) {
    && n <= |files| && (files != [] ==> n > 0)
    && (n < |files| ==> Under(Less(t, files[..n]), limit))
    && forall m | 0 < m < n :: !Under(Less(t, files[..m]), limit)
  }

  /** One file off the totals, and then the others. */
  lemma LessHead(t: Totals, files: seq<File>, n: nat)
    requires 0 < n <= |files|
    ensures Less(t, files[..n]) == Less(Less(t, [files[0]]), files[1..][..n - 1])
  {
    TotalSizeHead(files[0], []);
    assert [files[0]] + [] == [files[0]];
    TotalSizeHead(files[0], files[1..][..n - 1]);
    assert files[..n] == [files[0]] + files[1..][..n - 1];
  }

  lemma StopsLater(t: Totals, files: seq<File>, n: nat, limit: nat)
    requires files != [] && !Under(Less(t, [files[0]]), limit)
    requires StopsAt(Less(t, [files[0]]), files[1..], n, limit)
    ensures StopsAt(t, files, n + 1, limit)
  {
    forall m | 0 < m < n + 1 ensures !Under(Less(t, files[..m]), limit) {
      if m == 1 {
        assert files[..1] == [files[0]];
      } else {
        LessHead(t, files, m);
      }
    }
    LessHead(t, files, n + 1);
    if n == 0 {
      assert files[1..] == [];
    }
  }

  /**
   A directory loses the shortest nonempty run of its removable files, in sorted order, that
   brings the totals under their limits, or all of them if none does.
   */
  lemma {:induction false} PurgeExactly(env: Env, s: State, keys: seq<string>) returns (n: nat)
    ensures var files := Candidates(env, s.disk, keys);
            StopsAt(s.totals, files, n, env.limit) && Purge(env, s, keys) == RemoveSeq(s, files[..n])
    decreases |keys|
  {
    var files := Candidates(env, s.disk, keys);
    if keys == [] {
      n := 0;
    } else if !Removable(env, s.disk, keys[0]) {
      n := PurgeExactly(env, s, keys[1..]);
    } else {
      var f := env.sfiles[keys[0]];
      var s' := Remove(s, f);
      assert files[1..] == Candidates(env, s'.disk, keys[1..]);
      TotalSizeHead(f, []);
      assert [f] + [] == [f] && s'.totals == Less(s.totals, [f]);
      if Under(s'.totals, env.limit) {
        n := 1;
        assert files[..1] == [f] && [f][1..] == [];
        assert RemoveSeq(s, [f]) == RemoveSeq(s', []);
      } else {
        var k := PurgeExactly(env, s', keys[1..]);
        n := k + 1;
        StopsLater(s.totals, files, k, env.limit);
        RemoveFirst(s, files, n);
      }
    }
  }

  lemma {:induction false} CandidateKeys(env: Env, disk: set<File>, keys: seq<string>)
    requires forall k | k in env.sfiles :: env.sfiles[k].key == Some(k)
    ensures forall f | f in Candidates(env, disk, keys) :: f.key.Some? && f.key.value in keys
    decreases |keys|
  {
    if keys != [] {
      CandidateKeys(env, if Removable(env, disk, keys[0]) then disk - {env.sfiles[keys[0]]} else disk, keys[1..]);
      assert forall k | k in keys[1..] :: k in keys;
    }
  }

  predicate KeyOrdered(files: seq<File>) {
    forall i, j | 0 <= i < j < |files| ::
      files[i].key.Some? && files[j].key.Some? && LexLeq(files[i].key.value, files[j].key.value)
  }

  /** Candidates come in the order of their keys: oldest first, when the keys are numbers of one length. */
  lemma {:induction false} OldestFirst(env: Env, disk: set<File>, keys: seq<string>)
    requires Sorted(keys) && forall k | k in env.sfiles :: env.sfiles[k].key == Some(k)
    ensures KeyOrdered(Candidates(env, disk, keys))
    decreases |keys|
  {
    if keys != [] {
      var rest := if Removable(env, disk, keys[0]) then disk - {env.sfiles[keys[0]]} else disk;
      var tail := Candidates(env, rest, keys[1..]);
      OldestFirst(env, rest, keys[1..]);
      CandidateKeys(env, rest, keys[1..]);
      if Removable(env, disk, keys[0]) {
        forall j | 0 <= j < |tail| ensures tail[j].key.Some? && LexLeq(keys[0], tail[j].key.value) {
          assert tail[j] in tail;
          var k :| 0 <= k < |keys[1..]| && keys[1..][k] == tail[j].key.value;
          assert LexLeq(keys[0], keys[k + 1]);
        }
        assert KeyOrdered([env.sfiles[keys[0]]] + tail);
      }
    }
  }

  lemma RemoveFirst(s: State, files: seq<File>, n: nat)
    requires 0 < n <= |files|
    ensures RemoveSeq(s, files[..n]) == RemoveSeq(Remove(s, files[0]), files[1..][..n - 1])
  {
    assert files[..n][1..] == files[1..][..n - 1];
  }

  lemma {:induction false} RemoveSeqEffect(s: State, files: seq<File>)
    ensures var r := RemoveSeq(s, files);
            && r.removed == s.removed + files
            && r.totals == Less(s.totals, files)
            && r.disk == s.disk - set f | f in files
    decreases |files|
  {
    if files != [] {
      var f := files[0];
      RemoveSeqEffect(Remove(s, f), files[1..]);
      assert files == [f] + files[1..];
      TotalSizeHead(f, files[1..]);
    }
  }

  lemma {:induction false} TotalSizeHead(f: File, files: seq<File>)
    ensures TotalSize([f] + files) == f.size + TotalSize(files)
  {
    var all := [f] + files;
    if files == [] {
      assert all[..0] == [];
    } else {
      TotalSizeHead(f, files[..|files| - 1]);
      assert all[..|all| - 1] == [f] + files[..|files| - 1];
    }
  }

  /** Once the totals are under, a later directory loses exactly one file, if it has one to lose. */
  lemma {:induction false} OverRemovalExactly(env: Env, s: State, keys: seq<string>)
    requires Under(s.totals, env.limit)
    ensures var files := Candidates(env, s.disk, keys);
            Purge(env, s, keys).removed == s.removed + if files == [] then [] else [files[0]]
  {
    var files := Candidates(env, s.disk, keys);
    var n := PurgeExactly(env, s, keys);
    RemoveSeqEffect(s, files[..n]);
    UnderStopsAtOnce(s.totals, files, n, env.limit);
    if files != [] {
      assert files[..1] == [files[0]];
    }
  }

  /** Totals that are under stay under, and one removal is made if there is one to make. */
  lemma UnderStopsAtOnce(t: Totals, files: seq<File>, n: nat, limit: nat)
    requires Under(t, limit) && StopsAt(t, files, n, limit)
    ensures n == (if files == [] then 0 else 1) && Under(Less(t, files[..n]), limit)
  {
    if files != [] {
      assert Under(Less(t, files[..1]), limit);
    }
  }

  // ---------------------------------------------------------------------------
  // What the whole check achieves

  lemma {:induction false} PurgeAllConserves(env: Env, s: State, dirs: seq<seq<string>>) returns (gone: seq<File>)
    ensures var r := PurgeAll(env, s, dirs);
            && r.removed == s.removed + gone
            && r.totals == Less(s.totals, gone)
            && r.disk == s.disk - set f | f in gone
  {
    if dirs == [] {
      gone := [];
    } else {
      var before := PurgeAllConserves(env, s, dirs[..|dirs| - 1]);
      var mid := PurgeAll(env, s, dirs[..|dirs| - 1]);
      var files := Candidates(env, mid.disk, dirs[|dirs| - 1]);
      var n := PurgeExactly(env, mid, dirs[|dirs| - 1]);
      RemoveSeqEffect(mid, files[..n]);
      gone := before + files[..n];
      TotalSizeConcat(before, files[..n]);
    }
  }

  lemma {:induction false} TotalSizeConcat(a: seq<File>, b: seq<File>)
    ensures TotalSize(a + b) == TotalSize(a) + TotalSize(b)
  {
    if b == [] {
      assert a + b == a;
    } else {
      TotalSizeConcat(a, b[..|b| - 1]);
      assert (a + b)[..|a + b| - 1] == a + b[..|b| - 1];
    }
  }

  /** Nothing removable is left among these keys. */
  predicate Exhausted(env: Env, disk: set<File>, keys: seq<string>) {
    forall k | k in keys :: !Removable(env, disk, k)
  }

  lemma {:induction false} CandidatesExhaust(env: Env, disk: set<File>, keys: seq<string>)
    ensures Exhausted(env, disk - (set f | f in Candidates(env, disk, keys)), keys)
    decreases |keys|
  {
    if keys != [] {
      var rest := if Removable(env, disk, keys[0]) then disk - {env.sfiles[keys[0]]} else disk;
      CandidatesExhaust(env, rest, keys[1..]);
      var cs := Candidates(env, disk, keys);
      assert disk - (set f | f in cs) == rest - (set f | f in Candidates(env, rest, keys[1..]));
      assert forall k | k in keys :: k == keys[0] || k in keys[1..];
    }
  }

  /** A directory ends under the limits, with nothing left to remove, or with nothing done. */
  lemma PurgeUnderOrExhausted(env: Env, s: State, keys: seq<string>)
    ensures var r := Purge(env, s, keys);
            && r.disk <= s.disk
            && (Under(s.totals, env.limit) ==> Under(r.totals, env.limit))
            && (Under(r.totals, env.limit) || Exhausted(env, r.disk, keys))
  {
    var files := Candidates(env, s.disk, keys);
    var n := PurgeExactly(env, s, keys);
    RemoveSeqEffect(s, files[..n]);
    if n == |files| {
      assert files[..n] == files;
      CandidatesExhaust(env, s.disk, keys);
    }
  }

  lemma {:induction false} PurgeAllUnderOrExhausted(env: Env, s: State, dirs: seq<seq<string>>)
    ensures var r := PurgeAll(env, s, dirs);
            Under(r.totals, env.limit) || forall i | 0 <= i < |dirs| :: Exhausted(env, r.disk, dirs[i])
  {
    if dirs != [] {
      var mid := PurgeAll(env, s, dirs[..|dirs| - 1]);
      PurgeAllUnderOrExhausted(env, s, dirs[..|dirs| - 1]);
      PurgeUnderOrExhausted(env, mid, dirs[|dirs| - 1]);
      var r := PurgeAll(env, s, dirs);
      if !Under(r.totals, env.limit) {
        forall i | 0 <= i < |dirs| - 1 ensures Exhausted(env, r.disk, dirs[i]) {
          assert Exhausted(env, mid.disk, dirs[..|dirs| - 1][i]);
        }
      }
    }
  }

  function AllFiles(l: Listing): seq<File> {
    l.keepSent + l.appUpload + l.devUpload + l.failSend
  }

  lemma {:induction false} IndexedConcat(sfiles: map<string, File>, a: seq<File>, b: seq<File>)
    ensures Indexed(sfiles, a + b) == Indexed(Indexed(sfiles, a), b)
  {
    if b == [] {
      assert a + b == a;
    } else {
      IndexedConcat(sfiles, a, b[..|b| - 1]);
      assert (a + b)[..|a + b| - 1] == a + b[..|b| - 1];
    }
  }

  lemma SFilesIndexesAll(l: Listing)
    ensures SFiles(l) == Indexed(map[], AllFiles(l))
  {
    IndexedConcat(map[], l.keepSent, l.appUpload);
    IndexedConcat(map[], l.keepSent + l.appUpload, l.devUpload);
    IndexedConcat(map[], l.keepSent + l.appUpload + l.devUpload, l.failSend);
  }

  predicate LastWithKey(files: seq<File>, j: nat, key: Option<string>) {
    j < |files| && files[j].key == key && forall m | j < m < |files| :: files[m].key != key
  }

  /** A key stands for the last file that has it. */
  lemma {:induction false} IndexedLast(files: seq<File>, j: nat, k: string)
    requires LastWithKey(files, j, Some(k))
    ensures k in Indexed(map[], files) && Indexed(map[], files)[k] == files[j]
  {
    var front := files[..|files| - 1];
    if j < |front| {
      assert files[|files| - 1].key != Some(k);
      assert forall m | 0 <= m < |front| :: front[m] == files[m];
      IndexedLast(front, j, k);
    }
  }

  lemma {:induction false} SomeLast(files: seq<File>, i: nat) returns (j: nat)
    requires i < |files|
    ensures i <= j && LastWithKey(files, j, files[i].key)
    decreases |files|
  {
    var front := files[..|files| - 1];
    if files[|files| - 1].key == files[i].key {
      j := |files| - 1;
    } else {
      j := SomeLast(front, i);
      assert forall m | 0 <= m < |front| :: front[m] == files[m];
    }
  }

  /** A keyed file is the one its key stands for exactly when no other file listed later has that key. */
  lemma IndexedExactly(files: seq<File>, i: nat)
    requires i < |files| && files[i].key.Some?
    ensures var k := files[i].key.value;
            && k in Indexed(map[], files)
            && (Indexed(map[], files)[k] == files[i] <==>
                exists j: nat :: i <= j && LastWithKey(files, j, files[i].key) && files[j] == files[i])
  {
    var j := SomeLast(files, i);
    IndexedLast(files, j, files[i].key.value);
    forall j': nat | LastWithKey(files, j', files[i].key) ensures j' == j {
    }
  }

  lemma {:induction false} KeysOfHasKeys(files: seq<File>, f: File)
    requires f in files && f.key.Some?
    ensures f.key.value in KeysOf(files)
  {
    var front, last := files[..|files| - 1], files[|files| - 1];
    assert files == front + [last];
    if f != last {
      KeysOfHasKeys(front, f);
    }
  }

  lemma SortedHasKeys(files: seq<File>, f: File)
    requires f in files && f.key.Some?
    ensures f.key.value in SortStrings(KeysOf(files))
  {
    KeysOfHasKeys(files, f);
    assert f.key.value in multiset(SortStrings(KeysOf(files)));
  }

  lemma OneOfFour<T>(a: seq<T>, b: seq<T>, c: seq<T>, d: seq<T>, x: T) returns (i: nat)
    requires x in a || x in b || x in c || x in d
    ensures i < 4 && x in [a, b, c, d][i]
  {
    i := if x in a then 0 else if x in b then 1 else if x in c then 2 else 3;
  }

  lemma SomeDirectoryHasKey(l: Listing, f: File)
    requires f in AllFiles(l) && f.key.Some?
    ensures var k := f.key.value;
            || k in SortStrings(KeysOf(l.keepSent)) || k in SortStrings(KeysOf(l.failSend))
            || k in SortStrings(KeysOf(l.appUpload)) || k in SortStrings(KeysOf(l.devUpload))
  {
    if f in l.keepSent {
      SortedHasKeys(l.keepSent, f);
    } else if f in l.failSend {
      SortedHasKeys(l.failSend, f);
    } else if f in l.appUpload {
      SortedHasKeys(l.appUpload, f);
    } else {
      SortedHasKeys(l.devUpload, f);
    }
  }

  lemma PriorityHasKey(l: Listing, f: File) returns (i: nat)
    requires f in AllFiles(l) && f.key.Some?
    ensures i < 4 && f.key.value in Priority(l)[i]
  {
    SomeDirectoryHasKey(l, f);
    i := OneOfFour(SortStrings(KeysOf(l.keepSent)), SortStrings(KeysOf(l.failSend)),
                   SortStrings(KeysOf(l.appUpload)), SortStrings(KeysOf(l.devUpload)), f.key.value);
  }

  /** Every file is off the disk that can be removed and that its key stands for. */
  predicate AllGone(l: Listing, disk: set<File>, stuck: set<File>) {
    forall f | f in AllFiles(l) && f.key.Some? ::
      f.key.value in SFiles(l) && (SFiles(l)[f.key.value] == f ==> f !in disk || f in stuck)
  }

  /**
   A check that starts over the quota ends under both limits, or has removed every removable
   file that its key stands for; either way the totals are the initial ones less what was
   removed, and nothing else left the disk.
   */
  lemma QuotaMet(l: Listing, disk: set<File>, stuck: set<File>, limit: nat) returns (gone: seq<File>)
    requires Over(InitialTotals(l), limit)
    ensures var r := Checked(l, disk, stuck, limit);
            && r.removed == gone && r.disk == disk - (set f | f in gone)
            && r.totals == Less(InitialTotals(l), gone)
            && (Under(r.totals, limit) || AllGone(l, r.disk, stuck))
  {
    var env, start := Env(SFiles(l), stuck, limit), State(disk, InitialTotals(l), []);
    gone := PurgeAllConserves(env, start, Priority(l));
    PurgeAllUnderOrExhausted(env, start, Priority(l));
    var r := Checked(l, disk, stuck, limit);
    if !Under(r.totals, limit) {
      forall f | f in AllFiles(l) && f.key.Some?
        ensures f.key.value in SFiles(l) && (SFiles(l)[f.key.value] == f ==> f !in r.disk || f in stuck)
      {
        var i := PriorityHasKey(l, f);
        assert Exhausted(env, r.disk, Priority(l)[i]);
        SFilesIndexesAll(l);
        var k :| 0 <= k < |AllFiles(l)| && AllFiles(l)[k] == f;
        IndexedExactly(AllFiles(l), k);
      }
    }
  }

  /** What a file is named after: app files carry an identifier and may not be for upload. */
  datatype Origin = Device | App(uuid: string, notUpload: bool)

  function Name(o: Origin, n: nat): string {
    match o
    case Device => GzipFileName(false, n, "", false)
    case App(uuid, notUpload) => GzipFileName(true, n, uuid, notUpload)
  }

  predicate Ordinary(o: Origin) {
    o.App? ==> '.' !in o.uuid && o.uuid != "log"
  }

  /** Files have the number they are named after for a key, device and app files alike. */
  lemma NumbersGiveKeys(dir: Dir, o: Origin, m: nat, size: nat, dir': Dir, o': Origin, n: nat, size': nat)
    requires Ordinary(o) && Ordinary(o')
    ensures var f, g := Listed(dir, Name(o, m), size), Listed(dir', Name(o', n), size');
            f.key.Some? && g.key.Some? && (f.key == g.key <==> m == n)
  {
    NumberIsKey(o, m);
    NumberIsKey(o', n);
    if Itoa(m) == Itoa(n) {
      ItoaInjective(m, n);
    }
  }

  lemma NumberIsKey(o: Origin, n: nat)
    requires Ordinary(o)
    ensures FileKey(Name(o, n)) == Some(Itoa(n))
  {
    match o
    case Device => DeviceKey(n);
    case App(uuid, notUpload) => AppKey(n, uuid, notUpload);
  }

  predicate DistinctKeys(files: seq<File>) {
    forall i, j | 0 <= i < j < |files| && files[i].key.Some? :: files[i].key != files[j].key
  }

  /** With distinct keys, a check that stays over a limit has removed every keyed file it can. */
  lemma QuotaMetOrEmptied(l: Listing, disk: set<File>, stuck: set<File>, limit: nat)
    requires Over(InitialTotals(l), limit) && DistinctKeys(AllFiles(l))
    ensures var r := Checked(l, disk, stuck, limit);
            Under(r.totals, limit) || Emptied(l, r.disk, stuck)
  {
    var gone := QuotaMet(l, disk, stuck, limit);
    var r := Checked(l, disk, stuck, limit);
    if AllGone(l, r.disk, stuck) {
      DistinctEmptied(l, r.disk, stuck);
    }
  }

  predicate Emptied(l: Listing, disk: set<File>, stuck: set<File>) {
    forall f | f in AllFiles(l) && f.key.Some? :: f !in disk || f in stuck
  }

  lemma DistinctEmptied(l: Listing, disk: set<File>, stuck: set<File>)
    requires DistinctKeys(AllFiles(l)) && AllGone(l, disk, stuck)
    ensures Emptied(l, disk, stuck)
  {
    forall f | f in AllFiles(l) && f.key.Some? ensures f !in disk || f in stuck {
      DistinctIsIndexed(l, f);
    }
  }

  lemma DistinctIsIndexed(l: Listing, f: File)
    requires DistinctKeys(AllFiles(l)) && f in AllFiles(l) && f.key.Some?
    ensures f.key.value in SFiles(l) && SFiles(l)[f.key.value] == f
  {
    SFilesIndexesAll(l);
    var i :| 0 <= i < |AllFiles(l)| && AllFiles(l)[i] == f;
    IndexedExactly(AllFiles(l), i);
  }

  // ---------------------------------------------------------------------------
  // The quota in numbers: twenty files a megabyte, as long as the limit fits 32 bits

  /** What is over and under a limit, in bytes and files. */
  lemma LimitsInNumbers(t: Totals, limit: nat)
    ensures var size := limit * 1000000 % 4294967296;
            && (Over(t, limit) <==> t.size > size || t.count > size / 50000)
            && (Under(t, limit) <==> t.size < size && t.count < size / 50000)
    ensures limit <= 4294 ==>
              && (Over(t, limit) <==> t.size > 1000000 * limit || t.count > 20 * limit)
              && (Under(t, limit) <==> t.size < 1000000 * limit && t.count < 20 * limit)
  {
    assert 1000000 * limit / 50000 == 20 * limit;
  }

  /** The positions of the files that have a key. */
  function Keyed(files: seq<File>): set<nat> {
    set i: nat | i < |files| && files[i].key.Some?
  }

  lemma KeyedNext(files: seq<File>, f: File)
    ensures Keyed(files + [f]) == Keyed(files) + if f.key.Some? then {|files|} else {}
  {
    assert forall i: nat | i < |files| :: (files + [f])[i] == files[i];
  }

  lemma {:induction false} KeysAreKeyed(files: seq<File>)
    ensures |KeysOf(files)| == |Keyed(files)|
  {
    if files != [] {
      var front, f := files[..|files| - 1], files[|files| - 1];
      KeysAreKeyed(front);
      KeyedNext(front, f);
      assert files == front + [f];
    }
  }

  lemma {:induction false} KeysOfConcat(a: seq<File>, b: seq<File>)
    ensures KeysOf(a + b) == KeysOf(a) + KeysOf(b)
  {
    if b == [] {
      assert a + b == a;
    } else {
      KeysOfConcat(a, b[..|b| - 1]);
      assert (a + b)[..|a + b| - 1] == a + b[..|b| - 1];
    }
  }

  /** All bytes of the four directories count, and all files whose names give a key. */
  lemma TotalsInNumbers(l: Listing)
    ensures InitialTotals(l) == Totals(TotalSize(AllFiles(l)), |Keyed(AllFiles(l))|)
  {
    TotalSizeConcat(l.keepSent, l.appUpload);
    TotalSizeConcat(l.keepSent + l.appUpload, l.devUpload);
    TotalSizeConcat(l.keepSent + l.appUpload + l.devUpload, l.failSend);
    KeysOfConcat(l.keepSent, l.appUpload);
    KeysOfConcat(l.keepSent + l.appUpload, l.devUpload);
    KeysOfConcat(l.keepSent + l.appUpload + l.devUpload, l.failSend);
    KeysAreKeyed(AllFiles(l));
  }

  /** Within the limits nothing is touched; beyond them the check gets below both or runs out of files. */
  lemma QuotaInNumbers(l: Listing, disk: set<File>, stuck: set<File>, limit: nat)
    requires limit <= 4294
    ensures var r := Checked(l, disk, stuck, limit);
            if TotalSize(AllFiles(l)) <= 1000000 * limit && |Keyed(AllFiles(l))| <= 20 * limit then
              r.removed == [] && r.disk == disk
            else
              (r.totals.size < 1000000 * limit && r.totals.count < 20 * limit) || AllGone(l, r.disk, stuck)
  {
    TotalsInNumbers(l);
    LimitsInNumbers(InitialTotals(l), limit);
    if Over(InitialTotals(l), limit) {
      var gone := QuotaMet(l, disk, stuck, limit);
      LimitsInNumbers(Checked(l, disk, stuck, limit).totals, limit);
    }
  }

  /** The same for every limit, with what 32 bits leave of it. */
  lemma QuotaInNumbersWrapped(l: Listing, disk: set<File>, stuck: set<File>, limit: nat)
    ensures var r := Checked(l, disk, stuck, limit);
            var size := limit * 1000000 % 4294967296;
            if TotalSize(AllFiles(l)) <= size && |Keyed(AllFiles(l))| <= size / 50000 then
              r.removed == [] && r.disk == disk
            else
              (r.totals.size < size && r.totals.count < size / 50000) || AllGone(l, r.disk, stuck)
  {
    TotalsInNumbers(l);
    LimitsInNumbers(InitialTotals(l), limit);
    if Over(InitialTotals(l), limit) {
      var gone := QuotaMet(l, disk, stuck, limit);
      LimitsInNumbers(Checked(l, disk, stuck, limit).totals, limit);
    }
  }
}
