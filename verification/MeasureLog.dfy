/**
 What the event log of pkg/measure-config/src/measurefs.go says: exactly when two runs write
 the same log, and that a log replays to the value of the PCR.
 */
module MeasureLog {
  import opened Common
  import opened LogNames
  import opened Sorting
  import opened EventLog
  import opened MeasureConfig

  // ---------------------------------------------------------------------------
  // The log says what the configuration is

  predicate ValidHashes(disk: Disk) {
    forall p | p in disk.hashOf :: IsHash(disk.hashOf[p])
  }

  /** The same files, and the same content in all files whose content is measured. */
  predicate SameConfig(lists: Lists, a: Disk, b: Disk) {
    && a.files == b.files
    && forall p | p in a.files && p !in lists.excluded :: p in a.hashOf && p in b.hashOf && a.hashOf[p] == b.hashOf[p]
  }

  /** A run over `disk` that succeeds, with event data of bytes that fits its size field. */
  ghost predicate IsRun(lists: Lists, disk: Disk, names: seq<string>) {
    && InOrder(names, AllPaths(lists, disk.files)) && AllReadable(lists, disk, names)
    && ValidHashes(disk) && Recordable(DatasOf(lists, disk, names))
  }

  ghost function LogOf(lists: Lists, sha: Sha256, disk: Disk, names: seq<string>): seq<byte>
    requires AllReadable(lists, disk, names)
  {
    EncodeLog(EventsOf(sha, DatasOf(lists, disk, names)))
  }

  /** Position by position the same recorded path and the same finding. */
  predicate SameRecords(lists: Lists, a: Disk, names: seq<string>, b: Disk, names': seq<string>)
    requires AllReadable(lists, a, names) && AllReadable(lists, b, names')
  {
    && |names| == |names'|
    && forall i | 0 <= i < |names| ::
         EventPath(names[i]) == EventPath(names'[i]) && FindingOf(lists, a, names[i]) == FindingOf(lists, b, names'[i])
  }

  lemma SameDataSameRecords(lists: Lists, a: Disk, names: seq<string>, b: Disk, names': seq<string>)
    requires IsRun(lists, a, names) && IsRun(lists, b, names')
    ensures DatasOf(lists, a, names) == DatasOf(lists, b, names') <==> SameRecords(lists, a, names, b, names')
  {
    var ds, ds' := DatasOf(lists, a, names), DatasOf(lists, b, names');
    forall i | 0 <= i < |names| && i < |names'|
      ensures ds[i] == ds'[i] <==>
              EventPath(names[i]) == EventPath(names'[i]) && FindingOf(lists, a, names[i]) == FindingOf(lists, b, names'[i])
    {
      DataDecides(names[i], FindingOf(lists, a, names[i]), names'[i], FindingOf(lists, b, names'[i]));
    }
  }

  /** For paths of any length, the log says exactly what was recorded of each path, in order. */
  lemma LogDecidesRecords(lists: Lists, sha: Sha256, a: Disk, names: seq<string>, b: Disk, names': seq<string>)
    requires IsRun(lists, a, names) && IsRun(lists, b, names')
    ensures LogOf(lists, sha, a, names) == LogOf(lists, sha, b, names') <==> SameRecords(lists, a, names, b, names')
  {
    LogDecidesData(sha, DatasOf(lists, a, names), DatasOf(lists, b, names'));
    SameDataSameRecords(lists, a, names, b, names');
  }

  /** No two different paths of the two runs are recorded alike. */
  predicate ToldApart(names: seq<string>, names': seq<string>) {
    forall i, j | 0 <= i < |names| && 0 <= j < |names'| :: EventPath(names[i]) == EventPath(names'[j]) ==> names[i] == names'[j]
  }

  lemma RecordsDecideConfig(lists: Lists, a: Disk, b: Disk, names: seq<string>)
    requires IsRun(lists, a, names) && IsRun(lists, b, names) && SameRecords(lists, a, names, b, names)
    ensures SameConfig(lists, a, b)
  {
    forall p ensures p in a.files <==> p in b.files {
      if p in a.files || p in b.files {
        assert p in multiset(names);
      }
    }
    forall p | p in a.files && p !in lists.excluded ensures p in a.hashOf && p in b.hashOf && a.hashOf[p] == b.hashOf[p] {
      assert p in multiset(names);
    }
  }

  lemma ConfigDecidesRecords(lists: Lists, a: Disk, b: Disk, names: seq<string>)
    requires IsRun(lists, a, names) && IsRun(lists, b, names) && SameConfig(lists, a, b)
    ensures SameRecords(lists, a, names, b, names)
  {
    forall i | 0 <= i < |names| ensures FindingOf(lists, a, names[i]) == FindingOf(lists, b, names[i]) {
      assert names[i] in multiset(names);
    }
  }

  /**
   The log tells two configurations apart exactly when runs with the same records are over the
   same paths; the order of the walk does not matter.
   */
  lemma LogDecidesConfigExactly(lists: Lists, sha: Sha256, a: Disk, names: seq<string>, b: Disk, names': seq<string>)
    requires IsRun(lists, a, names) && IsRun(lists, b, names')
    ensures (LogOf(lists, sha, a, names) == LogOf(lists, sha, b, names') <==> SameConfig(lists, a, b)) <==>
            (SameRecords(lists, a, names, b, names') ==> names == names')
  {
    LogDecidesRecords(lists, sha, a, names, b, names');
    if SameConfig(lists, a, b) {
      SortedUnique(names, names');
      ConfigDecidesRecords(lists, a, b, names);
    }
    if SameRecords(lists, a, names, b, names') && names == names' {
      RecordsDecideConfig(lists, a, b, names);
    }
  }

  /** So it does if no two different paths of the runs are recorded alike. */
  lemma LogDecidesConfig(lists: Lists, sha: Sha256, a: Disk, names: seq<string>, b: Disk, names': seq<string>)
    requires IsRun(lists, a, names) && IsRun(lists, b, names') && ToldApart(names, names')
    ensures LogOf(lists, sha, a, names) == LogOf(lists, sha, b, names') <==> SameConfig(lists, a, b)
  {
    LogDecidesConfigExactly(lists, sha, a, names, b, names');
    if SameRecords(lists, a, names, b, names') {
      assert forall i | 0 <= i < |names| :: names[i] == names'[i];
    }
  }

  /** Paths of at most 512 bytes are always told apart. */
  lemma ShortPathsToldApart(names: seq<string>, names': seq<string>)
    requires (forall i | 0 <= i < |names| :: |names[i]| <= 512) && (forall i | 0 <= i < |names'| :: |names'[i]| <= 512)
    ensures ToldApart(names, names')
  {
    forall i, j | 0 <= i < |names| && 0 <= j < |names'| && EventPath(names[i]) == EventPath(names'[j])
      ensures names[i] == names'[j]
    {
      assert EventPath(names[i]) == names[i] && EventPath(names'[j]) == names'[j];
    }
  }

  /** And their data always fits. */
  lemma ShortPathsRecordable(lists: Lists, disk: Disk, names: seq<string>)
    requires AllReadable(lists, disk, names) && ValidHashes(disk)
    requires forall i | 0 <= i < |names| :: IsBytes(names[i]) && |names[i]| <= 512
    ensures Recordable(DatasOf(lists, disk, names))
  {
    forall i | 0 <= i < |names| ensures IsBytes(DataOf(lists, disk, names[i])) && |DataOf(lists, disk, names[i])| < 0x1_0000_0000 {
      DataIsBytes(names[i], FindingOf(lists, disk, names[i]));
    }
  }

  lemma SuffixIsBytes(f: Finding)
    requires ValidFinding(f)
    ensures IsBytes(Suffix(f)) && |Suffix(f)| <= 89
  {
  }

  lemma DataIsBytes(p: string, f: Finding)
    requires IsBytes(p) && |p| <= 512 && ValidFinding(f)
    ensures IsBytes(EventData(p, f)) && |EventData(p, f)| < 0x1_0000_0000
  {
    SuffixIsBytes(f);
  }

  /** A disk with one file, behind the listed paths `s` in sorted order. */
  predicate Behind(lists: Lists, s: seq<string>, p: string) {
    && InOrder(s, AllPaths(lists, {})) && p !in AllPaths(lists, {})
    && forall i | 0 <= i < |s| :: LexLeq(s[i], p)
  }

  lemma OneFileRun(lists: Lists, s: seq<string>, p: string, hash: string)
    requires Behind(lists, s, p)
    ensures var disk := Disk({p}, map[p := hash]);
            && InOrder(s + [p], AllPaths(lists, disk.files)) && AllReadable(lists, disk, s + [p])
            && forall i | 0 <= i < |s| :: s[i] != p && FindingOf(lists, disk, s[i]) == Presence(false)
  {
    var disk := Disk({p}, map[p := hash]);
    assert AllPaths(lists, {p}) == AllPaths(lists, {}) + {p};
    assert multiset(s + [p]) == multiset(AllPaths(lists, {p}));
    forall i | 0 <= i < |s| ensures s[i] != p {
      assert s[i] in multiset(s);
    }
    assert Sorted(s + [p]);
  }

  /** Two files with one base name in different deep directories give one log and two configurations. */
  lemma DeepFilesCollide(lists: Lists, s: seq<string>, sha: Sha256, dir: string, dir': string, name: string, hash: string)
    requires '/' !in name && name != "" && |dir| + |name| >= 512 && |dir'| + |name| >= 512 && dir != dir'
    requires Behind(lists, s, dir + "/" + name) && Behind(lists, s, dir' + "/" + name)
    ensures var p, q := dir + "/" + name, dir' + "/" + name;
            var a, b := Disk({p}, map[p := hash]), Disk({q}, map[q := hash]);
            && InOrder(s + [p], AllPaths(lists, a.files)) && InOrder(s + [q], AllPaths(lists, b.files))
            && AllReadable(lists, a, s + [p]) && AllReadable(lists, b, s + [q])
            && LogOf(lists, sha, a, s + [p]) == LogOf(lists, sha, b, s + [q]) && !SameConfig(lists, a, b)
  {
    var p, q := dir + "/" + name, dir' + "/" + name;
    var a, b := Disk({p}, map[p := hash]), Disk({q}, map[q := hash]);
    DifferentDirs(dir, dir', name);
    OneFileRun(lists, s, p, hash);
    OneFileRun(lists, s, q, hash);
    SameDatas(lists, s, dir, dir', name, hash);
    assert p in a.files && p !in b.files;
  }

  lemma SameDatas(lists: Lists, s: seq<string>, dir: string, dir': string, name: string, hash: string)
    requires '/' !in name && name != "" && |dir| + |name| >= 512 && |dir'| + |name| >= 512
    requires Behind(lists, s, dir + "/" + name) && Behind(lists, s, dir' + "/" + name)
    ensures var p, q := dir + "/" + name, dir' + "/" + name;
            var a, b := Disk({p}, map[p := hash]), Disk({q}, map[q := hash]);
            && AllReadable(lists, a, s + [p]) && AllReadable(lists, b, s + [q])
            && DatasOf(lists, a, s + [p]) == DatasOf(lists, b, s + [q])
  {
    var p, q := dir + "/" + name, dir' + "/" + name;
    var a, b := Disk({p}, map[p := hash]), Disk({q}, map[q := hash]);
    OneFileRun(lists, s, p, hash);
    OneFileRun(lists, s, q, hash);
    LongPathsCollide(dir, dir', name, Content(hash));
    NotListed(lists, p);
    NotListed(lists, q);
    forall i | 0 <= i <= |s| ensures DataOf(lists, a, (s + [p])[i]) == DataOf(lists, b, (s + [q])[i]) {
      if i < |s| {
        assert (s + [p])[i] == s[i] && (s + [q])[i] == s[i];
      }
    }
  }

  lemma NotListed(lists: Lists, p: string)
    requires p !in AllPaths(lists, {})
    ensures p !in lists.excluded
  {
  }

  /** In particular with the lists the program is built with, whose paths are all short. */
  lemma ShippedListsCollide(s: seq<string>, sha: Sha256, dir: string, dir': string, name: string, hash: string)
    requires '/' !in name && name != "" && |dir| + |name| >= 512 && |dir'| + |name| >= 512 && dir != dir'
    requires InOrder(s, AllPaths(LISTS, {}))
    requires forall i | 0 <= i < |s| :: LexLeq(s[i], dir + "/" + name) && LexLeq(s[i], dir' + "/" + name)
    ensures var p, q := dir + "/" + name, dir' + "/" + name;
            var a, b := Disk({p}, map[p := hash]), Disk({q}, map[q := hash]);
            && AllReadable(LISTS, a, s + [p]) && AllReadable(LISTS, b, s + [q])
            && LogOf(LISTS, sha, a, s + [p]) == LogOf(LISTS, sha, b, s + [q]) && !SameConfig(LISTS, a, b)
  {
    ShippedPathsShort(dir + "/" + name);
    ShippedPathsShort(dir' + "/" + name);
    DeepFilesCollide(LISTS, s, sha, dir, dir', name, hash);
  }

  lemma ShippedPathsShort(p: string)
    requires |p| > 512
    ensures p !in AllPaths(LISTS, {})
  {
    assert forall i | 0 <= i < |LISTS.excluded| :: |LISTS.excluded[i]| < 512;
    assert forall i | 0 <= i < |LISTS.dangerous| :: |LISTS.dangerous[i]| < 512;
  }

  lemma DifferentDirs(dir: string, dir': string, name: string)
    requires dir != dir'
    ensures dir + "/" + name != dir' + "/" + name
  {
    assert dir == (dir + "/" + name)[..|dir|] && dir' == (dir' + "/" + name)[..|dir'|];
    assert |dir + "/" + name| == |dir| + 1 + |name| && |dir' + "/" + name| == |dir'| + 1 + |name|;
  }

  // ---------------------------------------------------------------------------
  // The log says what the PCR is

  predicate HasSha256(e: TcgPcrEvent2) {
    e.digest.digests != [] && e.digest.digests[0].hashAlg == EV_ALG_SHA256 && |e.digest.digests[0].digestData| == 32
  }

  /** What a verifier computes from a log: the digests extended one after the other. */
  function Replay(sha: Sha256, pcr: Digest, events: seq<TcgPcrEvent2>): Digest
    requires forall i | 0 <= i < |events| :: HasSha256(events[i])
  {
    if events == [] then pcr
    else
      var last := events[|events| - 1];
      assert HasSha256(last);
      Extended(sha, Replay(sha, pcr, events[..|events| - 1]), last.digest.digests[0].digestData)
  }

  lemma {:induction false} ReplayEvents(sha: Sha256, pcr: Digest, datas: seq<string>)
    ensures forall i | 0 <= i < |datas| :: HasSha256(EventsOf(sha, datas)[i])
    ensures Replay(sha, pcr, EventsOf(sha, datas)) == PcrAfter(sha, pcr, datas)
  {
    var events := EventsOf(sha, datas);
    if datas != [] {
      var front := datas[..|datas| - 1];
      ReplayEvents(sha, pcr, front);
      assert events[..|events| - 1] == EventsOf(sha, front);
    }
  }

  /** Decoding a log and replaying its digests gives the value the PCR has reached. */
  lemma LogReplaysToPcr(sha: Sha256, pcr: Digest, datas: seq<string>)
    requires Recordable(datas)
    ensures var decoded := DecodeLog(EncodeLog(EventsOf(sha, datas)));
            && decoded.Some? && (forall i | 0 <= i < |decoded.value| :: HasSha256(decoded.value[i]))
            && Replay(sha, pcr, decoded.value) == PcrAfter(sha, pcr, datas)
  {
    AllEventsWellFormed(sha, datas);
    LogRoundTrip(EventsOf(sha, datas));
    ReplayEvents(sha, pcr, datas);
  }

  // ---------------------------------------------------------------------------
  // The whole program

  /**
   Measure the configuration, then marshal the events: whoever decodes the log written for a
   PCR that nothing else was extended into, and replays it, gets the value of the PCR.
   */
  method MeasureAndLog(tpm: Tpm, lists: Lists, disk: Disk, walked: seq<string>, answers: string -> Answers)
    returns (eventLog: Option<seq<byte>>, names: seq<string>)
    requires tpm.Valid() && tpm.extended == [] && disk.files == set p | p in walked
    modifies tpm
    ensures tpm.Valid() && InOrder(names, AllPaths(lists, disk.files))
    ensures eventLog.Some? <==> AllReadable(lists, disk, names) && Answering(answers, names)
    ensures eventLog.Some? ==> eventLog.value == LogOf(lists, tpm.sha, disk, names)
    ensures eventLog.Some? && Recordable(DatasOf(lists, disk, names)) ==>
              var decoded := DecodeLog(eventLog.value);
              && decoded.Some? && (forall i | 0 <= i < |decoded.value| :: HasSha256(decoded.value[i]))
              && Replay(tpm.sha, tpm.start, decoded.value) == tpm.pcr
  {
    var events;
    events, names := Measure(tpm, lists, disk, walked, answers);
    eventLog := None;
    if events.Some? {
      var bytes := WriteLog(events.value);
      eventLog := Some(bytes);
      ReplayOfRun(lists, tpm.sha, tpm.start, disk, names, events.value, tpm.extended);
    }
  }

  lemma ReplayOfRun(lists: Lists, sha: Sha256, start: Digest, disk: Disk, names: seq<string>,
                    events: seq<TcgPcrEvent2>, extended: seq<string>)
    requires Recorded(sha, lists, disk, names, events, [], extended)
    ensures EncodeLog(events) == LogOf(lists, sha, disk, names)
    ensures Recordable(DatasOf(lists, disk, names)) ==>
              var decoded := DecodeLog(EncodeLog(events));
              && decoded.Some? && (forall i | 0 <= i < |decoded.value| :: HasSha256(decoded.value[i]))
              && Replay(sha, start, decoded.value) == PcrAfter(sha, start, extended)
  {
    var datas := DatasOf(lists, disk, names);
    assert extended == datas;
    if Recordable(datas) {
      LogReplaysToPcr(sha, start, datas);
    }
  }
}
