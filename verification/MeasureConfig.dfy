/**
 What pkg/measure-config/src/measurefs.go puts into the TPM event log: one event per
 configuration file, present or not, in sorted order.  Paths are Go strings, that is bytes,
 written here as characters below 256; hashing is a parameter.
 */
module MeasureConfig {
  import opened Common
  import opened Sorting
  import opened EventLog

  const CONFIG_PCR_INDEX: uint32 := 14
  const EV_EFI_ACTION: uint32 := 0x80000007
  const EV_ALG_SHA256: uint16 := 0xb

  predicate IsBytes(s: string) {
    forall i | 0 <= i < |s| :: s[i] as int < 256
  }

  function ToBytes(s: string): (b: seq<byte>)
    ensures |b| == |s|
  {
    seq(|s|, i requires 0 <= i < |s| => (s[i] as int % 256) as byte)
  }

  lemma ToBytesInjective(s: string, t: string)
    requires IsBytes(s) && IsBytes(t) && ToBytes(s) == ToBytes(t)
    ensures s == t
  {
    assert |s| == |t|;
    forall i | 0 <= i < |s| ensures s[i] == t[i] {
      assert ToBytes(s)[i] == ToBytes(t)[i];
    }
  }

  predicate IsHex(c: char) {
    '0' <= c <= '9' || 'a' <= c <= 'f'
  }

  /** A SHA-256 sum in hexadecimal. */
  predicate IsHash(h: string) {
    |h| == 64 && forall i | 0 <= i < 64 :: IsHex(h[i])
  }

  // ---------------------------------------------------------------------------
  // Event data

  function StripSlashes(path: string): string {
    if path != "" && path[|path| - 1] == '/' then StripSlashes(path[..|path| - 1]) else path
  }

  function AfterLastSlash(path: string): string {
    if path == "" || path[|path| - 1] == '/' then "" else AfterLastSlash(path[..|path| - 1]) + [path[|path| - 1]]
  }

  /** filepath.Base */
  function Base(path: string): string {
    if path == "" then "."
    else
      var name := AfterLastSlash(StripSlashes(path));
      if name == "" then "/" else name
  }

  function EventPath(path: string): string {
    if |path| > 512 then Base(path) else path
  }

  datatype Finding = Content(hash: string) | Presence(exist: bool)

  predicate ValidFinding(f: Finding) {
    f.Content? ==> IsHash(f.hash)
  }

  function Suffix(f: Finding): string {
    match f
    case Content(hash) => " exist:true content-hash:" + hash
    case Presence(exist) => if exist then " exist:true" else " exist:false"
  }

  function EventData(path: string, f: Finding): string {
    "file:" + EventPath(path) + Suffix(f)
  }

  /** The last but one character of the data: a hex digit, or one that is none. */
  lemma SuffixMark(f: Finding)
    requires ValidFinding(f)
    ensures var s := Suffix(f);
            |s| >= 11 && match f
                         case Content(hash) => |s| == 89 && IsHex(s[|s| - 2]) && s[25..] == hash
                         case Presence(exist) => s[|s| - 2] == if exist then 'u' else 's'
  {
    match f
    case Content(hash) =>
      assert Suffix(f)[87] == hash[62];
    case Presence(exist) =>
  }

  /** Data can be taken apart in one way only, whatever is in the path. */
  lemma SuffixDecides(a: string, f: Finding, b: string, g: Finding)
    requires ValidFinding(f) && ValidFinding(g) && a + Suffix(f) == b + Suffix(g)
    ensures a == b && f == g
  {
    SuffixMark(f);
    SuffixMark(g);
    var s := a + Suffix(f);
    SameMark(a, Suffix(f), b, Suffix(g));
    assert f.Content? == g.Content?;
    assert |Suffix(f)| == |Suffix(g)|;
    assert a == s[..|a|] && b == s[..|b|] && Suffix(f) == s[|a|..] && Suffix(g) == s[|b|..];
  }

  lemma SameMark(a: string, s: string, b: string, t: string)
    requires a + s == b + t && |s| >= 2 && |t| >= 2
    ensures s[|s| - 2] == t[|t| - 2]
  {
    assert (a + s)[|a + s| - 2] == s[|s| - 2];
    assert (b + t)[|b + t| - 2] == t[|t| - 2];
  }

  lemma DataDecides(p: string, f: Finding, q: string, g: Finding)
    requires ValidFinding(f) && ValidFinding(g)
    ensures EventData(p, f) == EventData(q, g) <==> EventPath(p) == EventPath(q) && f == g
  {
    if EventData(p, f) == EventData(q, g) {
      SuffixDecides("file:" + EventPath(p), f, "file:" + EventPath(q), g);
      assert EventPath(p) == ("file:" + EventPath(p))[5..] && EventPath(q) == ("file:" + EventPath(q))[5..];
    }
  }

  lemma {:induction false} BaseName(dir: string, name: string)
    requires '/' !in name
    ensures AfterLastSlash(dir + "/" + name) == name
    decreases |name|
  {
    var path := dir + "/" + name;
    if name != "" {
      var front := name[..|name| - 1];
      BaseName(dir, front);
      assert path[..|path| - 1] == dir + "/" + front;
      assert name == front + [name[|name| - 1]];
    }
  }

  /** Long paths are recorded by base name only, so two of them can give the same data. */
  lemma LongPathsCollide(dir: string, dir': string, name: string, f: Finding)
    requires '/' !in name && name != "" && |dir| + |name| >= 512 && |dir'| + |name| >= 512
    ensures EventData(dir + "/" + name, f) == EventData(dir' + "/" + name, f)
  {
    BaseName(dir, name);
    BaseName(dir', name);
  }

  // ---------------------------------------------------------------------------
  // Events

  type Digest = d: seq<byte> | |d| == 32 witness seq(32, _ => 0)

  type Sha256 = seq<byte> -> Digest

  /** The event for some data; its size field is the length cut to 32 bits. */
  function EventOf(sha: Sha256, data: string): TcgPcrEvent2 {
    var event := ToBytes(data);
    TcgPcrEvent2(CONFIG_PCR_INDEX, EV_EFI_ACTION,
                 TpmlDigestValues(1, [TpmtHa(EV_ALG_SHA256, sha(event))]),
                 (|data| % 0x1_0000_0000) as uint32, event)
  }

  lemma EventWellFormedExactly(sha: Sha256, data: string)
    ensures WellFormed(EventOf(sha, data)) <==> |data| < 0x1_0000_0000
  {
    var ds := EventOf(sha, data).digest.digests;
    assert WellFormedHa(ds[0]);
  }

  function EventsOf(sha: Sha256, datas: seq<string>): (es: seq<TcgPcrEvent2>)
    ensures |es| == |datas| && forall i | 0 <= i < |datas| :: es[i] == EventOf(sha, datas[i])
  {
    seq(|datas|, i requires 0 <= i < |datas| => EventOf(sha, datas[i]))
  }

  predicate Recordable(datas: seq<string>) {
    forall i | 0 <= i < |datas| :: IsBytes(datas[i]) && |datas[i]| < 0x1_0000_0000
  }

  /** The log determines every piece of event data, in order. */
  lemma LogDecidesData(sha: Sha256, a: seq<string>, b: seq<string>)
    requires Recordable(a) && Recordable(b)
    ensures EncodeLog(EventsOf(sha, a)) == EncodeLog(EventsOf(sha, b)) <==> a == b
  {
    AllEventsWellFormed(sha, a);
    AllEventsWellFormed(sha, b);
    DistinctLogs(EventsOf(sha, a), EventsOf(sha, b));
    if EventsOf(sha, a) == EventsOf(sha, b) {
      SameEventsSameData(sha, a, b);
    }
  }

  lemma AllEventsWellFormed(sha: Sha256, datas: seq<string>)
    requires Recordable(datas)
    ensures AllWellFormed(EventsOf(sha, datas))
  {
    forall i | 0 <= i < |datas| ensures WellFormed(EventsOf(sha, datas)[i]) {
      EventWellFormedExactly(sha, datas[i]);
    }
  }

  lemma SameEventsSameData(sha: Sha256, a: seq<string>, b: seq<string>)
    requires Recordable(a) && Recordable(b) && EventsOf(sha, a) == EventsOf(sha, b)
    ensures a == b
  {
    assert |EventsOf(sha, a)| == |EventsOf(sha, b)|;
    forall i | 0 <= i < |a| ensures a[i] == b[i] {
      assert EventsOf(sha, a)[i].event == ToBytes(a[i]) && EventsOf(sha, b)[i].event == ToBytes(b[i]);
      ToBytesInjective(a[i], b[i]);
    }
  }

  // ---------------------------------------------------------------------------
  // The files measured

  /** Files whose content is not measured, and files whose absence is recorded. */
  datatype Lists = Lists(excluded: seq<string>, dangerous: seq<string>)

  const LISTS := Lists(
    ["/config/tpm_credential", "/config/device.cert.pem", "/config/device.key.pem",
     "/config/onboard.cert.pem", "/config/onboard.key.pem", "/config/soft_serial"],
    ["/config/bootstrap-config.pb", "/config/DevicePortConfig/override.json",
     "/config/GlobalConfig/global.json", "/config/Force-API-V1"])

  /** The files below /config and the hashes of those that can be read. */
  datatype Disk = Disk(files: set<string>, hashOf: map<string, string>)

  datatype FileInfo = FileInfo(exist: bool, measureContent: bool)

  function AllPaths(lists: Lists, files: set<string>): set<string> {
    files + (set p | p in lists.excluded) + (set p | p in lists.dangerous)
  }

  function Walked(lists: Lists, p: string): FileInfo {
    if p in lists.excluded then FileInfo(true, false) else FileInfo(true, true)
  }

  function InfoOf(lists: Lists, files: set<string>, p: string): FileInfo {
    if p in files then Walked(lists, p) else FileInfo(false, false)
  }

  predicate IsFileMap(m: map<string, FileInfo>, lists: Lists, files: set<string>) {
    m.Keys == AllPaths(lists, files) && forall p | p in m :: m[p] == InfoOf(lists, files, p)
  }

  method GetFileMap(lists: Lists, walked: seq<string>) returns (m: map<string, FileInfo>)
    ensures IsFileMap(m, lists, set p | p in walked)
  {
    m := map[];
    for i := 0 to |walked|
      invariant m.Keys == set p | p in walked[..i]
      invariant forall p | p in m :: m[p] == Walked(lists, p)
    {
      var measureContent := walked[i] !in lists.excluded;
      m := m[walked[i] := FileInfo(true, measureContent)];
    }
    assert walked[..|walked|] == walked;
    ghost var files := m.Keys;
    m := AddMissing(m, lists.excluded);
    m := AddMissing(m, lists.dangerous);
    assert forall p | p in m :: m[p] == InfoOf(lists, files, p);
  }

  method AddMissing(m: map<string, FileInfo>, paths: seq<string>) returns (m': map<string, FileInfo>)
    ensures m'.Keys == m.Keys + (set p | p in paths)
    ensures forall p | p in m' :: m'[p] == if p in m then m[p] else FileInfo(false, false)
  {
    m' := m;
    for i := 0 to |paths|
      invariant m'.Keys == m.Keys + (set p | p in paths[..i])
      invariant forall p | p in m' :: m'[p] == if p in m then m[p] else FileInfo(false, false)
    {
      if paths[i] !in m' {
        m' := m'[paths[i] := FileInfo(false, false)];
      }
    }
    assert paths[..|paths|] == paths;
  }

  /** Every path once, in ascending order. */
  predicate InOrder(names: seq<string>, paths: set<string>) {
    Sorted(names) && multiset(names) == multiset(paths)
  }

  method GetSortedFileList<T>(m: map<string, T>) returns (names: seq<string>)
    ensures InOrder(names, m.Keys)
  {
    var keys := [];
    var left := m.Keys;
    while left != {}
      invariant left <= m.Keys && multiset(keys) == multiset(m.Keys - left)
      decreases left
    {
      var k :| k in left;
      assert m.Keys - (left - {k}) == (m.Keys - left) + {k};
      keys := keys + [k];
      left := left - {k};
    }
    assert m.Keys - left == m.Keys;
    names := SortStrings(keys);
  }

  // ---------------------------------------------------------------------------
  // Measuring

  predicate Readable(lists: Lists, disk: Disk, p: string) {
    p in disk.files && p !in lists.excluded ==> p in disk.hashOf
  }

  function FindingOf(lists: Lists, disk: Disk, p: string): Finding
    requires Readable(lists, disk, p)
  {
    if p !in disk.files then Presence(false) else if p in lists.excluded then Presence(true) else Content(disk.hashOf[p])
  }

  predicate AllReadable(lists: Lists, disk: Disk, names: seq<string>) {
    forall i | 0 <= i < |names| :: Readable(lists, disk, names[i])
  }

  function DataOf(lists: Lists, disk: Disk, p: string): string
    requires Readable(lists, disk, p)
  {
    EventData(p, FindingOf(lists, disk, p))
  }

  function DatasOf(lists: Lists, disk: Disk, names: seq<string>): (ds: seq<string>)
    requires AllReadable(lists, disk, names)
    ensures |ds| == |names|
    ensures forall i | 0 <= i < |names| :: ds[i] == DataOf(lists, disk, names[i])
  {
    seq(|names|, i requires 0 <= i < |names| => DataOf(lists, disk, names[i]))
  }

  /** TPM2_PCR_Extend: the new value is the hash of the old one followed by the digest. */
  function Extended(sha: Sha256, pcr: Digest, digest: Digest): Digest {
    sha(pcr + digest)
  }

  /** The PCR value after some data has been hashed and extended into it. */
  function PcrAfter(sha: Sha256, pcr: Digest, datas: seq<string>): Digest {
    if datas == [] then pcr
    else Extended(sha, PcrAfter(sha, pcr, datas[..|datas| - 1]), sha(ToBytes(datas[|datas| - 1])))
  }

  /** The configuration PCR, and the data extended into it so far. */
  class Tpm {
    const sha: Sha256
    const start: Digest
    var pcr: Digest
    var extended: seq<string>

    ghost predicate Valid()
      reads this
    {
      pcr == PcrAfter(sha, start, extended)
    }

    constructor (sha: Sha256, start: Digest)
      ensures Valid() && this.sha == sha && this.start == start && extended == []
    {
      this.sha, this.start, pcr, extended := sha, start, start, [];
    }

    method PCREvent(data: string, ok: bool)
      requires Valid()
      modifies this
      ensures Valid() && extended == if ok then old(extended) + [data] else old(extended)
    {
      if ok {
        assert (extended + [data])[..|extended|] == extended;
        pcr := Extended(sha, pcr, sha(ToBytes(data)));
        extended := extended + [data];
      }
    }
  }

  /** The answers of the TPM device to an extend and to a read. */
  datatype Answers = Answers(extended: bool, read: bool)

  method PerformMeasurement(tpm: Tpm, path: string, exist: bool, hash: Option<string>, content: bool, answers: Answers)
    returns (event: Option<TcgPcrEvent2>)
    requires tpm.Valid()
    modifies tpm
    ensures tpm.Valid()
    ensures event.Some? <==> (content ==> hash.Some?) && answers.extended && answers.read
    ensures event.Some? ==>
              var data := EventData(path, if content then Content(hash.value) else Presence(exist));
              event.value == EventOf(tpm.sha, data) && tpm.extended == old(tpm.extended) + [data]
  {
    var eventFilePath := path;
    if |path| > 512 {
      eventFilePath := Base(path);
    }
    var eventData;
    if content {
      if hash.None? {
        return None;
      }
      eventData := "file:" + eventFilePath + (" exist:true content-hash:" + hash.value);
    } else {
      eventData := "file:" + eventFilePath + (if exist then " exist:true" else " exist:false");
    }
    tpm.PCREvent(eventData, answers.extended);
    if !answers.extended || !answers.read {
      return None;
    }
    return Some(EventOf(tpm.sha, eventData));
  }

  lemma DatasNext(lists: Lists, disk: Disk, names: seq<string>, i: nat)
    requires i < |names| && AllReadable(lists, disk, names[..i]) && Readable(lists, disk, names[i])
    ensures AllReadable(lists, disk, names[..i + 1])
    ensures DatasOf(lists, disk, names[..i + 1]) == DatasOf(lists, disk, names[..i]) + [DataOf(lists, disk, names[i])]
  {
    var prefix := names[..i + 1];
    forall j | 0 <= j < |prefix| ensures Readable(lists, disk, prefix[j]) {
      if j < i {
        assert prefix[j] == names[..i][j];
      }
    }
  }

  lemma EventsNext(sha: Sha256, datas: seq<string>, data: string)
    ensures EventsOf(sha, datas + [data]) == EventsOf(sha, datas) + [EventOf(sha, data)]
  {
  }

  method MeasureFile(tpm: Tpm, ghost lists: Lists, disk: Disk, p: string, info: FileInfo, answers: Answers)
    returns (event: Option<TcgPcrEvent2>)
    requires tpm.Valid() && info == InfoOf(lists, disk.files, p)
    modifies tpm
    ensures tpm.Valid()
    ensures event.Some? <==> Readable(lists, disk, p) && answers.extended && answers.read
    ensures event.Some? ==>
              var data := DataOf(lists, disk, p);
              event.value == EventOf(tpm.sha, data) && tpm.extended == old(tpm.extended) + [data]
  {
    var hash := if p in disk.hashOf then Some(disk.hashOf[p]) else None;
    event := PerformMeasurement(tpm, p, info.exist, hash, info.exist && info.measureContent, answers);
  }

  /** The device accepts and answers the measurement of every path. */
  predicate Answering(answers: string -> Answers, names: seq<string>) {
    forall i | 0 <= i < |names| :: answers(names[i]).extended && answers(names[i]).read
  }

  lemma AnsweringNext(answers: string -> Answers, names: seq<string>, i: nat)
    requires i < |names| && Answering(answers, names[..i])
    ensures Answering(answers, names[..i + 1]) <==> answers(names[i]).extended && answers(names[i]).read
    ensures Answering(answers, names) ==> Answering(answers, names[..i + 1])
  {
    var prefix := names[..i + 1];
    assert prefix[i] == names[i];
    assert forall j | 0 <= j < i :: prefix[j] == names[..i][j];
    assert forall j | 0 <= j <= i :: prefix[j] == names[j];
  }

  /** The events are those of the paths, and their data is what was extended. */
  predicate Recorded(sha: Sha256, lists: Lists, disk: Disk, names: seq<string>,
                     events: seq<TcgPcrEvent2>, before: seq<string>, after: seq<string>) {
    && AllReadable(lists, disk, names)
    && events == EventsOf(sha, DatasOf(lists, disk, names)) && after == before + DatasOf(lists, disk, names)
  }

  lemma RecordedNext(sha: Sha256, lists: Lists, disk: Disk, names: seq<string>, i: nat,
                     events: seq<TcgPcrEvent2>, before: seq<string>, after: seq<string>)
    requires i < |names| && Recorded(sha, lists, disk, names[..i], events, before, after)
    requires Readable(lists, disk, names[i])
    ensures var data := DataOf(lists, disk, names[i]);
            Recorded(sha, lists, disk, names[..i + 1], events + [EventOf(sha, data)], before, after + [data])
  {
    DatasNext(lists, disk, names, i);
    EventsNext(sha, DatasOf(lists, disk, names[..i]), DataOf(lists, disk, names[i]));
  }

  /** One event per path; none at all exactly if a file cannot be read or the device refuses. */
  method MeasureFiles(tpm: Tpm, lists: Lists, disk: Disk, names: seq<string>, files: map<string, FileInfo>,
                      answers: string -> Answers)
    returns (events: Option<seq<TcgPcrEvent2>>)
    requires tpm.Valid()
    requires forall i | 0 <= i < |names| :: names[i] in files && files[names[i]] == InfoOf(lists, disk.files, names[i])
    modifies tpm
    ensures tpm.Valid()
    ensures events.Some? <==> AllReadable(lists, disk, names) && Answering(answers, names)
    ensures events.Some? ==> Recorded(tpm.sha, lists, disk, names, events.value, old(tpm.extended), tpm.extended)
  {
    var done := [];
    assert names[..0] == [];
    for i := 0 to |names|
      invariant Answering(answers, names[..i])
      invariant tpm.Valid() && Recorded(tpm.sha, lists, disk, names[..i], done, old(tpm.extended), tpm.extended)
    {
      var p := names[i];
      AnsweringNext(answers, names, i);
      ghost var extended := tpm.extended;
      var event := MeasureFile(tpm, lists, disk, p, files[p], answers(p));
      if event.None? {
        return None;
      }
      RecordedNext(tpm.sha, lists, disk, names, i, done, old(tpm.extended), extended);
      done := done + [event.value];
    }
    assert names[..|names|] == names;
    events := Some(done);
  }

  /** measureConfig: `disk.files` is what the walk over /config finds, in any order. */
  method Measure(tpm: Tpm, lists: Lists, disk: Disk, walked: seq<string>, answers: string -> Answers)
    returns (events: Option<seq<TcgPcrEvent2>>, names: seq<string>)
    requires tpm.Valid() && disk.files == set p | p in walked
    modifies tpm
    ensures tpm.Valid() && InOrder(names, AllPaths(lists, disk.files))
    ensures events.Some? <==> AllReadable(lists, disk, names) && Answering(answers, names)
    ensures events.Some? ==> Recorded(tpm.sha, lists, disk, names, events.value, old(tpm.extended), tpm.extended)
  {
    var files := GetFileMap(lists, walked);
    names := GetSortedFileList(files);
    forall i | 0 <= i < |names| ensures names[i] in files {
      assert names[i] in multiset(names);
    }
    events := MeasureFiles(tpm, lists, disk, names, files, answers);
  }

  /** With the lists the program is built with. */
  method MeasureShipped(tpm: Tpm, disk: Disk, walked: seq<string>, answers: string -> Answers)
    returns (events: Option<seq<TcgPcrEvent2>>, names: seq<string>)
    requires tpm.Valid() && disk.files == set p | p in walked
    modifies tpm
    ensures tpm.Valid() && InOrder(names, AllPaths(LISTS, disk.files))
    ensures events.Some? <==> AllReadable(LISTS, disk, names) && Answering(answers, names)
    ensures events.Some? ==> Recorded(tpm.sha, LISTS, disk, names, events.value, old(tpm.extended), tpm.extended)
  {
    events, names := Measure(tpm, LISTS, disk, walked, answers);
  }
}
