/**
 The log writer of pkg/newlog/cmd/writelogFile.go -- open files, rotation by size, by time and
 by policy change -- together with the domain handlers of pkg/newlog/cmd/newlogd.go that
 change the policy.  Each received line, timer tick or domain update is one atomic step.
 */
module LogWriter {

  const MAX_LOG_FILE_SIZE := 550000
  const INT32_MAX := 0x7fff_ffff

  /** A sum kept in a signed 32-bit counter. */
  function Int32(n: int): int {
    (n + 0x8000_0000) % 0x1_0000_0000 - 0x8000_0000
  }

  datatype Stream = Upload | Keep | App(uuid: string)

  /** `lines` are the data lines, the metadata line at the top left out as in `size`. */
  datatype OpenFile = OpenFile(lines: seq<string>, size: int, index: nat, notUpload: bool)

  datatype MovedFile = MovedFile(stream: Stream, lines: seq<string>, inputSize: int, notUpload: bool)

  datatype Domain = Domain(disableLogs: bool, trigMove: bool)

  datatype World = World(
    upload: OpenFile,
    keep: OpenFile,
    apps: map<string, OpenFile>,
    domains: map<string, Domain>,
    moved: seq<MovedFile>)

  datatype Event =
    | AppLine(uuid: string, line: string)
    | UploadLine(line: string)
    | KeepLine(line: string)
    // `expired` says which app files are too old; `order` is the order the map is walked in
    | Tick(uploadExpired: bool, expired: set<string>, order: seq<string>)
    | DomainStatus(uuid: string, disable: bool)
    | DomainDelete(uuid: string)

  // ---------------------------------------------------------------------------
  // The steps

  function NewFile(notUpload: bool): OpenFile {
    OpenFile([], 0, 0, notUpload)
  }

  function Start(domains: map<string, Domain>): World {
    World(NewFile(false), NewFile(true), map[], domains, [])
  }

  function Written(f: OpenFile, line: string): OpenFile {
    OpenFile(f.lines + [line], Int32(f.size + |line|), f.index + 1, f.notUpload)
  }

  function Moved(s: Stream, f: OpenFile): MovedFile {
    MovedFile(s, f.lines, f.size, f.notUpload)
  }

  /** A full device file is replaced by an empty one of the same kind. */
  function RotateUpload(w: World): World {
    w.(upload := NewFile(w.upload.notUpload).(index := w.upload.index), moved := w.moved + [Moved(Upload, w.upload)])
  }

  function RotateKeep(w: World): World {
    w.(keep := NewFile(w.keep.notUpload).(index := w.keep.index), moved := w.moved + [Moved(Keep, w.keep)])
  }

  /** An app file is closed; the next line opens a new one. */
  function CloseApp(w: World, u: string): World
    requires u in w.apps
  {
    w.(apps := w.apps - {u}, moved := w.moved + [Moved(App(u), w.apps[u])])
  }

  /** A new app file takes the current policy, which settles a pending move. */
  function WithAppOpen(w: World, u: string): (r: World)
    ensures u in r.apps
  {
    if u in w.apps then w
    else if u !in w.domains then w.(apps := w.apps[u := NewFile(false)])
    else w.(apps := w.apps[u := NewFile(w.domains[u].disableLogs)],
            domains := w.domains[u := w.domains[u].(trigMove := false)])
  }

  function AfterAppLine(w: World, u: string, line: string): World {
    var o := WithAppOpen(w, u);
    var f := Written(o.apps[u], line);
    var n := o.(apps := o.apps[u := f]);
    if f.size >= MAX_LOG_FILE_SIZE then CloseApp(n, u) else n
  }

  function AfterUploadLine(w: World, line: string): World {
    var n := w.(upload := Written(w.upload, line));
    if n.upload.size >= MAX_LOG_FILE_SIZE then RotateUpload(n) else n
  }

  function AfterKeepLine(w: World, line: string): World {
    var n := w.(keep := Written(w.keep, line));
    if n.keep.size >= MAX_LOG_FILE_SIZE then RotateKeep(n) else n
  }

  /** The timer's look at one app file. */
  function TickApp(w: World, u: string, expired: set<string>): World {
    if u !in w.apps then w
    else if u in w.domains && w.domains[u].trigMove then
      CloseApp(w.(domains := w.domains[u := w.domains[u].(trigMove := false)]), u)
    else if w.apps[u].size > 0 && u in expired then CloseApp(w, u)
    else w
  }

  function TickApps(w: World, order: seq<string>, expired: set<string>): World {
    if order == [] then w else TickApp(TickApps(w, order[..|order| - 1], expired), order[|order| - 1], expired)
  }

  function AfterDomainStatus(w: World, u: string, disable: bool): World {
    var trig := u in w.domains && (w.domains[u].disableLogs != disable || w.domains[u].trigMove);
    w.(domains := w.domains[u := Domain(disable, trig)])
  }

  function Step(w: World, e: Event): World {
    match e
    case AppLine(u, line) => AfterAppLine(w, u, line)
    case UploadLine(line) => AfterUploadLine(w, line)
    case KeepLine(line) => AfterKeepLine(w, line)
    case Tick(uploadExpired, expired, order) =>
      TickApps(if w.upload.size > 0 && uploadExpired then RotateUpload(w) else w, order, expired)
    case DomainStatus(u, disable) => AfterDomainStatus(w, u, disable)
    case DomainDelete(u) => w.(domains := w.domains - {u})
  }

  function Run(w: World, events: seq<Event>): World {
    if events == [] then w else Step(Run(w, events[..|events| - 1]), events[|events| - 1])
  }

  // ---------------------------------------------------------------------------
  // No line is lost, repeated or reordered

  function LinesMoved(moved: seq<MovedFile>, s: Stream): seq<string> {
    if moved == [] then []
    else LinesMoved(moved[..|moved| - 1], s) +
         if moved[|moved| - 1].stream == s then moved[|moved| - 1].lines else []
  }

  function LinesOpen(w: World, s: Stream): seq<string> {
    match s
    case Upload => w.upload.lines
    case Keep => w.keep.lines
    case App(u) => if u in w.apps then w.apps[u].lines else []
  }

  /** Everything written for a stream: the files handed over, then the open one. */
  function LinesKept(w: World, s: Stream): seq<string> {
    LinesMoved(w.moved, s) + LinesOpen(w, s)
  }

  function Sent(e: Event, s: Stream): seq<string> {
    match e
    case AppLine(u, line) => if s == App(u) then [line] else []
    case UploadLine(line) => if s == Upload then [line] else []
    case KeepLine(line) => if s == Keep then [line] else []
    case _ => []
  }

  function Received(events: seq<Event>, s: Stream): seq<string> {
    if events == [] then [] else Received(events[..|events| - 1], s) + Sent(events[|events| - 1], s)
  }

  lemma LinesMovedSnoc(moved: seq<MovedFile>, m: MovedFile, s: Stream)
    ensures LinesMoved(moved + [m], s) == LinesMoved(moved, s) + if m.stream == s then m.lines else []
  {
    assert (moved + [m])[..|moved|] == moved;
  }

  lemma CloseAppKeepsLines(w: World, u: string, s: Stream)
    requires u in w.apps
    ensures LinesKept(CloseApp(w, u), s) == LinesKept(w, s)
  {
    LinesMovedSnoc(w.moved, Moved(App(u), w.apps[u]), s);
  }

  lemma RotateUploadKeepsLines(w: World, s: Stream)
    ensures LinesKept(RotateUpload(w), s) == LinesKept(w, s)
  {
    LinesMovedSnoc(w.moved, Moved(Upload, w.upload), s);
  }

  lemma RotateKeepKeepsLines(w: World, s: Stream)
    ensures LinesKept(RotateKeep(w), s) == LinesKept(w, s)
  {
    LinesMovedSnoc(w.moved, Moved(Keep, w.keep), s);
  }

  lemma TickAppKeepsLines(w: World, u: string, expired: set<string>, s: Stream)
    ensures LinesKept(TickApp(w, u, expired), s) == LinesKept(w, s)
  {
    if u in w.apps {
      CloseAppKeepsLines(w, u, s);
      if u in w.domains {
        CloseAppKeepsLines(w.(domains := w.domains[u := w.domains[u].(trigMove := false)]), u, s);
      }
    }
  }

  lemma {:induction false} TickAppsKeepLines(w: World, order: seq<string>, expired: set<string>, s: Stream)
    ensures LinesKept(TickApps(w, order, expired), s) == LinesKept(w, s)
  {
    if order != [] {
      TickAppsKeepLines(w, order[..|order| - 1], expired, s);
      TickAppKeepsLines(TickApps(w, order[..|order| - 1], expired), order[|order| - 1], expired, s);
    }
  }

  lemma WithAppOpenKeepsLines(w: World, u: string, s: Stream)
    ensures LinesKept(WithAppOpen(w, u), s) == LinesKept(w, s)
  {
  }

  lemma WriteAppKeepsLines(w: World, u: string, line: string, s: Stream)
    requires u in w.apps
    ensures LinesKept(w.(apps := w.apps[u := Written(w.apps[u], line)]), s) ==
            LinesKept(w, s) + if s == App(u) then [line] else []
  {
  }

  lemma AppLineKeepsLines(w: World, u: string, line: string, s: Stream)
    ensures LinesKept(AfterAppLine(w, u, line), s) == LinesKept(w, s) + if s == App(u) then [line] else []
  {
    var o := WithAppOpen(w, u);
    WithAppOpenKeepsLines(w, u, s);
    WriteAppKeepsLines(o, u, line, s);
    CloseAppKeepsLines(o.(apps := o.apps[u := Written(o.apps[u], line)]), u, s);
  }

  lemma UploadLineKeepsLines(w: World, line: string, s: Stream)
    ensures LinesKept(AfterUploadLine(w, line), s) == LinesKept(w, s) + if s == Upload then [line] else []
  {
    var n := w.(upload := Written(w.upload, line));
    RotateUploadKeepsLines(n, s);
    assert LinesOpen(n, s) == LinesOpen(w, s) + if s == Upload then [line] else [];
  }

  lemma KeepLineKeepsLines(w: World, line: string, s: Stream)
    ensures LinesKept(AfterKeepLine(w, line), s) == LinesKept(w, s) + if s == Keep then [line] else []
  {
    var n := w.(keep := Written(w.keep, line));
    RotateKeepKeepsLines(n, s);
    assert LinesOpen(n, s) == LinesOpen(w, s) + if s == Keep then [line] else [];
  }

  lemma StepKeepsLines(w: World, e: Event, s: Stream)
    ensures LinesKept(Step(w, e), s) == LinesKept(w, s) + Sent(e, s)
  {
    match e
    case AppLine(u, line) => AppLineKeepsLines(w, u, line, s);
    case UploadLine(line) => UploadLineKeepsLines(w, line, s);
    case KeepLine(line) => KeepLineKeepsLines(w, line, s);
    case Tick(uploadExpired, expired, order) =>
      RotateUploadKeepsLines(w, s);
      TickAppsKeepLines(if w.upload.size > 0 && uploadExpired then RotateUpload(w) else w, order, expired, s);
    case _ =>
  }

  /** In every run, each stream's files hold exactly its lines, in the order received. */
  lemma {:induction false} RotationConservesLines(domains: map<string, Domain>, events: seq<Event>, s: Stream)
    ensures LinesKept(Run(Start(domains), events), s) == Received(events, s)
  {
    if events != [] {
      RotationConservesLines(domains, events[..|events| - 1], s);
      StepKeepsLines(Run(Start(domains), events[..|events| - 1]), events[|events| - 1], s);
    }
  }

  // ---------------------------------------------------------------------------
  // Recorded sizes

  function Bytes(lines: seq<string>): nat {
    if lines == [] then 0 else Bytes(lines[..|lines| - 1]) + |lines[|lines| - 1]|
  }

  lemma BytesSnoc(lines: seq<string>, line: string)
    ensures Bytes(lines + [line]) == Bytes(lines) + |line|
  {
    assert (lines + [line])[..|lines|] == lines;
  }

  /** A write records the right size exactly when the sum fits in 32 bits. */
  lemma SizeRecordedExactly(f: OpenFile, line: string)
    requires f.size == Bytes(f.lines) && f.size <= INT32_MAX
    ensures Written(f, line).size == Bytes(Written(f, line).lines) <==> f.size + |line| <= INT32_MAX
  {
    BytesSnoc(f.lines, line);
  }

  predicate SizeOk(f: OpenFile) {
    f.size == Bytes(f.lines) && f.size < MAX_LOG_FILE_SIZE
  }

  predicate SizesOk(w: World) {
    && SizeOk(w.upload) && SizeOk(w.keep)
    && (forall u | u in w.apps :: SizeOk(w.apps[u]))
    && (forall i | 0 <= i < |w.moved| :: w.moved[i].inputSize == Bytes(w.moved[i].lines))
  }

  /** No line is long enough to overflow the counter of an open file. */
  predicate Fits(line: string) {
    |line| <= INT32_MAX - MAX_LOG_FILE_SIZE + 1
  }

  predicate FittingEvent(e: Event) {
    match e
    case AppLine(_, line) => Fits(line)
    case UploadLine(line) => Fits(line)
    case KeepLine(line) => Fits(line)
    case _ => true
  }

  lemma AppLineKeepsSizes(w: World, u: string, line: string)
    requires SizesOk(w) && Fits(line)
    ensures SizesOk(AfterAppLine(w, u, line))
  {
    var o := WithAppOpen(w, u);
    OpeningKeepsSizes(w, u);
    SizeRecordedExactly(o.apps[u], line);
    WriteKeepsSizes(o, u, Written(o.apps[u], line));
  }

  lemma OpeningKeepsSizes(w: World, u: string)
    requires SizesOk(w)
    ensures SizesOk(WithAppOpen(w, u))
  {
  }

  lemma WriteKeepsSizes(w: World, u: string, f: OpenFile)
    requires SizesOk(w) && u in w.apps && f.size == Bytes(f.lines)
    ensures var n := w.(apps := w.apps[u := f]);
            SizesOk(if f.size >= MAX_LOG_FILE_SIZE then CloseApp(n, u) else n)
  {
  }

  lemma {:induction false} TickAppsKeepSizes(w: World, order: seq<string>, expired: set<string>)
    requires SizesOk(w)
    ensures SizesOk(TickApps(w, order, expired))
  {
    if order != [] {
      TickAppsKeepSizes(w, order[..|order| - 1], expired);
    }
  }

  lemma UploadLineKeepsSizes(w: World, line: string)
    requires SizesOk(w) && Fits(line)
    ensures SizesOk(AfterUploadLine(w, line))
  {
    SizeRecordedExactly(w.upload, line);
  }

  lemma KeepLineKeepsSizes(w: World, line: string)
    requires SizesOk(w) && Fits(line)
    ensures SizesOk(AfterKeepLine(w, line))
  {
    SizeRecordedExactly(w.keep, line);
  }

  lemma StepKeepsSizes(w: World, e: Event)
    requires SizesOk(w) && FittingEvent(e)
    ensures SizesOk(Step(w, e))
  {
    match e
    case AppLine(u, line) => AppLineKeepsSizes(w, u, line);
    case UploadLine(line) => UploadLineKeepsSizes(w, line);
    case KeepLine(line) => KeepLineKeepsSizes(w, line);
    case Tick(uploadExpired, expired, order) =>
      TickAppsKeepSizes(if w.upload.size > 0 && uploadExpired then RotateUpload(w) else w, order, expired);
    case _ =>
  }

  /** Between steps every open file's recorded size is its data bytes and below the rotation size. */
  lemma {:induction false} SizesAlwaysRight(domains: map<string, Domain>, events: seq<Event>)
    requires forall e | e in events :: FittingEvent(e)
    ensures SizesOk(Run(Start(domains), events))
  {
    if events != [] {
      SizesAlwaysRight(domains, events[..|events| - 1]);
      assert events[|events| - 1] in events;
      StepKeepsSizes(Run(Start(domains), events[..|events| - 1]), events[|events| - 1]);
    }
  }

  // ---------------------------------------------------------------------------
  // The upload policy

  /** An open file of a known app follows that app's policy, or is about to be moved. */
  predicate FlagOk(w: World, u: string) {
    u in w.apps && u in w.domains && !w.domains[u].trigMove ==> w.apps[u].notUpload == w.domains[u].disableLogs
  }

  predicate FlagsOk(w: World) {
    && !w.upload.notUpload && w.keep.notUpload
    && forall u | u in w.apps :: FlagOk(w, u)
  }

  /** A domain announced for the first time, against the flag its open file already has. */
  predicate LateAnnouncement(w: World, e: Event) {
    e.DomainStatus? && e.uuid !in w.domains && e.uuid in w.apps && w.apps[e.uuid].notUpload != e.disable
  }

  lemma {:induction false} TickAppsKeepFlags(w: World, order: seq<string>, expired: set<string>)
    requires FlagsOk(w)
    ensures FlagsOk(TickApps(w, order, expired))
  {
    if order != [] {
      TickAppsKeepFlags(w, order[..|order| - 1], expired);
    }
  }

  /** The one step that can break the policy, and it always does. */
  lemma StepKeepsFlagsExactly(w: World, e: Event)
    requires FlagsOk(w)
    ensures FlagsOk(Step(w, e)) <==> !LateAnnouncement(w, e)
  {
    match e
    case Tick(uploadExpired, expired, order) =>
      TickAppsKeepFlags(if w.upload.size > 0 && uploadExpired then RotateUpload(w) else w, order, expired);
    case DomainStatus(u, disable) =>
      if LateAnnouncement(w, e) {
        assert !FlagOk(Step(w, e), u);
      } else {
        assert forall v | v in w.apps :: FlagOk(w, v);
      }
    case _ =>
      assert forall v | v in w.apps :: FlagOk(w, v);
  }

  predicate FlagsOkThroughout(w: World, events: seq<Event>) {
    FlagsOk(Run(w, events)) && (events != [] ==> FlagsOkThroughout(w, events[..|events| - 1]))
  }

  predicate NoLateAnnouncement(w: World, events: seq<Event>) {
    events == [] ||
    (NoLateAnnouncement(w, events[..|events| - 1]) &&
     !LateAnnouncement(Run(w, events[..|events| - 1]), events[|events| - 1]))
  }

  /**
   Over whole runs, deletions included: every open file follows the policy at every moment
   exactly when no domain is announced late against the flag of its open file.
   */
  lemma {:induction false} PolicyFollowedExactly(domains: map<string, Domain>, events: seq<Event>)
    ensures FlagsOkThroughout(Start(domains), events) <==> NoLateAnnouncement(Start(domains), events)
  {
    if events != [] {
      var front := events[..|events| - 1];
      PolicyFollowedExactly(domains, front);
      if FlagsOkThroughout(Start(domains), front) {
        StepKeepsFlagsExactly(Run(Start(domains), front), events[|events| - 1]);
      }
    }
  }

  /** A domain that is announced after its app has logged finds the file open with the wrong flag. */
  lemma LateAnnouncementRun()
    ensures var w := Run(Start(map[]), [AppLine("u", "x"), DomainStatus("u", true)]);
            "u" in w.apps && !w.apps["u"].notUpload && w.domains == map["u" := Domain(true, false)] && !FlagsOk(w)
  {
    var e, e' := AppLine("u", "x"), DomainStatus("u", true);
    assert [e, e'][..1] == [e] && [e][..0] == [];
    var w := AfterAppLine(Start(map[]), "u", "x");
    assert Run(Start(map[]), []) == Start(map[]);
    assert Run(Start(map[]), [e]) == w;
    assert w.domains == map[] && w.apps.Keys == {"u"};
    assert !FlagOk(Step(w, e'), "u");
  }

  /** After a tick that looked at every open app file, none is left behind its policy. */
  predicate Settled(w: World, u: string) {
    u in w.apps && u in w.domains ==> w.apps[u].notUpload == w.domains[u].disableLogs
  }

  lemma {:induction false} TickAppsSettle(w: World, order: seq<string>, expired: set<string>, u: string)
    requires FlagsOk(w) && u in order
    ensures Settled(TickApps(w, order, expired), u)
  {
    var front, last := order[..|order| - 1], order[|order| - 1];
    var mid := TickApps(w, front, expired);
    TickAppsKeepFlags(w, front, expired);
    if last != u {
      assert order == front + [last];
      TickAppsSettle(w, front, expired, u);
    } else if u in mid.apps {
      assert FlagOk(mid, u);
    }
  }

  lemma TickSettlesPolicy(w: World, uploadExpired: bool, expired: set<string>, order: seq<string>)
    requires FlagsOk(w) && forall u | u in w.apps :: u in order
    ensures forall u | u in order :: Settled(Step(w, Tick(uploadExpired, expired, order)), u)
  {
    var n := if w.upload.size > 0 && uploadExpired then RotateUpload(w) else w;
    forall u | u in order ensures Settled(TickApps(n, order, expired), u) {
      TickAppsSettle(n, order, expired, u);
    }
  }

  // ---------------------------------------------------------------------------
  // The writer itself

  class Writer {
    var devStatsUpload: OpenFile
    var devStatsKeep: OpenFile
    var appStatsMap: map<string, OpenFile>
    var domainUUID: map<string, Domain>
    var moveChan: seq<MovedFile>

    ghost function Abs(): World
      reads this
    {
      World(devStatsUpload, devStatsKeep, appStatsMap, domainUUID, moveChan)
    }

    constructor (domains: map<string, Domain>)
      ensures Abs() == Start(domains)
    {
      devStatsUpload, devStatsKeep := NewFile(false), NewFile(true);
      appStatsMap, domainUUID, moveChan := map[], domains, [];
    }

    method WriteLogEntry(stats: OpenFile, line: string) returns (stats': OpenFile)
      ensures stats' == Written(stats, line)
    {
      stats' := stats.(lines := stats.lines + [line], size := Int32(stats.size + |line|), index := stats.index + 1);
    }

    method GetAppStatsMap(u: string) returns (stats: OpenFile)
      modifies this`appStatsMap, this`domainUUID
      ensures Abs() == WithAppOpen(old(Abs()), u) && stats == appStatsMap[u]
    {
      if u !in appStatsMap {
        var appM := NewFile(false);
        if u in domainUUID {
          var appD := domainUUID[u];
          appM := appM.(notUpload := appD.disableLogs);
          if appD.trigMove {
            domainUUID := domainUUID[u := appD.(trigMove := false)];
          }
        }
        appStatsMap := appStatsMap[u := appM];
      }
      stats := appStatsMap[u];
      assert u in old(domainUUID) && !old(domainUUID)[u].trigMove ==>
          old(domainUUID)[u := old(domainUUID)[u].(trigMove := false)] == old(domainUUID);
    }

    method TrigMoveApp(stats: OpenFile, u: string, timerTrig: bool)
      requires u in appStatsMap && appStatsMap[u] == stats
      modifies this`appStatsMap, this`moveChan
      ensures Abs() == if timerTrig || stats.size >= MAX_LOG_FILE_SIZE then CloseApp(old(Abs()), u) else old(Abs())
    {
      if !timerTrig && stats.size < MAX_LOG_FILE_SIZE {
        return;
      }
      moveChan := moveChan + [Moved(App(u), stats)];
      appStatsMap := appStatsMap - {u};
    }

    method TrigMoveUpload(timerTrig: bool)
      modifies this`devStatsUpload, this`moveChan
      ensures Abs() == if timerTrig || old(devStatsUpload).size >= MAX_LOG_FILE_SIZE then RotateUpload(old(Abs()))
                       else old(Abs())
    {
      if !timerTrig && devStatsUpload.size < MAX_LOG_FILE_SIZE {
        return;
      }
      moveChan := moveChan + [Moved(Upload, devStatsUpload)];
      devStatsUpload := NewFile(devStatsUpload.notUpload).(index := devStatsUpload.index);
    }

    method TrigMoveKeep()
      modifies this`devStatsKeep, this`moveChan
      ensures Abs() == if old(devStatsKeep).size >= MAX_LOG_FILE_SIZE then RotateKeep(old(Abs())) else old(Abs())
    {
      if devStatsKeep.size < MAX_LOG_FILE_SIZE {
        return;
      }
      moveChan := moveChan + [Moved(Keep, devStatsKeep)];
      devStatsKeep := NewFile(devStatsKeep.notUpload).(index := devStatsKeep.index);
    }

    method CheckAppFile(u: string, expired: set<string>)
      modifies this`appStatsMap, this`domainUUID, this`moveChan
      ensures Abs() == TickApp(old(Abs()), u, expired)
    {
      if u !in appStatsMap {
        return;
      }
      var appM := appStatsMap[u];
      if u in domainUUID && domainUUID[u].trigMove {
        domainUUID := domainUUID[u := domainUUID[u].(trigMove := false)];
        TrigMoveApp(appM, u, true);
        return;
      }
      if appM.size > 0 && u in expired {
        TrigMoveApp(appM, u, true);
      }
    }

    method CheckLogTimeExpire(uploadExpired: bool, expired: set<string>, order: seq<string>)
      modifies this
      ensures Abs() == Step(old(Abs()), Tick(uploadExpired, expired, order))
    {
      if devStatsUpload.size > 0 && uploadExpired {
        TrigMoveUpload(true);
      }
      ghost var start := Abs();
      var i := 0;
      while i < |order|
        invariant 0 <= i <= |order|
        invariant Abs() == TickApps(start, order[..i], expired)
      {
        assert order[..i + 1][..i] == order[..i];
        CheckAppFile(order[i], expired);
        i := i + 1;
      }
      assert order[..i] == order;
    }

    method HandleDomainStatus(u: string, disable: bool)
      modifies this`domainUUID
      ensures Abs() == AfterDomainStatus(old(Abs()), u, disable)
    {
      var appD := Domain(disable, false);
      if u in domainUUID {
        var d := domainUUID[u];
        if d.disableLogs != appD.disableLogs {
          appD := appD.(trigMove := true);
        } else {
          appD := appD.(trigMove := d.trigMove);
        }
      }
      domainUUID := domainUUID[u := appD];
    }

    method HandleDomainStatusDelete(u: string)
      modifies this`domainUUID
      ensures Abs() == old(Abs()).(domains := old(domainUUID) - {u})
    {
      if u !in domainUUID {
        assert domainUUID - {u} == domainUUID;
        return;
      }
      domainUUID := domainUUID - {u};
    }

    /** One case of the select loop, or one domain update. */
    method Handle(e: Event)
      modifies this
      ensures Abs() == Step(old(Abs()), e)
    {
      match e
      case AppLine(u, line) =>
        var appM := GetAppStatsMap(u);
        appM := WriteLogEntry(appM, line);
        appStatsMap := appStatsMap[u := appM];
        TrigMoveApp(appM, u, false);
      case UploadLine(line) =>
        devStatsUpload := WriteLogEntry(devStatsUpload, line);
        TrigMoveUpload(false);
      case KeepLine(line) =>
        devStatsKeep := WriteLogEntry(devStatsKeep, line);
        TrigMoveKeep();
      case Tick(uploadExpired, expired, order) => CheckLogTimeExpire(uploadExpired, expired, order);
      case DomainStatus(u, disable) => HandleDomainStatus(u, disable);
      case DomainDelete(u) => HandleDomainStatusDelete(u);
    }

    method WriteLogFile(events: seq<Event>)
      modifies this
      ensures Abs() == Run(old(Abs()), events)
    {
      ghost var start := Abs();
      var i := 0;
      while i < |events|
        invariant 0 <= i <= |events|
        invariant Abs() == Run(start, events[..i])
      {
        assert events[..i + 1][..i] == events[..i];
        Handle(events[i]);
        i := i + 1;
      }
      assert events[..i] == events;
    }
  }
}
