/**
 When the log writer of pkg/newlog/cmd/writelogFile.go hands a file over, and what it leaves
 open: by size, by age and by a change of policy, each exactly.
 */
module Rotation {
  import opened LogWriter

  // ---------------------------------------------------------------------------
  // By size

  /** `n` is `w` with one more file handed over, of this stream and with these lines. */
  predicate HandsOver(w: World, n: World, s: Stream, lines: seq<string>, notUpload: bool) {
    && |n.moved| == |w.moved| + 1 && n.moved[..|w.moved|] == w.moved
    && var m := n.moved[|w.moved|];
       m.stream == s && m.lines == lines && m.inputSize == Bytes(lines) && m.notUpload == notUpload
  }

  lemma NoWrap(n: int)
    requires 0 <= n <= INT32_MAX
    ensures Int32(n) == n
  {
  }

  /** A device file for upload is handed over with the line that brings it to 550000 bytes. */
  lemma UploadLineMovesExactly(w: World, line: string)
    requires SizesOk(w) && Fits(line)
    ensures var n, lines := Step(w, UploadLine(line)), w.upload.lines + [line];
            && n.upload.notUpload == w.upload.notUpload && n.upload.index == w.upload.index + 1
            && n.keep == w.keep && n.apps == w.apps && n.domains == w.domains
            && if Bytes(w.upload.lines) + |line| >= 550000 then
                 n.upload.lines == [] && n.upload.size == 0 && HandsOver(w, n, Upload, lines, w.upload.notUpload)
               else n.upload.lines == lines && n.moved == w.moved
  {
    NoWrap(w.upload.size + |line|);
    BytesSnoc(w.upload.lines, line);
  }

  lemma KeepLineMovesExactly(w: World, line: string)
    requires SizesOk(w) && Fits(line)
    ensures var n, lines := Step(w, KeepLine(line)), w.keep.lines + [line];
            && n.keep.notUpload == w.keep.notUpload && n.keep.index == w.keep.index + 1
            && n.upload == w.upload && n.apps == w.apps && n.domains == w.domains
            && if Bytes(w.keep.lines) + |line| >= 550000 then
                 n.keep.lines == [] && n.keep.size == 0 && HandsOver(w, n, Keep, lines, w.keep.notUpload)
               else n.keep.lines == lines && n.moved == w.moved
  {
    NoWrap(w.keep.size + |line|);
    BytesSnoc(w.keep.lines, line);
  }

  /** Whether a line of app `u` goes to a file that is not for upload: the open one, or a new one by the policy. */
  predicate KeptBack(w: World, u: string) {
    if u in w.apps then w.apps[u].notUpload else u in w.domains && w.domains[u].disableLogs
  }

  /** What becomes of a line of app `u`, whose open file has the lines `had`. */
  predicate AppWritten(w: World, n: World, u: string, had: seq<string>, line: string, notUpload: bool) {
    && n.upload == w.upload && n.keep == w.keep && n.apps - {u} == w.apps - {u}
    && if Bytes(had) + |line| >= 550000 then u !in n.apps && HandsOver(w, n, App(u), had + [line], notUpload)
       else u in n.apps && n.apps[u].lines == had + [line] && n.apps[u].notUpload == notUpload && n.moved == w.moved
  }

  lemma WriteAppExactly(o: World, u: string, line: string)
    requires SizesOk(o) && Fits(line) && u in o.apps
    ensures var f := Written(o.apps[u], line);
            var p := o.(apps := o.apps[u := f]);
            AppWritten(o, if f.size >= MAX_LOG_FILE_SIZE then CloseApp(p, u) else p, u, o.apps[u].lines, line, o.apps[u].notUpload)
  {
    NoWrap(o.apps[u].size + |line|);
    BytesSnoc(o.apps[u].lines, line);
  }

  lemma OpenExactly(w: World, u: string)
    ensures var o := WithAppOpen(w, u);
            && o.upload == w.upload && o.keep == w.keep && o.moved == w.moved && o.apps - {u} == w.apps - {u}
            && o.apps[u].lines == LinesOpen(w, App(u)) && o.apps[u].notUpload == KeptBack(w, u)
  {
  }

  lemma WrittenSince(w: World, o: World, n: World, u: string, had: seq<string>, line: string, notUpload: bool)
    requires o.upload == w.upload && o.keep == w.keep && o.moved == w.moved && o.apps - {u} == w.apps - {u}
    requires AppWritten(o, n, u, had, line, notUpload)
    ensures AppWritten(w, n, u, had, line, notUpload)
  {
  }

  /** An app file is closed with the line that brings it to 550000 bytes; a new one is opened by the policy. */
  lemma AppLineMovesExactly(w: World, u: string, line: string)
    requires SizesOk(w) && Fits(line)
    ensures AppWritten(w, Step(w, AppLine(u, line)), u, LinesOpen(w, App(u)), line, KeptBack(w, u))
  {
    var o := WithAppOpen(w, u);
    OpenExactly(w, u);
    OpeningKeepsSizes(w, u);
    WriteAppExactly(o, u, line);
    WrittenSince(w, o, Step(w, AppLine(u, line)), u, o.apps[u].lines, line, o.apps[u].notUpload);
  }

  /** Opening a file settles a pending move of its app, and nothing else about any domain. */
  lemma OpeningSettlesExactly(w: World, u: string, line: string)
    ensures Step(w, AppLine(u, line)).domains ==
            if u in w.domains && u !in w.apps then w.domains[u := Domain(w.domains[u].disableLogs, false)] else w.domains
  {
  }

  // ---------------------------------------------------------------------------
  // By age and by policy

  /** The files a tick closes: of a changed policy, or too old and not empty. */
  predicate Due(w: World, u: string, expired: set<string>) {
    && u in w.apps
    && ((u in w.domains && w.domains[u].trigMove) || (w.apps[u].size > 0 && u in expired))
  }

  /** What one look of the timer changes for app `u`. */
  predicate TickedApp(w: World, n: World, u: string, expired: set<string>, looked: bool) {
    && (u in n.apps <==> u in w.apps && !(looked && Due(w, u, expired)))
    && (u in n.apps && u in w.apps ==> n.apps[u] == w.apps[u])
    && (u in n.domains <==> u in w.domains)
    && (u in n.domains && u in w.domains ==>
          && n.domains[u].disableLogs == w.domains[u].disableLogs
          && n.domains[u].trigMove == (w.domains[u].trigMove && !(looked && u in w.apps)))
  }

  lemma TickAppExactly(w: World, v: string, expired: set<string>, u: string)
    ensures var n := TickApp(w, v, expired);
            n.upload == w.upload && n.keep == w.keep && TickedApp(w, n, u, expired, u == v)
  {
  }

  lemma TickAppsStep(w: World, mid: World, v: string, expired: set<string>, u: string, looked: bool)
    requires TickedApp(w, mid, u, expired, looked)
    ensures TickedApp(w, TickApp(mid, v, expired), u, expired, looked || u == v)
  {
    TickAppExactly(mid, v, expired, u);
  }

  lemma {:induction false} TickAppsExactly(w: World, order: seq<string>, expired: set<string>, u: string)
    ensures var n := TickApps(w, order, expired);
            n.upload == w.upload && n.keep == w.keep && TickedApp(w, n, u, expired, u in order)
  {
    if order != [] {
      var front, v := order[..|order| - 1], order[|order| - 1];
      TickAppsExactly(w, front, expired, u);
      TickAppsStep(w, TickApps(w, front, expired), v, expired, u, u in front);
      TickAppExactly(TickApps(w, front, expired), v, expired, u);
      assert u in order <==> u in front || u == v by { assert order == front + [v]; }
    }
  }

  /**
   A tick hands over the device file for upload if it is too old and not empty, and of the app
   files it looks at those that are too old and not empty or whose policy has changed; in
   whatever order it looks at them, and as often.
   */
  lemma TickMovesExactly(w: World, uploadExpired: bool, expired: set<string>, order: seq<string>, u: string)
    ensures var n := Step(w, Tick(uploadExpired, expired, order));
            && n.keep == w.keep
            && (if w.upload.size > 0 && uploadExpired then
                  n.upload == OpenFile([], 0, w.upload.index, w.upload.notUpload)
                else n.upload == w.upload)
            && TickedApp(w, n, u, expired, u in order)
  {
    TickAppsExactly(if w.upload.size > 0 && uploadExpired then RotateUpload(w) else w, order, expired, u);
  }

  /** A policy that changes, or has changed and is not settled yet, leaves a move pending. */
  lemma PolicyChangeExactly(w: World, u: string, disable: bool)
    ensures var n := Step(w, DomainStatus(u, disable));
            && n.upload == w.upload && n.keep == w.keep && n.apps == w.apps && n.moved == w.moved
            && n.domains.Keys == w.domains.Keys + {u} && n.domains - {u} == w.domains - {u}
            && n.domains[u].disableLogs == disable
            && (n.domains[u].trigMove <==> u in w.domains && (w.domains[u].disableLogs != disable || w.domains[u].trigMove))
  {
  }

  /** A deleted domain is forgotten, and its open file stays as it is. */
  lemma DeletionExactly(w: World, u: string)
    ensures var n := Step(w, DomainDelete(u));
            u !in n.domains && n.domains - {u} == w.domains - {u} && n == w.(domains := n.domains)
  {
  }

  // ---------------------------------------------------------------------------
  // How many lines

  /** The device files number their lines throughout, the app files each on its own. */
  predicate IndexCounts(w: World, upload: nat, keep: nat) {
    w.upload.index == upload && w.keep.index == keep && forall u | u in w.apps :: w.apps[u].index == |w.apps[u].lines|
  }

  lemma {:induction false} TickAppsNumber(w: World, order: seq<string>, expired: set<string>, upload: nat, keep: nat)
    requires IndexCounts(w, upload, keep)
    ensures IndexCounts(TickApps(w, order, expired), upload, keep)
  {
    if order != [] {
      TickAppsNumber(w, order[..|order| - 1], expired, upload, keep);
    }
  }

  lemma StepNumbers(w: World, e: Event, upload: nat, keep: nat)
    requires IndexCounts(w, upload, keep)
    ensures IndexCounts(Step(w, e), upload + |Sent(e, Upload)|, keep + |Sent(e, Keep)|)
  {
    match e
    case Tick(uploadExpired, expired, order) =>
      TickAppsNumber(if w.upload.size > 0 && uploadExpired then RotateUpload(w) else w, order, expired, upload, keep);
    case AppLine(u, line) =>
      var o := WithAppOpen(w, u);
      assert IndexCounts(o, upload, keep);
    case _ =>
  }

  lemma {:induction false} IndexAlwaysCounts(domains: map<string, Domain>, events: seq<Event>)
    ensures IndexCounts(Run(Start(domains), events), |Received(events, Upload)|, |Received(events, Keep)|)
  {
    if events != [] {
      var front := events[..|events| - 1];
      IndexAlwaysCounts(domains, front);
      StepNumbers(Run(Start(domains), front), events[|events| - 1], |Received(front, Upload)|, |Received(front, Keep)|);
    }
  }
}
