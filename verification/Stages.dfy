/**
 The compression loop of pkg/newlog/cmd/doMoveCompressFile.go taken apart: it equals filtering
 everything, then counting, then deduplicating, and from that it follows exactly when a count
 survives into the output.
 */
module Stages {
  import opened LogEntries
  import opened Counter
  import opened Dedup
  import opened Compress

  /** The entries of the usable lines. */
  function Usable(lines: seq<Line>): seq<LogEntry> {
    if lines == [] then []
    else
      var line := lines[|lines| - 1];
      Usable(lines[..|lines| - 1]) + if line.valid && line.entry.Some? then [line.entry.value] else []
  }

  function KeysOf(window: nat, entries: seq<LogEntry>): seq<string> {
    if entries == [] then [] else KeysNext(window, KeysOf(window, entries[..|entries| - 1]), entries[|entries| - 1])
  }

  /** Deduplication on its own: every entry's key goes through the window, dropped or not. */
  function Deduped(window: nat, entries: seq<LogEntry>): seq<LogEntry> {
    if entries == [] then []
    else
      var front, e := entries[..|entries| - 1], entries[|entries| - 1];
      if Drops(window, KeysOf(window, front), e) then Deduped(window, front) else Deduped(window, front) + [e]
  }

  function Marshalled(marshal: Marshal, entries: seq<LogEntry>): seq<string> {
    seq(|entries|, i requires 0 <= i < |entries| => marshal(entries[i]))
  }

  /** What deduplication makes of the entries that counting passes on. */
  function Finish(cfg: Config, marshal: Marshal, counter: map<string, nat>, counted: seq<LogEntry>): Pipe {
    Pipe(counter, KeysOf(cfg.window, counted), Marshalled(marshal, Deduped(cfg.window, counted)))
  }

  /** What the loop must equal: filter everything, then count, then deduplicate. */
  function ThreeStages(cfg: Config, marshal: Marshal, counter: map<string, nat>, entries: seq<LogEntry>): Pipe {
    var (counted, c) := Stage(Unfiltered(entries, cfg.filter), counter);
    Finish(cfg, marshal, c, counted)
  }

  lemma DedupedSnoc(window: nat, entries: seq<LogEntry>, e: LogEntry)
    ensures KeysOf(window, entries + [e]) == KeysNext(window, KeysOf(window, entries), e)
    ensures Deduped(window, entries + [e]) ==
            if Drops(window, KeysOf(window, entries), e) then Deduped(window, entries) else Deduped(window, entries) + [e]
  {
    assert (entries + [e])[..|entries|] == entries;
  }

  lemma StageSnoc(entries: seq<LogEntry>, e: LogEntry, counter: map<string, nat>)
    ensures var (out, c) := Stage(entries, counter);
            var (use, e', c') := Count(e, c);
            Stage(entries + [e], counter) == (if use then out + [e'] else out, c')
  {
    assert (entries + [e])[..|entries|] == entries;
  }

  /** An entry past the filter: count it, then deduplicate it if it is used. */
  function CountedEntry(cfg: Config, marshal: Marshal, p: Pipe, e: LogEntry): Pipe {
    var (use, e', counter') := Count(e, p.counter);
    if use then DedupEntry(cfg, marshal, p, e', counter') else p.(counter := counter')
  }

  function DedupEntry(cfg: Config, marshal: Marshal, p: Pipe, e: LogEntry, counter: map<string, nat>): Pipe {
    Pipe(counter, KeysNext(cfg.window, p.keys, e),
         if Drops(cfg.window, p.keys, e) then p.kept else p.kept + [marshal(e)])
  }

  lemma FinishSnoc(cfg: Config, marshal: Marshal, c: map<string, nat>, counted: seq<LogEntry>, e: LogEntry, c': map<string, nat>)
    ensures Finish(cfg, marshal, c', counted + [e]) == DedupEntry(cfg, marshal, Finish(cfg, marshal, c, counted), e, c')
  {
    DedupedSnoc(cfg.window, counted, e);
    MarshalledSnoc(marshal, Deduped(cfg.window, counted), e);
  }

  lemma CountedSnoc(cfg: Config, marshal: Marshal, counter: map<string, nat>, mine: seq<LogEntry>, e: LogEntry)
    ensures var s, s' := Stage(mine, counter), Stage(mine + [e], counter);
            Finish(cfg, marshal, s'.1, s'.0) == CountedEntry(cfg, marshal, Finish(cfg, marshal, s.1, s.0), e)
  {
    StageSnoc(mine, e, counter);
    var (out, c) := Stage(mine, counter);
    var (use, e', c') := Count(e, c);
    if use {
      FinishSnoc(cfg, marshal, c, out, e', c');
    }
  }

  lemma ThreeStagesSnoc(cfg: Config, marshal: Marshal, counter: map<string, nat>, entries: seq<LogEntry>, e: LogEntry)
    ensures ThreeStages(cfg, marshal, counter, entries + [e]) ==
            if e.filename in cfg.filter then ThreeStages(cfg, marshal, counter, entries)
            else CountedEntry(cfg, marshal, ThreeStages(cfg, marshal, counter, entries), e)
  {
    UnfilteredSnoc(entries, e, cfg.filter);
    var mine := Unfiltered(entries, cfg.filter);
    if e.filename in cfg.filter {
      assert mine + [] == mine;
    } else {
      CountedSnoc(cfg, marshal, counter, mine, e);
    }
  }

  lemma MarshalledSnoc(marshal: Marshal, entries: seq<LogEntry>, e: LogEntry)
    ensures Marshalled(marshal, entries + [e]) == Marshalled(marshal, entries) + [marshal(e)]
  {
  }

  lemma {:induction false} StageKeepsKeys(entries: seq<LogEntry>, counter: map<string, nat>)
    ensures Stage(entries, counter).1.Keys == counter.Keys
  {
    if entries != [] {
      StageKeepsKeys(entries[..|entries| - 1], counter);
    }
  }

  lemma EmptyByKeys<T>(m: map<string, T>, n: map<string, T>)
    requires m.Keys == n.Keys
    ensures m == map[] <==> n == map[]
  {
    assert m == map[] <==> m.Keys == {};
    assert n == map[] <==> n.Keys == {};
  }

  /** What is switched on stays on. */
  lemma StillProcessing(cfg: Config, marshal: Marshal, counter: map<string, nat>, entries: seq<LogEntry>)
    requires cfg.filter != {} || counter != map[] || cfg.window != 0
    ensures Processing(cfg, ThreeStages(cfg, marshal, counter, entries).counter)
  {
    StageKeepsKeys(Unfiltered(entries, cfg.filter), counter);
    EmptyByKeys(counter, Stage(Unfiltered(entries, cfg.filter), counter).1);
  }

  lemma UsableSnoc(lines: seq<Line>, line: Line)
    ensures Usable(lines + [line]) ==
            if line.valid && line.entry.Some? then Usable(lines) + [line.entry.value] else Usable(lines)
  {
    assert (lines + [line])[..|lines|] == lines;
  }

  /** One line of the loop, with something to process. */
  lemma LineStep(cfg: Config, marshal: Marshal, p: Pipe, line: Line)
    requires Processing(cfg, p.counter)
    ensures PipeLine(cfg, marshal, true, p, line) ==
            if !line.valid || line.entry.None? || line.entry.value.filename in cfg.filter then p
            else CountedEntry(cfg, marshal, p, line.entry.value)
  {
  }

  lemma LoopNext(cfg: Config, marshal: Marshal, counter: map<string, nat>, lines: seq<Line>, line: Line)
    requires cfg.filter != {} || counter != map[] || cfg.window != 0
    ensures PipeLine(cfg, marshal, true, ThreeStages(cfg, marshal, counter, Usable(lines)), line) ==
            ThreeStages(cfg, marshal, counter, Usable(lines + [line]))
  {
    var p := ThreeStages(cfg, marshal, counter, Usable(lines));
    StillProcessing(cfg, marshal, counter, Usable(lines));
    LineStep(cfg, marshal, p, line);
    UsableSnoc(lines, line);
    if line.valid && line.entry.Some? {
      ThreeStagesSnoc(cfg, marshal, counter, Usable(lines), line.entry.value);
    }
  }

  predicate Staged(cfg: Config, marshal: Marshal, counter: map<string, nat>, lines: seq<Line>) {
    PipeLines(cfg, marshal, true, counter, lines) == ThreeStages(cfg, marshal, counter, Usable(lines))
  }

  lemma PipeSnoc(cfg: Config, marshal: Marshal, counter: map<string, nat>, lines: seq<Line>, line: Line)
    ensures PipeLines(cfg, marshal, true, counter, lines + [line]) ==
            PipeLine(cfg, marshal, true, PipeLines(cfg, marshal, true, counter, lines), line)
  {
    assert (lines + [line])[..|lines|] == lines;
  }

  lemma StagedNext(cfg: Config, marshal: Marshal, counter: map<string, nat>, front: seq<Line>, line: Line, lines: seq<Line>)
    requires cfg.filter != {} || counter != map[] || cfg.window != 0
    requires Staged(cfg, marshal, counter, front) && lines == front + [line]
    ensures Staged(cfg, marshal, counter, lines)
  {
    PipeSnoc(cfg, marshal, counter, front, line);
    LoopNext(cfg, marshal, counter, front, line);
  }

  lemma StagedNothing(cfg: Config, marshal: Marshal, counter: map<string, nat>)
    ensures Staged(cfg, marshal, counter, [])
  {
  }

  lemma {:induction false} AlwaysStaged(cfg: Config, marshal: Marshal, counter: map<string, nat>, lines: seq<Line>)
    requires cfg.filter != {} || counter != map[] || cfg.window != 0
    ensures Staged(cfg, marshal, counter, lines)
    decreases |lines|
  {
    if lines == [] {
      StagedNothing(cfg, marshal, counter);
    } else {
      AlwaysStaged(cfg, marshal, counter, lines[..|lines| - 1]);
      StagedNext(cfg, marshal, counter, lines[..|lines| - 1], lines[|lines| - 1], lines);
    }
  }

  /** For an upload file with any processing switched on, the one-pass loop is the three stages in turn. */
  lemma LoopIsThreeStages(cfg: Config, marshal: Marshal, counter: map<string, nat>, lines: seq<Line>)
    requires cfg.filter != {} || counter != map[] || cfg.window != 0
    ensures PipeLines(cfg, marshal, true, counter, lines) == ThreeStages(cfg, marshal, counter, Usable(lines))
  {
    AlwaysStaged(cfg, marshal, counter, lines);
  }

  function ValidTexts(lines: seq<Line>): seq<string> {
    if lines == [] then []
    else
      var line := lines[|lines| - 1];
      ValidTexts(lines[..|lines| - 1]) + if line.valid then [line.text] else []
  }

  /** A file that is not for upload, or an upload file with nothing to process, keeps its valid lines as they are. */
  lemma {:induction false} UntouchedExactly(cfg: Config, marshal: Marshal, toUpload: bool, counter: map<string, nat>,
                                            lines: seq<Line>)
    requires !toUpload || (cfg.filter == {} && counter == map[] && cfg.window == 0)
    ensures PipeLines(cfg, marshal, toUpload, counter, lines) == Pipe(counter, [], ValidTexts(lines))
  {
    if lines != [] {
      UntouchedExactly(cfg, marshal, toUpload, counter, lines[..|lines| - 1]);
    }
  }

  /** Every entry that reaches the deduplicator leaves its key, whether it is dropped or not. */
  lemma {:induction false} KeysExactly(window: nat, entries: seq<LogEntry>)
    ensures window == 0 ==> KeysOf(window, entries) == []
    ensures window > 0 ==> KeysOf(window, entries) == seq(|entries|, i requires 0 <= i < |entries| => DedupField(entries[i]))
  {
    if entries != [] {
      KeysExactly(window, entries[..|entries| - 1]);
    }
  }

  /** With deduplication off, what is kept is exactly what counting lets through. */
  lemma NoWindowKeepsCounted(cfg: Config, marshal: Marshal, counter: map<string, nat>, lines: seq<Line>)
    requires (cfg.filter != {} || counter != map[]) && cfg.window == 0
    ensures PipeLines(cfg, marshal, true, counter, lines).kept ==
            Marshalled(marshal, Stage(Unfiltered(Usable(lines), cfg.filter), counter).0)
  {
    LoopIsThreeStages(cfg, marshal, counter, lines);
    NothingDropped(Stage(Unfiltered(Usable(lines), cfg.filter), counter).0);
  }

  lemma {:induction false} NothingDropped(entries: seq<LogEntry>)
    ensures Deduped(0, entries) == entries
  {
    if entries != [] {
      NothingDropped(entries[..|entries| - 1]);
    }
  }

  // ---------------------------------------------------------------------------
  // When a count reaches the output

  predicate Has(entries: seq<LogEntry>, f: string) {
    exists i :: 0 <= i < |entries| && entries[i].filename == f
  }

  /** The position of the first entry of `f`, or the end. */
  function FirstOf(entries: seq<LogEntry>, f: string): (i: nat)
    ensures i <= |entries| && !Has(entries[..i], f)
    ensures i < |entries| ==> entries[i].filename == f
  {
    if entries == [] then 0
    else
      var front := entries[..|entries| - 1];
      var i := FirstOf(front, f);
      assert i <= |front| && entries[..i] == front[..i];
      if i < |front| || entries[|entries| - 1].filename == f then i
      else
        assert entries[..|entries|] == entries && !Has(entries, f) by { NotBehind(front, entries[|entries| - 1], f); }
        |entries|
  }

  lemma NotBehind(front: seq<LogEntry>, e: LogEntry, f: string)
    requires !Has(front[..|front|], f) && e.filename != f
    ensures !Has(front + [e], f)
  {
    assert front[..|front|] == front;
  }

  lemma HasSnoc(front: seq<LogEntry>, e: LogEntry, f: string)
    ensures Has(front + [e], f) <==> Has(front, f) || e.filename == f
  {
    var all := front + [e];
    assert all[|front|] == e && forall i | 0 <= i < |front| :: all[i] == front[i];
  }

  lemma {:induction false} OfNothing(entries: seq<LogEntry>, f: string)
    ensures Of(entries, f) == [] <==> !Has(entries, f)
  {
    if entries != [] {
      var front, e := entries[..|entries| - 1], entries[|entries| - 1];
      OfNothing(front, f);
      assert entries == front + [e];
      HasSnoc(front, e, f);
    }
  }

  /** The one entry of `f` is at `j`, and it is `x`. */
  predicate OnlyAt(entries: seq<LogEntry>, f: string, j: nat, x: LogEntry) {
    && j < |entries| && entries[j] == x && x.filename == f
    && forall k | 0 <= k < |entries| && k != j :: entries[k].filename != f
  }

  lemma {:induction false} DedupedHasNot(window: nat, entries: seq<LogEntry>, f: string)
    requires !Has(entries, f)
    ensures Of(Deduped(window, entries), f) == []
  {
    if entries != [] {
      var front, e := entries[..|entries| - 1], entries[|entries| - 1];
      assert entries == front + [e];
      HasSnoc(front, e, f);
      DedupedHasNot(window, front, f);
      DedupedOther(window, front, e, f);
    }
  }

  /** A source's only entry survives deduplication unless it is dropped at its turn. */
  lemma {:induction false} DedupedOnly(window: nat, entries: seq<LogEntry>, f: string, j: nat, x: LogEntry)
    requires OnlyAt(entries, f, j, x)
    ensures Of(Deduped(window, entries), f) == if Drops(window, KeysOf(window, entries[..j]), x) then [] else [x]
    decreases |entries|
  {
    var front, e := entries[..|entries| - 1], entries[|entries| - 1];
    assert entries == front + [e];
    if j == |front| {
      assert entries[..j] == front;
      DedupedLast(window, front, e, f);
    } else {
      assert front[..j] == entries[..j];
      DedupedOnly(window, front, f, j, x);
      DedupedOther(window, front, e, f);
    }
  }

  lemma DedupedOther(window: nat, front: seq<LogEntry>, e: LogEntry, f: string)
    requires e.filename != f
    ensures Of(Deduped(window, front + [e]), f) == Of(Deduped(window, front), f)
  {
    DedupedSnoc(window, front, e);
    OfSnoc(Deduped(window, front), e, f);
  }

  lemma DedupedLast(window: nat, front: seq<LogEntry>, e: LogEntry, f: string)
    requires !Has(front, f) && e.filename == f
    ensures Of(Deduped(window, front + [e]), f) == if Drops(window, KeysOf(window, front), e) then [] else [e]
  {
    DedupedHasNot(window, front, f);
    DedupedSnoc(window, front, e);
    OfSnoc(Deduped(window, front), e, f);
  }

  /** The first entry of a counted source, as counting passes it on. */
  function Passed(e: LogEntry, count: nat): LogEntry {
    if count == 1 then e else Tagged(e, count)
  }

  lemma {:induction false} StageHasNot(entries: seq<LogEntry>, counter: map<string, nat>, f: string)
    requires !Has(entries, f)
    ensures !Has(Stage(entries, counter).0, f)
    ensures f in counter ==> f in Stage(entries, counter).1 && Stage(entries, counter).1[f] == counter[f]
  {
    OfNothing(entries, f);
    StageExactly(entries, counter, f);
    OfNothing(Stage(entries, counter).0, f);
  }

  lemma OnlyAtSnoc(entries: seq<LogEntry>, e: LogEntry, f: string, j: nat, x: LogEntry)
    requires OnlyAt(entries, f, j, x) && e.filename != f
    ensures OnlyAt(entries + [e], f, j, x) && (entries + [e])[..j] == entries[..j]
  {
  }

  lemma OnlyAtEnd(entries: seq<LogEntry>, e: LogEntry, f: string)
    requires !Has(entries, f) && e.filename == f
    ensures OnlyAt(entries + [e], f, |entries|, e) && (entries + [e])[..|entries|] == entries
  {
    assert forall k | 0 <= k < |entries| :: (entries + [e])[k] == entries[k];
  }

  /**
   Counting leaves one entry of a counted source: its first one, right behind what counting
   leaves of the entries in front of it.
   */
  lemma {:induction false} StageLeavesOne(entries: seq<LogEntry>, counter: map<string, nat>, f: string, i: nat)
    requires f in counter && counter[f] >= 1 && i < |entries|
    requires entries[i].filename == f && !Has(entries[..i], f)
    requires counter[f] == 1 ==> forall k | i < k < |entries| :: entries[k].filename != f
    ensures var before := Stage(entries[..i], counter).0;
            OnlyAt(Stage(entries, counter).0, f, |before|, Passed(entries[i], counter[f])) &&
            Stage(entries, counter).0[..|before|] == before
    ensures counter[f] >= 2 ==> f in Stage(entries, counter).1 && Stage(entries, counter).1[f] == 0
    decreases |entries|
  {
    var front, e := entries[..|entries| - 1], entries[|entries| - 1];
    var (out, c) := Stage(front, counter);
    if i == |front| {
      assert entries[..i] == front;
      StageHasNot(front, counter, f);
      OnlyAtEnd(out, Passed(e, counter[f]), f);
    } else {
      assert front[..i] == entries[..i];
      StageLeavesOne(front, counter, f, i);
      if e.filename != f {
        OnlyAtSnoc(out, Count(e, c).1, f, |Stage(entries[..i], counter).0|, Passed(entries[i], counter[f]));
      }
    }
  }

  /** Is the entry an error whose key is still remembered from the keys before it? */
  ghost predicate Repeats(window: nat, keys: seq<string>, e: LogEntry) {
    window > 0 && e.severity == "error" && Remembered(window, keys, DedupField(e))
  }

  lemma DropsExactly(window: nat, keys: seq<string>, e: LogEntry, count: nat)
    ensures Drops(window, keys, Passed(e, count)) <==> Repeats(window, keys, e)
  {
    if window > 0 {
      SeenExactly(window, keys, DedupField(e));
    }
  }

  /** What reaches the output of a source that is counted at least once. */
  lemma OutputOfSource(window: nat, entries: seq<LogEntry>, counter: map<string, nat>, f: string)
    requires f in counter && Of(entries, f) != [] && counter[f] >= |Of(entries, f)|
    ensures var i := FirstOf(entries, f);
            && i < |entries| && entries[i] == Of(entries, f)[0]
            && Of(Deduped(window, Stage(entries, counter).0), f) ==
               if Repeats(window, KeysOf(window, Stage(entries[..i], counter).0), entries[i]) then []
               else [Passed(entries[i], counter[f])]
  {
    var i := FirstOf(entries, f);
    assert entries[..|entries|] == entries;
    OfNothing(entries, f);
    FirstIsFirst(entries, f, i);
    if counter[f] == 1 {
      OneIsAlone(entries, f, i);
    }
    StageLeavesOne(entries, counter, f, i);
    var before, x := Stage(entries[..i], counter).0, Passed(entries[i], counter[f]);
    DedupedOnly(window, Stage(entries, counter).0, f, |before|, x);
    DropsExactly(window, KeysOf(window, before), entries[i], counter[f]);
  }

  lemma {:induction false} FirstIsFirst(entries: seq<LogEntry>, f: string, i: nat)
    requires i < |entries| && entries[i].filename == f && !Has(entries[..i], f)
    ensures Of(entries, f) != [] && Of(entries, f)[0] == entries[i]
    decreases |entries|
  {
    var front := entries[..|entries| - 1];
    if i == |front| {
      assert entries[..i] == front;
      OfNothing(front, f);
    } else {
      assert front[..i] == entries[..i];
      FirstIsFirst(front, f, i);
    }
  }

  lemma {:induction false} OneIsAlone(entries: seq<LogEntry>, f: string, i: nat)
    requires |Of(entries, f)| <= 1 && i < |entries| && entries[i].filename == f
    ensures forall k | i < k < |entries| :: entries[k].filename != f
    decreases |entries|
  {
    var front := entries[..|entries| - 1];
    if i < |front| {
      OneIsAlone(front, f, i);
      OfNothing(front, f);
      assert Has(front, f);
      assert forall k | i < k < |front| :: front[k] == entries[k];
    }
  }

  lemma {:induction false} UsableIsAll(lines: seq<Line>)
    requires WellFormed(lines)
    ensures Usable(lines) == EntriesOf(lines)
  {
    if lines != [] {
      UsableIsAll(lines[..|lines| - 1]);
    }
  }

  /**
   From a well-formed device file to the lines written: the entries written for a counted
   source that is not filtered represent its occurrences exactly when it does not occur; or the
   header does not name it, an only entry carries no other count, and its first entry is no
   error whose key is remembered from the entries counting left in front of it.
   */
  lemma CountReachesOutputExactly(job: Job, cfg: Config, marshal: Marshal, counter: map<string, nat>, f: string)
    requires HasHeader(job) && ToUpload(job) && IsCounter(counter, job, cfg)
    requires WellFormed(job.lines[1..]) && f in cfg.toCount && f !in cfg.filter
    ensures var lines := job.lines[1..];
            var entries := Unfiltered(EntriesOf(lines), cfg.filter);
            var out := Deduped(cfg.window, Stage(entries, counter).0);
            var i := FirstOf(entries, f);
            && PipeLines(cfg, marshal, true, counter, lines).kept == Marshalled(marshal, out)
            && (Represented(Of(out, f)) == Occurrences(lines, f) <==>
                || i == |entries|
                || (&& job.lines[0].counted != f
                    && (Occurrences(lines, f) == 1 ==> Shown(entries[i]) == 1)
                    && !Repeats(cfg.window, KeysOf(cfg.window, Stage(entries[..i], counter).0), entries[i])))
  {
    var header, lines := job.lines[0], job.lines[1..];
    assert job.lines == [header] + lines;
    assert f in counter;
    UsableIsAll(lines);
    LoopIsThreeStages(cfg, marshal, counter, lines);
    OccurrencesCons(header, lines, f);
    WellFormedCounts(lines, f);
    UnfilteredOf(EntriesOf(lines), cfg.filter, f);
    OutputRepresents(cfg.window, Unfiltered(EntriesOf(lines), cfg.filter), counter, f,
                     Occurrences(lines, f), header.counted == f);
  }

  lemma OutputRepresents(window: nat, entries: seq<LogEntry>, counter: map<string, nat>, f: string, c: nat, extra: bool)
    requires f in counter && c == |Of(entries, f)| && counter[f] == c + if extra then 1 else 0
    ensures var i := FirstOf(entries, f);
            Represented(Of(Deduped(window, Stage(entries, counter).0), f)) == c <==>
            || i == |entries|
            || (&& !extra && (c == 1 ==> Shown(entries[i]) == 1)
                && !Repeats(window, KeysOf(window, Stage(entries[..i], counter).0), entries[i]))
  {
    var i := FirstOf(entries, f);
    assert entries[..|entries|] == entries;
    OfNothing(entries, f);
    if c == 0 {
      StageHasNot(entries, counter, f);
      DedupedHasNot(window, Stage(entries, counter).0, f);
      assert i == |entries|;
    } else {
      OutputOfSource(window, entries, counter, f);
      TagShowsCount(entries[i], counter[f]);
      RepresentedOne(Passed(entries[i], counter[f]));
    }
  }

  lemma CountedPair(first: LogEntry, e: LogEntry, counter: map<string, nat>)
    requires first.filename !in counter && e.filename in counter && counter[e.filename] == 2
    ensures Stage([first, e, e], counter).0 == [first, Tagged(e, 2)]
  {
    StageSnoc([], first, counter);
    StageSnoc([first], e, counter);
    StageSnoc([first, e], e, counter);
    assert [] + [first] == [first] && [first] + [e] == [first, e] && [first, e] + [e] == [first, e, e];
    assert [first] + [Tagged(e, 2)] == [first, Tagged(e, 2)];
  }

  lemma JustSeen(key: string)
    ensures SeenAfter(1, [key]) == {key}
  {
    assert [key][..0] == [];
  }

  lemma FirstKept(first: LogEntry)
    ensures Deduped(1, [first]) == [first] && KeysOf(1, [first]) == [DedupField(first)]
  {
    DedupedSnoc(1, [], first);
    assert [] + [first] == [first] && SeenAfter(1, []) == {};
  }

  lemma RepeatDropped(first: LogEntry, e: LogEntry)
    requires e.severity == "error" && DedupField(first) == DedupField(e)
    ensures Deduped(1, [first, e]) == [first]
  {
    FirstKept(first);
    JustSeen(DedupField(first));
    assert Drops(1, KeysOf(1, [first]), e);
    DedupedSnoc(1, [first], e);
    assert [first] + [e] == [first, e];
  }

  /**
   So counts are not conserved end to end: a source's only entry after counting -- the one
   that stands for all of them -- is dropped when it repeats an entry of another source.
   */
  lemma CountLostToDedup(first: LogEntry, e: LogEntry, counter: map<string, nat>)
    requires first.filename !in counter && e.filename in counter && counter[e.filename] == 2
    requires e.severity == "error" && DedupField(first) == DedupField(e)
    ensures var counted := Stage([first, e, e], counter).0;
            |Of(counted, e.filename)| == 1 && Of(Deduped(1, counted), e.filename) == []
  {
    var tagged := Tagged(e, 2);
    CountedPair(first, e, counter);
    RepeatDropped(first, tagged);
    OfSnoc([], first, e.filename);
    OfSnoc([first], tagged, e.filename);
    assert [] + [first] == [first] && [first] + [tagged] == [first, tagged];
  }
}
