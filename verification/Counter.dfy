/**
 Counting repeated log entries, as in pkg/newlog/cmd/counter.go: a first pass over the file
 counts the entries of selected sources, and the second pass lets one entry of each such
 source through, tagged with the count.
 */
module Counter {
  import opened Common
  import opened LogEntries
  import opened LogNames

  /**
   A line of a collected log file, trimmed.  `valid` says it is non-empty JSON, `counted` is the
   source the counting pass reads from it, and `entry` what the second pass decodes, if it can.
   */
  datatype Line = Line(text: string, valid: bool, counted: string, entry: Option<LogEntry>)

  function Occurrences(lines: seq<Line>, f: string): nat {
    if lines == [] then 0
    else Occurrences(lines[..|lines| - 1], f) + if lines[|lines| - 1].counted == f then 1 else 0
  }

  /** The count of each selected source over all lines, the metadata line included. */
  method CountLogsInFile(lines: seq<Line>, toCount: seq<string>) returns (counter: map<string, nat>)
    ensures counter.Keys == set f | f in toCount
    ensures forall f | f in toCount :: counter[f] == Occurrences(lines, f)
  {
    counter := map f | f in toCount :: 0;
    var i := 0;
    while i < |lines|
      invariant 0 <= i <= |lines|
      invariant counter.Keys == set f | f in toCount
      invariant forall f | f in toCount :: counter[f] == Occurrences(lines[..i], f)
    {
      assert lines[..i + 1][..i] == lines[..i];
      var f := lines[i].counted;
      if f in counter {
        counter := counter[f := counter[f] + 1];
      }
      i := i + 1;
    }
    assert lines[..i] == lines;
  }

  function Tagged(e: LogEntry, count: nat): LogEntry {
    e.(tags := e.tags["count" := Itoa(count)])
  }

  /** Whether the entry is used, the entry as passed on, and the counter afterwards. */
  function Count(e: LogEntry, counter: map<string, nat>): (bool, LogEntry, map<string, nat>) {
    if e.filename !in counter then (true, e, counter)
    else if counter[e.filename] == 0 then (false, e, counter)
    else if counter[e.filename] == 1 then (true, e, counter)
    else (true, Tagged(e, counter[e.filename]), counter[e.filename := 0])
  }

  method AddLogCount(e: LogEntry, counter: map<string, nat>)
    returns (use: bool, e': LogEntry, counter': map<string, nat>)
    ensures (use, e', counter') == Count(e, counter)
  {
    use, e', counter' := true, e, counter;
    if e.filename !in counter {
      return;
    }
    var count := counter[e.filename];
    if count == 0 {
      use := false;
      return;
    }
    if count == 1 {
      return;
    }
    e' := e.(tags := e.tags["count" := Itoa(count)]);
    counter' := counter[e.filename := 0];
  }

  /** The counting stage over a sequence of entries: what it passes on, and the counter it leaves. */
  function Stage(entries: seq<LogEntry>, counter: map<string, nat>): (seq<LogEntry>, map<string, nat>) {
    if entries == [] then ([], counter)
    else
      var (out, c) := Stage(entries[..|entries| - 1], counter);
      var (use, e, c') := Count(entries[|entries| - 1], c);
      (if use then out + [e] else out, c')
  }

  function Of(entries: seq<LogEntry>, f: string): seq<LogEntry> {
    if entries == [] then []
    else Of(entries[..|entries| - 1], f) + if entries[|entries| - 1].filename == f then [entries[|entries| - 1]] else []
  }

  lemma OfSnoc(entries: seq<LogEntry>, e: LogEntry, f: string)
    ensures Of(entries + [e], f) == Of(entries, f) + if e.filename == f then [e] else []
  {
    assert (entries + [e])[..|entries|] == entries;
  }

  /** What the stage leaves of the entries of one source, given the source's initial count. */
  function Survivors(mine: seq<LogEntry>, counter: map<string, nat>, f: string): seq<LogEntry> {
    if f !in counter || counter[f] == 1 || mine == [] then mine
    else if counter[f] == 0 then []
    else [Tagged(mine[0], counter[f])]
  }

  /** The counter after entries `mine` of source `f` have gone through the stage. */
  predicate CounterFits(c: map<string, nat>, counter: map<string, nat>, f: string, mine: seq<LogEntry>) {
    && (f in c <==> f in counter)
    && (f in counter ==> c[f] == if counter[f] >= 2 && mine != [] then 0 else counter[f])
  }

  lemma OtherEntry(e: LogEntry, c: map<string, nat>, counter: map<string, nat>, f: string, mine: seq<LogEntry>)
    requires CounterFits(c, counter, f, mine) && e.filename != f
    ensures CounterFits(Count(e, c).2, counter, f, mine) && Count(e, c).1.filename != f
  {
  }

  lemma OwnEntry(e: LogEntry, c: map<string, nat>, counter: map<string, nat>, f: string, mine: seq<LogEntry>)
    requires CounterFits(c, counter, f, mine) && e.filename == f
    ensures CounterFits(Count(e, c).2, counter, f, mine + [e]) && Count(e, c).1.filename == f
    ensures Survivors(mine + [e], counter, f) ==
            Survivors(mine, counter, f) + if Count(e, c).0 then [Count(e, c).1] else []
  {
  }

  /**
   A source that is not counted, or counted once, passes unchanged; one counted c times, c at
   least 2, is reduced to its first entry tagged c; one counted zero times disappears.
   */
  lemma {:induction false} StageExactly(entries: seq<LogEntry>, counter: map<string, nat>, f: string)
    ensures Of(Stage(entries, counter).0, f) == Survivors(Of(entries, f), counter, f)
    ensures CounterFits(Stage(entries, counter).1, counter, f, Of(entries, f))
  {
    if entries != [] {
      var front, e := entries[..|entries| - 1], entries[|entries| - 1];
      StageExactly(front, counter, f);
      var out, c := Stage(front, counter).0, Stage(front, counter).1;
      OfSnoc(out, Count(e, c).1, f);
      if e.filename == f {
        OwnEntry(e, c, counter, f, Of(front, f));
      } else {
        OtherEntry(e, c, counter, f, Of(front, f));
      }
    }
  }

  // ---------------------------------------------------------------------------
  // The counts a reader of the log sees

  /** The number a reader takes from an entry: its count tag, or one without a numeric tag. */
  function Shown(e: LogEntry): nat {
    if "count" in e.tags && e.tags["count"] != "" && AllDigits(e.tags["count"]) then Value(e.tags["count"]) else 1
  }

  function Represented(entries: seq<LogEntry>): nat {
    if entries == [] then 0 else Represented(entries[..|entries| - 1]) + Shown(entries[|entries| - 1])
  }

  lemma RepresentedOne(e: LogEntry)
    ensures Represented([e]) == Shown(e)
  {
    assert [e][..0] == [];
  }

  /** The tag written reads back as the count, whatever was there before. */
  lemma TagShowsCount(e: LogEntry, count: nat)
    ensures Shown(Tagged(e, count)) == count
  {
    ValueOfItoa(count);
  }

  /**
   What is left of a source represents the entries that came in exactly when there were none;
   or they pass unchanged and already represented their number; or the count is that number.
   */
  lemma CountConservedExactly(entries: seq<LogEntry>, counter: map<string, nat>, f: string)
    ensures var mine, left := Of(entries, f), Of(Stage(entries, counter).0, f);
            Represented(left) == |mine| <==>
            || mine == []
            || if f !in counter || counter[f] == 1 then Represented(mine) == |mine| else counter[f] == |mine|
  {
    var mine := Of(entries, f);
    StageExactly(entries, counter, f);
    if mine != [] && f in counter && counter[f] >= 2 {
      TagShowsCount(mine[0], counter[f]);
      RepresentedOne(Tagged(mine[0], counter[f]));
    }
  }

  /** An entry that comes with a count tag of its own is passed on with it, though it is one entry. */
  lemma OldTagMisread(e: LogEntry)
    requires "count" in e.tags && e.tags["count"] == "5"
    ensures Represented(Of(Stage([e], map[e.filename := 1]).0, e.filename)) == 5 && |Of([e], e.filename)| == 1
  {
    StageExactly([e], map[e.filename := 1], e.filename);
    OfSnoc([], e, e.filename);
    assert [] + [e] == [e];
    RepresentedOne(e);
    assert "5"[..0] == "";
  }

  /** Entries that show one each represent their number. */
  lemma {:induction false} PlainEntries(entries: seq<LogEntry>)
    requires forall e | e in entries :: Shown(e) == 1
    ensures Represented(entries) == |entries|
  {
    if entries != [] {
      assert entries[|entries| - 1] in entries;
      PlainEntries(entries[..|entries| - 1]);
    }
  }

  // ---------------------------------------------------------------------------
  // The filter in front of the counting stage

  function Unfiltered(entries: seq<LogEntry>, filter: set<string>): seq<LogEntry> {
    if entries == [] then []
    else
      var e := entries[|entries| - 1];
      Unfiltered(entries[..|entries| - 1], filter) + if e.filename in filter then [] else [e]
  }

  lemma UnfilteredSnoc(entries: seq<LogEntry>, e: LogEntry, filter: set<string>)
    ensures Unfiltered(entries + [e], filter) == Unfiltered(entries, filter) + if e.filename in filter then [] else [e]
  {
    assert (entries + [e])[..|entries|] == entries;
  }

  /** A source is filtered as a whole or not at all. */
  lemma {:induction false} UnfilteredOf(entries: seq<LogEntry>, filter: set<string>, f: string)
    ensures Of(Unfiltered(entries, filter), f) == if f in filter then [] else Of(entries, f)
  {
    if entries != [] {
      var front, e := entries[..|entries| - 1], entries[|entries| - 1];
      UnfilteredOf(front, filter, f);
      OfSnoc(Unfiltered(front, filter), e, f);
      if e.filename in filter {
        assert Unfiltered(front, filter) + [] == Unfiltered(front, filter);
      }
    }
  }

  // ---------------------------------------------------------------------------
  // Well-formed files

  function EntriesOf(lines: seq<Line>): seq<LogEntry> {
    if lines == [] then []
    else EntriesOf(lines[..|lines| - 1]) +
         match lines[|lines| - 1].entry case None => [] case Some(e) => [e]
  }

  /** Every line is an entry and is counted under its own source. */
  predicate WellFormed(lines: seq<Line>) {
    forall i | 0 <= i < |lines| ::
      lines[i].valid && lines[i].entry.Some? && lines[i].counted == lines[i].entry.value.filename
  }

  lemma {:induction false} WellFormedCounts(lines: seq<Line>, f: string)
    requires WellFormed(lines)
    ensures Occurrences(lines, f) == |Of(EntriesOf(lines), f)|
  {
    if lines != [] {
      var front, e := lines[..|lines| - 1], lines[|lines| - 1].entry.value;
      WellFormedCounts(front, f);
      OfSnoc(EntriesOf(front), e, f);
    }
  }

  /** What filtering and counting leave of a source that occurs `c` times and was counted right. */
  function Reduced(mine: seq<LogEntry>, c: nat): seq<LogEntry>
    requires c > 0 ==> mine != []
  {
    if c == 0 then [] else if c == 1 then mine else [Tagged(mine[0], c)]
  }

  /**
   Over a well-formed body, a counted source that is not filtered is left with nothing if it
   does not occur, with its entry as it is if it occurs once, and else with one entry tagged
   with its count.
   */
  lemma WellFormedReduces(lines: seq<Line>, counter: map<string, nat>, filter: set<string>, f: string)
    requires WellFormed(lines) && f !in filter && f in counter && counter[f] == Occurrences(lines, f)
    ensures Occurrences(lines, f) == |Of(EntriesOf(lines), f)|
    ensures Of(Stage(Unfiltered(EntriesOf(lines), filter), counter).0, f) ==
            Reduced(Of(EntriesOf(lines), f), Occurrences(lines, f))
  {
    WellFormedCounts(lines, f);
    UnfilteredOf(EntriesOf(lines), filter, f);
    StageExactly(Unfiltered(EntriesOf(lines), filter), counter, f);
  }

  /**
   The counting pass reads the header line too.  What is left of a source represents its
   occurrences exactly when it does not occur, or the header does not name it and an entry
   that is passed on unchanged does not already carry another count.
   */
  lemma WellFormedConserves(header: Line, lines: seq<Line>, counter: map<string, nat>, filter: set<string>, f: string)
    requires WellFormed(lines) && f !in filter && f in counter && counter[f] == Occurrences([header] + lines, f)
    ensures var mine := Of(EntriesOf(lines), f);
            Represented(Of(Stage(Unfiltered(EntriesOf(lines), filter), counter).0, f)) == Occurrences(lines, f) <==>
            mine == [] || (header.counted != f && (|mine| == 1 ==> Shown(mine[0]) == 1))
  {
    var mine := Of(EntriesOf(lines), f);
    OccurrencesCons(header, lines, f);
    WellFormedCounts(lines, f);
    UnfilteredOf(EntriesOf(lines), filter, f);
    CountConservedExactly(Unfiltered(EntriesOf(lines), filter), counter, f);
    if |mine| == 1 {
      RepresentedOne(mine[0]);
      assert mine == [mine[0]];
    }
  }

  lemma {:induction false} OccurrencesCons(header: Line, lines: seq<Line>, f: string)
    ensures Occurrences([header] + lines, f) == Occurrences(lines, f) + if header.counted == f then 1 else 0
  {
    var all := [header] + lines;
    if lines == [] {
      assert all[..0] == [];
    } else {
      OccurrencesCons(header, lines[..|lines| - 1], f);
      assert all[..|all| - 1] == [header] + lines[..|lines| - 1];
    }
  }
}
