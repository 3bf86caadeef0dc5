/**
 Compressing a collected log file, as in doMoveCompressFile of
 pkg/newlog/cmd/doMoveCompressFile.go: one loop filters, counts, deduplicates and writes the
 lines to numbered output files, starting a new file when the current one may get too big.
 */
module Compress {
  import opened Common
  import opened LogEntries
  import opened LogNames
  import opened Counter
  import opened Dedup

  const GZIP_FOOTER := 12

  datatype Config = Config(filter: set<string>, toCount: seq<string>, window: nat)

  type Marshal = LogEntry -> string

  // ---------------------------------------------------------------------------
  // The loop over the lines

  /** The counter, the keys that went through the deduplicator, and the lines kept so far. */
  datatype Pipe = Pipe(counter: map<string, nat>, keys: seq<string>, kept: seq<string>)

  predicate Drops(window: nat, keys: seq<string>, e: LogEntry) {
    window > 0 && e.severity == "error" && DedupField(e) in SeenAfter(window, keys)
  }

  function KeysNext(window: nat, keys: seq<string>, e: LogEntry): seq<string> {
    if window > 0 then keys + [DedupField(e)] else keys
  }

  /** One entry of an upload file: filter, then count, then deduplicate. */
  function PipeEntry(cfg: Config, marshal: Marshal, p: Pipe, e: LogEntry): Pipe {
    if e.filename in cfg.filter then p
    else
      var (use, e', counter') := Count(e, p.counter);
      if !use then p.(counter := counter')
      else
        Pipe(counter', KeysNext(cfg.window, p.keys, e'),
             if Drops(cfg.window, p.keys, e') then p.kept else p.kept + [marshal(e')])
  }

  predicate Processing(cfg: Config, counter: map<string, nat>) {
    cfg.filter != {} || counter != map[] || cfg.window != 0
  }

  function PipeLine(cfg: Config, marshal: Marshal, toUpload: bool, p: Pipe, line: Line): Pipe {
    if !line.valid then p
    else if !toUpload || !Processing(cfg, p.counter) then p.(kept := p.kept + [line.text])
    else if line.entry.None? then p
    else PipeEntry(cfg, marshal, p, line.entry.value)
  }

  function PipeLines(cfg: Config, marshal: Marshal, toUpload: bool, counter: map<string, nat>, lines: seq<Line>): Pipe {
    if lines == [] then Pipe(counter, [], [])
    else PipeLine(cfg, marshal, toUpload, PipeLines(cfg, marshal, toUpload, counter, lines[..|lines| - 1]), lines[|lines| - 1])
  }

  lemma PipeNext(cfg: Config, marshal: Marshal, toUpload: bool, counter: map<string, nat>, lines: seq<Line>, i: nat)
    requires i < |lines|
    ensures PipeLines(cfg, marshal, toUpload, counter, lines[..i + 1]) ==
            PipeLine(cfg, marshal, toUpload, PipeLines(cfg, marshal, toUpload, counter, lines[..i]), lines[i])
  {
    assert lines[..i + 1][..i] == lines[..i];
  }

  // ---------------------------------------------------------------------------
  // Splitting into output files

  datatype OutFile = OutFile(num: nat, lines: seq<string>)

  /** Would the next line, taken as incompressible, fill the file? */
  predicate Full(bytesWritten: nat, line: string) {
    bytesWritten + GZIP_FOOTER + |line| >= MAX_GZIP_FILE_SIZE
  }

  /** Write a line: to a new file under the next number if the last one would be full. */
  function AddLine(start: nat, outs: seq<OutFile>, bytesWritten: nat, line: string): (outs': seq<OutFile>)
    requires outs != []
    ensures outs' != []
  {
    if Full(bytesWritten, line) then outs + [OutFile(start + |outs|, [line])]
    else outs[..|outs| - 1] + [OutFile(outs[|outs| - 1].num, outs[|outs| - 1].lines + [line])]
  }

  /** `written(k)` is what the compressor has put out when the k-th kept line arrives. */
  function SplitFiles(start: nat, kept: seq<string>, written: nat -> nat): (outs: seq<OutFile>)
    ensures outs != []
  {
    if kept == [] then [OutFile(start, [])]
    else AddLine(start, SplitFiles(start, kept[..|kept| - 1], written), written(|kept| - 1), kept[|kept| - 1])
  }

  lemma SplitNext(start: nat, kept: seq<string>, line: string, written: nat -> nat)
    ensures SplitFiles(start, kept + [line], written) ==
            AddLine(start, SplitFiles(start, kept, written), written(|kept|), line)
  {
    assert (kept + [line])[..|kept|] == kept;
  }

  /** The kept lines that might not fit, given what the compressor has put out when each arrives. */
  function Overflowing(kept: seq<string>, written: nat -> nat): set<nat> {
    set k: nat | k < |kept| && written(k) + 12 + |kept[k]| >= 50000
  }

  lemma OverflowingNext(kept: seq<string>, line: string, written: nat -> nat)
    ensures Overflowing(kept + [line], written) ==
            Overflowing(kept, written) + if written(|kept|) + 12 + |line| >= 50000 then {|kept|} else {}
  {
    assert forall k: nat | k < |kept| :: (kept + [line])[k] == kept[k];
  }

  /** One file, and one more for each line that might not fit. */
  lemma {:induction false} SplitCount(start: nat, kept: seq<string>, written: nat -> nat)
    ensures |SplitFiles(start, kept, written)| == 1 + |Overflowing(kept, written)|
  {
    if kept != [] {
      var front, line := kept[..|kept| - 1], kept[|kept| - 1];
      SplitCount(start, front, written);
      OverflowingNext(front, line, written);
      assert kept == front + [line];
    }
  }

  function AllLines(outs: seq<OutFile>): seq<string> {
    if outs == [] then [] else AllLines(outs[..|outs| - 1]) + outs[|outs| - 1].lines
  }

  predicate Numbered(outs: seq<OutFile>, start: nat) {
    forall i | 0 <= i < |outs| :: outs[i].num == start + i
  }

  lemma AllLinesSnoc(outs: seq<OutFile>, o: OutFile)
    ensures AllLines(outs + [o]) == AllLines(outs) + o.lines
  {
    assert (outs + [o])[..|outs|] == outs;
  }

  lemma AddLineConserves(start: nat, outs: seq<OutFile>, bytesWritten: nat, line: string)
    requires outs != [] && Numbered(outs, start)
    ensures AllLines(AddLine(start, outs, bytesWritten, line)) == AllLines(outs) + [line]
    ensures Numbered(AddLine(start, outs, bytesWritten, line), start)
  {
    var front, last := outs[..|outs| - 1], outs[|outs| - 1];
    AllLinesSnoc(outs, OutFile(start + |outs|, [line]));
    AllLinesSnoc(front, OutFile(last.num, last.lines + [line]));
    assert AllLines(front) + (last.lines + [line]) == AllLines(outs) + [line];
  }

  /** The files hold the kept lines once each and in order, under consecutive numbers. */
  predicate Conserved(start: nat, kept: seq<string>, written: nat -> nat) {
    AllLines(SplitFiles(start, kept, written)) == kept && Numbered(SplitFiles(start, kept, written), start)
  }

  lemma {:induction false} SplitConserves(start: nat, kept: seq<string>, written: nat -> nat)
    ensures Conserved(start, kept, written)
    decreases |kept|
  {
    if kept == [] {
      OneEmptyFile(start, written);
    } else {
      SplitConserves(start, kept[..|kept| - 1], written);
      LastConserves(start, kept, kept[..|kept| - 1], kept[|kept| - 1], written);
    }
  }

  lemma LastConserves(start: nat, kept: seq<string>, front: seq<string>, line: string, written: nat -> nat)
    requires kept == front + [line] && Conserved(start, front, written)
    ensures Conserved(start, kept, written)
  {
    NextConserves(start, front, line, written);
  }

  lemma NextConserves(start: nat, kept: seq<string>, line: string, written: nat -> nat)
    requires Conserved(start, kept, written)
    ensures Conserved(start, kept + [line], written)
  {
    SplitNext(start, kept, line, written);
    AddLineConserves(start, SplitFiles(start, kept, written), written(|kept|), line);
  }

  lemma OneEmptyFile(start: nat, written: nat -> nat)
    ensures Conserved(start, [], written)
  {
    assert [OutFile(start, [])][..0] == [];
  }

  // ---------------------------------------------------------------------------
  // The compressor

  predicate Increasing(outs: seq<OutFile>) {
    forall i, j | 0 <= i < j < |outs| :: outs[i].num < outs[j].num
  }

  datatype Job = Job(lines: seq<Line>, isApp: bool, uuid: string, notUpload: bool)

  /** A file without a first line, or a device file whose first line is not JSON, is dropped. */
  predicate HasHeader(job: Job) {
    job.lines != [] && (job.isApp || job.lines[0].valid)
  }

  predicate ToUpload(job: Job) {
    !job.isApp && !job.notUpload
  }

  /** The counts the second pass starts from. */
  ghost predicate IsCounter(counter: map<string, nat>, job: Job, cfg: Config) {
    if ToUpload(job) then
      counter.Keys == (set f | f in cfg.toCount) && forall f | f in counter :: counter[f] == Occurrences(job.lines, f)
    else counter == map[]
  }

  // ---------------------------------------------------------------------------
  // Output names

  /** Whatever the app identifiers, two outputs with the same name have the same number. */
  lemma NameDeterminesNumber(isApp: bool, m: nat, uuid: string, notUpload: bool,
                             isApp': bool, n: nat, uuid': string, notUpload': bool)
    requires GzipFileName(isApp, m, uuid, notUpload) == GzipFileName(isApp', n, uuid', notUpload')
    ensures m == n
  {
    var a := Stem(isApp, m, uuid, notUpload);
    var b := Stem(isApp', n, uuid', notUpload');
    LastDotDecides(a, Itoa(m), b, Itoa(n));
    ItoaInjective(m, n);
  }

  /** The part of a name in front of the last dot before its number. */
  lemma Stem(isApp: bool, m: nat, uuid: string, notUpload: bool) returns (stem: string)
    ensures GzipFileName(isApp, m, uuid, notUpload) == stem + "." + Itoa(m) + ".gz"
  {
    if isApp {
      stem := "app." + (if notUpload then "skipTx." else "") + uuid + ".log";
    } else {
      stem := "dev.log";
    }
  }

  lemma NoDotAfter(a: string, d: string, k: nat)
    requires AllDigits(d) && |a| < k <= |a| + |d|
    ensures (a + "." + d)[k] != '.'
  {
    assert (a + "." + d)[k] == d[k - |a| - 1];
    assert IsDigit(d[k - |a| - 1]);
  }

  lemma LastDotDecides(a: string, d: string, b: string, e: string)
    requires AllDigits(d) && AllDigits(e) && a + "." + d + ".gz" == b + "." + e + ".gz"
    ensures d == e
  {
    var s, t := a + "." + d, b + "." + e;
    assert s == (s + ".gz")[..|s|] && t == (t + ".gz")[..|t|] && |s| == |t|;
    assert s[|a|] == '.' && t[|b|] == '.';
    if |a| < |b| {
      NoDotAfter(a, d, |b|);
    } else if |b| < |a| {
      NoDotAfter(b, e, |a|);
    } else {
      assert d == s[|a| + 1..] && e == t[|b| + 1..];
    }
  }

  ghost predicate IsName(s: string, n: nat) {
    exists isApp, uuid, notUpload :: s == GzipFileName(isApp, n, uuid, notUpload)
  }

  lemma NamesApart(s: string, m: nat, t: string, n: nat)
    requires IsName(s, m) && IsName(t, n) && m != n
    ensures s != t
  {
    var isApp, uuid, notUpload :| s == GzipFileName(isApp, m, uuid, notUpload);
    var isApp', uuid', notUpload' :| t == GzipFileName(isApp', n, uuid', notUpload');
    if s == t {
      NameDeterminesNumber(isApp, m, uuid, notUpload, isApp', n, uuid', notUpload');
    }
  }

  /** Every output has a name made from its number. */
  ghost predicate AllNamed(names: seq<string>, outs: seq<OutFile>) {
    |names| == |outs| && forall i | 0 <= i < |outs| :: IsName(names[i], outs[i].num)
  }

  predicate Distinct(names: seq<string>) {
    forall i, j | 0 <= i < j < |names| :: names[i] != names[j]
  }

  lemma NamesDistinct(names: seq<string>, outs: seq<OutFile>)
    requires AllNamed(names, outs) && Increasing(outs)
    ensures Distinct(names)
  {
    forall i, j | 0 <= i < j < |names| ensures names[i] != names[j] {
      assert outs[i].num < outs[j].num;
      NamesApart(names[i], outs[i].num, names[j], outs[j].num);
    }
  }

  /** The names of the outputs of one call. */
  function NamesOf(job: Job, outs: seq<OutFile>): seq<string> {
    seq(|outs|, i requires 0 <= i < |outs| => GzipFileName(job.isApp, outs[i].num, job.uuid, job.notUpload))
  }

  lemma NamesOfNamed(job: Job, outs: seq<OutFile>)
    ensures AllNamed(NamesOf(job, outs), outs)
  {
  }

  lemma AllNamedAppend(names: seq<string>, outs: seq<OutFile>, names': seq<string>, outs': seq<OutFile>)
    requires AllNamed(names, outs) && AllNamed(names', outs')
    ensures AllNamed(names + names', outs + outs')
  {
  }

  lemma IncreasingAppend(outs: seq<OutFile>, more: seq<OutFile>, start: nat)
    requires Increasing(outs) && Numbered(more, start) && forall i | 0 <= i < |outs| :: outs[i].num < start
    ensures Increasing(outs + more) && forall i | 0 <= i < |outs + more| :: (outs + more)[i].num < start + |more|
  {
  }

  class Compressor {
    var lastLogNum: nat
    // every output of this process, in the order written, and the names they were renamed to
    var outputs: seq<OutFile>
    var names: seq<string>

    /** Output numbers only grow, the names are made from them, and the next call starts above them. */
    ghost predicate Valid()
      reads this
    {
      && Increasing(outputs) && AllNamed(names, outputs)
      && forall i | 0 <= i < |outputs| :: outputs[i].num < lastLogNum
    }

    constructor ()
      ensures Valid() && outputs == [] && names == []
    {
      lastLogNum, outputs, names := 0, [], [];
    }

    /** The outputs of one call, all finalized under their names. */
    method Finalize(job: Job, start: nat, outs: seq<OutFile>)
      requires Valid() && Numbered(outs, start) && lastLogNum <= start
      modifies this
      ensures Valid() && lastLogNum == start + |outs|
      ensures outputs == old(outputs) + outs && names == old(names) + NamesOf(job, outs)
    {
      NamesOfNamed(job, outs);
      AllNamedAppend(names, outputs, NamesOf(job, outs), outs);
      IncreasingAppend(outputs, outs, start);
      lastLogNum := start + |outs|;
      outputs := outputs + outs;
      names := names + NamesOf(job, outs);
    }

    method CountFirst(job: Job, cfg: Config) returns (counter: map<string, nat>)
      ensures IsCounter(counter, job, cfg)
    {
      counter := map[];
      if ToUpload(job) && |cfg.toCount| != 0 {
        counter := CountLogsInFile(job.lines, cfg.toCount);
      }
    }

    /** The loop's variables hold what the lines so far make of the pipe. */
    ghost predicate InStep(dedup: Deduper, window: nat, counter: map<string, nat>, outs: seq<OutFile>, n: nat,
                           start: nat, written: nat -> nat, p: Pipe)
      reads dedup, dedup.queue
    {
      && dedup.Valid() && dedup.queue.Length == window && dedup.keys == p.keys && counter == p.counter
      && n == |p.kept| && outs == SplitFiles(start, p.kept, written)
    }

    /** One line: processed, and written if it is used. */
    method CompressLine(cfg: Config, marshal: Marshal, toUpload: bool, line: Line, counter: map<string, nat>, dedup: Deduper,
                        start: nat, outs: seq<OutFile>, n: nat, written: nat -> nat, ghost p: Pipe)
      returns (outs': seq<OutFile>, n': nat, counter': map<string, nat>)
      requires InStep(dedup, cfg.window, counter, outs, n, start, written, p)
      modifies dedup, dedup.queue
      ensures InStep(dedup, cfg.window, counter', outs', n', start, written, PipeLine(cfg, marshal, toUpload, p, line))
    {
      outs', n' := outs, n;
      var use, text;
      use, text, counter' := ProcessLine(cfg, marshal, toUpload, line, counter, dedup, p);
      if use {
        SplitNext(start, p.kept, text, written);
        outs' := WriteLine(start, outs, written(n), text);
        n' := n + 1;
      }
    }

    /** The loop over the lines below the header: what is kept, and how it is split. */
    method CompressLines(job: Job, cfg: Config, marshal: Marshal, counter: map<string, nat>, start: nat, written: nat -> nat)
      returns (outs: seq<OutFile>)
      requires HasHeader(job)
      ensures var kept := PipeLines(cfg, marshal, ToUpload(job), counter, job.lines[1..]).kept;
              outs == SplitFiles(start, kept, written) && |outs| == 1 + |Overflowing(kept, written)|
    {
      var dedup := new Deduper(cfg.window);
      var body := job.lines[1..];
      var toUpload := ToUpload(job);
      var current := counter;
      outs := [OutFile(start, [])];
      ghost var p := Pipe(counter, [], []);
      var n := 0;
      var i := 0;
      while i < |body|
        invariant 0 <= i <= |body| && fresh(dedup) && fresh(dedup.queue)
        invariant p == PipeLines(cfg, marshal, toUpload, counter, body[..i])
        invariant InStep(dedup, cfg.window, current, outs, n, start, written, p)
      {
        outs, n, current := CompressLine(cfg, marshal, toUpload, body[i], current, dedup, start, outs, n, written, p);
        PipeNext(cfg, marshal, toUpload, counter, body, i);
        p := PipeLine(cfg, marshal, toUpload, p, body[i]);
        i := i + 1;
      }
      assert body[..i] == body;
      SplitCount(start, p.kept, written);
    }

    method WriteLine(start: nat, outs: seq<OutFile>, bytesWritten: nat, text: string) returns (outs': seq<OutFile>)
      requires outs != []
      ensures outs' == AddLine(start, outs, bytesWritten, text)
    {
      var fileID := |outs| - 1;
      if bytesWritten + GZIP_FOOTER + |text| >= MAX_GZIP_FILE_SIZE {
        fileID := fileID + 1;
        outs' := outs + [OutFile(start + fileID, [text])];
      } else {
        outs' := outs[fileID := OutFile(outs[fileID].num, outs[fileID].lines + [text])];
      }
    }

    method ProcessLine(cfg: Config, marshal: Marshal, toUpload: bool, line: Line, counter: map<string, nat>, dedup: Deduper,
                       ghost p: Pipe)
      returns (use: bool, text: string, counter': map<string, nat>)
      requires dedup.Valid() && dedup.queue.Length == cfg.window && dedup.keys == p.keys && counter == p.counter
      modifies dedup, dedup.queue
      ensures dedup.Valid()
      ensures PipeLine(cfg, marshal, toUpload, p, line) ==
              Pipe(counter', dedup.keys, if use then p.kept + [text] else p.kept)
    {
      use, text, counter' := false, line.text, counter;
      if !line.valid {
        return;
      }
      if toUpload && (cfg.filter != {} || counter != map[] || cfg.window != 0) {
        if line.entry.Some? {
          use, text, counter' := ProcessEntry(cfg, marshal, line.entry.value, counter, dedup, p);
        }
        return;
      }
      use := true;
    }

    method ProcessEntry(cfg: Config, marshal: Marshal, e: LogEntry, counter: map<string, nat>, dedup: Deduper, ghost p: Pipe)
      returns (use: bool, text: string, counter': map<string, nat>)
      requires dedup.Valid() && dedup.queue.Length == cfg.window && dedup.keys == p.keys && counter == p.counter
      modifies dedup, dedup.queue
      ensures dedup.Valid()
      ensures PipeEntry(cfg, marshal, p, e) == Pipe(counter', dedup.keys, if use then p.kept + [text] else p.kept)
    {
      use, text, counter' := false, "", counter;
      if e.filename in cfg.filter {
        return;
      }
      var e';
      use, e', counter' := AddLogCount(e, counter);
      if !use {
        return;
      }
      if cfg.window > 0 {
        SeenExactly(cfg.window, p.keys, DedupField(e'));
      }
      use := dedup.DedupLogEntry(e');
      text := marshal(e');
    }

    /** A file with a header: its lines compressed and put out from number `start` on. */
    method CompressFrom(job: Job, start: nat, cfg: Config, marshal: Marshal, counter: map<string, nat>, written: nat -> nat)
      requires Valid() && HasHeader(job) && lastLogNum <= start
      modifies this
      ensures Valid()
      ensures var kept := PipeLines(cfg, marshal, ToUpload(job), counter, job.lines[1..]).kept;
              var outs := SplitFiles(start, kept, written);
              && outputs == old(outputs) + outs && names == old(names) + NamesOf(job, outs)
              && lastLogNum == start + |outs| && |outs| == 1 + |Overflowing(kept, written)|
    {
      var outs := CompressLines(job, cfg, marshal, counter, start, written);
      SplitConserves(start, PipeLines(cfg, marshal, ToUpload(job), counter, job.lines[1..]).kept, written);
      Finalize(job, start, outs);
    }

    method DoMoveCompressFile(job: Job, now: int, cfg: Config, marshal: Marshal, written: nat -> nat)
      returns (counter: map<string, nat>)
      requires Valid()
      modifies this
      ensures Valid() && Distinct(names)
      ensures IsCounter(counter, job, cfg)
      ensures job.lines == [] || (!job.isApp && !job.lines[0].valid) ==>
                outputs == old(outputs) && names == old(names) && lastLogNum == old(lastLogNum)
      ensures job.lines != [] && (job.isApp || job.lines[0].valid) ==>
                var start := if now < old(lastLogNum) then old(lastLogNum) + 1 else now;
                var toUpload := !job.isApp && !job.notUpload;
                var kept := PipeLines(cfg, marshal, toUpload, counter, job.lines[1..]).kept;
                var outs := SplitFiles(start, kept, written);
                && outputs == old(outputs) + outs && names == old(names) + NamesOf(job, outs)
                && lastLogNum == start + |outs| && |outs| == 1 + |Overflowing(kept, written)|
    {
      var timeNowNum := now;
      if timeNowNum < lastLogNum {
        timeNowNum := lastLogNum + 1;
      }
      counter := CountFirst(job, cfg);
      if !HasHeader(job) {
        NamesDistinct(names, outputs);
        return;
      }
      CompressFrom(job, timeNowNum, cfg, marshal, counter, written);
      NamesDistinct(names, outputs);
    }
  }
}
