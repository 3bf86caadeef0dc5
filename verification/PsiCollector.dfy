/**
 The collector loop of pkg/pillar/agentlog/memprofile.go: how its adaptive threshold and the
 trimming of PsiStats bound the file and keep the most recent lines, over every run.
 */
module PsiCollector {
  import opened Common
  import opened PsiStats
  import opened Ring

  /** The statistics file, the current threshold, and whether the collector gave up. */
  datatype Stats = Stats(lines: seq<string>, threshold: nat, stopped: bool)

  function Opened(header: string): Stats {
    Stats([header], LINE_AVG * DAY, false)
  }

  /** A tick up to the threshold adjustment, before the new line is written. */
  function Adjusted(header: string, s: Stats): Stats {
    var (file, verdict) := Managed(header, s.lines, s.threshold, KEEP);
    match verdict
    case TooHigh => s.(stopped := true)
    case Fine => s.(lines := file)
    case Adjust(average) => Stats(file, if average > 0 then average * DAY else s.threshold, s.stopped)
  }

  /** The collector after writing `data`, one line a tick. */
  function Collected(header: string, data: seq<string>): Stats {
    if data == [] then Opened(header)
    else
      var s := Collected(header, data[..|data| - 1]);
      var a := Adjusted(header, s);
      if s.stopped then s
      else if a.stopped then a
      else a.(lines := a.lines + [data[|data| - 1]])
  }

  class Collector {
    const file: StatFile
    var thresholdSize: nat

    constructor (header: string)
      ensures fresh(file) && Stats(file.lines, thresholdSize, false) == Opened(header)
    {
      file := new StatFile();
      thresholdSize := LINE_AVG * DAY;
      new;
      file.WriteString(header);
    }

    /** One tick: manage the file, adjust the threshold, write the line. */
    method Tick(header: string, line: string) returns (failed: bool)
      modifies this, file
      ensures var a := Adjusted(header, Stats(old(file.lines), old(thresholdSize), false));
              Stats(file.lines, thresholdSize, failed) == if a.stopped then a else a.(lines := a.lines + [line])
    {
      var verdict := file.ManageStatFileSize(header, thresholdSize, KEEP);
      if verdict == TooHigh {
        return true;
      }
      if verdict.Adjust? && verdict.average > 0 {
        thresholdSize := verdict.average * LINES_PER_HOUR * 24;
      }
      file.WriteString(line);
      return false;
    }
  }

  /** The collector's loop over the ticks it lives through. */
  method MemoryPSICollector(header: string, data: seq<string>) returns (c: Collector, failed: bool)
    ensures Stats(c.file.lines, c.thresholdSize, failed) == Collected(header, data)
  {
    c := new Collector(header);
    failed := false;
    var n := 0;
    while n < |data|
      invariant 0 <= n <= |data| && fresh(c) && fresh(c.file)
      invariant Stats(c.file.lines, c.thresholdSize, failed) == Collected(header, data[..n])
    {
      assert data[..n + 1][..n] == data[..n];
      if !failed {
        failed := c.Tick(header, data[n]);
      }
      n := n + 1;
    }
    assert data[..n] == data;
  }

  // ---------------------------------------------------------------------------
  // The bound

  /** What every tick finds: normal lines, a threshold in range, and at most one line above it. */
  predicate Healthy(header: string, s: Stats) {
    && !s.stopped
    && s.lines != [] && s.lines[0] == header && (forall l | l in s.lines :: NormalLine(l))
    && LINE_MIN * DAY <= s.threshold <= LINE_MAX * DAY
    && Size(s.lines) <= s.threshold + LINE_MAX
  }

  /** A day of lines of the average size is room enough for the file that average was taken from. */
  lemma AverageCovers(size: nat, lines: nat)
    requires 0 < lines <= KEEP + 2 && LINE_MIN * lines <= size <= LINE_MAX * lines
    ensures LINE_MIN <= size / lines <= LINE_MAX
    ensures size + 1000 <= size / lines * DAY
  {
    var avg := size / lines;
    assert size == avg * lines + size % lines;
    AtLeast(size, lines, LINE_MIN);
    AtMost(size, lines, LINE_MAX);
    assert avg * lines <= avg * (KEEP + 2) by {
      MulMono(avg, lines, KEEP + 2);
    }
  }

  lemma AtLeast(size: nat, lines: nat, low: nat)
    requires lines > 0 && low * lines <= size
    ensures low <= size / lines
  {
    if size / lines < low {
      MulMono(lines, size / lines + 1, low);
    }
  }

  lemma AtMost(size: nat, lines: nat, high: nat)
    requires lines > 0 && size <= high * lines
    ensures size / lines <= high
  {
    if size / lines > high {
      MulMono(lines, high + 1, size / lines);
    }
  }

  /** How much trimming saves: all but the first of the dropped lines. */
  lemma TrimmedSize(header: string, file: seq<string>, keep: nat)
    requires |header| == 91 && 0 < keep <= |file| && file[0] == header && forall l | l in file :: NormalLine(l)
    ensures |file| == keep ==> Size([header] + Last(file, keep)) == Size(file) + 92
    ensures |file| > keep ==> Size([header] + Last(file, keep)) + LINE_MIN * (|file| - keep - 1) <= Size(file)
  {
    assert Size([header]) == 92 by { assert [header][..0] == []; }
    SizeConcat([header], Last(file, keep));
    var dropped := file[..|file| - keep];
    assert file == dropped + Last(file, keep);
    SizeConcat(dropped, Last(file, keep));
    if |file| > keep {
      DroppedSize(header, dropped);
    } else {
      assert dropped == [];
    }
  }

  lemma DroppedSize(header: string, dropped: seq<string>)
    requires dropped != [] && dropped[0] == header && forall l | l in dropped :: NormalLine(l)
    ensures Size([header]) + LINE_MIN * (|dropped| - 1) <= Size(dropped)
  {
    var rest := dropped[1..];
    forall l | l in rest ensures NormalLine(l) {
      assert l in dropped;
    }
    SizeBounds(rest);
    SizeConcat([header], rest);
    assert dropped == [header] + rest;
    assert Size(dropped) == Size([header]) + Size(rest) && |rest| == |dropped| - 1;
  }

  lemma AdjustedIsBounded(header: string, s: Stats)
    requires |header| == 91 && Healthy(header, s)
    ensures var a := Adjusted(header, s);
            && Healthy(header, a)
            && Size(a.lines) <= a.threshold
  {
    SizeBounds(s.lines);
    if Size(s.lines) >= s.threshold {
      BigFileHasLines(header, s.lines, s.threshold, KEEP);
      if |s.lines| < KEEP {
        AverageCovers(Size(s.lines), |s.lines|);
      } else {
        TrimIsBounded(header, s);
      }
    }
  }

  lemma TrimIsBounded(header: string, s: Stats)
    requires |header| == 91 && Healthy(header, s) && Size(s.lines) >= s.threshold && |s.lines| >= KEEP
    ensures var trimmed := [header] + Last(s.lines, KEEP);
            && (forall l | l in trimmed :: NormalLine(l))
            && (Size(trimmed) > s.threshold ==>
                  var average := Size(s.lines) / |s.lines|;
                  LINE_MIN <= average <= LINE_MAX && Size(trimmed) + 500 <= average * DAY)
  {
    SizeBounds(s.lines);
    TrimmedSize(header, s.lines, KEEP);
    var trimmed := [header] + Last(s.lines, KEEP);
    assert forall l | l in trimmed :: l == header || l in s.lines;
    if Size(trimmed) > s.threshold {
      AverageCovers(Size(s.lines), |s.lines|);
    }
  }

  /**
   In every run whose lines have a normal size, the guard never stops the collector, and after
   every adjustment the file is no larger than the threshold, itself at most 104 bytes a line
   for a day of lines.
   */
  lemma {:induction false} FileAlwaysBounded(header: string, data: seq<string>)
    requires |header| == 91 && forall l | l in data :: NormalLine(l)
    ensures Healthy(header, Collected(header, data))
    ensures var a := Adjusted(header, Collected(header, data));
            !a.stopped && Size(a.lines) <= a.threshold <= LINE_MAX * DAY
  {
    if data == [] {
      assert Size([header]) == 92 by { assert [header][..0] == []; }
    } else {
      var front := data[..|data| - 1];
      FileAlwaysBounded(header, front);
      var a := Adjusted(header, Collected(header, front));
      AdjustedIsBounded(header, Collected(header, front));
      SizeConcat(a.lines, [data[|data| - 1]]);
      assert data[|data| - 1] in data;
      assert Size([data[|data| - 1]]) <= LINE_MAX by { assert [data[|data| - 1]][..0] == []; }
    }
    AdjustedIsBounded(header, Collected(header, data));
  }

  lemma HeaderSize()
    ensures |PSI_HEADER| == 91
  {
  }

  // ---------------------------------------------------------------------------
  // What the file holds

  /**
   The header and the latest lines: all of them, or at least the last 23 hours.  A second
   header follows the first while no line has been dropped yet.
   */
  predicate HoldsLatest(header: string, lines: seq<string>, data: seq<string>, dropped: nat, twice: bool) {
    && dropped <= |data| && (dropped > 0 ==> |data| - dropped >= KEEP)
    && (twice ==> dropped == 0 && |data| >= KEEP - 1)
    && lines == (if twice then [header, header] else [header]) + data[dropped..]
  }

  /** Trimming keeps a suffix, provided a line has been written since a second header appeared. */
  lemma TrimKeepsLatest(header: string, lines: seq<string>, data: seq<string>, dropped: nat, twice: bool)
    returns (dropped': nat, twice': bool)
    requires HoldsLatest(header, lines, data, dropped, twice) && |lines| >= KEEP
    requires twice ==> |data| >= KEEP
    ensures HoldsLatest(header, [header] + Last(lines, KEEP), data, dropped', twice')
  {
    if |lines| == KEEP {
      dropped', twice' := 0, true;
      assert dropped == 0 && Last(lines, KEEP) == lines;
      assert [header] + lines == [header, header] + data[0..];
    } else {
      dropped', twice' := |data| - KEEP, false;
      assert Last(lines, KEEP) == data[|data| - KEEP..];
    }
  }

  predicate Trims(header: string, s: Stats) {
    !GuardFires(header, s.threshold, KEEP) && Size(s.lines) >= s.threshold && |s.lines| >= KEEP
  }

  lemma AdjustedLines(header: string, s: Stats)
    ensures Adjusted(header, s).lines == if Trims(header, s) then [header] + Last(s.lines, KEEP) else s.lines
  {
  }

  lemma AdjustKeepsLatest(header: string, s: Stats, data: seq<string>, dropped: nat, twice: bool)
    returns (dropped': nat, twice': bool)
    requires HoldsLatest(header, s.lines, data, dropped, twice) && (twice ==> |data| >= KEEP)
    ensures HoldsLatest(header, Adjusted(header, s).lines, data, dropped', twice')
  {
    AdjustedLines(header, s);
    if Trims(header, s) {
      dropped', twice' := TrimKeepsLatest(header, s.lines, data, dropped, twice);
    } else {
      dropped', twice' := dropped, twice;
    }
  }

  lemma WriteKeepsLatest(header: string, lines: seq<string>, data: seq<string>, dropped: nat, twice: bool, line: string)
    requires HoldsLatest(header, lines, data, dropped, twice)
    ensures HoldsLatest(header, lines + [line], data + [line], dropped, twice)
  {
    assert (data + [line])[dropped..] == data[dropped..] + [line];
  }

  lemma OneMoreLine(header: string, front: seq<string>, line: string)
    requires |header| == 91 && (forall l | l in front :: NormalLine(l))
    ensures Collected(header, front + [line]).lines == Adjusted(header, Collected(header, front)).lines + [line]
  {
    FileAlwaysBounded(header, front);
    assert (front + [line])[..|front|] == front;
  }

  lemma TickKeepsLatest(header: string, s: Stats, front: seq<string>, line: string, dropped: nat, twice: bool)
    returns (dropped': nat, twice': bool)
    requires HoldsLatest(header, s.lines, front, dropped, twice) && (twice ==> |front| >= KEEP)
    ensures HoldsLatest(header, Adjusted(header, s).lines + [line], front + [line], dropped', twice')
    ensures twice' ==> |front| + 1 >= KEEP
  {
    dropped', twice' := AdjustKeepsLatest(header, s, front, dropped, twice);
    WriteKeepsLatest(header, Adjusted(header, s).lines, front, dropped', twice', line);
  }

  /** The file is at every moment the header followed by the latest lines collected. */
  lemma {:induction false} KeepsLatestLines(header: string, data: seq<string>)
    returns (dropped: nat, twice: bool)
    requires |header| == 91 && forall l | l in data :: NormalLine(l)
    ensures HoldsLatest(header, Collected(header, data).lines, data, dropped, twice)
    ensures twice ==> |data| >= KEEP
  {
    if data == [] {
      dropped, twice := 0, false;
    } else {
      var front, line := data[..|data| - 1], data[|data| - 1];
      var dropped0, twice0 := KeepsLatestLines(header, front);
      assert data == front + [line];
      dropped, twice := NextKeepsLatest(header, data, front, line, dropped0, twice0);
    }
  }

  lemma NextKeepsLatest(header: string, data: seq<string>, front: seq<string>, line: string, dropped: nat, twice: bool)
    returns (dropped': nat, twice': bool)
    requires |header| == 91 && (forall l | l in front :: NormalLine(l)) && data == front + [line]
    requires HoldsLatest(header, Collected(header, front).lines, front, dropped, twice) && (twice ==> |front| >= KEEP)
    ensures HoldsLatest(header, Collected(header, data).lines, data, dropped', twice') && (twice' ==> |data| >= KEEP)
  {
    OneMoreLine(header, front, line);
    dropped', twice' := TickKeepsLatest(header, Collected(header, front), front, line, dropped, twice);
  }

  // ---------------------------------------------------------------------------
  // A run with a second header

  const FIRST_THRESHOLD := LINE_AVG * DAY

  /** As long as the file is below the first threshold when a tick comes, lines are only appended. */
  lemma {:induction false} OnlyAppends(header: string, data: seq<string>)
    requires |header| == 91 && (data != [] ==> Size([header] + data[..|data| - 1]) < FIRST_THRESHOLD)
    ensures Collected(header, data) == Stats([header] + data, FIRST_THRESHOLD, false)
  {
    if data == [] {
      assert [header] + data == [header];
    } else {
      var front, line := data[..|data| - 1], data[|data| - 1];
      if front != [] {
        ShorterIsSmaller(header, front);
      }
      OnlyAppends(header, front);
      AppendsTo(header, data, front, line);
    }
  }

  lemma AppendsTo(header: string, data: seq<string>, front: seq<string>, line: string)
    requires |header| == 91 && Size([header] + front) < FIRST_THRESHOLD && data == front + [line]
    requires Collected(header, front) == Stats([header] + front, FIRST_THRESHOLD, false)
    ensures Collected(header, data) == Stats([header] + data, FIRST_THRESHOLD, false)
  {
    AppendsNext(header, front, line);
    assert [header] + data == [header] + front + [line];
  }

  lemma ShorterIsSmaller(header: string, front: seq<string>)
    requires front != []
    ensures Size([header] + front[..|front| - 1]) < Size([header] + front)
  {
    LastApart(header, front);
    SizeConcat([header] + front[..|front| - 1], [front[|front| - 1]]);
    OneLine(front[|front| - 1]);
  }

  lemma LastApart<T>(head: T, s: seq<T>)
    requires s != []
    ensures [head] + s == [head] + s[..|s| - 1] + [s[|s| - 1]]
  {
  }

  lemma AppendsNext(header: string, front: seq<string>, line: string)
    requires |header| == 91 && Size([header] + front) < FIRST_THRESHOLD
    requires Collected(header, front) == Stats([header] + front, FIRST_THRESHOLD, false)
    ensures Collected(header, front + [line]) == Stats([header] + front + [line], FIRST_THRESHOLD, false)
  {
    assert (front + [line])[..|front|] == front;
    FirstGuard(header);
  }

  /** A file that crosses the first threshold with exactly the lines to keep gets a second header. */
  lemma CrossingAtKeep(header: string, data: seq<string>, line: string)
    requires |header| == 91 && |data| == KEEP - 1
    requires Size([header] + data[..KEEP - 2]) < FIRST_THRESHOLD <= Size([header] + data)
    ensures Collected(header, data + [line]).lines == [header, header] + data + [line]
  {
    OnlyAppends(header, data);
    assert (data + [line])[..|data|] == data;
    TrimAtKeep(header, data);
  }

  lemma TrimAtKeep(header: string, data: seq<string>)
    requires |header| == 91 && |data| == KEEP - 1 && Size([header] + data) >= FIRST_THRESHOLD
    ensures var a := Adjusted(header, Stats([header] + data, FIRST_THRESHOLD, false));
            !a.stopped && a.lines == [header, header] + data
  {
    FirstGuard(header);
    TrimWhole(header, Stats([header] + data, FIRST_THRESHOLD, false));
    assert [header] + ([header] + data) == [header, header] + data;
  }

  lemma AdjustedStops(header: string, s: Stats)
    ensures Adjusted(header, s).stopped <==> s.stopped || GuardFires(header, s.threshold, KEEP)
  {
  }

  lemma TrimWhole(header: string, s: Stats)
    requires !s.stopped && Trims(header, s) && |s.lines| == KEEP
    ensures !Adjusted(header, s).stopped && Adjusted(header, s).lines == [header] + s.lines
  {
    AdjustedStops(header, s);
    AdjustedLines(header, s);
    assert Last(s.lines, KEEP) == s.lines;
  }

  lemma FirstGuard(header: string)
    requires |header| == 91
    ensures !GuardFires(header, FIRST_THRESHOLD, KEEP)
  {
  }

  function Repeat(line: string, n: nat): (lines: seq<string>)
    ensures |lines| == n
  {
    seq(n, _ => line)
  }

  lemma {:induction false} RepeatSize(line: string, n: nat)
    ensures Size(Repeat(line, n)) == n * (|line| + 1)
  {
    if n > 0 {
      RepeatSize(line, n - 1);
      assert Repeat(line, n)[..n - 1] == Repeat(line, n - 1);
      OneMoreTime(n, |line| + 1);
    }
  }

  lemma OneMoreTime(n: nat, x: nat)
    requires n > 0
    ensures (n - 1) * x + x == n * x
  {
  }

  lemma OneLine(line: string)
    ensures Size([line]) == |line| + 1
  {
    assert [line][..0] == [];
  }

  /** 833 of the longest lines, and then lines of 78 bytes. */
  function Filling(long: string, short: string, n: nat): seq<string> {
    Repeat(long, 833) + Repeat(short, n)
  }

  lemma FillingSize(header: string, long: string, short: string, n: nat)
    requires |header| == 91 && |long| == 103 && |short| == 77
    ensures Size([header] + Filling(long, short, n)) == 92 + 833 * 104 + n * 78
    ensures forall l | l in Filling(long, short, n) :: NormalLine(l)
  {
    RepeatSize(long, 833);
    RepeatSize(short, n);
    SizeConcat(Repeat(long, 833), Repeat(short, n));
    SizeConcat([header], Filling(long, short, n));
    OneLine(header);
  }

  lemma FillingNext(long: string, short: string, n: nat)
    ensures Filling(long, short, n + 1) == Filling(long, short, n) + [short]
  {
    assert Repeat(short, n + 1) == Repeat(short, n) + [short];
  }

  /** Some run of normal lines gets a second header that way. */
  lemma SecondHeaderRun(header: string, long: string, short: string) returns (data: seq<string>)
    requires |header| == 91 && |long| == 103 && |short| == 77
    ensures |data| == KEEP && forall l | l in data :: NormalLine(l)
    ensures Collected(header, data).lines == [header, header] + data
  {
    var n := KEEP - 835;
    var front, body := Filling(long, short, n), Filling(long, short, n + 1);
    data := Filling(long, short, n + 2);
    FillingNext(long, short, n);
    FillingNext(long, short, n + 1);
    FillingSize(header, long, short, n);
    FillingSize(header, long, short, n + 1);
    FillingSize(header, long, short, n + 2);
    assert body[..KEEP - 2] == front;
    CrossingAtKeep(header, body, short);
    assert [header, header] + body + [short] == [header, header] + data;
  }
}
