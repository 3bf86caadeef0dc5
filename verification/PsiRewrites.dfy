/**
 How often the collector of pkg/pillar/agentlog/memprofile.go rewrites its file.  The threshold
 is adapted so that the file is not truncated every time; this is exactly when it is anyway.
 */
module PsiRewrites {
  import opened PsiStats
  import opened PsiCollector
  import opened Ring

  function Trimmed(header: string, s: Stats): seq<string>
    requires |s.lines| >= KEEP
  {
    [header] + Last(s.lines, KEEP)
  }

  /** The statistics the next tick finds. */
  function AfterTick(header: string, s: Stats, line: string): Stats {
    var a := Adjusted(header, s);
    a.(lines := a.lines + [line])
  }

  lemma TrimAdjusts(header: string, s: Stats)
    requires Trims(header, s)
    ensures Size(Trimmed(header, s)) <= s.threshold ==> Adjusted(header, s) == s.(lines := Trimmed(header, s))
    ensures Size(Trimmed(header, s)) > s.threshold ==>
              |s.lines| > 0 &&
              Adjusted(header, s) == Stats(Trimmed(header, s),
                if Size(s.lines) / |s.lines| > 0 then Size(s.lines) / |s.lines| * DAY else s.threshold, s.stopped)
  {
    BigFileHasLines(header, s.lines, s.threshold, KEEP);
  }

  lemma QuietGuard(header: string, threshold: nat)
    requires |header| == 91 && threshold >= LINE_MIN * DAY
    ensures !GuardFires(header, threshold, KEEP)
  {
  }

  /** A trimmed file and one more line is trimmed again exactly when it has reached the threshold. */
  lemma NextTrims(header: string, lines: seq<string>, line: string, threshold: nat)
    requires |header| == 91 && |lines| >= KEEP && threshold >= LINE_MIN * DAY
    ensures Trims(header, Stats(lines + [line], threshold, false)) <==> Size(lines) + |line| + 1 >= threshold
  {
    QuietGuard(header, threshold);
    SizeConcat(lines, [line]);
    OneLine(line);
  }

  /**
   After a tick that trims, the next tick trims again exactly when what is kept fits under the
   threshold, so that it is not adapted, and one more line reaches it.
   */
  lemma TrimsAgainExactly(header: string, s: Stats, line: string)
    requires |header| == 91 && Healthy(header, s) && Trims(header, s) && NormalLine(line)
    ensures Trims(header, AfterTick(header, s, line)) <==>
            Size(Trimmed(header, s)) <= s.threshold <= Size(Trimmed(header, s)) + |line| + 1
  {
    TrimAdjusts(header, s);
    TrimIsBounded(header, s);
    NextTrims(header, Trimmed(header, s), line, Adjusted(header, s).threshold);
  }

  // ---------------------------------------------------------------------------
  // A run that rewrites the file on every tick

  /** Any lines to keep come to the first threshold, with the header. */
  predicate Even(data: seq<string>) {
    forall i | 0 <= i && i + KEEP <= |data| :: Size(Slice(data, i)) + 92 == FIRST_THRESHOLD
  }

  function Slice(data: seq<string>, i: int): seq<string>
    requires 0 <= i && i + KEEP <= |data|
  {
    data[i..i + KEEP]
  }

  lemma EvenPrefix(data: seq<string>, n: nat)
    requires Even(data) && n <= |data|
    ensures Even(data[..n])
  {
    forall i | 0 <= i && i + KEEP <= n ensures Size(Slice(data[..n], i)) + 92 == FIRST_THRESHOLD {
      assert Slice(data[..n], i) == Slice(data, i);
    }
  }

  /** The file is full to the threshold, or one line past it. */
  predicate FullFile(header: string, data: seq<string>, s: Stats) {
    |data| >= KEEP && s == Stats([header] + (if |data| == KEEP then data else data[|data| - KEEP - 1..]), FIRST_THRESHOLD, false)
  }

  lemma HeaderLine(header: string, lines: seq<string>)
    requires |header| == 91
    ensures Size([header] + lines) == 92 + Size(lines)
  {
    OneLine(header);
    SizeConcat([header], lines);
  }

  lemma FirstFull(header: string, data: seq<string>)
    requires |header| == 91 && |data| == KEEP && Even(data)
    ensures FullFile(header, data, Collected(header, data))
  {
    assert Slice(data, 0) == data;
    HeaderLine(header, data);
    ShorterIsSmaller(header, data);
    OnlyAppends(header, data);
  }

  lemma KeptIsSlice(header: string, data: seq<string>, s: Stats)
    requires |header| == 91 && Even(data) && FullFile(header, data, s)
    ensures Last(s.lines, KEEP) == Slice(data, |data| - KEEP)
    ensures Size(Trimmed(header, s)) == FIRST_THRESHOLD
  {
    HeaderLine(header, Slice(data, |data| - KEEP));
  }

  lemma FullTrims(header: string, data: seq<string>, s: Stats)
    requires |header| == 91 && Even(data) && FullFile(header, data, s)
    ensures Trims(header, s)
  {
    FirstGuard(header);
    KeptIsSlice(header, data, s);
    var kept := Slice(data, |data| - KEEP);
    if |data| == KEEP {
      assert s.lines == [header] + kept;
    } else {
      var extra := data[|data| - KEEP - 1];
      assert s.lines == [header] + ([extra] + kept);
      HeaderLine(header, [extra] + kept);
      SizeConcat([extra], kept);
      HeaderLine(header, kept);
    }
  }

  lemma FullAdjusted(header: string, front: seq<string>, s: Stats)
    requires |header| == 91 && Even(front) && FullFile(header, front, s)
    ensures Adjusted(header, s) == Stats([header] + front[|front| - KEEP..], FIRST_THRESHOLD, false)
  {
    FullTrims(header, front, s);
    KeptIsSlice(header, front, s);
    TrimAdjusts(header, s);
    assert Slice(front, |front| - KEEP) == front[|front| - KEEP..];
  }

  lemma CollectedNext(header: string, front: seq<string>, line: string)
    requires !Collected(header, front).stopped && !Adjusted(header, Collected(header, front)).stopped
    ensures Collected(header, front + [line]) == AfterTick(header, Collected(header, front), line)
  {
    assert (front + [line])[..|front|] == front;
  }

  lemma FullStaysFull(header: string, front: seq<string>, line: string)
    requires |header| == 91 && Even(front) && FullFile(header, front, Collected(header, front))
    ensures FullFile(header, front + [line], Collected(header, front + [line]))
  {
    var s := Collected(header, front);
    FullAdjusted(header, front, s);
    CollectedNext(header, front, line);
    FullNext(header, front, line, AfterTick(header, s, line));
  }

  lemma FullNext(header: string, front: seq<string>, line: string, s: Stats)
    requires |front| >= KEEP && s == Stats([header] + front[|front| - KEEP..] + [line], FIRST_THRESHOLD, false)
    ensures FullFile(header, front + [line], s)
  {
    TailSnoc(header, front, line, |front| - KEEP);
  }

  lemma TailSnoc<T>(head: T, front: seq<T>, last: T, k: nat)
    requires k <= |front|
    ensures [head] + front[k..] + [last] == [head] + (front + [last])[k..]
  {
    assert (front + [last])[k..] == front[k..] + [last];
  }

  lemma {:induction false} AlwaysFull(header: string, data: seq<string>)
    requires |header| == 91 && |data| >= KEEP && Even(data)
    ensures FullFile(header, data, Collected(header, data))
    decreases |data|
  {
    if |data| == KEEP {
      FirstFull(header, data);
    } else {
      var front, line := data[..|data| - 1], data[|data| - 1];
      EvenPrefix(data, |data| - 1);
      AlwaysFull(header, front);
      FullStaysFull(header, front, line);
      assert data == front + [line];
    }
  }

  /** Lines of 79 and 78 bytes that repeat after as many lines as are kept. */
  function Periodic(long: string, short: string, n: nat): (data: seq<string>)
    ensures |data| == n
    ensures forall i | 0 <= i < n :: data[i] == if i % KEEP < 21508 then long else short
  {
    seq(n, i => if i % KEEP < 21508 then long else short)
  }

  lemma FirstSlice(long: string, short: string, n: nat)
    requires |long| == 78 && |short| == 77 && n >= KEEP
    ensures Size(Slice(Periodic(long, short, n), 0)) + 92 == FIRST_THRESHOLD
  {
    var a, b := Repeat(long, 21508), Repeat(short, KEEP - 21508);
    var slice := Slice(Periodic(long, short, n), 0);
    forall i | 0 <= i < KEEP ensures slice[i] == (a + b)[i] {
      assert i % KEEP == i;
    }
    assert slice == a + b;
    RepeatSize(long, 21508);
    RepeatSize(short, KEEP - 21508);
    SizeConcat(a, b);
  }

  /** Moving on by one line drops a line and takes up one of the same size. */
  lemma SlidingSize(data: seq<string>, i: nat)
    requires i + KEEP < |data| && data[i] == data[i + KEEP]
    ensures Size(Slice(data, i + 1)) == Size(Slice(data, i))
  {
    var middle := data[i + 1..i + KEEP];
    SizeConcat([data[i]], middle);
    SizeConcat(middle, [data[i]]);
    assert Slice(data, i) == [data[i]] + middle;
    assert Slice(data, i + 1) == middle + [data[i + KEEP]];
  }

  lemma SamePhase(i: nat)
    ensures (i + KEEP) % KEEP == i % KEEP
  {
  }

  lemma {:induction false} EverySlice(long: string, short: string, n: nat, i: nat)
    requires |long| == 78 && |short| == 77 && i + KEEP <= n
    ensures Size(Slice(Periodic(long, short, n), i)) + 92 == FIRST_THRESHOLD
  {
    if i == 0 {
      FirstSlice(long, short, n);
    } else {
      EverySlice(long, short, n, i - 1);
      SamePhase(i - 1);
      SlidingSize(Periodic(long, short, n), i - 1);
    }
  }

  /** Some run of normal lines has its file rewritten on every tick, once it has the lines to keep. */
  lemma RewritesEveryTick(header: string, long: string, short: string, n: nat, m: nat)
    requires |header| == 91 && |long| == 78 && |short| == 77 && KEEP <= m <= n
    ensures var data := Periodic(long, short, n);
            && (forall l | l in data :: NormalLine(l))
            && Trims(header, Collected(header, data[..m]))
  {
    var data := Periodic(long, short, n);
    forall i | 0 <= i && i + KEEP <= |data| ensures Size(Slice(data, i)) + 92 == FIRST_THRESHOLD {
      EverySlice(long, short, n, i);
    }
    EvenPrefix(data, m);
    AlwaysFull(header, data[..m]);
    FullTrims(header, data[..m], Collected(header, data[..m]));
  }
}
