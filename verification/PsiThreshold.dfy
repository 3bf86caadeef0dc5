/**
 What the threshold of the statistics file is at any moment of the collector of
 pkg/pillar/agentlog/memprofile.go: the first one, or a day of lines of the mean size of the
 file that was last found too big.
 */
module PsiThreshold {
  import opened PsiStats
  import opened PsiCollector
  import opened Ring

  /** A day of lines, each of the mean size of `lines` rounded down to a byte. */
  predicate DayOfMean(threshold: nat, lines: seq<string>) {
    threshold % 86400 == 0 && threshold * |lines| <= Size(lines) * 86400 < (threshold + 86400) * |lines|
  }

  lemma MeanTimesDay(size: nat, lines: nat)
    requires lines > 0
    ensures var t := size / lines * 86400;
            t % 86400 == 0 && t * lines <= size * 86400 < (t + 86400) * lines
  {
    var mean := size / lines;
    assert size == mean * lines + size % lines;
    assert mean * 86400 * lines == mean * lines * 86400;
    assert (mean * 86400 + 86400) * lines == mean * lines * 86400 + lines * 86400;
  }

  /** A file is called too high for its threshold on the smallest lines there are. */
  lemma TooHighExactly(header: string, file: seq<string>, threshold: nat, keep: nat)
    ensures Managed(header, file, threshold, keep).1 == TooHigh <==> keep * 54 + |header| + 1 > threshold
  {
    if keep * 54 + |header| + 1 <= threshold && Size(file) >= threshold {
      BigFileHasLines(header, file, threshold, keep);
    }
  }

  /** The file is rewritten exactly when it is too big and has lines to spare. */
  lemma RewrittenExactly(header: string, file: seq<string>, threshold: nat, keep: nat)
    requires keep * 54 + |header| + 1 <= threshold
    ensures Managed(header, file, threshold, keep).0 ==
            if Size(file) >= threshold && |file| >= keep then [header] + file[|file| - keep..] else file
  {
    if Size(file) >= threshold {
      BigFileHasLines(header, file, threshold, keep);
    }
  }

  /** A new average is reported exactly when the file was too big and still is. */
  lemma ReportsExactly(header: string, file: seq<string>, threshold: nat, keep: nat)
    requires keep * 54 + |header| + 1 <= threshold
    ensures Managed(header, file, threshold, keep).1.Adjust? <==>
            && Size(file) >= threshold
            && (|file| < keep || Size(Managed(header, file, threshold, keep).0) > threshold)
  {
    if Size(file) >= threshold {
      BigFileHasLines(header, file, threshold, keep);
    }
  }

  /** The file is too big, and too few lines or trimming them does not help. */
  predicate TooBig(header: string, s: Stats) {
    && Size(s.lines) >= s.threshold
    && (|s.lines| < 82800 || Size([header] + s.lines[|s.lines| - 82800..]) > s.threshold)
  }

  /** A tick adapts the threshold to the mean line exactly when the file is too big. */
  lemma AdaptsExactly(header: string, s: Stats)
    requires |header| == 91 && Healthy(header, s)
    ensures var a := Adjusted(header, s);
            if TooBig(header, s) then DayOfMean(a.threshold, s.lines) else a.threshold == s.threshold
  {
    if Size(s.lines) >= s.threshold {
      BigFileHasLines(header, s.lines, s.threshold, KEEP);
      MeanTimesDay(Size(s.lines), |s.lines|);
      assert |s.lines| >= KEEP ==> s.lines[|s.lines| - 82800..] == Last(s.lines, KEEP);
    }
  }

  /** The `m`-th tick finds the file too big, and its threshold is the one in force. */
  predicate SetAt(header: string, data: seq<string>, m: nat, threshold: nat)
    requires m < |data|
  {
    TooBig(header, Collected(header, data[..m])) && DayOfMean(threshold, Collected(header, data[..m]).lines)
  }

  /** No tick from the `m`-th on finds the file too big. */
  predicate NoneTooBigFrom(header: string, data: seq<string>, m: nat) {
    forall i | m <= i < |data| :: !TooBig(header, Collected(header, data[..i]))
  }

  /** The threshold in force is the first one, or the one the last tick that found the file too big has set. */
  predicate InForce(header: string, data: seq<string>, threshold: nat) {
    || (threshold == 6480000 && NoneTooBigFrom(header, data, 0))
    || exists m | 0 <= m < |data| :: SetAt(header, data, m, threshold) && NoneTooBigFrom(header, data, m + 1)
  }

  lemma NoneTooBigNext(header: string, data: seq<string>, line: string, m: nat)
    requires NoneTooBigFrom(header, data, m) && !TooBig(header, Collected(header, data))
    ensures NoneTooBigFrom(header, data + [line], m)
  {
    forall i | m <= i < |data + [line]| ensures !TooBig(header, Collected(header, (data + [line])[..i])) {
      Prefix(data, line, i);
      if i == |data| {
        Whole(data);
      }
    }
  }

  lemma Prefix<T>(s: seq<T>, x: T, i: nat)
    requires i <= |s|
    ensures (s + [x])[..i] == s[..i]
  {
  }

  lemma Whole<T>(s: seq<T>)
    ensures s[..|s|] == s
  {
  }

  /** A tick that leaves the threshold alone leaves in force what was. */
  lemma StillInForce(header: string, data: seq<string>, line: string, threshold: nat)
    requires InForce(header, data, threshold) && !TooBig(header, Collected(header, data))
    ensures InForce(header, data + [line], threshold)
  {
    if NoneTooBigFrom(header, data, 0) && threshold == 6480000 {
      NoneTooBigNext(header, data, line, 0);
    } else {
      var m :| 0 <= m < |data| && SetAt(header, data, m, threshold) && NoneTooBigFrom(header, data, m + 1);
      NoneTooBigNext(header, data, line, m + 1);
      Prefix(data, line, m);
      assert SetAt(header, data + [line], m, threshold);
    }
  }

  lemma SetNow(header: string, data: seq<string>, line: string, threshold: nat)
    requires TooBig(header, Collected(header, data)) && DayOfMean(threshold, Collected(header, data).lines)
    ensures InForce(header, data + [line], threshold)
  {
    Prefix(data, line, |data|);
    Whole(data);
    assert SetAt(header, data + [line], |data|, threshold);
    assert NoneTooBigFrom(header, data + [line], |data| + 1);
  }

  lemma ThresholdNext(header: string, front: seq<string>, line: string)
    requires |header| == 91 && forall l | l in front :: NormalLine(l)
    ensures Collected(header, front + [line]).threshold == Adjusted(header, Collected(header, front)).threshold
  {
    FileAlwaysBounded(header, front);
    Prefix(front, line, |front|);
    Whole(front);
  }

  /** In every run of normal lines, and whatever the collector finds. */
  lemma {:induction false} ThresholdAlwaysMean(header: string, data: seq<string>)
    requires |header| == 91 && forall l | l in data :: NormalLine(l)
    ensures InForce(header, data, Collected(header, data).threshold)
  {
    if data == [] {
      assert NoneTooBigFrom(header, data, 0);
    } else {
      var front, line := data[..|data| - 1], data[|data| - 1];
      ThresholdAlwaysMean(header, front);
      FileAlwaysBounded(header, front);
      ThresholdStep(header, front, line);
      assert data == front + [line];
    }
  }

  lemma ThresholdStep(header: string, front: seq<string>, line: string)
    requires |header| == 91 && forall l | l in front :: NormalLine(l)
    requires Healthy(header, Collected(header, front)) && InForce(header, front, Collected(header, front).threshold)
    ensures InForce(header, front + [line], Collected(header, front + [line]).threshold)
  {
    var s := Collected(header, front);
    ThresholdNext(header, front, line);
    AdaptsExactly(header, s);
    if TooBig(header, s) {
      SetNow(header, front, line, Adjusted(header, s).threshold);
    } else {
      StillInForce(header, front, line, s.threshold);
    }
  }

  // ---------------------------------------------------------------------------
  // Numbers

  /** The file's text: every line and the newline behind it. */
  function Text(file: seq<string>): string {
    if file == [] then "" else file[0] + "\n" + Text(file[1..])
  }

  lemma {:induction false} SizeIsBytes(file: seq<string>)
    ensures Size(file) == |Text(file)|
  {
    if file != [] {
      SizeIsBytes(file[1..]);
      SizeConcat([file[0]], file[1..]);
      OneLine(file[0]);
      assert file == [file[0]] + file[1..];
    }
  }

  /** A collector gives up exactly on a threshold below 4471292 bytes. */
  lemma GivesUpExactly(s: Stats)
    requires !s.stopped
    ensures Adjusted(PSI_HEADER, s).stopped <==> s.threshold < 4471292
  {
    HeaderSize();
    AdjustedStops(PSI_HEADER, s);
  }
}
