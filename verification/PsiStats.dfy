/**
 The memory-pressure statistics file of pkg/pillar/agentlog/memprofile.go: the collector
 appends a line every tick, and ManageStatFileSize trims the file through a ring of lines.
 A file is the sequence of its lines; each line takes one byte more than its text.
 */
module PsiStats {
  import opened Ring

  const LINES_PER_HOUR := 3600
  const LINE_MIN := 54
  const LINE_MAX := 104
  const LINE_AVG := 75
  const DAY := LINES_PER_HOUR * 24
  const KEEP := LINES_PER_HOUR * 23

  const PSI_HEADER :=
    "date time someAvg10 someAvg60 someAvg300 someTotal fullAvg10 fullAvg60 fullAvg300 fullTotal"

  function Size(file: seq<string>): nat {
    if file == [] then 0 else Size(file[..|file| - 1]) + |file[|file| - 1]| + 1
  }

  lemma {:induction false} SizeConcat(a: seq<string>, b: seq<string>)
    ensures Size(a + b) == Size(a) + Size(b)
  {
    if b == [] {
      assert a + b == a;
    } else {
      SizeConcat(a, b[..|b| - 1]);
      assert (a + b)[..|a + b| - 1] == a + b[..|b| - 1];
    }
  }

  predicate NormalLine(line: string) {
    LINE_MIN <= |line| + 1 <= LINE_MAX
  }

  lemma {:induction false} SizeBounds(file: seq<string>)
    requires forall l | l in file :: NormalLine(l)
    ensures LINE_MIN * |file| <= Size(file) <= LINE_MAX * |file|
  {
    if file != [] {
      assert file[|file| - 1] in file;
      SizeBounds(file[..|file| - 1]);
    }
  }

  lemma {:induction false} LinesAreBytes(file: seq<string>)
    ensures Size(file) >= |file|
  {
    if file != [] {
      LinesAreBytes(file[..|file| - 1]);
    }
  }

  // ---------------------------------------------------------------------------
  // ManageStatFileSize

  /** What the caller is told: bad arguments, nothing to do, or a better average line size. */
  datatype Verdict = TooHigh | Fine | Adjust(average: nat)

  predicate GuardFires(header: string, threshold: nat, keep: nat) {
    keep * LINE_MIN + |header| + 1 > threshold
  }

  /** The guard leaves no room for an empty file, so the average is always defined. */
  lemma BigFileHasLines(header: string, file: seq<string>, threshold: nat, keep: nat)
    requires !GuardFires(header, threshold, keep) && Size(file) >= threshold
    ensures |file| > 0 && Size(file) / |file| > 0
  {
    LinesAreBytes(file);
    DivPositive(Size(file), |file|);
  }

  lemma DivPositive(a: nat, b: nat)
    requires a >= b > 0
    ensures a / b > 0
  {
  }

  /** The file and the verdict after the size check. */
  function Managed(header: string, file: seq<string>, threshold: nat, keep: nat): (seq<string>, Verdict) {
    if GuardFires(header, threshold, keep) then (file, TooHigh)
    else if Size(file) < threshold then (file, Fine)
    else
      BigFileHasLines(header, file, threshold, keep);
      var average := Size(file) / |file|;
      if |file| < keep then (file, Adjust(average))
      else
        var trimmed := [header] + Last(file, keep);
        (trimmed, if Size(trimmed) > threshold then Adjust(average) else Fine)
  }

  /** The average reported is the mean line of the file as it was, rounded down to a byte. */
  lemma ReportsMean(header: string, file: seq<string>, threshold: nat, keep: nat)
    requires Managed(header, file, threshold, keep).1.Adjust?
    ensures IsMean(Managed(header, file, threshold, keep).1.average, Size(file), |file|)
  {
    BigFileHasLines(header, file, threshold, keep);
    MeanOf(Size(file), |file|);
    assert Managed(header, file, threshold, keep).1.average == Size(file) / |file|;
  }

  /** `lines` lines come to `size` bytes, at `mean` bytes a line and less than a byte a line more. */
  predicate IsMean(mean: nat, size: nat, lines: nat) {
    mean * lines <= size < (mean + 1) * lines
  }

  lemma MeanOf(size: nat, lines: nat)
    requires lines > 0
    ensures IsMean(size / lines, size, lines)
  {
    assert size == size / lines * lines + size % lines;
    assert (size / lines + 1) * lines == size / lines * lines + lines;
  }

  /**
   The documentation promises the last `keep` lines of statistics, header excluded; the old
   header stays behind as a line of data exactly when the file has `keep` lines in all.
   */
  lemma OldHeaderKeptExactly(header: string, file: seq<string>, threshold: nat, keep: nat)
    requires 0 < keep <= |file| && file[0] == header && header !in file[1..]
    requires !GuardFires(header, threshold, keep) && Size(file) >= threshold
    ensures header in Managed(header, file, threshold, keep).0[1..] <==> |file| == keep
  {
    var trimmed := Managed(header, file, threshold, keep).0;
    assert trimmed[1..] == Last(file, keep);
    if |file| == keep {
      assert Last(file, keep)[0] == header;
    } else {
      assert forall i | 0 <= i < keep :: Last(file, keep)[i] == file[1..][|file| - keep + i - 1];
    }
  }

  // ---------------------------------------------------------------------------
  // The file and its ring of lines

  class StatFile {
    var lines: seq<string>

    constructor ()
      ensures lines == []
    {
      lines := [];
    }

    method WriteString(line: string)
      modifies this
      ensures lines == old(lines) + [line]
    {
      lines := lines + [line];
    }

    /** A ring of no slots cannot be written to, so at least one line is to be kept. */
    method ManageStatFileSize(header: string, threshold: nat, keep: nat) returns (verdict: Verdict)
      requires keep > 0
      modifies this
      ensures (lines, verdict) == Managed(header, old(lines), threshold, keep)
      ensures verdict.Adjust? ==> IsMean(verdict.average, Size(old(lines)), |old(lines)|)
    {
      if keep * LINE_MIN + |header| + 1 > threshold {
        return TooHigh;
      }
      var size := Size(lines);
      if size < threshold {
        return Fine;
      }
      BigFileHasLines(header, lines, threshold, keep);
      MeanOf(size, |lines|);
      ghost var file := lines;
      var ring, pos := FillRing(lines, keep);
      var linesRead := |lines|;
      if linesRead < keep {
        return Adjust(size / linesRead);
      }
      RingGivesLast(ring[..], pos, file);
      WriteRing(header, ring, pos);
      if Size(lines) > threshold {
        return Adjust(size / linesRead);
      }
      return Fine;
    }

    /** Truncate, write the header, then the ring from its next slot once round. */
    method WriteRing(header: string, ring: array<Slot<string>>, pos: nat)
      requires pos < ring.Length
      modifies this
      ensures lines == [header] + ReadOut(ring[..][pos..] + ring[..][..pos])
    {
      ghost var order := ring[..][pos..] + ring[..][..pos];
      lines := [header];
      var k := 0;
      while k < ring.Length
        invariant 0 <= k <= ring.Length
        invariant lines == [header] + ReadOut(order[..k])
      {
        var slot := ring[if pos + k < ring.Length then pos + k else pos + k - ring.Length];
        assert slot == order[k] && order[..k + 1][..k] == order[..k];
        if slot.Filled? {
          lines := lines + [slot.value];
        }
        k := k + 1;
      }
      assert order[..k] == order;
    }
  }

  /** Scan a file through a ring of `keep` slots, overwriting the oldest line each time. */
  method FillRing(file: seq<string>, keep: nat) returns (ring: array<Slot<string>>, pos: nat)
    requires keep > 0
    ensures fresh(ring) && ring.Length == keep && RingHolds(ring[..], pos, file)
  {
    ring, pos := new Slot<string>[keep](_ => Empty), 0;
    var n := 0;
    while n < |file|
      invariant 0 <= n <= |file|
      invariant RingHolds(ring[..], pos, file[..n])
    {
      RingWrites(ring[..], pos, file[..n], file[n]);
      assert file[..n + 1] == file[..n] + [file[n]];
      ring[pos] := Filled(file[n]);
      pos := if pos + 1 == keep then 0 else pos + 1;
      n := n + 1;
    }
    assert file[..n] == file;
  }
}
