/**
 Where the compression loop of pkg/newlog/cmd/doMoveCompressFile.go starts a new output file:
 at the lines that, taken as incompressible, could bring the current file to 50000 bytes with
 its footer of 12, and at no others.
 */
module SplitPoints {
  import opened Compress
  import opened LogNames

  /** The `k`-th kept line is the first line of a file after the first. */
  predicate StartsFile(outs: seq<OutFile>, kept: seq<string>, k: nat)
    requires k < |kept|
  {
    exists f | 1 <= f < |outs| :: StartsWith(outs, f, k, kept[k])
  }

  predicate StartsWith(outs: seq<OutFile>, f: nat, k: nat, line: string)
    requires f < |outs|
  {
    |AllLines(outs[..f])| == k && outs[f].lines != [] && outs[f].lines[0] == line
  }

  predicate NoneEmpty(outs: seq<OutFile>) {
    forall f | 1 <= f < |outs| :: outs[f].lines != []
  }

  lemma {:induction false} LinesBefore(outs: seq<OutFile>, f: nat)
    requires f < |outs|
    ensures |AllLines(outs[..f])| + |outs[f].lines| <= |AllLines(outs)|
  {
    var front := outs[..|outs| - 1];
    if f < |outs| - 1 {
      LinesBefore(front, f);
      assert front[..f] == outs[..f];
    }
  }

  /** A line that fits goes to the end of the last file and starts none. */
  lemma FittingStartsNone(outs: seq<OutFile>, outs': seq<OutFile>, line: string, f: nat, k: nat, x: string)
    requires NoneEmpty(outs) && 1 <= f < |outs|
    requires outs' == outs[|outs| - 1 := OutFile(outs[|outs| - 1].num, outs[|outs| - 1].lines + [line])]
    ensures StartsWith(outs', f, k, x) <==> StartsWith(outs, f, k, x)
    ensures StartsWith(outs', f, k, x) ==> k < |AllLines(outs)|
  {
    assert outs'[..f] == outs[..f];
    LinesBefore(outs, f);
  }

  /** A line that might not fit starts the new last file. */
  lemma OverflowingStarts(outs: seq<OutFile>, o: OutFile, f: nat, k: nat, x: string)
    requires NoneEmpty(outs) && 1 <= f <= |outs| && o.lines != []
    ensures f < |outs| ==> (StartsWith(outs + [o], f, k, x) <==> StartsWith(outs, f, k, x))
    ensures f < |outs| ==> (StartsWith(outs, f, k, x) ==> k < |AllLines(outs)|)
    ensures f == |outs| ==> (StartsWith(outs + [o], f, k, x) <==> k == |AllLines(outs)| && x == o.lines[0])
  {
    assert (outs + [o])[..f] == outs[..f];
    if f < |outs| {
      LinesBefore(outs, f);
    } else {
      assert outs[..f] == outs;
    }
  }

  /** The files so far: all lines written, none of the later files empty, and the starts as they should be. */
  predicate SplitRight(outs: seq<OutFile>, kept: seq<string>, written: nat -> nat) {
    && outs != [] && AllLines(outs) == kept && NoneEmpty(outs)
    && forall k: nat | k < |kept| :: StartsFile(outs, kept, k) <==> written(k) + 12 + |kept[k]| >= 50000
  }

  lemma FittingNext(outs: seq<OutFile>, outs': seq<OutFile>, kept: seq<string>, line: string, k: nat)
    requires AllLines(outs) == kept && outs != [] && NoneEmpty(outs) && k <= |kept|
    requires outs' == outs[|outs| - 1 := OutFile(outs[|outs| - 1].num, outs[|outs| - 1].lines + [line])]
    ensures StartsFile(outs', kept + [line], k) <==> k < |kept| && StartsFile(outs, kept, k)
  {
    var x := (kept + [line])[k];
    forall f | 1 <= f < |outs|
      ensures StartsWith(outs', f, k, x) <==> StartsWith(outs, f, k, x)
      ensures StartsWith(outs', f, k, x) ==> k < |kept|
    {
      FittingStartsNone(outs, outs', line, f, k, x);
    }
  }

  lemma OverflowingNextFile(outs: seq<OutFile>, o: OutFile, kept: seq<string>, line: string, k: nat)
    requires AllLines(outs) == kept && outs != [] && NoneEmpty(outs) && k <= |kept| && o.lines == [line]
    ensures StartsFile(outs + [o], kept + [line], k) <==> k == |kept| || StartsFile(outs, kept, k)
  {
    var x := (kept + [line])[k];
    forall f | 1 <= f <= |outs|
      ensures f < |outs| ==> (StartsWith(outs + [o], f, k, x) <==> StartsWith(outs, f, k, x))
      ensures f < |outs| ==> (StartsWith(outs, f, k, x) ==> k < |kept|)
      ensures f == |outs| ==> (StartsWith(outs + [o], f, k, x) <==> k == |kept| && x == line)
    {
      OverflowingStarts(outs, o, f, k, x);
    }
    assert StartsWith(outs + [o], |outs|, k, x) <==> k == |kept|;
  }

  lemma AddLineSplitsRight(start: nat, outs: seq<OutFile>, kept: seq<string>, line: string, written: nat -> nat)
    requires SplitRight(outs, kept, written)
    requires AllLines(AddLine(start, outs, written(|kept|), line)) == kept + [line]
    ensures SplitRight(AddLine(start, outs, written(|kept|), line), kept + [line], written)
  {
    var outs' := AddLine(start, outs, written(|kept|), line);
    var fits := written(|kept|) + 12 + |line| < 50000;
    forall k: nat | k < |kept + [line]|
      ensures StartsFile(outs', kept + [line], k) <==> written(k) + 12 + |(kept + [line])[k]| >= 50000
    {
      if fits {
        FittingNext(outs, outs', kept, line, k);
      } else {
        OverflowingNextFile(outs, outs'[|outs|], kept, line, k);
      }
    }
  }

  lemma {:induction false} AlwaysSplitRight(start: nat, kept: seq<string>, written: nat -> nat)
    ensures SplitRight(SplitFiles(start, kept, written), kept, written)
  {
    SplitConserves(start, kept, written);
    if kept != [] {
      var front, line := kept[..|kept| - 1], kept[|kept| - 1];
      AlwaysSplitRight(start, front, written);
      SplitNext(start, front, line, written);
      assert kept == front + [line];
      AddLineSplitsRight(start, SplitFiles(start, front, written), front, line, written);
    }
  }

  /** A kept line starts a file after the first exactly when it might not fit the one before. */
  lemma StartsFileExactly(start: nat, kept: seq<string>, written: nat -> nat, k: nat)
    requires k < |kept|
    ensures StartsFile(SplitFiles(start, kept, written), kept, k) <==> written(k) + 12 + |kept[k]| >= 50000
  {
    AlwaysSplitRight(start, kept, written);
  }

  /** What an output is called. */
  predicate IsCalled(name: string, isApp: bool, uuid: string, notUpload: bool, num: nat) {
    name == (if !isApp then "dev" else if notUpload then "app.skipTx." + uuid else "app." + uuid)
            + ".log." + Itoa(num) + ".gz"
  }

  lemma NameText(isApp: bool, num: nat, uuid: string, notUpload: bool)
    ensures IsCalled(GzipFileName(isApp, num, uuid, notUpload), isApp, uuid, notUpload, num)
  {
    if !isApp {
      assert "dev" + ".log." == "dev.log.";
    } else if notUpload {
      assert "app." + "skipTx." == "app.skipTx.";
    } else {
      assert "app." + "" == "app.";
    }
  }

  lemma NameAt(job: Job, outs: seq<OutFile>, start: nat, f: nat)
    requires Numbered(outs, start) && f < |outs|
    ensures NamesOf(job, outs)[f] == GzipFileName(job.isApp, start + f, job.uuid, job.notUpload)
  {
  }

  /** The files go out under the numbers from `start` on, each in a name that tells what it is. */
  lemma NamesExactly(job: Job, start: nat, kept: seq<string>, written: nat -> nat, f: nat)
    requires f < |SplitFiles(start, kept, written)|
    ensures IsCalled(NamesOf(job, SplitFiles(start, kept, written))[f], job.isApp, job.uuid, job.notUpload, start + f)
  {
    SplitConserves(start, kept, written);
    NameAt(job, SplitFiles(start, kept, written), start, f);
    NameText(job.isApp, start + f, job.uuid, job.notUpload);
  }
}
