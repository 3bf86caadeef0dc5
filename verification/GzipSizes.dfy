/**
 The size metrics of compressed files: calculateGzipSizes of
 pkg/newlog/cmd/doMoveCompressFile.go keeps the largest size and a running average that is
 rebuilt from its own truncated value each time.
 */
module GzipSizes {
  import opened Common

  datatype Sizes = Sizes(count: nat, average: nat, max: nat)

  function Mean(average: nat, count: nat, size: nat): nat {
    (average * count + size) / (count + 1)
  }

  /** One more file, with the truncations to 32 bits written out. */
  function Measure(s: Sizes, size: nat): Sizes {
    Sizes(s.count + 1, Mean(s.average, s.count, size) % UINT32, if size % UINT32 > s.max then size % UINT32 else s.max)
  }

  function MeasureAll(sizes: seq<nat>): Sizes {
    if sizes == [] then Sizes(0, 0, 0) else Measure(MeasureAll(sizes[..|sizes| - 1]), sizes[|sizes| - 1])
  }

  function Sum(sizes: seq<nat>): nat {
    if sizes == [] then 0 else Sum(sizes[..|sizes| - 1]) + sizes[|sizes| - 1]
  }

  /** n times the average is at most the sum, and short of it by at most n (n - 1) / 2. */
  predicate Within(average: nat, n: nat, sum: nat) {
    0 <= 2 * (sum - n * average) <= n * (n - 1)
  }

  lemma Remainder(a: nat, n: nat)
    requires n > 0
    ensures a == n * (a / n) + a % n && a % n <= n - 1
  {
  }

  lemma QuotientAtMost(a: nat, n: nat, bound: nat)
    requires n > 0 && a <= bound * n
    ensures a / n <= bound
  {
    Remainder(a, n);
    if a / n > bound {
      MulMono(n, bound + 1, a / n);
    }
  }

  lemma MeanAtMost(average: nat, count: nat, size: nat, bound: nat)
    requires average <= bound && size <= bound
    ensures Mean(average, count, size) <= bound
  {
    MulMono(count, average, bound);
    assert bound * count + bound == bound * (count + 1);
    QuotientAtMost(average * count + size, count + 1, bound);
  }

  lemma ErrorGrows(n: nat, error: int, r: nat)
    requires n > 0 && r <= n - 1 && 2 * error <= (n - 1) * (n - 2)
    ensures 2 * (error + r) <= n * (n - 1)
  {
    Triangle(n);
  }

  lemma NextMean(average: nat, count: nat, size: nat, sum: nat)
    requires Within(average, count, sum)
    ensures Within(Mean(average, count, size), count + 1, sum + size)
  {
    var n, before, total := count + 1, average * count, average * count + size;
    Remainder(total, n);
    var after := n * (total / n);
    assert sum + size - after == sum - before + total % n;
    ErrorGrows(n, sum - before, total % n);
  }

  /**
   After n files of at most 32-bit size, the average is at most the maximum, never above the
   true mean, and below it by at most (n - 1) / 2; the maximum is the largest size.
   */
  lemma {:induction false} AverageErrorBound(sizes: seq<nat>)
    requires forall i | 0 <= i < |sizes| :: sizes[i] < UINT32
    ensures var m := MeasureAll(sizes);
            && m.count == |sizes| && m.average <= m.max < UINT32
            && Within(m.average, |sizes|, Sum(sizes))
            && (forall i | 0 <= i < |sizes| :: sizes[i] <= m.max)
            && (sizes != [] ==> m.max in sizes)
    decreases |sizes|
  {
    if sizes != [] {
      var front, size := sizes[..|sizes| - 1], sizes[|sizes| - 1];
      AverageErrorBound(front);
      MeasureNext(MeasureAll(front), size, Sum(front));
      assert forall i | 0 <= i < |front| :: sizes[i] == front[i];
    }
  }

  lemma MeasureNext(m: Sizes, size: nat, sum: nat)
    requires size < UINT32 && m.average <= m.max < UINT32 && Within(m.average, m.count, sum)
    ensures var m' := Measure(m, size);
            && m'.count == m.count + 1 && m'.average <= m'.max && Within(m'.average, m'.count, sum + size)
            && m'.max == if size > m.max then size else m.max
  {
    MeanAtMost(m.average, m.count, size, if size > m.max then size else m.max);
    NextMean(m.average, m.count, size, sum);
    Fits(Mean(m.average, m.count, size));
    Fits(size);
  }

  lemma Fits(x: nat)
    requires x < UINT32
    ensures x % UINT32 == x
  {
  }

  function UpTo(n: nat): (s: seq<nat>)
    ensures |s| == n
  {
    if n == 0 then [] else UpTo(n - 1) + [n - 1]
  }

  lemma {:induction false} AverageStaysZero(n: nat)
    ensures MeasureAll(UpTo(n)).average == 0 && MeasureAll(UpTo(n)).count == n
  {
    if n > 0 {
      AverageStaysZero(n - 1);
      MeasureAllNext(UpTo(n - 1), n - 1);
      SmallNext(MeasureAll(UpTo(n - 1)));
    }
  }

  lemma SmallNext(m: Sizes)
    requires m.average == 0
    ensures Measure(m, m.count).average == 0 && Measure(m, m.count).count == m.count + 1
  {
    SmallMean(m.count);
  }

  lemma {:induction false} SumUpTo(n: nat)
    ensures 2 * Sum(UpTo(n)) == n * (n - 1)
  {
    if n > 0 {
      SumUpTo(n - 1);
      assert UpTo(n)[..n - 1] == UpTo(n - 1);
      Triangle(n);
    }
  }

  /** The bound is met: after sizes 0, 1, ..., n - 1 the average is still 0. */
  lemma ErrorBoundIsTight(n: nat)
    ensures MeasureAll(UpTo(n)).average == 0 && MeasureAll(UpTo(n)).count == n
    ensures 2 * Sum(UpTo(n)) == n * (n - 1)
  {
    AverageStaysZero(n);
    SumUpTo(n);
  }

  lemma SmallMean(count: nat)
    ensures Mean(0, count, count) == 0
  {
    assert 0 * count + count == count;
    QuotientBelow(count, count + 1);
  }

  lemma QuotientBelow(a: nat, n: nat)
    requires a < n
    ensures a / n == 0
  {
  }

  lemma Triangle(n: nat)
    requires n > 0
    ensures (n - 1) * (n - 2) + 2 * (n - 1) == n * (n - 1)
  {
  }

  lemma MeasureAllNext(sizes: seq<nat>, size: nat)
    ensures MeasureAll(sizes + [size]) == Measure(MeasureAll(sizes), size)
  {
    assert (sizes + [size])[..|sizes|] == sizes;
  }

  predicate Fitting(sizes: seq<nat>) {
    forall i | 0 <= i < |sizes| :: sizes[i] < UINT32
  }

  class Metrics {
    var maxGzipSize: nat
    var avgGzipSize: nat
    var gzipFilesCnt: nat
    ghost var sizes: seq<nat>

    /** The metrics are those of all files so far. */
    ghost predicate Valid()
      reads this
    {
      Sizes(gzipFilesCnt, avgGzipSize, maxGzipSize) == MeasureAll(sizes)
    }

    constructor ()
      ensures Valid() && sizes == []
    {
      maxGzipSize, avgGzipSize, gzipFilesCnt, sizes := 0, 0, 0, [];
    }

    /** After every call: the largest size, and an average within the bound of the true mean. */
    method CalculateGzipSizes(size: nat)
      requires Valid()
      modifies this
      ensures Valid() && sizes == old(sizes) + [size]
      ensures Fitting(sizes) ==>
                && gzipFilesCnt == |sizes| && maxGzipSize in sizes && (forall i | 0 <= i < |sizes| :: sizes[i] <= maxGzipSize)
                && avgGzipSize <= maxGzipSize && Within(avgGzipSize, |sizes|, Sum(sizes))
    {
      MeasureAllNext(sizes, size);
      Update(size);
      sizes := sizes + [size];
      if Fitting(sizes) {
        AverageErrorBound(sizes);
      }
    }

    method Update(size: nat)
      modifies this`maxGzipSize, this`avgGzipSize, this`gzipFilesCnt
      ensures Sizes(gzipFilesCnt, avgGzipSize, maxGzipSize) ==
              Measure(old(Sizes(gzipFilesCnt, avgGzipSize, maxGzipSize)), size)
    {
      if size % UINT32 > maxGzipSize {
        maxGzipSize := size % UINT32;
      }
      var oldtotal := avgGzipSize * gzipFilesCnt;
      gzipFilesCnt := gzipFilesCnt + 1;
      avgGzipSize := (oldtotal + size) / gzipFilesCnt % UINT32;
    }
  }
}
