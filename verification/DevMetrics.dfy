/**
 The top-ten device log sources, as in pkg/newlog/cmd/metrics.go and updateDevInputlogStats of
 pkg/newlog/cmd/writelogFile.go: bytes are counted per source and in total, and a report turns
 the counts since the last report into percentages and starts over.
 */
module DevMetrics {
  import opened Common

  const UINT64 := 0x1_0000_0000_0000_0000

  function Wrap(x: int): (r: nat)
    ensures r < UINT64
  {
    x % UINT64
  }

  // ---------------------------------------------------------------------------
  // Sums over a map

  ghost function SumOf(m: map<string, nat>): nat
    decreases |m|
  {
    if m == map[] then 0
    else
      var k :| k in m;
      m[k] + SumOf(m - {k})
  }

  lemma {:induction false} SumOfRemove(m: map<string, nat>, k: string)
    requires k in m
    ensures SumOf(m) == m[k] + SumOf(m - {k})
    decreases |m|
  {
    var first :| first in m && SumOf(m) == m[first] + SumOf(m - {first});
    if first != k {
      SumOfRemove(m - {first}, k);
      SumOfRemove(m - {k}, first);
      assert m - {first} - {k} == m - {k} - {first};
    }
  }

  lemma SumOfStore(m: map<string, nat>, k: string, v: nat)
    ensures SumOf(m[k := v]) == SumOf(m - {k}) + v
    ensures SumOf(m) == SumOf(m - {k}) + if k in m then m[k] else 0
  {
    SumOfRemove(m[k := v], k);
    assert m[k := v] - {k} == m - {k};
    if k in m {
      SumOfRemove(m, k);
    } else {
      assert m - {k} == m;
    }
  }

  // ---------------------------------------------------------------------------
  // Ranking

  datatype Pair = Pair(key: string, value: nat)

  predicate Descending(pl: seq<Pair>) {
    forall i, j | 0 <= i < j < |pl| :: pl[i].value >= pl[j].value
  }

  function KeysOf(pl: seq<Pair>): set<string> {
    set p | p in pl :: p.key
  }

  /** The sources in `keys` once each, with their bytes in `m`, the largest first. */
  predicate IsRanking(pl: seq<Pair>, keys: set<string>, m: map<string, nat>) {
    && Descending(pl)
    && (forall p | p in pl :: p.key in m && m[p.key] == p.value)
    && KeysOf(pl) == keys && |pl| == |keys|
  }

  lemma KeysConcat(a: seq<Pair>, b: seq<Pair>)
    ensures KeysOf(a + b) == KeysOf(a) + KeysOf(b)
  {
  }

  lemma KeysOne(p: Pair)
    ensures KeysOf([p]) == {p.key}
  {
    assert p in [p];
  }

  lemma {:induction false} KeysAtMost(pl: seq<Pair>)
    ensures |KeysOf(pl)| <= |pl|
  {
    if pl != [] {
      KeysAtMost(pl[1..]);
      KeysConcat([pl[0]], pl[1..]);
      KeysOne(pl[0]);
      assert [pl[0]] + pl[1..] == pl;
    }
  }

  lemma KeysSplit(pl: seq<Pair>, n: nat)
    requires n <= |pl|
    ensures KeysOf(pl) == KeysOf(pl[..n]) + KeysOf(pl[n..])
  {
    KeysConcat(pl[..n], pl[n..]);
    assert pl[..n] + pl[n..] == pl;
  }

  function InsertedAt(pl: seq<Pair>, at: nat, p: Pair): seq<Pair>
    requires at <= |pl|
  {
    pl[..at] + ([p] + pl[at..])
  }

  lemma InsertedDescending(pl: seq<Pair>, at: nat, p: Pair)
    requires Descending(pl) && at <= |pl|
    requires forall i | 0 <= i < at :: pl[i].value >= p.value
    requires forall i | at <= i < |pl| :: pl[i].value <= p.value
    ensures Descending(InsertedAt(pl, at, p))
  {
  }

  lemma InsertedKeys(pl: seq<Pair>, at: nat, p: Pair)
    requires at <= |pl|
    ensures KeysOf(InsertedAt(pl, at, p)) == KeysOf(pl) + {p.key}
  {
    KeysSplit(pl, at);
    KeysConcat(pl[..at], [p] + pl[at..]);
    KeysConcat([p], pl[at..]);
    KeysOne(p);
  }

  method RankByInputCount(frequencies: map<string, nat>) returns (pl: seq<Pair>)
    ensures IsRanking(pl, frequencies.Keys, frequencies)
  {
    pl := [];
    var left := frequencies.Keys;
    while left != {}
      invariant left <= frequencies.Keys
      invariant IsRanking(pl, frequencies.Keys - left, frequencies)
      decreases left
    {
      var key :| key in left;
      pl := InsertPair(pl, key, frequencies, frequencies.Keys - left);
      OneLess(frequencies.Keys, left, key);
      left := left - {key};
    }
    assert frequencies.Keys - left == frequencies.Keys;
  }

  lemma OneLess<T>(all: set<T>, left: set<T>, x: T)
    requires x in left && left <= all
    ensures all - (left - {x}) == all - left + {x}
  {
  }

  method InsertPair(pl: seq<Pair>, key: string, m: map<string, nat>, ghost keys: set<string>) returns (pl': seq<Pair>)
    requires IsRanking(pl, keys, m) && key in m && key !in keys
    ensures IsRanking(pl', keys + {key}, m)
  {
    var p := Pair(key, m[key]);
    var at := Position(pl, p);
    pl' := pl[..at] + ([p] + pl[at..]);
    InsertedDescending(pl, at, p);
    InsertedKeys(pl, at, p);
    InsertedPairs(pl, at, p);
  }

  lemma InsertedPairs(pl: seq<Pair>, at: nat, p: Pair)
    requires at <= |pl|
    ensures forall q | q in InsertedAt(pl, at, p) :: q == p || q in pl
  {
  }

  method Position(pl: seq<Pair>, p: Pair) returns (at: nat)
    requires Descending(pl)
    ensures at <= |pl|
    ensures forall i | 0 <= i < at :: pl[i].value >= p.value
    ensures forall i | at <= i < |pl| :: pl[i].value <= p.value
  {
    at := 0;
    while at < |pl| && pl[at].value >= p.value
      invariant at <= |pl| && forall i | 0 <= i < at :: pl[i].value >= p.value
    {
      at := at + 1;
    }
  }

  // ---------------------------------------------------------------------------
  // The report

  /** The share of `v` in `total`, with the conversions to 64 and 32 bits written out. */
  function Percent(v: nat, total: nat): nat
    requires total > 0
  {
    Wrap(v * 100) / total % UINT32
  }

  predicate Selected(top: set<string>, m: map<string, nat>) {
    && top <= m.Keys
    && |top| == (if |m| < 10 then |m| else 10)
    && (forall k, u | k in top && u in m && u !in top :: m[u] <= m[k])
  }

  /** Ten sources (or all of them), none outranked by a source left out, with their shares. */
  predicate IsTop10(top: map<string, nat>, m: map<string, nat>, total: nat)
    requires total > 0
  {
    Selected(top.Keys, m) && HasShares(top, m, total)
  }

  predicate HasShares(top: map<string, nat>, m: map<string, nat>, total: nat)
    requires total > 0
  {
    forall k | k in top :: k in m && top[k] == Percent(m[k], total)
  }

  lemma ShareStored(top: map<string, nat>, m: map<string, nat>, total: nat, k: string)
    requires total > 0 && HasShares(top, m, total) && k in m
    ensures HasShares(top[k := Percent(m[k], total)], m, total)
  {
  }

  /** A ranking has no key twice, so a prefix has as many keys as pairs. */
  lemma PrefixCount(pl: seq<Pair>, m: map<string, nat>, n: nat)
    requires IsRanking(pl, m.Keys, m) && n <= |pl|
    ensures |KeysOf(pl[..n])| == n && KeysOf(pl[..n]) <= m.Keys
  {
    KeysSplit(pl, n);
    KeysAtMost(pl[..n]);
    KeysAtMost(pl[n..]);
  }

  lemma PrefixSelected(pl: seq<Pair>, m: map<string, nat>, n: nat)
    requires IsRanking(pl, m.Keys, m) && n == if |m| < 10 then |m| else 10
    ensures Selected(KeysOf(pl[..n]), m)
  {
    PrefixCount(pl, m, n);
    forall k, u | k in KeysOf(pl[..n]) && u in m && u !in KeysOf(pl[..n]) ensures m[u] <= m[k] {
      LeftOutIsLower(pl, m, n, k, u);
    }
  }

  lemma LeftOutIsLower(pl: seq<Pair>, m: map<string, nat>, n: nat, k: string, u: string)
    requires IsRanking(pl, m.Keys, m) && n <= |pl|
    requires k in KeysOf(pl[..n]) && u in m && u !in KeysOf(pl[..n])
    ensures k in m && m[u] <= m[k]
  {
    var p :| p in pl[..n] && p.key == k;
    var i :| 0 <= i < n && pl[i] == p;
    KeysSplit(pl, n);
    var q :| q in pl[n..] && q.key == u;
    var j :| n <= j < |pl| && pl[j] == q;
    assert p in pl && q in pl && p.value >= q.value;
  }

  lemma PercentBound(v: nat, total: nat)
    requires total > 0
    ensures Fair(total, Percent(v, total), v)
    ensures v <= total && v * 100 < UINT64 ==> Percent(v, total) == v * 100 / total
  {
    var w := Wrap(v * 100);
    ModBelow(v * 100, UINT64);
    DivBound(w, total);
    ModBelow(w / total, UINT32);
    MulMono(total, Percent(v, total), w / total);
    if v <= total && v * 100 < UINT64 {
      ShareBound(v, total);
    }
  }

  lemma DivBound(a: nat, b: nat)
    requires b > 0
    ensures b * (a / b) <= a
  {
  }

  lemma ModBelow(a: nat, b: nat)
    requires b > 0
    ensures a % b <= a
  {
    DivBound(a, b);
  }

  lemma ShareBound(v: nat, total: nat)
    requires total > 0 && v <= total
    ensures v * 100 / total <= 100
  {
    DivBound(v * 100, total);
    if v * 100 / total > 100 {
      MulMono(total, 101, v * 100 / total);
    }
  }

  predicate Fair(total: nat, share: nat, v: nat) {
    total * share <= 100 * v
  }

  lemma FairSum(total: nat, a: nat, x: nat, b: nat, y: nat)
    requires Fair(total, a, x) && Fair(total, b, y)
    ensures Fair(total, a + b, x + y)
  {
    assert total * (a + b) == total * a + total * b;
  }

  predicate AllFair(total: nat, top: map<string, nat>, m: map<string, nat>) {
    top.Keys <= m.Keys && forall k | k in top :: Fair(total, top[k], m[k])
  }

  lemma AllFairWithout(total: nat, top: map<string, nat>, m: map<string, nat>, k: string)
    requires AllFair(total, top, m)
    ensures AllFair(total, top - {k}, m - {k})
  {
    forall j | j in top - {k} ensures Fair(total, (top - {k})[j], (m - {k})[j]) {
      assert Fair(total, top[j], m[j]);
    }
  }

  lemma {:induction false} SharesSum(top: map<string, nat>, m: map<string, nat>, total: nat)
    requires AllFair(total, top, m)
    ensures Fair(total, SumOf(top), SumOf(m))
    decreases |top|
  {
    if top == map[] {
      FairNothing(total, SumOf(top), SumOf(m));
    } else {
      var k :| k in top;
      AllFairWithout(total, top, m, k);
      SharesSum(top - {k}, m - {k}, total);
      FairWith(total, top, m, k);
    }
  }

  lemma FairNothing(total: nat, share: nat, v: nat)
    requires share == 0
    ensures Fair(total, share, v)
  {
  }

  lemma FairWith(total: nat, top: map<string, nat>, m: map<string, nat>, k: string)
    requires k in top && k in m && Fair(total, top[k], m[k]) && Fair(total, SumOf(top - {k}), SumOf(m - {k}))
    ensures Fair(total, SumOf(top), SumOf(m))
  {
    SumOfRemove(top, k);
    SumOfRemove(m, k);
    FairSum(total, top[k], m[k], SumOf(top - {k}), SumOf(m - {k}));
  }

  /** The shares of any report add up to at most 100. */
  lemma SharesAtMost100(top: map<string, nat>, m: map<string, nat>)
    requires SumOf(m) > 0 && IsTop10(top, m, SumOf(m))
    ensures SumOf(top) <= 100
  {
    var total := SumOf(m);
    forall k | k in top ensures Fair(total, top[k], m[k]) {
      PercentBound(m[k], total);
    }
    SharesSum(top, m, total);
    Cancel(total, SumOf(top));
  }

  lemma Cancel(total: nat, sum: nat)
    requires total > 0 && Fair(total, sum, total)
    ensures sum <= 100
  {
    if sum > 100 {
      MulMono(total, 101, sum);
    }
  }

  lemma WrapSum(a: nat, b: nat)
    ensures Wrap(Wrap(a) + b) == Wrap(a + b)
    ensures Wrap(Wrap(a + b) - a) == Wrap(b)
  {
  }

  lemma Difference(num: nat, last: nat, interval: nat)
    requires num == Wrap(last + interval)
    ensures Wrap(num - last) == Wrap(interval) && Wrap(num) == num && (interval < UINT64 ==> Wrap(interval) == interval)
  {
    WrapSum(last, interval);
  }

  function Bytes(m: map<string, nat>, k: string): nat {
    if k in m then m[k] else 0
  }

  lemma StoreKeepsSum(m: map<string, nat>, k: string, size: nat, interval: nat)
    requires interval < UINT64 ==> SumOf(m) == interval
    ensures interval + size < UINT64 ==> SumOf(m[k := Wrap(Bytes(m, k) + size)]) == interval + size
  {
    SumOfStore(m, k, Wrap(Bytes(m, k) + size));
  }

  class Stats {
    var sourceBytes: map<string, nat>
    var numBytesWrite: nat
    var lastNumBytesWrite: nat
    var top10: map<string, nat>
    // bytes written since the last report
    ghost var interval: nat

    /** The per-source bytes add up to what was written since the last report. */
    ghost predicate Valid()
      reads this
    {
      && numBytesWrite == Wrap(lastNumBytesWrite + interval)
      && (interval < UINT64 ==> SumOf(sourceBytes) == interval)
    }

    constructor ()
      ensures Valid() && interval == 0 && top10 == map[]
    {
      sourceBytes, numBytesWrite, lastNumBytesWrite, top10, interval := map[], 0, 0, map[], 0;
    }

    method UpdateDevInputlogStats(source: string, size: nat)
      requires Valid()
      modifies this
      ensures Valid() && interval == old(interval) + size
      ensures top10 == old(top10) && lastNumBytesWrite == old(lastNumBytesWrite)
      ensures sourceBytes == old(sourceBytes)[source := Wrap(Bytes(old(sourceBytes), source) + size)]
    {
      var b := 0;
      if source in sourceBytes {
        b := sourceBytes[source];
      }
      StoreKeepsSum(sourceBytes, source, size, interval);
      sourceBytes := sourceBytes[source := Wrap(b + size)];
      WrapSum(lastNumBytesWrite + interval, size);
      numBytesWrite := Wrap(numBytesWrite + size);
      interval := interval + size;
    }

    /** The shares are of the 64-bit byte count, which is the interval's when that fits. */
    method GetDevTop10Inputs()
      requires Valid()
      modifies this
      ensures Valid() && numBytesWrite == old(numBytesWrite)
      ensures Wrap(old(interval)) == 0 ==> unchanged(this)
      ensures Wrap(old(interval)) > 0 ==>
                sourceBytes == map[] && interval == 0 && IsTop10(top10, old(sourceBytes), Wrap(old(interval)))
      ensures 0 < old(interval) < UINT64 ==> Wrap(old(interval)) == old(interval) && SumOf(top10) <= 100
    {
      Difference(numBytesWrite, lastNumBytesWrite, interval);
      var total := Wrap(numBytesWrite - lastNumBytesWrite);
      if total == 0 {
        return;
      }
      top10 := Shares(sourceBytes, total);
      lastNumBytesWrite := numBytesWrite;
      sourceBytes := map[];
      interval := 0;
    }
  }

  lemma NextKey(pl: seq<Pair>, i: nat)
    requires i < |pl|
    ensures KeysOf(pl[..i + 1]) == KeysOf(pl[..i]) + {pl[i].key}
  {
    KeysConcat(pl[..i], [pl[i]]);
    KeysOne(pl[i]);
    assert pl[..i + 1] == pl[..i] + [pl[i]];
  }

  method FirstTen(pl: seq<Pair>, m: map<string, nat>, total: nat) returns (top: map<string, nat>, n: nat)
    requires total > 0 && forall p | p in pl :: p.key in m && m[p.key] == p.value
    ensures n == (if |pl| < 10 then |pl| else 10) && top.Keys == KeysOf(pl[..n]) && HasShares(top, m, total)
  {
    top, n := map[], 0;
    while n < |pl| && n < 10
      invariant n <= |pl| && n <= 10
      invariant top.Keys == KeysOf(pl[..n])
      invariant HasShares(top, m, total)
    {
      var p := pl[n];
      assert p in pl;
      NextKey(pl, n);
      ShareStored(top, m, total, p.key);
      top := top[p.key := Percent(p.value, total)];
      n := n + 1;
    }
  }

  method Shares(m: map<string, nat>, total: nat) returns (top: map<string, nat>)
    requires total > 0
    ensures IsTop10(top, m, total)
    ensures total == SumOf(m) ==> SumOf(top) <= 100
  {
    var pl := RankByInputCount(m);
    var n;
    top, n := FirstTen(pl, m, total);
    PrefixSelected(pl, m, n);
    if total == SumOf(m) {
      SharesAtMost100(top, m);
    }
  }
}
