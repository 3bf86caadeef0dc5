/**
 The TPM event log of pkg/measure-config/src/measurefs.go: events in the "Crypto Agile Log
 Entry Format" of section 5.2 of the TCG EFI Protocol Specification, marshalled one after the
 other, and a decoder for that layout.
 */
module EventLog {
  import opened Common

  newtype byte = x: int | 0 <= x < 256
  newtype uint16 = x: int | 0 <= x < 0x1_0000
  newtype uint32 = x: int | 0 <= x < 0x1_0000_0000

  datatype TpmtHa = TpmtHa(hashAlg: uint16, digestData: seq<byte>)

  datatype TpmlDigestValues = TpmlDigestValues(count: uint32, digests: seq<TpmtHa>)

  datatype TcgPcrEvent2 = TcgPcrEvent2(
    pcrIndex: uint32,
    eventType: uint32,
    digest: TpmlDigestValues,
    eventSize: uint32,
    event: seq<byte>)

  // ---------------------------------------------------------------------------
  // The encoding

  function Le16(v: uint16): (s: seq<byte>)
    ensures |s| == 2
  {
    [(v % 256) as byte, (v / 256) as byte]
  }

  function Le32(v: uint32): (s: seq<byte>)
    ensures |s| == 4
  {
    [(v % 256) as byte, (v / 256 % 256) as byte, (v / 256 / 256 % 256) as byte, (v / 256 / 256 / 256) as byte]
  }

  function ConcatMap<T>(f: T -> seq<byte>, xs: seq<T>): seq<byte> {
    if xs == [] then [] else f(xs[0]) + ConcatMap(f, xs[1..])
  }

  lemma {:induction false} ConcatMapConcat<T>(f: T -> seq<byte>, a: seq<T>, b: seq<T>)
    ensures ConcatMap(f, a + b) == ConcatMap(f, a) + ConcatMap(f, b)
  {
    if a == [] {
      assert a + b == b;
    } else {
      ConcatMapConcat(f, a[1..], b);
      assert (a + b)[1..] == a[1..] + b && (a + b)[0] == a[0];
      Regroup(f(a[0]), ConcatMap(f, a[1..]), ConcatMap(f, b));
    }
  }

  lemma Regroup(x: seq<byte>, y: seq<byte>, z: seq<byte>)
    ensures x + (y + z) == x + y + z
  {
  }

  /** The next element is encoded right behind the ones before it, and inside the whole. */
  lemma ConcatMapNext<T>(f: T -> seq<byte>, xs: seq<T>, i: nat)
    requires i < |xs|
    ensures ConcatMap(f, xs[..i + 1]) == ConcatMap(f, xs[..i]) + f(xs[i])
    ensures |ConcatMap(f, xs[..i + 1])| <= |ConcatMap(f, xs)|
  {
    assert xs[..i + 1] == xs[..i] + [xs[i]] && xs[..i + 1] + xs[i + 1..] == xs;
    ConcatMapConcat(f, xs[..i], [xs[i]]);
    assert ConcatMap(f, [xs[i]]) == f(xs[i]) + [];
    ConcatMapConcat(f, xs[..i + 1], xs[i + 1..]);
  }

  function EncodeHa(d: TpmtHa): seq<byte> {
    Le16(d.hashAlg) + d.digestData
  }

  function EncodeHas(ds: seq<TpmtHa>): seq<byte> {
    ConcatMap(EncodeHa, ds)
  }

  function EncodeDigests(d: TpmlDigestValues): seq<byte> {
    Le32(d.count) + EncodeHas(d.digests)
  }

  function EncodeEvent(e: TcgPcrEvent2): seq<byte> {
    Le32(e.pcrIndex) + Le32(e.eventType) + EncodeDigests(e.digest) + Le32(e.eventSize) + e.event
  }

  function EncodeLog(events: seq<TcgPcrEvent2>): seq<byte> {
    ConcatMap(EncodeEvent, events)
  }

  // ---------------------------------------------------------------------------
  // Marshalling into buffers

  /** Go's built-in copy: what fits, and nothing else changes. */
  method Copy(buffer: array<byte>, offset: nat, src: seq<byte>)
    requires offset <= buffer.Length
    modifies buffer
    ensures var n := if |src| < buffer.Length - offset then |src| else buffer.Length - offset;
            buffer[..] == old(buffer[..offset]) + src[..n] + old(buffer[offset + n..])
  {
    var n := if |src| < buffer.Length - offset then |src| else buffer.Length - offset;
    forall i | 0 <= i < n {
      buffer[offset + i] := src[i];
    }
  }

  predicate Starts(buffer: array<byte>, s: seq<byte>)
    reads buffer
  {
    |s| <= buffer.Length && buffer[..|s|] == s
  }

  lemma StartsAll(buffer: array<byte>, s: seq<byte>)
    requires Starts(buffer, s) && |s| == buffer.Length
    ensures buffer[..] == s
  {
  }

  /** A copy that fits extends the written part. */
  method Append(buffer: array<byte>, offset: nat, src: seq<byte>, ghost done: seq<byte>)
    requires Starts(buffer, done) && offset == |done| && offset + |src| <= buffer.Length
    modifies buffer
    ensures Starts(buffer, done + src)
  {
    Copy(buffer, offset, src);
    assert buffer[..offset + |src|] == buffer[..][..offset + |src|];
  }

  method SizeHa(d: TpmtHa) returns (size: nat)
    ensures size == |EncodeHa(d)|
  {
    size := 2 + |d.digestData|;
  }

  method SizeDigests(d: TpmlDigestValues) returns (size: nat)
    ensures size == |EncodeDigests(d)|
  {
    size := 4;
    for i := 0 to |d.digests|
      invariant size == 4 + |EncodeHas(d.digests[..i])|
    {
      var n := SizeHa(d.digests[i]);
      ConcatMapNext(EncodeHa, d.digests, i);
      size := size + n;
    }
    assert d.digests[..|d.digests|] == d.digests;
  }

  method SizeEvent(e: TcgPcrEvent2) returns (size: nat)
    ensures size == |EncodeEvent(e)|
  {
    var n := SizeDigests(e.digest);
    size := 4 + 4 + n + 4 + |e.event|;
  }

  method MarshalHa(d: TpmtHa) returns (buffer: array<byte>)
    ensures fresh(buffer) && buffer[..] == EncodeHa(d)
  {
    var size := SizeHa(d);
    buffer := new byte[size](_ => 0);
    Append(buffer, 0, Le16(d.hashAlg), []);
    Append(buffer, 2, d.digestData, [] + Le16(d.hashAlg));
    StartsAll(buffer, [] + Le16(d.hashAlg) + d.digestData);
  }

  method MarshalDigests(d: TpmlDigestValues) returns (buffer: array<byte>)
    ensures fresh(buffer) && buffer[..] == EncodeDigests(d)
  {
    var size := SizeDigests(d);
    buffer := new byte[size](_ => 0);
    Append(buffer, 0, Le32(d.count), []);
    assert [] + Le32(d.count) == Le32(d.count);
    AppendHas(buffer, 4, d.digests, Le32(d.count));
    StartsAll(buffer, EncodeDigests(d));
  }

  method AppendHas(buffer: array<byte>, start: nat, ds: seq<TpmtHa>, ghost head: seq<byte>)
    requires Starts(buffer, head) && start == |head| && start + |EncodeHas(ds)| <= buffer.Length
    modifies buffer
    ensures Starts(buffer, head + EncodeHas(ds))
  {
    var offset := start;
    ghost var done := head;
    assert head == head + EncodeHas(ds[..0]);
    for i := 0 to |ds|
      invariant done == head + EncodeHas(ds[..i])
      invariant offset == |done| && Starts(buffer, done)
    {
      ConcatMapNext(EncodeHa, ds, i);
      offset := AppendHa(buffer, offset, ds[i], done);
      done := done + EncodeHa(ds[i]);
    }
    assert ds[..|ds|] == ds;
  }

  method AppendHa(buffer: array<byte>, offset: nat, d: TpmtHa, ghost done: seq<byte>) returns (offset': nat)
    requires Starts(buffer, done) && offset == |done| && offset + |EncodeHa(d)| <= buffer.Length
    modifies buffer
    ensures offset' == offset + |EncodeHa(d)| && Starts(buffer, done + EncodeHa(d))
  {
    var digestBytes := MarshalHa(d);
    Append(buffer, offset, digestBytes[..], done);
    offset' := offset + digestBytes.Length;
  }

  method MarshalEvent(e: TcgPcrEvent2) returns (buffer: array<byte>)
    ensures fresh(buffer) && buffer[..] == EncodeEvent(e)
  {
    var size := SizeEvent(e);
    buffer := new byte[size](_ => 0);
    var offset := MarshalNumbers(buffer, e.pcrIndex, e.eventType);
    ghost var done := Le32(e.pcrIndex) + Le32(e.eventType);
    var digestBytes := MarshalDigests(e.digest);
    Append(buffer, offset, digestBytes[..], done);
    done := done + EncodeDigests(e.digest);
    offset := offset + digestBytes.Length;
    Append(buffer, offset, Le32(e.eventSize), done);
    done := done + Le32(e.eventSize);
    offset := offset + 4;
    Append(buffer, offset, e.event, done);
    StartsAll(buffer, done + e.event);
  }

  method MarshalNumbers(buffer: array<byte>, pcrIndex: uint32, eventType: uint32) returns (offset: nat)
    requires buffer.Length >= 8
    modifies buffer
    ensures offset == 8 && Starts(buffer, Le32(pcrIndex) + Le32(eventType))
  {
    offset := 0;
    Append(buffer, offset, Le32(pcrIndex), []);
    assert [] + Le32(pcrIndex) == Le32(pcrIndex);
    offset := offset + 4;
    Append(buffer, offset, Le32(eventType), Le32(pcrIndex));
    offset := offset + 4;
  }

  /** The loop of main that concatenates the marshalled events. */
  method WriteLog(events: seq<TcgPcrEvent2>) returns (eventLog: seq<byte>)
    ensures eventLog == EncodeLog(events)
  {
    eventLog := [];
    for i := 0 to |events|
      invariant eventLog == EncodeLog(events[..i])
    {
      var eventBytes := MarshalEvent(events[i]);
      ConcatMapNext(EncodeEvent, events, i);
      eventLog := eventLog + eventBytes[..];
    }
    assert events[..|events|] == events;
  }

  // ---------------------------------------------------------------------------
  // The decoder

  function GetLe16(s: seq<byte>): uint16
    requires |s| >= 2
  {
    s[0] as uint16 + 256 * (s[1] as uint16)
  }

  function GetLe32(s: seq<byte>): uint32
    requires |s| >= 4
  {
    s[0] as uint32 + 256 * (s[1] as uint32 + 256 * (s[2] as uint32 + 256 * (s[3] as uint32)))
  }

  /** Digest sizes of the algorithms a log may name: SHA-1, SHA-256, SHA-384, SHA-512 and SM3-256. */
  function DigestSize(alg: uint16): Option<nat> {
    if alg == 0x4 then Some(20)
    else if alg == 0xb || alg == 0x12 then Some(32)
    else if alg == 0xc then Some(48)
    else if alg == 0xd then Some(64)
    else None
  }

  function DecodeHa(s: seq<byte>): (r: Option<(TpmtHa, seq<byte>)>)
    ensures r.Some? ==> |r.value.1| < |s|
  {
    if |s| < 2 then None
    else
      var alg, rest := GetLe16(s), s[2..];
      match DigestSize(alg)
      case None => None
      case Some(n) => if |rest| < n then None else Some((TpmtHa(alg, rest[..n]), rest[n..]))
  }

  function DecodeHas(count: nat, s: seq<byte>): (r: Option<(seq<TpmtHa>, seq<byte>)>)
    ensures r.Some? ==> |r.value.1| <= |s|
    decreases count
  {
    if count == 0 then Some(([], s))
    else
      match DecodeHa(s)
      case None => None
      case Some((d, rest)) =>
        match DecodeHas(count - 1, rest)
        case None => None
        case Some((ds, rest')) => Some(([d] + ds, rest'))
  }

  function DecodeDigests(s: seq<byte>): (r: Option<(TpmlDigestValues, seq<byte>)>)
    ensures r.Some? ==> |r.value.1| < |s|
  {
    if |s| < 4 then None
    else
      match DecodeHas(GetLe32(s) as nat, s[4..])
      case None => None
      case Some((ds, rest)) => Some((TpmlDigestValues(GetLe32(s), ds), rest))
  }

  function DecodeData(s: seq<byte>): (r: Option<(uint32, seq<byte>, seq<byte>)>)
    ensures r.Some? ==> |r.value.2| < |s|
  {
    if |s| < 4 then None
    else
      var n, rest := GetLe32(s), s[4..];
      if |rest| < n as int then None else Some((n, rest[..n], rest[n..]))
  }

  function DecodeEvent(s: seq<byte>): (r: Option<(TcgPcrEvent2, seq<byte>)>)
    ensures r.Some? ==> |r.value.1| < |s|
  {
    if |s| < 8 then None
    else
      match DecodeDigests(s[4..][4..])
      case None => None
      case Some((digest, rest)) =>
        match DecodeData(rest)
        case None => None
        case Some((n, data, rest')) => Some((TcgPcrEvent2(GetLe32(s), GetLe32(s[4..]), digest, n, data), rest'))
  }

  function DecodeLog(s: seq<byte>): Option<seq<TcgPcrEvent2>>
    decreases |s|
  {
    if s == [] then Some([])
    else
      match DecodeEvent(s)
      case None => None
      case Some((e, rest)) =>
        match DecodeLog(rest)
        case None => None
        case Some(es) => Some([e] + es)
  }

  // ---------------------------------------------------------------------------
  // Decoding undoes encoding, and nothing else decodes

  /** The counts and lengths an event carries are those of its contents. */
  predicate WellFormedHa(d: TpmtHa) {
    DigestSize(d.hashAlg) == Some(|d.digestData|)
  }

  predicate WellFormedHas(ds: seq<TpmtHa>) {
    forall i | 0 <= i < |ds| :: WellFormedHa(ds[i])
  }

  predicate WellFormed(e: TcgPcrEvent2) {
    && e.digest.count as int == |e.digest.digests| && WellFormedHas(e.digest.digests)
    && e.eventSize as int == |e.event|
  }

  lemma Le16Inverse(v: uint16, rest: seq<byte>)
    ensures GetLe16(Le16(v) + rest) == v && (Le16(v) + rest)[2..] == rest
  {
  }

  lemma Le32Inverse(v: uint32, rest: seq<byte>)
    ensures GetLe32(Le32(v) + rest) == v && (Le32(v) + rest)[4..] == rest
  {
  }

  lemma Le16Canonical(s: seq<byte>)
    requires |s| >= 2
    ensures Le16(GetLe16(s)) + s[2..] == s
  {
  }

  lemma LowByte(a: nat, v: nat)
    requires a < 256
    ensures (a + 256 * v) % 256 == a && (a + 256 * v) / 256 == v
  {
  }

  lemma Le32Canonical(s: seq<byte>)
    requires |s| >= 4
    ensures Le32(GetLe32(s)) + s[4..] == s
  {
    var c := s[2] as nat + 256 * s[3] as nat;
    var b := s[1] as nat + 256 * c;
    LowByte(s[2] as nat, s[3] as nat);
    LowByte(s[1] as nat, c);
    LowByte(s[0] as nat, b);
  }

  lemma HaRoundTrip(d: TpmtHa, rest: seq<byte>)
    requires WellFormedHa(d)
    ensures DecodeHa(EncodeHa(d) + rest) == Some((d, rest))
  {
    Le16Inverse(d.hashAlg, d.digestData + rest);
    assert EncodeHa(d) + rest == Le16(d.hashAlg) + (d.digestData + rest);
    assert (d.digestData + rest)[..|d.digestData|] == d.digestData && (d.digestData + rest)[|d.digestData|..] == rest;
  }

  lemma HaCanonical(s: seq<byte>)
    requires DecodeHa(s).Some?
    ensures var (d, rest) := DecodeHa(s).value; WellFormedHa(d) && s == EncodeHa(d) + rest
  {
    Le16Canonical(s);
    var (d, rest) := DecodeHa(s).value;
    assert s[2..] == d.digestData + rest;
    assert EncodeHa(d) + rest == Le16(d.hashAlg) + (d.digestData + rest);
  }

  lemma {:induction false} HasRoundTrip(ds: seq<TpmtHa>, rest: seq<byte>)
    requires WellFormedHas(ds)
    ensures DecodeHas(|ds|, EncodeHas(ds) + rest) == Some((ds, rest))
  {
    if ds == [] {
      assert EncodeHas(ds) + rest == rest;
    } else {
      assert EncodeHas(ds) + rest == EncodeHa(ds[0]) + (EncodeHas(ds[1..]) + rest);
      HaRoundTrip(ds[0], EncodeHas(ds[1..]) + rest);
      HasRoundTrip(ds[1..], rest);
      assert [ds[0]] + ds[1..] == ds;
    }
  }

  lemma {:induction false} HasCanonical(count: nat, s: seq<byte>)
    requires DecodeHas(count, s).Some?
    ensures var (ds, rest) := DecodeHas(count, s).value;
            |ds| == count && WellFormedHas(ds) && s == EncodeHas(ds) + rest
  {
    if count == 0 {
      assert s == [] + s;
    } else {
      HaCanonical(s);
      var (d, rest) := DecodeHa(s).value;
      HasCanonical(count - 1, rest);
      var (ds, rest') := DecodeHas(count - 1, rest).value;
      HasCons(d, ds, rest');
      assert WellFormedHas([d] + ds);
    }
  }

  lemma HasCons(d: TpmtHa, ds: seq<TpmtHa>, rest: seq<byte>)
    ensures EncodeHas([d] + ds) + rest == EncodeHa(d) + (EncodeHas(ds) + rest)
  {
    assert ([d] + ds)[1..] == ds && ([d] + ds)[0] == d;
    Regroup(EncodeHa(d), EncodeHas(ds), rest);
  }

  lemma DigestsRoundTrip(d: TpmlDigestValues, rest: seq<byte>)
    requires d.count as int == |d.digests| && WellFormedHas(d.digests)
    ensures DecodeDigests(EncodeDigests(d) + rest) == Some((d, rest))
  {
    assert EncodeDigests(d) + rest == Le32(d.count) + (EncodeHas(d.digests) + rest);
    Le32Inverse(d.count, EncodeHas(d.digests) + rest);
    HasRoundTrip(d.digests, rest);
  }

  lemma DigestsCanonical(s: seq<byte>)
    requires DecodeDigests(s).Some?
    ensures var (d, rest) := DecodeDigests(s).value;
            d.count as int == |d.digests| && WellFormedHas(d.digests) && s == EncodeDigests(d) + rest
  {
    Le32Canonical(s);
    HasCanonical(GetLe32(s) as nat, s[4..]);
    var (d, rest) := DecodeDigests(s).value;
    assert EncodeDigests(d) + rest == Le32(d.count) + (EncodeHas(d.digests) + rest);
  }

  lemma DataRoundTrip(n: uint32, data: seq<byte>, rest: seq<byte>)
    requires n as int == |data|
    ensures DecodeData(Le32(n) + data + rest) == Some((n, data, rest))
  {
    assert Le32(n) + data + rest == Le32(n) + (data + rest);
    Le32Inverse(n, data + rest);
    assert (data + rest)[..|data|] == data && (data + rest)[|data|..] == rest;
  }

  lemma DataCanonical(s: seq<byte>)
    requires DecodeData(s).Some?
    ensures var (n, data, rest) := DecodeData(s).value; n as int == |data| && s == Le32(n) + data + rest
  {
    Le32Canonical(s);
    var (n, data, rest) := DecodeData(s).value;
    assert s[4..] == data + rest;
    assert Le32(n) + data + rest == Le32(n) + (data + rest);
  }

  function Tail(e: TcgPcrEvent2): seq<byte> {
    EncodeDigests(e.digest) + (Le32(e.eventSize) + e.event)
  }

  lemma EventShape(e: TcgPcrEvent2, rest: seq<byte>)
    ensures EncodeEvent(e) + rest == Le32(e.pcrIndex) + (Le32(e.eventType) + (Tail(e) + rest))
    ensures Tail(e) + rest == EncodeDigests(e.digest) + (Le32(e.eventSize) + e.event + rest)
  {
  }

  lemma EventRoundTrip(e: TcgPcrEvent2, rest: seq<byte>)
    requires WellFormed(e)
    ensures DecodeEvent(EncodeEvent(e) + rest) == Some((e, rest))
  {
    EventShape(e, rest);
    Le32Inverse(e.pcrIndex, Le32(e.eventType) + (Tail(e) + rest));
    Le32Inverse(e.eventType, Tail(e) + rest);
    DigestsRoundTrip(e.digest, Le32(e.eventSize) + e.event + rest);
    DataRoundTrip(e.eventSize, e.event, rest);
  }

  lemma EventCanonical(s: seq<byte>)
    requires DecodeEvent(s).Some?
    ensures var (e, rest) := DecodeEvent(s).value; WellFormed(e) && s == EncodeEvent(e) + rest
  {
    var (e, rest) := DecodeEvent(s).value;
    Le32Canonical(s);
    Le32Canonical(s[4..]);
    DigestsCanonical(s[4..][4..]);
    DataCanonical(DecodeDigests(s[4..][4..]).value.1);
    EventShape(e, rest);
  }

  predicate AllWellFormed(es: seq<TcgPcrEvent2>) {
    forall i | 0 <= i < |es| :: WellFormed(es[i])
  }

  lemma OneMoreEvent(e: TcgPcrEvent2, rest: seq<byte>, es: seq<TcgPcrEvent2>)
    requires WellFormed(e) && DecodeLog(rest) == Some(es)
    ensures DecodeLog(EncodeEvent(e) + rest) == Some([e] + es)
  {
    EventRoundTrip(e, rest);
    assert |EncodeEvent(e) + rest| > 0;
  }

  lemma {:induction false} LogRoundTrip(es: seq<TcgPcrEvent2>)
    requires AllWellFormed(es)
    ensures DecodeLog(EncodeLog(es)) == Some(es)
  {
    if es != [] {
      LogRoundTrip(es[1..]);
      OneMoreEvent(es[0], EncodeLog(es[1..]), es[1..]);
      assert [es[0]] + es[1..] == es;
    }
  }

  lemma {:induction false} LogCanonical(s: seq<byte>)
    requires DecodeLog(s).Some?
    ensures AllWellFormed(DecodeLog(s).value) && EncodeLog(DecodeLog(s).value) == s
    decreases |s|
  {
    if s != [] {
      EventCanonical(s);
      var (e, rest) := DecodeEvent(s).value;
      LogCanonical(rest);
      var es := DecodeLog(rest).value;
      assert ([e] + es)[1..] == es;
    }
  }

  /** A log decodes back to its events exactly when every event is well formed. */
  lemma LogInvertibleExactly(es: seq<TcgPcrEvent2>)
    ensures DecodeLog(EncodeLog(es)) == Some(es) <==> AllWellFormed(es)
  {
    if AllWellFormed(es) {
      LogRoundTrip(es);
    } else if DecodeLog(EncodeLog(es)) == Some(es) {
      LogCanonical(EncodeLog(es));
    }
  }

  lemma DistinctLogs(a: seq<TcgPcrEvent2>, b: seq<TcgPcrEvent2>)
    requires AllWellFormed(a) && AllWellFormed(b)
    ensures EncodeLog(a) == EncodeLog(b) <==> a == b
  {
    LogRoundTrip(a);
    LogRoundTrip(b);
  }
}
