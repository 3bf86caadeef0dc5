/**
 The names of compressed log files: built by gzipFileNameGet
 (pkg/newlog/cmd/doMoveCompressFile.go) and taken apart again by checkDirGZFiles
 (pkg/newlog/cmd/checkKeepQuota.go), which uses the number in the name as the file's key.
 */
module LogNames {
  import opened Common

  // ---------------------------------------------------------------------------
  // Decimal numbers

  predicate IsDigit(c: char) {
    '0' <= c <= '9'
  }

  predicate AllDigits(s: string) {
    forall i | 0 <= i < |s| :: IsDigit(s[i])
  }

  function Itoa(n: nat): (s: string)
    ensures s != "" && AllDigits(s)
  {
    var last := [('0' as int + n % 10) as char];
    if n < 10 then last else Itoa(n / 10) + last
  }

  function Digit(c: char): nat
    requires IsDigit(c)
  {
    c as int - '0' as int
  }

  function Value(s: string): nat
    requires AllDigits(s)
  {
    if s == "" then 0 else Value(s[..|s| - 1]) * 10 + Digit(s[|s| - 1])
  }

  lemma {:induction false} ValueOfItoa(n: nat)
    ensures Value(Itoa(n)) == n
  {
    if n >= 10 {
      ValueOfItoa(n / 10);
      assert Itoa(n)[..|Itoa(n)| - 1] == Itoa(n / 10);
    }
  }

  lemma ItoaInjective(m: nat, n: nat)
    requires Itoa(m) == Itoa(n)
    ensures m == n
  {
    ValueOfItoa(m);
    ValueOfItoa(n);
  }

  // ---------------------------------------------------------------------------
  // Names

  /** The base name of an output file; app files that are not uploaded carry a mark. */
  function GzipFileName(isApp: bool, num: nat, appUUID: string, notUpload: bool): string {
    if isApp then "app." + (if notUpload then "skipTx." else "") + appUUID + ".log." + Itoa(num) + ".gz"
    else "dev.log." + Itoa(num) + ".gz"
  }

  function TrimSuffix(s: string, suffix: string): string {
    if |suffix| <= |s| && s[|s| - |suffix|..] == suffix then s[..|s| - |suffix|] else s
  }

  /** The parts of `s` between the occurrences of `sep`, scanned from the left. */
  function Split(s: string, sep: string): (parts: seq<string>)
    requires sep != ""
    ensures parts != []
    decreases |s|
  {
    if |s| < |sep| then [s]
    else if sep <= s then [""] + Split(s[|sep|..], sep)
    else
      var rest := Split(s[1..], sep);
      [[s[0]] + rest[0]] + rest[1..]
  }

  /** The key of a file in the quota check: what follows ".log." when that occurs once. */
  function FileKey(name: string): Option<string> {
    var parts := Split(TrimSuffix(name, ".gz"), ".log.");
    if |parts| == 2 then Some(parts[1]) else None
  }

  lemma {:induction false} SplitNone(s: string, sep: string)
    requires sep != "" && sep[0] !in s
    ensures Split(s, sep) == [s]
  {
    if |s| >= |sep| {
      assert s[0] in s;
      SplitNone(s[1..], sep);
      assert [s[0]] + s[1..] == s;
    }
  }

  /** A separator that starts nowhere in `a` splits `a + sep + d` right after `a`. */
  lemma {:induction false} SplitOnce(a: string, sep: string, d: string)
    requires sep != "" && sep[0] !in d
    requires forall i | 0 <= i < |a| :: !(sep <= (a + sep + d)[i..])
    ensures Split(a + sep + d, sep) == [a, d]
    decreases |a|
  {
    var s := a + sep + d;
    if a == "" {
      assert s[|sep|..] == d;
      SplitNone(d, sep);
    } else {
      assert s == s[0..];
      assert s[1..] == a[1..] + sep + d;
      forall i | 0 <= i < |a[1..]| ensures !(sep <= (a[1..] + sep + d)[i..]) {
        assert (a[1..] + sep + d)[i..] == s[i + 1..];
      }
      SplitOnce(a[1..], sep, d);
      assert [s[0]] + a[1..] == a;
    }
  }

  lemma TrimGz(stem: string)
    ensures TrimSuffix(stem + ".gz", ".gz") == stem
  {
  }

  /** A dot starts ".log." only if the four characters after it say so. */
  lemma NotHere(s: string, i: nat)
    requires i < |s|
    requires s[i] != '.' || |s| <= i + 4 || s[i + 1] != 'l' || s[i + 2] != 'o' || s[i + 3] != 'g' || s[i + 4] != '.'
    ensures !(".log." <= s[i..])
  {
    var sep := ".log.";
    assert |sep| == 5 && sep[0] == '.' && sep[1] == 'l' && sep[2] == 'o' && sep[3] == 'g' && sep[4] == '.';
  }

  lemma DeviceKey(num: nat)
    ensures FileKey(GzipFileName(false, num, "", false)) == Some(Itoa(num))
  {
    var d := Itoa(num);
    assert "dev.log." + d + ".gz" == ("dev" + ".log." + d) + ".gz";
    TrimGz("dev" + ".log." + d);
    forall i | 0 <= i < 3 ensures !(".log." <= ("dev" + ".log." + d)[i..]) {
      NotHere("dev" + ".log." + d, i);
    }
    SplitOnce("dev", ".log.", d);
  }

  /** App names work for every identifier without a dot, except the word "log" itself. */
  lemma AppKey(num: nat, uuid: string, notUpload: bool)
    requires '.' !in uuid && uuid != "log"
    ensures FileKey(GzipFileName(true, num, uuid, notUpload)) == Some(Itoa(num))
  {
    var d := Itoa(num);
    var prefix := "app." + if notUpload then "skipTx." else "";
    var a := prefix + uuid;
    assert GzipFileName(true, num, uuid, notUpload) == (a + ".log." + d) + ".gz";
    TrimGz(a + ".log." + d);
    var s := a + ".log." + d;
    forall i | 0 <= i < |a| ensures !(".log." <= s[i..]) {
      if i >= |prefix| {
        assert s[i] == uuid[i - |prefix|] && s[i] in uuid;
      } else if i == |prefix| - 1 {
        AppPrefixDot(prefix, uuid, d);
      }
      NotHere(s, i);
    }
    SplitOnce(a, ".log.", d);
  }

  lemma AppPrefixDot(prefix: string, uuid: string, d: string)
    requires '.' !in uuid && uuid != "log" && prefix != ""
    ensures var s, i := prefix + uuid + ".log." + d, |prefix| - 1;
            s[i + 1] != 'l' || s[i + 2] != 'o' || s[i + 3] != 'g' || s[i + 4] != '.'
  {
    var s, n := prefix + uuid + ".log." + d, |prefix|;
    assert s[n..] == uuid + ".log." + d;
    if |uuid| >= 4 {
      assert s[n + 3] == uuid[3] && uuid[3] in uuid;
    } else if |uuid| == 3 {
      assert s[n] == uuid[0] && s[n + 1] == uuid[1] && s[n + 2] == uuid[2];
      assert uuid == [uuid[0], uuid[1], uuid[2]];
    } else {
      assert s[n + |uuid|] == '.';
    }
  }

  // ---------------------------------------------------------------------------
  // The order of keys

  /** Strings compared character by character, as sort.Strings does. */
  predicate LexLeq(a: string, b: string) {
    a == "" || (b != "" && (a[0] < b[0] || (a[0] == b[0] && LexLeq(a[1..], b[1..]))))
  }

  function Pow10(n: nat): (p: nat)
    ensures p > 0
  {
    if n == 0 then 1 else 10 * Pow10(n - 1)
  }

  lemma {:induction false} ValueBound(s: string)
    requires AllDigits(s)
    ensures Value(s) < Pow10(|s|)
  {
    if s != "" {
      ValueBound(s[..|s| - 1]);
    }
  }

  lemma {:induction false} ValueByHead(s: string)
    requires s != "" && AllDigits(s)
    ensures Value(s) == Digit(s[0]) * Pow10(|s| - 1) + Value(s[1..])
  {
    if |s| == 1 {
      assert s[..0] == "" && s[1..] == "";
    } else {
      var front := s[..|s| - 1];
      ValueByHead(front);
      assert front[1..] == s[1..][..|s| - 2];
      TimesTen(Digit(s[0]), Pow10(|s| - 2));
    }
  }

  lemma TimesTen(x: nat, p: nat)
    ensures x * (10 * p) == x * p * 10
  {
  }

  /** Among keys of one length, alphabetical order is numerical order: the oldest file is first. */
  lemma {:induction false} LexIsNumeric(a: string, b: string)
    requires AllDigits(a) && AllDigits(b) && |a| == |b|
    ensures LexLeq(a, b) <==> Value(a) <= Value(b)
  {
    if a != "" {
      ValueByHead(a);
      ValueByHead(b);
      ValueBound(a[1..]);
      ValueBound(b[1..]);
      var p, x, y := Pow10(|a| - 1), Digit(a[0]), Digit(b[0]);
      if x < y {
        HeadDecides(p, x, y);
      } else if y < x {
        HeadDecides(p, y, x);
      } else {
        LexIsNumeric(a[1..], b[1..]);
      }
    }
  }

  lemma HeadDecides(p: nat, x: nat, y: nat)
    requires x < y
    ensures x * p + p <= y * p
  {
    MulMono(p, x + 1, y);
    assert p * (x + 1) == x * p + p;
  }

  /** Alphabetical order looks at no more characters than the shorter key has. */
  lemma {:induction false} LexByPrefix(a: string, b: string)
    requires |a| <= |b|
    ensures LexLeq(a, b) <==> LexLeq(a, b[..|a|])
  {
    if a != "" {
      LexByPrefix(a[1..], b[1..]);
      assert b[..|a|][1..] == b[1..][..|a[1..]|];
    }
  }

  /** A shorter key comes first exactly when its number is at most that of the longer one's leading digits. */
  lemma LexIsLeadingDigits(a: string, b: string)
    requires AllDigits(a) && AllDigits(b) && |a| <= |b|
    ensures LexLeq(a, b) <==> Value(a) <= Value(b[..|a|])
  {
    LexByPrefix(a, b);
    LexIsNumeric(a, b[..|a|]);
  }

  /** The leading digits of a number are the number divided by a power of ten. */
  lemma {:induction false} LeadingDigits(s: string, k: nat)
    requires AllDigits(s) && k <= |s|
    ensures Value(s[..k]) == Value(s) / Pow10(|s| - k)
    decreases |s| - k
  {
    if k == |s| {
      assert s[..k] == s;
    } else {
      LeadingDigits(s, k + 1);
      assert s[..k + 1][..k] == s[..k];
      DivideOnce(Value(s), Pow10(|s| - k - 1), Value(s[..k]), Digit(s[k]));
    }
  }

  lemma DivideOnce(v: nat, p: nat, q: nat, d: nat)
    requires p > 0 && v / p == q * 10 + d && d < 10
    ensures v / (10 * p) == q
  {
    var r := v % p;
    assert v == p * (q * 10 + d) + r && r < p;
    Regroup(p, q, d);
    QuotientIs(v, 10 * p, q, p * d + r);
  }

  lemma Regroup(p: nat, q: nat, d: nat)
    requires d < 10
    ensures p * (q * 10 + d) == (10 * p) * q + p * d
    ensures p * d + p <= 10 * p
  {
    HeadDecides(p, d, 10);
  }

  lemma QuotientIs(v: nat, p: nat, q: nat, r: nat)
    requires p > 0 && v == p * q + r && r < p
    ensures v / p == q
  {
    var q' := v / p;
    assert v == p * q' + v % p;
    if q' < q {
      HeadDecides(p, q', q);
    } else if q < q' {
      HeadDecides(p, q, q');
    }
  }

  /** A larger number is not shorter. */
  lemma {:induction false} LargerIsLonger(m: nat, n: nat)
    requires m <= n
    ensures |Itoa(m)| <= |Itoa(n)|
  {
    if m >= 10 {
      LargerIsLonger(m / 10, n / 10);
    }
  }

  lemma AgeOrderByDigits(m: nat, n: nat)
    requires m <= n
    ensures |Itoa(m)| <= |Itoa(n)|
    ensures LexLeq(Itoa(m), Itoa(n)) <==> m <= Value(Itoa(n)[..|Itoa(m)|])
  {
    LargerIsLonger(m, n);
    LexIsLeadingDigits(Itoa(m), Itoa(n));
    ValueOfItoa(m);
  }

  lemma LeadingDigitsOf(n: nat, k: nat)
    requires k <= |Itoa(n)|
    ensures Value(Itoa(n)[..k]) == n / Pow10(|Itoa(n)| - k)
  {
    LeadingDigits(Itoa(n), k);
    ValueOfItoa(n);
  }

  lemma SameLengthInOrder(m: nat, n: nat)
    requires m <= n && |Itoa(m)| == |Itoa(n)|
    ensures LexLeq(Itoa(m), Itoa(n))
  {
    AgeOrderByDigits(m, n);
    ValueOfItoa(n);
    assert Itoa(n)[..|Itoa(n)|] == Itoa(n);
  }

  /**
   The keys of two numbers are in age order exactly when the older number is at most the leading
   digits of the newer one: always for numbers of one length, and else only if it is that small.
   */
  lemma AgeOrderExactly(m: nat, n: nat)
    requires m <= n
    ensures |Itoa(m)| <= |Itoa(n)|
    ensures LexLeq(Itoa(m), Itoa(n)) <==> m <= n / Pow10(|Itoa(n)| - |Itoa(m)|)
    ensures |Itoa(m)| == |Itoa(n)| ==> LexLeq(Itoa(m), Itoa(n))
  {
    AgeOrderByDigits(m, n);
    LeadingDigitsOf(n, |Itoa(m)|);
    if |Itoa(m)| == |Itoa(n)| {
      SameLengthInOrder(m, n);
    }
  }

  /** So 9 sorts behind 10. */
  lemma AgeOrderFails()
    ensures !LexLeq(Itoa(9), Itoa(10))
  {
    assert Itoa(10) == Itoa(1) + "0";
    assert |Itoa(9)| == 1 && |Itoa(10)| == 2 && Pow10(1) == 10;
    AgeOrderExactly(9, 10);
  }
}
