/** sort.Strings: its result is the one ascending arrangement of the given strings. */
module Sorting {
  import opened LogNames

  predicate Sorted(keys: seq<string>) {
    forall i, j | 0 <= i < j < |keys| :: LexLeq(keys[i], keys[j])
  }

  lemma {:induction false} LexTotal(a: string, b: string)
    ensures LexLeq(a, b) || LexLeq(b, a)
  {
    if a != "" && b != "" {
      LexTotal(a[1..], b[1..]);
    }
  }

  lemma {:induction false} LexTrans(a: string, b: string, c: string)
    requires LexLeq(a, b) && LexLeq(b, c)
    ensures LexLeq(a, c)
  {
    if a != "" && a[0] == b[0] && b[0] == c[0] {
      LexTrans(a[1..], b[1..], c[1..]);
    }
  }

  function Insert(k: string, keys: seq<string>): (r: seq<string>)
    requires Sorted(keys)
    ensures Sorted(r) && multiset(r) == multiset{k} + multiset(keys)
  {
    if keys == [] then [k]
    else if LexLeq(k, keys[0]) then
      FirstIsLeast(k, keys);
      [k] + keys
    else
      LexTotal(k, keys[0]);
      assert keys == [keys[0]] + keys[1..];
      var rest := Insert(k, keys[1..]);
      HeadStaysLeast(keys[0], k, keys[1..], rest);
      [keys[0]] + rest
  }

  lemma FirstIsLeast(k: string, keys: seq<string>)
    requires Sorted(keys) && keys != [] && LexLeq(k, keys[0])
    ensures forall i | 0 <= i < |keys| :: LexLeq(k, keys[i])
  {
    forall i | 0 < i < |keys| ensures LexLeq(k, keys[i]) {
      LexTrans(k, keys[0], keys[i]);
    }
  }

  lemma HeadStaysLeast(head: string, k: string, keys: seq<string>, rest: seq<string>)
    requires LexLeq(head, k) && (forall x | x in keys :: LexLeq(head, x))
    requires multiset(rest) == multiset{k} + multiset(keys)
    ensures forall i | 0 <= i < |rest| :: LexLeq(head, rest[i])
  {
    forall i | 0 <= i < |rest| ensures LexLeq(head, rest[i]) {
      assert rest[i] in multiset(rest);
    }
  }

  function SortStrings(keys: seq<string>): (r: seq<string>)
    ensures Sorted(r) && multiset(r) == multiset(keys)
  {
    if keys == [] then []
    else
      assert keys == keys[..|keys| - 1] + [keys[|keys| - 1]];
      Insert(keys[|keys| - 1], SortStrings(keys[..|keys| - 1]))
  }

  lemma {:induction false} LexAntisymmetric(a: string, b: string)
    requires LexLeq(a, b) && LexLeq(b, a)
    ensures a == b
  {
    if a != "" {
      LexAntisymmetric(a[1..], b[1..]);
      assert a == [a[0]] + a[1..] && b == [b[0]] + b[1..];
    }
  }

  /** Two ascending arrangements of the same strings are the same. */
  lemma {:induction false} SortedUnique(a: seq<string>, b: seq<string>)
    requires Sorted(a) && Sorted(b) && multiset(a) == multiset(b)
    ensures a == b
    decreases |a|
  {
    if a == [] {
      assert |multiset(b)| == 0;
    } else {
      assert |multiset(a)| == |multiset(b)| > 0;
      SameHead(a, b);
      assert a == [a[0]] + a[1..] && b == [b[0]] + b[1..];
      assert multiset(a[1..]) == multiset(a) - multiset{a[0]};
      assert multiset(b[1..]) == multiset(b) - multiset{b[0]};
      SortedUnique(a[1..], b[1..]);
    }
  }

  lemma SameHead(a: seq<string>, b: seq<string>)
    requires Sorted(a) && Sorted(b) && multiset(a) == multiset(b) && a != [] && b != []
    ensures a[0] == b[0]
  {
    assert a[0] in multiset(b) && b[0] in multiset(a);
    var i :| 0 <= i < |b| && b[i] == a[0];
    var j :| 0 <= j < |a| && a[j] == b[0];
    if i != 0 && j != 0 {
      LexAntisymmetric(a[0], b[0]);
    }
  }
}
