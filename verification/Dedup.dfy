/**
 Log deduplication of pkg/newlog/cmd/dedup.go: a ring of the last keys and a map of the keys
 seen.  Evicting a key deletes it from the map even when a newer copy is still in the ring,
 so the map is not the set of keys in the ring; this module says exactly what it is.
 */
module Dedup {
  import opened LogEntries
  import opened Ring

  function DedupField(e: LogEntry): string {
    if e.content == "" then "" else if e.jsonMsg != "" then e.jsonMsg else e.content
  }

  /**
   Two entries are repeats of each other exactly when they share the message inside their JSON
   content or, where there is none, the whole content; without content they share that.
   */
  lemma SameKeyExactly(e: LogEntry, f: LogEntry)
    requires e.content != ""
    ensures f.content == "" ==> DedupField(e) != DedupField(f) && DedupField(f) == ""
    ensures f.content != "" && e.jsonMsg != "" && f.jsonMsg != "" ==> (DedupField(e) == DedupField(f) <==> e.jsonMsg == f.jsonMsg)
    ensures f.content != "" && e.jsonMsg == "" && f.jsonMsg == "" ==> (DedupField(e) == DedupField(f) <==> e.content == f.content)
    ensures f.content != "" && e.jsonMsg != "" && f.jsonMsg == "" ==> (DedupField(e) == DedupField(f) <==> e.jsonMsg == f.content)
  {
  }

  /** The keys in the map after the keys of `h` have been processed with a ring of `n` slots. */
  function SeenAfter(n: nat, h: seq<string>): set<string>
    requires n > 0
  {
    if h == [] then {}
    else
      var front := h[..|h| - 1];
      SeenAfter(n, front) - (if |front| < n then {} else {front[|front| - n]}) + {h[|h| - 1]}
  }

  lemma SeenNext(n: nat, h: seq<string>, k: string)
    requires n > 0
    ensures SeenAfter(n, h + [k]) == SeenAfter(n, h) - (if |h| < n then {} else {h[|h| - n]}) + {k}
  {
    assert (h + [k])[..|h|] == h;
  }

  predicate IsLastAt(h: seq<string>, k: string, p: nat) {
    p < |h| && h[p] == k && forall q | p < q < |h| :: h[q] != k
  }

  /** No copy of `k` left the window since its occurrence at `p` was recorded. */
  predicate NoneEvictedSince(n: nat, h: seq<string>, k: string, p: nat) {
    forall q | 0 <= q && p - n < q < |h| - n :: h[q] != k
  }

  ghost predicate Remembered(n: nat, h: seq<string>, k: string) {
    exists p: nat :: IsLastAt(h, k, p) && NoneEvictedSince(n, h, k, p)
  }

  lemma LastAtFront(h: seq<string>, k: string, p: nat)
    requires h != [] && k != h[|h| - 1]
    ensures IsLastAt(h, k, p) <==> IsLastAt(h[..|h| - 1], k, p)
  {
  }

  /** The map holds a key exactly when that key is remembered. */
  lemma {:induction false} SeenExactly(n: nat, h: seq<string>, k: string)
    requires n > 0
    ensures k in SeenAfter(n, h) <==> Remembered(n, h, k)
  {
    if h != [] {
      var front, last, t := h[..|h| - 1], h[|h| - 1], |h| - 1;
      SeenExactly(n, front, k);
      if k == last {
        assert IsLastAt(h, k, t);
      } else {
        forall p: nat ensures IsLastAt(h, k, p) <==> IsLastAt(front, k, p) {
          LastAtFront(h, k, p);
        }
        forall p: nat | p < t
          ensures NoneEvictedSince(n, h, k, p) <==>
                  NoneEvictedSince(n, front, k, p) && (t < n || front[t - n] != k)
        {
          assert forall q | 0 <= q < |front| :: front[q] == h[q];
        }
      }
    }
  }

  lemma LastIsUnique(h: seq<string>, k: string, p: nat, q: nat)
    requires IsLastAt(h, k, p) && IsLastAt(h, k, q)
    ensures p == q
  {
  }

  /** Only a key among the previous `n` is ever in the map. */
  lemma {:induction false} SeenInWindow(n: nat, h: seq<string>, k: string)
    requires n > 0 && k in SeenAfter(n, h)
    ensures k in Last(h, WindowSize(n, |h|))
  {
    SeenExactly(n, h, k);
    var p: nat :| IsLastAt(h, k, p) && NoneEvictedSince(n, h, k, p);
    assert p >= |h| - n;
    AmongLast(h, WindowSize(n, |h|), p);
  }

  lemma AmongLast(h: seq<string>, n: nat, p: nat)
    requires n <= |h| && |h| - n <= p < |h|
    ensures h[p] in Last(h, n)
  {
    assert Last(h, n)[p - (|h| - n)] == h[p];
  }

  /**
   The window rule of the documentation -- a key seen among the last `n` entries is a
   repeat -- is met by a key of the window exactly when no copy of it left the window less
   than `n` entries before its last occurrence.
   */
  lemma {:induction false} WindowRuleExactly(n: nat, h: seq<string>, k: string, p: nat)
    requires n > 0 && IsLastAt(h, k, p) && p >= |h| - n
    ensures k in SeenAfter(n, h) <==> forall q | 0 <= q && p - n < q < |h| - n :: h[q] != k
  {
    SeenExactly(n, h, k);
    if Remembered(n, h, k) {
      var q: nat :| IsLastAt(h, k, q) && NoneEvictedSince(n, h, k, q);
      LastIsUnique(h, k, p, q);
    }
  }

  /** A key can be in the window and not in the map. */
  lemma ForgottenInWindow()
    ensures var h := ["a", "a", "b"]; "a" in Last(h, 2) && "a" !in SeenAfter(2, h)
  {
    var h := ["a", "a", "b"];
    assert Last(h, 2)[0] == "a";
    assert "a"[0] != "b"[0];
    assert IsLastAt(h, "a", 1) && h[0] == "a";
    WindowRuleExactly(2, h, "a", 1);
  }

  function Evicted(seen: map<string, nat>, slot: Slot<string>): map<string, nat> {
    if slot.Filled? then seen - {slot.value} else seen
  }

  lemma SeenUpdated(n: nat, h: seq<string>, seen: map<string, nat>, slot: Slot<string>, k: string, msgid: nat)
    requires n > 0 && seen.Keys == SeenAfter(n, h)
    requires slot == if |h| < n then Empty else Filled(h[|h| - n])
    ensures Evicted(seen, slot)[k := msgid].Keys == SeenAfter(n, h + [k])
  {
    SeenNext(n, h, k);
  }

  class Deduper {
    var seen: map<string, nat>
    const queue: array<Slot<string>>
    var pos: nat
    var numDedupedLogs: nat
    ghost var keys: seq<string>

    ghost predicate Valid()
      reads this, queue
    {
      queue.Length > 0 ==> RingHolds(queue[..], pos, keys) && seen.Keys == SeenAfter(queue.Length, keys)
    }

    /** A window of size zero is no ring at all. */
    constructor (windowSize: nat)
      ensures Valid() && queue.Length == windowSize && keys == [] && numDedupedLogs == 0 && fresh(queue)
    {
      seen, pos, numDedupedLogs, keys := map[], 0, 0, [];
      queue := new Slot<string>[windowSize](_ => Empty);
    }

    method DedupLogEntry(e: LogEntry) returns (useEntry: bool)
      requires Valid()
      modifies this, queue
      ensures Valid()
      ensures queue.Length == 0 ==> useEntry && keys == old(keys)
      ensures queue.Length > 0 ==> keys == old(keys) + [DedupField(e)]
      ensures queue.Length > 0 ==>
                (!useEntry <==> e.severity == "error" && Remembered(queue.Length, old(keys), DedupField(e)))
      ensures numDedupedLogs == old(numDedupedLogs) + if useEntry then 0 else 1
    {
      useEntry := true;
      if queue.Length == 0 {
        return;
      }
      var field := DedupField(e);
      SeenExactly(queue.Length, keys, field);
      if field in seen && e.severity == "error" {
        useEntry := false;
        numDedupedLogs := numDedupedLogs + 1;
      }
      Record(field, e.msgid);
    }

    /** Evict the oldest key from the map, then enter the new one in the ring and the map. */
    method Record(field: string, msgid: nat)
      requires Valid() && queue.Length > 0
      modifies this`seen, this`pos, this`keys, queue
      ensures Valid() && keys == old(keys) + [field]
    {
      NextIsOldest(queue[..], pos, keys);
      SeenUpdated(queue.Length, keys, seen, queue[pos], field, msgid);
      var oldest := queue[pos];
      if oldest.Filled? {
        seen := seen - {oldest.value};
      }
      Overwrite(field);
      seen := seen[field := msgid];
      keys := keys + [field];
    }

    /** Write into the current slot and move on to the next. */
    method Overwrite(field: string)
      requires queue.Length > 0 && RingHolds(queue[..], pos, keys)
      modifies this`pos, queue
      ensures RingHolds(queue[..], pos, keys + [field])
    {
      ghost var slots := queue[..];
      RingWrites(slots, pos, keys, field);
      queue[pos] := Filled(field);
      assert queue[..] == slots[pos := Filled(field)];
      pos := if pos + 1 == queue.Length then 0 else pos + 1;
    }

    /** The ring read from its current slot is the last keys, oldest first, from the first key on. */
    lemma RingIsWindow()
      requires Valid() && queue.Length > 0
      ensures ReadOut(queue[..][pos..] + queue[..][..pos]) == Last(keys, WindowSize(queue.Length, |keys|))
    {
      RingGivesWindow(queue[..], pos, keys);
    }
  }
}
