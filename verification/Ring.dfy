/**
 The fixed-size ring both the statistics file and the log deduplicator write through: each
 new item overwrites the oldest one, and reading starts at the next slot to be written.
 */
module Ring {

  datatype Slot<T> = Empty | Filled(value: T)

  /** The last `n` items. */
  function Last<T>(items: seq<T>, n: nat): seq<T>
    requires n <= |items|
  {
    items[|items| - n..]
  }

  /** The ring after `items` have gone through it, its next slot being `pos`. */
  ghost predicate RingHolds<T>(slots: seq<Slot<T>>, pos: nat, items: seq<T>) {
    && pos < |slots| && pos <= |items|
    && var base := |items| - pos;
       && (base == 0 || base >= |slots|)
       && (forall k | 0 <= k < pos :: slots[k] == Filled(items[base + k]))
       && (forall k | pos <= k < |slots| :: slots[k] == if base == 0 then Empty else Filled(items[base - |slots| + k]))
  }

  lemma RingWrites<T>(slots: seq<Slot<T>>, pos: nat, items: seq<T>, item: T)
    requires RingHolds(slots, pos, items)
    ensures RingHolds(slots[pos := Filled(item)], if pos + 1 == |slots| then 0 else pos + 1, items + [item])
  {
  }

  /** The next slot holds the item that is one ring size old, if there is one. */
  lemma NextIsOldest<T>(slots: seq<Slot<T>>, pos: nat, items: seq<T>)
    requires RingHolds(slots, pos, items)
    ensures slots[pos] == if |items| < |slots| then Empty else Filled(items[|items| - |slots|])
  {
  }

  /** The filled slots, in order. */
  function ReadOut<T>(slots: seq<Slot<T>>): seq<T> {
    if slots == [] then []
    else ReadOut(slots[..|slots| - 1]) + match slots[|slots| - 1] case Empty => [] case Filled(x) => [x]
  }

  lemma {:induction false} ReadOutFilled<T>(slots: seq<Slot<T>>, items: seq<T>)
    requires |slots| == |items| && forall k | 0 <= k < |slots| :: slots[k] == Filled(items[k])
    ensures ReadOut(slots) == items
  {
    if slots != [] {
      ReadOutFilled(slots[..|slots| - 1], items[..|items| - 1]);
    }
  }

  /** A full ring read once round from its next slot gives the last items, oldest first. */
  lemma RingGivesLast<T>(slots: seq<Slot<T>>, pos: nat, items: seq<T>)
    requires RingHolds(slots, pos, items) && |items| >= |slots|
    ensures ReadOut(slots[pos..] + slots[..pos]) == Last(items, |slots|)
  {
    ReadOutFilled(slots[pos..] + slots[..pos], Last(items, |slots|));
  }

  lemma {:induction false} ReadOutEmpty<T>(slots: seq<Slot<T>>)
    requires forall k | 0 <= k < |slots| :: slots[k] == Empty
    ensures ReadOut(slots) == []
  {
    if slots != [] {
      ReadOutEmpty(slots[..|slots| - 1]);
    }
  }

  lemma {:induction false} ReadOutConcat<T>(a: seq<Slot<T>>, b: seq<Slot<T>>)
    ensures ReadOut(a + b) == ReadOut(a) + ReadOut(b)
  {
    if b == [] {
      assert a + b == a;
    } else {
      ReadOutConcat(a, b[..|b| - 1]);
      assert (a + b)[..|a + b| - 1] == a + b[..|b| - 1];
    }
  }

  /** A ring that is not full yet gives all items. */
  lemma RingGivesAll<T>(slots: seq<Slot<T>>, pos: nat, items: seq<T>)
    requires RingHolds(slots, pos, items) && |items| < |slots|
    ensures ReadOut(slots[pos..] + slots[..pos]) == items
  {
    ReadOutConcat(slots[pos..], slots[..pos]);
    ReadOutEmpty(slots[pos..]);
    ReadOutFilled(slots[..pos], items);
  }

  function WindowSize(n: nat, count: nat): nat {
    if count < n then count else n
  }

  /** Read once round from its next slot, a ring gives the last items, oldest first, as many as it has room for. */
  lemma RingGivesWindow<T>(slots: seq<Slot<T>>, pos: nat, items: seq<T>)
    requires RingHolds(slots, pos, items)
    ensures ReadOut(slots[pos..] + slots[..pos]) == Last(items, WindowSize(|slots|, |items|))
  {
    if |items| < |slots| {
      RingGivesAll(slots, pos, items);
    } else {
      RingGivesLast(slots, pos, items);
    }
  }
}
