/** A bounded memory of recent keys, which lets the oldest go. */
module Recent {
  import opened Options

  /** A queue entry counts only while the map has the same time. */
  predicate Fresh<K(==)>(seen: map<K, int>, entry: (int, K)) {
    entry.1 in seen && seen[entry.1] == entry.0
  }

  predicate Backed<K(==)>(seen: map<K, int>, order: seq<(int, K)>) {
    forall k | k in seen :: (seen[k], k) in order
  }

  /** The map after the front entry left the queue. */
  function Popped<K(==)>(seen: map<K, int>, entry: (int, K)): map<K, int> {
    if Fresh(seen, entry) then seen - {entry.1} else seen
  }

  predicate InTimeOrder<K>(order: seq<(int, K)>) {
    forall i, j | 0 <= i < j < |order| :: order[i].0 <= order[j].0
  }

  /** What a plain scan would keep. */
  function Since<K(==)>(seen: map<K, int>, before: int): map<K, int> {
    map k | k in seen && seen[k] >= before :: seen[k]
  }

  /** Keys are never more than queue entries: both stay within the cap. */
  lemma {:induction false} KeysWithinQueue<K>(seen: map<K, int>, order: seq<(int, K)>)
    requires Backed(seen, order)
    ensures |seen| <= |order|
    decreases |order|
  {
    if order == [] {
      assert seen.Keys == {};
    } else {
      var last := order[|order| - 1];
      var rest := seen - {last.1};
      forall k | k in rest
        ensures (rest[k], k) in order[..|order| - 1]
      {
        var i :| 0 <= i < |order| && order[i] == (seen[k], k);
      }
      KeysWithinQueue(rest, order[..|order| - 1]);
      assert seen.Keys <= rest.Keys + {last.1};
    }
  }

  lemma ScanAgrees<K>(seen: map<K, int>, seen': map<K, int>, order: seq<(int, K)>, before: int)
    requires Backed(seen', order) && InTimeOrder(order) && (order == [] || order[0].0 >= before)
    requires forall k | k in seen' :: k in seen && seen'[k] == seen[k]
    requires forall k | k in seen && seen[k] >= before :: k in seen'
    ensures seen' == Since(seen, before)
  {
    forall k | k in seen'
      ensures seen'[k] >= before
    {
      var i :| 0 <= i < |order| && order[i] == (seen'[k], k);
      assert order[0].0 <= order[i].0;
    }
  }

  lemma InsertBacked<K>(seen: map<K, int>, order: seq<(int, K)>, ts: int, key: K)
    requires Backed(seen, order)
    ensures Backed(seen[key := ts], order + [(ts, key)])
  {
    var order1 := order + [(ts, key)];
    assert order1[|order|] == (ts, key);
    assert forall e | e in order :: e in order1;
  }

  lemma InsertOrder<K>(order: seq<(int, K)>, ts: int, key: K)
    requires InTimeOrder(order) && (order == [] || order[|order| - 1].0 <= ts)
    ensures InTimeOrder(order + [(ts, key)]) && InTimeOrder((order + [(ts, key)])[1..])
  {
  }

  lemma InsertKnown<K>(seen: map<K, int>, order: seq<(int, K)>, ts: int, key: K)
    ensures var seen1, order1 := seen[key := ts], order + [(ts, key)];
            && (key in Popped(seen1, order1[0]) <==> order1[0] != (ts, key))
            && (key in Popped(seen1, order1[0]) ==> Popped(seen1, order1[0])[key] == ts)
            && (order != [] ==> order1[0] == order[0])
  {
  }

  class RecentSet<K(==)> {
    var seen: map<K, int>
    /** Keys and times as they came in. */
    var order: seq<(int, K)>
    const cap: nat
    var evictions: nat

    ghost predicate Valid()
      reads this
    {
      1 <= cap && |order| <= cap && Backed(seen, order)
    }

    constructor (cap: nat)
      ensures Valid() && this.cap == (if cap == 0 then 1 else cap) && seen == map[] && order == [] && evictions == 0
    {
      this.cap := if cap == 0 then 1 else cap;
      seen, order, evictions := map[], [], 0;
    }

    /** `key` was seen at `ts`, or at the later time known. Past the cap the oldest entry goes. The key is
        then known, unless its entry was already the oldest in a full queue: it had been removed
        and came back at the same time. */
    method Insert(key: K, ts: int)
      requires Valid()
      modifies this
      ensures Valid()
      ensures key in old(seen) && old(seen)[key] >= ts ==>
                seen == old(seen) && order == old(order) && evictions == old(evictions)
      ensures !(key in old(seen) && old(seen)[key] >= ts) ==>
                var order1 := old(order) + [(ts, key)];
                if |order1| <= cap then order == order1 && seen == old(seen)[key := ts] && evictions == old(evictions)
                else order == order1[1..] && seen == Popped(old(seen)[key := ts], order1[0])
                     && evictions == old(evictions) + (if Fresh(old(seen)[key := ts], order1[0]) then 1 else 0)
      ensures key !in seen <==>
                !(key in old(seen) && old(seen)[key] >= ts) && |old(order)| == cap && old(order)[0] == (ts, key)
      ensures key in seen ==> seen[key] == if key in old(seen) && old(seen)[key] >= ts then old(seen)[key] else ts
      ensures InTimeOrder(old(order)) && (old(order) == [] || old(order)[|old(order)| - 1].0 <= ts) ==>
                InTimeOrder(order)
    {
      hide Backed, Popped, InTimeOrder;
      if InTimeOrder(order) && (order == [] || order[|order| - 1].0 <= ts) {
        InsertOrder(order, ts, key);
      }
      if key in seen && seen[key] >= ts { return; }
      InsertBacked(seen, order, ts, key);
      ghost var seen1, order1 := seen[key := ts], order + [(ts, key)];
      InsertKnown(seen, order, ts, key);
      seen := seen[key := ts];
      order := order + [(ts, key)];
      while |order| > cap
        invariant Backed(seen, order) && |order1| <= cap + 1
        invariant if |order| == |order1| then order == order1 && seen == seen1 && evictions == old(evictions)
                  else |order1| > cap && order == order1[1..] && seen == Popped(seen1, order1[0])
                       && evictions == old(evictions) + (if Fresh(seen1, order1[0]) then 1 else 0)
        decreases |order|
      {
        PopFront(true);
      }
    }

    method Remove(key: K) returns (was: Option<int>)
      requires Valid()
      modifies this`seen
      ensures Valid() && seen == old(seen) - {key}
      ensures was == if key in old(seen) then Some(old(seen)[key]) else None
    {
      was := if key in seen then Some(seen[key]) else None;
      seen := seen - {key};
    }

    /** Drops what is older than `before`, and never one seen since. With times inserted in
        order it forgets exactly those a plain scan would. */
    method Expire(before: int)
      requires Valid()
      modifies this
      ensures Valid() && evictions == old(evictions)
      ensures forall k | k in seen :: k in old(seen) && seen[k] == old(seen)[k]
      ensures forall k | k in old(seen) && old(seen)[k] >= before :: k in seen
      ensures exists n: nat :: n <= |old(order)| && order == old(order)[n..]
                && (forall i | 0 <= i < n :: old(order)[i].0 < before)
      ensures order == [] || order[0].0 >= before
      ensures InTimeOrder(old(order)) ==> seen == Since(old(seen), before) && InTimeOrder(order)
    {
      ghost var n := 0;
      while order != [] && order[0].0 < before
        invariant Valid() && evictions == old(evictions) && n <= |old(order)| && order == old(order)[n..]
        invariant forall i | 0 <= i < n :: old(order)[i].0 < before
        invariant forall k | k in seen :: k in old(seen) && seen[k] == old(seen)[k]
        invariant forall k | k in old(seen) && old(seen)[k] >= before :: k in seen
        decreases |order|
      {
        PopFront(false);
        n := n + 1;
      }
      if InTimeOrder(old(order)) {
        ScanAgrees(old(seen), seen, order, before);
      }
    }

    method PopFront(evicting: bool)
      requires Backed(seen, order)
      modifies this`seen, this`order, this`evictions
      ensures Backed(seen, order)
      ensures old(order) == [] ==> seen == old(seen) && order == [] && evictions == old(evictions)
      ensures old(order) != [] ==> order == old(order)[1..] && seen == Popped(old(seen), old(order)[0])
      ensures evictions == old(evictions) + if evicting && old(order) != []
                && Fresh(old(seen), old(order)[0]) then 1 else 0
    {
      if order == [] { return; }
      var (ts, key) := order[0];
      assert forall e | e in order :: e == order[0] || e in order[1..];
      order := order[1..];
      if key in seen && seen[key] == ts {
        seen := seen - {key};
        if evicting { evictions := evictions + 1; }
      }
    }
  }

  /** The times of a map that keeps a value per key. */
  function Times<K(==), V>(entries: map<K, (int, V)>): map<K, int> {
    map k | k in entries :: entries[k].0
  }

  function PoppedEntry<K(==), V>(entries: map<K, (int, V)>, entry: (int, K)): map<K, (int, V)> {
    if entry.1 in entries && entries[entry.1].0 == entry.0 then entries - {entry.1} else entries
  }

  lemma PoppedTimes<K, V>(entries: map<K, (int, V)>, order: seq<(int, K)>)
    requires Backed(Times(entries), order) && order != []
    ensures Backed(Times(PoppedEntry(entries, order[0])), order[1..])
    ensures Times(PoppedEntry(entries, order[0])) == Popped(Times(entries), order[0])
  {
    var left := Times(PoppedEntry(entries, order[0]));
    forall k | k in left
      ensures (left[k], k) in order[1..]
    {
      assert (Times(entries)[k], k) in order;
    }
  }

  lemma RemovedTimes<K, V>(entries: map<K, (int, V)>, order: seq<(int, K)>, key: K)
    requires Backed(Times(entries), order)
    ensures Backed(Times(entries - {key}), order)
  {
    assert Times(entries - {key}) == Times(entries) - {key};
  }

  lemma InsertTimes<K, V>(entries: map<K, (int, V)>, order: seq<(int, K)>, ts: int, key: K, value: V)
    requires Backed(Times(entries), order)
    ensures Times(entries[key := (ts, value)]) == Times(entries)[key := ts]
    ensures Backed(Times(entries[key := (ts, value)]), order + [(ts, key)])
  {
    assert Times(entries[key := (ts, value)]) == Times(entries)[key := ts];
    InsertBacked(Times(entries), order, ts, key);
  }

  lemma ScanAgreesTimes<K, V>(entries: map<K, (int, V)>, entries': map<K, (int, V)>, order: seq<(int, K)>, before: int)
    requires Backed(Times(entries'), order) && InTimeOrder(order) && (order == [] || order[0].0 >= before)
    requires forall k | k in entries' :: k in entries && entries'[k] == entries[k]
    requires forall k | k in entries && entries[k].0 >= before :: k in entries'
    ensures Times(entries') == Since(Times(entries), before)
  {
    ScanAgrees(Times(entries), Times(entries'), order, before);
  }

  /** The same with a value per key, of the latest insert whatever its time. */
  class RecentMap<K(==), V> {
    var entries: map<K, (int, V)>
    var order: seq<(int, K)>
    const cap: nat

    ghost predicate Valid()
      reads this
    {
      1 <= cap && |order| <= cap && Backed(Times(entries), order)
    }

    constructor (cap: nat)
      ensures Valid() && this.cap == (if cap == 0 then 1 else cap) && entries == map[] && order == []
    {
      this.cap := if cap == 0 then 1 else cap;
      entries, order := map[], [];
    }

    /** Records `key` and its value at `ts`. Past the cap the oldest entry goes, and with it this key
        only if it was at the front of a full queue with the same time. */
    method Insert(key: K, ts: int, value: V)
      requires Valid()
      modifies this
      ensures Valid()
      ensures var all, order1 := old(entries)[key := (ts, value)], old(order) + [(ts, key)];
              if |order1| <= cap then order == order1 && entries == all
              else order == order1[1..] && entries == PoppedEntry(all, order1[0])
      ensures key !in entries <==> |old(order)| == cap && old(order)[0] == (ts, key)
      ensures key in entries ==> entries[key] == (ts, value)
    {
      hide Backed, Times, PoppedEntry;
      InsertTimes(entries, order, ts, key, value);
      ghost var all, order1 := entries[key := (ts, value)], order + [(ts, key)];
      InsertKept(all, order1, ts, key, value);
      entries, order := entries[key := (ts, value)], order + [(ts, key)];
      while |order| > cap
        invariant Backed(Times(entries), order) && |order1| <= cap + 1
        invariant if |order| == |order1| then order == order1 && entries == all
                  else |order1| > cap && order == order1[1..] && entries == PoppedEntry(all, order1[0])
        decreases |order|
      {
        PopFront();
      }
    }

    method Remove(key: K) returns (was: Option<(int, V)>)
      requires Valid()
      modifies this`entries
      ensures Valid() && entries == old(entries) - {key}
      ensures was == if key in old(entries) then Some(old(entries)[key]) else None
    {
      RemovedTimes(entries, order, key);
      was := if key in entries then Some(entries[key]) else None;
      entries := entries - {key};
    }

    /** Forgets keys recorded before `before`, and never one recorded since. */
    method Expire(before: int)
      requires Valid()
      modifies this
      ensures Valid()
      ensures forall k | k in entries :: k in old(entries) && entries[k] == old(entries)[k]
      ensures forall k | k in old(entries) && old(entries)[k].0 >= before :: k in entries
      ensures order == [] || order[0].0 >= before
      ensures InTimeOrder(old(order)) ==> Times(entries) == Since(Times(old(entries)), before) && InTimeOrder(order)
    {
      ghost var n := 0;
      while order != [] && order[0].0 < before
        invariant Valid() && n <= |old(order)| && order == old(order)[n..]
        invariant forall k | k in entries :: k in old(entries) && entries[k] == old(entries)[k]
        invariant forall k | k in old(entries) && old(entries)[k].0 >= before :: k in entries
        decreases |order|
      {
        PopFront();
        n := n + 1;
      }
      if InTimeOrder(old(order)) {
        ScanAgreesTimes(old(entries), entries, order, before);
      }
    }

    method PopFront()
      requires Backed(Times(entries), order)
      modifies this`entries, this`order
      ensures Backed(Times(entries), order)
      ensures old(order) == [] ==> entries == old(entries) && order == []
      ensures old(order) != [] ==> order == old(order)[1..] && entries == PoppedEntry(old(entries), old(order)[0])
    {
      hide Backed, Times;
      if order == [] { return; }
      PoppedTimes(entries, order);
      var (ts, key) := order[0];
      order := order[1..];
      if key in entries && entries[key].0 == ts {
        entries := entries - {key};
      }
    }
  }

  lemma InsertKept<K, V>(all: map<K, (int, V)>, order1: seq<(int, K)>, ts: int, key: K, value: V)
    requires order1 != [] && order1[|order1| - 1] == (ts, key) && key in all && all[key] == (ts, value)
    ensures key in PoppedEntry(all, order1[0]) <==> order1[0] != (ts, key)
    ensures key in PoppedEntry(all, order1[0]) ==> PoppedEntry(all, order1[0])[key] == (ts, value)
  {
  }
}
