/** The ordering stage: every event is delayed by the hold, and so leaves sorted by timestamp. The heap
    has only keys, which point at the events' slots. */
module Ordering {
  import opened Collections
  import opened Options
  import opened Time

  datatype Incoming<E> = Incoming(ts: i64, event: E)

  /** What the heap sorts, and the slot of the event. */
  datatype Key = Key(ts: i64, arrival: nat, slot: nat) {
    predicate Less(other: Key) {
      ts < other.ts || (ts == other.ts && arrival < other.arrival)
    }
  }

  datatype Pushed<E> = Held | Late(late: Incoming<E>)

  /** The fewest slots compaction leaves. */
  const SLOTS_FLOOR: nat := 8_192

  /** Slot numbers are 32-bit. */
  const SLOTS_MAX: nat := 0x1_0000_0000

  /** The keys and the occupied slots correspond one to one, `free` is exactly the empty slots,
      and key and slot agree with the held event of that arrival. */
  ghost predicate Stored<E>(heap: seq<Key>, slots: seq<Option<Incoming<E>>>, free: seq<nat>,
                            held: map<nat, Incoming<E>>) {
    && Distinct(heap) && KeysStored(heap, slots, held)
    && HeldCovered(heap, held) && SlotsCovered(heap, slots)
    && FreeExactly(slots, free)
  }

  ghost predicate Distinct(heap: seq<Key>) {
    forall i, j | 0 <= i < j < |heap| :: heap[i].arrival != heap[j].arrival && heap[i].slot != heap[j].slot
  }

  ghost predicate KeysStored<E>(heap: seq<Key>, slots: seq<Option<Incoming<E>>>, held: map<nat, Incoming<E>>) {
    forall i | 0 <= i < |heap| :: KeyStored(heap[i], slots, held)
  }

  ghost predicate HeldCovered<E>(heap: seq<Key>, held: map<nat, Incoming<E>>) {
    forall a | a in held :: exists i :: 0 <= i < |heap| && heap[i].arrival == a
  }

  ghost predicate SlotsCovered<E>(heap: seq<Key>, slots: seq<Option<Incoming<E>>>) {
    forall s | 0 <= s < |slots| && slots[s].Some? :: exists i :: 0 <= i < |heap| && heap[i].slot == s
  }

  ghost predicate FreeExactly<E>(slots: seq<Option<Incoming<E>>>, free: seq<nat>) {
    && (forall i, j | 0 <= i < j < |free| :: free[i] != free[j])
    && (forall s: nat :: s in free <==> s < |slots| && slots[s].None?)
  }

  ghost predicate KeyStored<E>(key: Key, slots: seq<Option<Incoming<E>>>, held: map<nat, Incoming<E>>) {
    && key.slot < |slots| && key.arrival in held
    && slots[key.slot] == Some(held[key.arrival])
    && key.ts == held[key.arrival].ts
  }

  /** `a` goes before `b`: by timestamp, then by arrival. */
  ghost predicate Before<E>(entered: seq<Incoming<E>>, a: nat, b: nat) {
    && 1 <= a <= |entered| && 1 <= b <= |entered|
    && (entered[a - 1].ts < entered[b - 1].ts || (entered[a - 1].ts == entered[b - 1].ts && a < b))
  }

  /** Every event that entered, numbered by arrival from 1, is either held or was released, once;
      releases are sorted, and everything held goes after everything released. */
  ghost predicate Past<E>(entered: seq<Incoming<E>>, released: seq<nat>, held: map<nat, Incoming<E>>,
                          lastReleased: i64) {
    && (forall a: nat :: a in held <==> 1 <= a <= |entered| && a !in released)
    && |entered| == |held| + |released|
    && (forall a | a in held :: held[a] == entered[a - 1])
    && (forall i, j | 0 <= i < j < |released| :: Before(entered, released[i], released[j]))
    && (forall i, a | 0 <= i < |released| && a in held :: Before(entered, released[i], a))
    && (forall i | 0 <= i < |released| :: 1 <= released[i] <= |entered|)
    && lastReleased == (if released == [] then I64_MIN else entered[released[|released| - 1] - 1].ts)
  }

  /** The first held event in the order. */
  ghost predicate IsFirst<E>(held: map<nat, Incoming<E>>, a: nat) {
    a in held && forall b | b in held :: held[a].ts < held[b].ts || (held[a].ts == held[b].ts && a <= b)
  }

  lemma ReleasePast<E>(entered: seq<Incoming<E>>, released: seq<nat>, held: map<nat, Incoming<E>>, lastReleased: i64,
                       a: nat)
    requires Past(entered, released, held, lastReleased) && IsFirst(held, a)
    ensures held[a].ts >= lastReleased
    ensures Past(entered, released + [a], held - {a}, held[a].ts)
  {
    assert forall n :: n in released + [a] <==> n in released || n == a;
    if released != [] {
      assert Before(entered, released[|released| - 1], a);
    }
    forall b | b in held && b != a
      ensures Before(entered, a, b)
    {
      assert held[b] == entered[b - 1] && held[a] == entered[a - 1];
    }
  }

  lemma EnterPast<E>(entered: seq<Incoming<E>>, released: seq<nat>, held: map<nat, Incoming<E>>, lastReleased: i64,
                     inc: Incoming<E>)
    requires Past(entered, released, held, lastReleased) && inc.ts >= lastReleased
    ensures |entered| + 1 !in held
    ensures Past(entered + [inc], released, held[|entered| + 1 := inc], lastReleased)
  {
    hide Before;
    var entered', n := entered + [inc], |entered| + 1;
    assert n !in held;
    EnterAfter(entered, released, held, lastReleased, inc);
    forall a, b | Before(entered, a, b)
      ensures Before(entered', a, b)
    {
      BeforeMore(entered, inc, a, b);
    }
  }

  lemma BeforeMore<E>(entered: seq<Incoming<E>>, inc: Incoming<E>, a: nat, b: nat)
    requires Before(entered, a, b)
    ensures Before(entered + [inc], a, b)
  {
  }

  /** It goes after everything released. */
  lemma EnterAfter<E>(entered: seq<Incoming<E>>, released: seq<nat>, held: map<nat, Incoming<E>>, lastReleased: i64,
                      inc: Incoming<E>)
    requires Past(entered, released, held, lastReleased) && inc.ts >= lastReleased
    ensures forall i | 0 <= i < |released| :: Before(entered + [inc], released[i], |entered| + 1)
  {
    forall i | 0 <= i < |released|
      ensures Before(entered + [inc], released[i], |entered| + 1)
    {
      if i < |released| - 1 {
        assert Before(entered, released[i], released[|released| - 1]);
      }
    }
  }

  /** A new event's key, and its slot: a free one, or a new one at the end. */
  lemma StoreKey<E>(heap: seq<Key>, slots: seq<Option<Incoming<E>>>, free: seq<nat>, held: map<nat, Incoming<E>>,
                    slots': seq<Option<Incoming<E>>>, free': seq<nat>, inc: Incoming<E>, arrival: nat, s: nat)
    requires Stored(heap, slots, free, held) && arrival !in held
    requires if free != [] then
               s == free[|free| - 1] && free' == free[..|free| - 1] && s < |slots| && slots' == slots[s := Some(inc)]
             else s == |slots| && free' == [] && slots' == slots + [Some(inc)]
    ensures Stored(heap + [Key(inc.ts, arrival, s)], slots', free', held[arrival := inc])
  {
    hide HeldCovered, SlotsCovered;
    var key := Key(inc.ts, arrival, s);
    SlotWasFree(slots, free, s);
    CoverMore(heap, held, slots, slots', key, inc);
    assert forall i | 0 <= i < |heap| :: KeyStored(heap[i], slots, held);
    forall n: nat
      ensures n in free' <==> n < |slots'| && slots'[n].None?
    {
      assert n in free <==> n < |slots| && slots[n].None?;
      assert free != [] ==> (n in free <==> n in free' || n == s);
    }
  }

  lemma SlotWasFree<E>(slots: seq<Option<Incoming<E>>>, free: seq<nat>, s: nat)
    requires FreeExactly(slots, free) && (if free != [] then s == free[|free| - 1] else s == |slots|)
    ensures s < |slots| ==> slots[s].None?
    ensures free != [] ==> s < |slots|
  {
    assert free != [] ==> s in free;
  }

  lemma CoverMore<E>(heap: seq<Key>, held: map<nat, Incoming<E>>, slots: seq<Option<Incoming<E>>>,
                     slots': seq<Option<Incoming<E>>>, key: Key, inc: Incoming<E>)
    requires HeldCovered(heap, held) && SlotsCovered(heap, slots)
    requires key.slot < |slots'|
    requires forall n | 0 <= n < |slots'| && n != key.slot :: n < |slots| && slots'[n] == slots[n]
    ensures HeldCovered(heap + [key], held[key.arrival := inc]) && SlotsCovered(heap + [key], slots')
  {
    var heap' := heap + [key];
    assert heap'[|heap|] == key;
    forall n | 0 <= n < |slots'| && slots'[n].Some? && n != key.slot
      ensures exists i :: 0 <= i < |heap'| && heap'[i].slot == n
    {
      var i :| 0 <= i < |heap| && heap[i].slot == n;
      assert heap'[i].slot == n;
    }
    forall a | a in held
      ensures exists i :: 0 <= i < |heap'| && heap'[i].arrival == a
    {
      var i :| 0 <= i < |heap| && heap[i].arrival == a;
      assert heap'[i].arrival == a;
    }
  }

  /** The key at `i` and its event leave; the slot is free again. */
  lemma TakeKey<E>(heap: seq<Key>, slots: seq<Option<Incoming<E>>>, free: seq<nat>, held: map<nat, Incoming<E>>, i: nat)
    requires Stored(heap, slots, free, held) && i < |heap|
    ensures var key := heap[i];
            && key.slot < |slots| && key.arrival in held
            && slots[key.slot] == Some(held[key.arrival]) && key.ts == held[key.arrival].ts
            && Stored(RemoveAt(heap, i), slots[key.slot := None], free + [key.slot], held - {key.arrival})
  {
    hide HeldCovered, SlotsCovered;
    var key := heap[i];
    assert KeyStored(key, slots, held);
    var heap', slots' := RemoveAt(heap, i), slots[key.slot := None];
    var free', held' := free + [key.slot], held - {key.arrival};
    CoverFewer(heap, slots, held, i);
    assert forall j | 0 <= j < |heap'| :: heap'[j] == heap[if j < i then j else j + 1];
    assert forall j | 0 <= j < |heap| :: KeyStored(heap[j], slots, held);
    assert forall j | 0 <= j < |heap'| :: KeyStored(heap'[j], slots', held');
    forall n: nat
      ensures n in free' <==> n < |slots'| && slots'[n].None?
    {
      assert n in free' <==> n in free || n == key.slot;
      assert n in free <==> n < |slots| && slots[n].None?;
    }
    assert key.slot !in free;
  }

  lemma CoverFewer<E>(heap: seq<Key>, slots: seq<Option<Incoming<E>>>, held: map<nat, Incoming<E>>, i: nat)
    requires i < |heap| && heap[i].slot < |slots| && HeldCovered(heap, held) && SlotsCovered(heap, slots)
    ensures HeldCovered(RemoveAt(heap, i), held - {heap[i].arrival})
    ensures SlotsCovered(RemoveAt(heap, i), slots[heap[i].slot := None])
  {
    var heap' := RemoveAt(heap, i);
    forall a | a in held && a != heap[i].arrival
      ensures exists j :: 0 <= j < |heap'| && heap'[j].arrival == a
    {
      var j :| 0 <= j < |heap| && heap[j].arrival == a;
      assert heap'[if j < i then j else j - 1].arrival == a;
    }
    forall n | 0 <= n < |slots| && slots[n].Some? && n != heap[i].slot
      ensures exists j :: 0 <= j < |heap'| && heap'[j].slot == n
    {
      var j :| 0 <= j < |heap| && heap[j].slot == n;
      assert heap'[if j < i then j else j - 1].slot == n;
    }
  }

  /** The least key's event is the first one held. */
  lemma LeastIsFirst<E>(heap: seq<Key>, slots: seq<Option<Incoming<E>>>, held: map<nat, Incoming<E>>, i: nat)
    requires KeysStored(heap, slots, held) && HeldCovered(heap, held) && i < |heap|
    requires forall j | 0 <= j < |heap| :: j == i || heap[i].Less(heap[j])
    ensures IsFirst(held, heap[i].arrival)
  {
    assert KeyStored(heap[i], slots, held);
    forall b | b in held
      ensures var a := heap[i].arrival; held[a].ts < held[b].ts || (held[a].ts == held[b].ts && a <= b)
    {
      var j :| 0 <= j < |heap| && heap[j].arrival == b;
      assert KeyStored(heap[j], slots, held);
    }
  }

  lemma NoKeyNoneHeld<E>(heap: seq<Key>, held: map<nat, Incoming<E>>)
    requires HeldCovered(heap, held)
    ensures heap == [] ==> held == map[]
  {
    assert heap == [] ==> forall a | a in held :: false;
  }

  class Stage<!E> {
    /** The binary heap's keys, in no particular order. */
    var heap: seq<Key>
    /** The held events, by slot. */
    var slots: seq<Option<Incoming<E>>>
    /** The slots allocated. */
    var capacity: nat
    var free: seq<nat>
    var arrivals: nat
    const hold: i64
    /** The timestamp released last. */
    var lastReleased: i64

    /** The held events by arrival; every event that entered; the arrivals released, in order. */
    ghost var held: map<nat, Incoming<E>>
    ghost var entered: seq<Incoming<E>>
    ghost var released: seq<nat>

    ghost predicate Valid()
      reads this
    {
      && Stored(heap, slots, free, held)
      && Past(entered, released, held, lastReleased)
      && arrivals == |entered| && |slots| <= capacity
    }

    constructor (hold: i64)
      ensures Valid() && this.hold == hold && held == map[] && entered == [] && released == []
      ensures lastReleased == I64_MIN
    {
      this.hold := hold;
      heap, slots, capacity, free, arrivals, lastReleased := [], [], 0, [], 0, I64_MIN;
      held, entered, released := map[], [], [];
    }

    /** There is a slot that a 32-bit number can name. */
    predicate HasSlot()
      reads this`free, this`slots
    {
      free != [] || |slots| < SLOTS_MAX
    }

    /** Holds an event, unless it is older than one already released. Past the last slot number the number
        is cut to 32 bits, and nothing is promised. */
    method Push(inc: Incoming<E>) returns (r: Pushed<E>)
      requires Valid()
      modifies this`heap, this`slots, this`capacity, this`free, this`arrivals, this`held, this`entered
      ensures r.Late? || old(HasSlot()) ==> Valid()
      ensures r == if inc.ts < lastReleased then Late(inc) else Held
      ensures r.Held? ==> entered == old(entered) + [inc] && held == old(held)[|entered| := inc]
      ensures r.Late? ==> entered == old(entered) && held == old(held)
    {
      hide Stored, Past, FreeExactly;
      if inc.ts < lastReleased { return Late(inc); }
      arrivals := arrivals + 1;
      EnterPast(entered, released, held, lastReleased, inc);
      ghost var slots0, free0, named := slots, free, HasSlot();
      var s;
      if free != [] {
        s := free[|free| - 1];
        FreeIsEmpty(heap, slots, free, held);
        free := free[..|free| - 1];
        slots := slots[s := Some(inc)];
      } else {
        s := |slots| % SLOTS_MAX;
        if |slots| == capacity {
          var grown: nat :| grown > |slots|;
          capacity := grown;
        }
        slots := slots + [Some(inc)];
      }
      if named {
        StoreKey(heap, slots0, free0, held, slots, free, inc, arrivals, s);
      }
      heap := heap + [Key(inc.ts, arrivals, s)];
      held, entered := held[arrivals := inc], entered + [inc];
      r := Held;
    }

    /** Releases the first event, if it has been held long enough. */
    method NextDue(now: i64) returns (r: Option<Incoming<E>>)
      requires Valid()
      modifies this
      ensures Valid() && entered == old(entered)
      ensures Released(old(held), held, old(released), released, r, SatSub(now, hold))
      ensures old(lastReleased) <= lastReleased && (r.Some? ==> lastReleased == r.value.ts)
      ensures (r.None? ==> lastReleased == old(lastReleased))
    {
      r := NextUntil(SatSub(now, hold));
    }

    /** Releases the first event in any case. */
    method NextHeld() returns (r: Option<Incoming<E>>)
      requires Valid()
      modifies this
      ensures Valid() && entered == old(entered) && Released(old(held), held, old(released), released, r, I64_MAX)
      ensures old(lastReleased) <= lastReleased && (r.Some? ==> lastReleased == r.value.ts)
      ensures (r.None? ==> lastReleased == old(lastReleased))
      ensures r.None? ==> held == map[]
    {
      r := NextUntil(I64_MAX);
      assert r.None? ==> held.Keys == {};
    }

    method NextUntil(limit: i64) returns (r: Option<Incoming<E>>)
      requires Valid()
      modifies this
      ensures Valid() && entered == old(entered) && Released(old(held), held, old(released), released, r, limit)
      ensures old(lastReleased) <= lastReleased && (r.Some? ==> lastReleased == r.value.ts)
      ensures (r.None? ==> lastReleased == old(lastReleased))
      // Room for a burst is given back once far fewer are held.
      ensures r.Some? ==> |slots| <= SLOTS_FLOOR || |slots| <= 8 * |heap|
      ensures r.Some? && (old(capacity) <= SLOTS_FLOOR || 8 * |heap| >= old(capacity)) ==>
                capacity == old(capacity) && |slots| == |old(slots)|
    {
      hide Past, HeldCovered, SlotsCovered, FreeExactly, Distinct, KeysStored, KeyStored, RemoveAt, Before;
      NoKeyNoneHeld(heap, held);
      if heap == [] { return None; }
      var i := Peek();
      LeastIsFirst(heap, slots, held, i);
      var key := heap[i];
      TakeKey(heap, slots, free, held, i);
      if key.ts > limit { return None; }
      ReleasePast(entered, released, held, lastReleased, key.arrival);
      heap := RemoveAt(heap, i);
      lastReleased := Max(lastReleased, key.ts);
      free := free + [key.slot];
      r := slots[key.slot];
      slots := slots[key.slot := None];
      released, held := released + [key.arrival], held - {key.arrival};
      if capacity > SLOTS_FLOOR && |heap| * 8 < capacity {
        Compact();
      }
    }

    /** The heap's least key. */
    method Peek() returns (i: nat)
      requires heap != [] && Distinct(heap)
      ensures i < |heap| && forall j | 0 <= j < |heap| :: j == i || heap[i].Less(heap[j])
    {
      i := 0;
      var n := 1;
      while n < |heap|
        invariant i < n <= |heap|
        invariant forall j | 0 <= j < n :: j == i || heap[i].Less(heap[j])
      {
        if heap[n].Less(heap[i]) { i := n; }
        n := n + 1;
      }
    }

    /** Renumbers the slots from 0, in as little space as the events need. */
    method Compact()
      requires Stored(heap, slots, free, held)
      modifies this`heap, this`slots, this`capacity, this`free
      ensures Stored(heap, slots, free, held) && |slots| <= capacity && capacity >= SLOTS_FLOOR
      ensures |slots| == |heap| == |old(heap)| && free == []
      ensures forall i | 0 <= i < |heap| :: heap[i] == old(heap)[i].(slot := i)
    {
      hide HeldCovered, SlotsCovered, FreeExactly;
      var keys, old_ := heap, slots;
      var moved: seq<Option<Incoming<E>>>, rebuilt, i := [], [], 0;
      while i < |keys|
        invariant i <= |keys| && |moved| == |rebuilt| == i
        invariant forall j | 0 <= j < i :: rebuilt[j] == keys[j].(slot := j)
        invariant forall j | 0 <= j < i :: keys[j].slot < |old_| && moved[j] == old_[keys[j].slot]
        modifies {}
      {
        assert KeyStored(keys[i], old_, held);
        rebuilt := rebuilt + [keys[i].(slot := |moved|)];
        moved := moved + [old_[keys[i].slot]];
        i := i + 1;
      }
      CompactStored(keys, old_, free, held, rebuilt, moved);
      heap, slots, free := rebuilt, moved, [];
      var sized: nat :| sized >= |keys| * 2 && sized >= SLOTS_FLOOR;
      capacity := sized;
    }

    /** How far stream time may go at `now`. */
    function Watermark(now: i64): i64
      reads this
    {
      Max(lastReleased, SatSub(now, hold))
    }
  }

  lemma FreeIsEmpty<E>(heap: seq<Key>, slots: seq<Option<Incoming<E>>>, free: seq<nat>, held: map<nat, Incoming<E>>)
    requires Stored(heap, slots, free, held) && free != []
    ensures free[|free| - 1] < |slots|
  {
    SlotWasFree(slots, free, free[|free| - 1]);
  }

  lemma CompactStored<E>(heap: seq<Key>, slots: seq<Option<Incoming<E>>>, free: seq<nat>, held: map<nat, Incoming<E>>,
                         heap': seq<Key>, slots': seq<Option<Incoming<E>>>)
    requires Stored(heap, slots, free, held) && |heap'| == |slots'| == |heap|
    requires forall i | 0 <= i < |heap| :: heap'[i] == heap[i].(slot := i)
    requires forall i | 0 <= i < |heap| :: heap[i].slot < |slots| && slots'[i] == slots[heap[i].slot]
    ensures Stored(heap', slots', [], held)
  {
    hide FreeExactly, SlotsCovered, HeldCovered, KeysStored;
    CompactKeys(heap, slots, held, heap', slots');
    CompactCovered(heap, held, heap', slots');
  }

  /** Each key keeps its event, in the slot of the same number. */
  lemma CompactKeys<E>(heap: seq<Key>, slots: seq<Option<Incoming<E>>>, held: map<nat, Incoming<E>>,
                       heap': seq<Key>, slots': seq<Option<Incoming<E>>>)
    requires KeysStored(heap, slots, held) && |heap'| == |slots'| == |heap|
    requires forall i | 0 <= i < |heap| :: heap'[i] == heap[i].(slot := i)
    requires forall i | 0 <= i < |heap| :: heap[i].slot < |slots| && slots'[i] == slots[heap[i].slot]
    ensures KeysStored(heap', slots', held) && FreeExactly(slots', [])
  {
    forall i | 0 <= i < |heap'|
      ensures KeyStored(heap'[i], slots', held) && slots'[i].Some?
    {
      assert KeyStored(heap[i], slots, held);
    }
  }

  lemma CompactCovered<E>(heap: seq<Key>, held: map<nat, Incoming<E>>, heap': seq<Key>,
                          slots': seq<Option<Incoming<E>>>)
    requires HeldCovered(heap, held) && |heap'| == |slots'| == |heap|
    requires forall i | 0 <= i < |heap| :: heap'[i] == heap[i].(slot := i)
    ensures HeldCovered(heap', held) && SlotsCovered(heap', slots')
  {
    forall a | a in held
      ensures exists i :: 0 <= i < |heap'| && heap'[i].arrival == a
    {
      var i :| 0 <= i < |heap| && heap[i].arrival == a;
      assert heap'[i].arrival == a;
    }
    forall n | 0 <= n < |slots'| && slots'[n].Some?
      ensures exists i :: 0 <= i < |heap'| && heap'[i].slot == n
    {
      assert heap'[n].slot == n;
    }
  }

  /** One release: the first held event with a timestamp within `limit` leaves, or there is none. */
  ghost predicate Released<E>(held: map<nat, Incoming<E>>, held': map<nat, Incoming<E>>, released: seq<nat>,
                              released': seq<nat>,
                              r: Option<Incoming<E>>, limit: i64)
  {
    match r
    case None => held' == held && released' == released && forall a | a in held :: held[a].ts > limit
    case Some(inc) =>
      && |released'| == |released| + 1 && released <= released'
      && var a := released'[|released|];
      IsFirst(held, a) && inc == held[a] && inc.ts <= limit && held' == held - {a}
  }
}
