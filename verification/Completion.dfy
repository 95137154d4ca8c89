/** The completion stage: a line of events that leave in push order. One that waits blocks those behind
    it, until nothing it waits for is open or all that is has expired. */
module Completion {
  import opened Collections
  import opened Options

  datatype Reason = Enrich | Join | ValueRead | Expand | Seeder | Confirm

  /** What an event waits for, at most until the deadline if there is one. */
  datatype Wait = Wait(reason: Reason, deadline: Option<int>, dropAtDeadline: bool)

  /** A reason that was unresolved when its event left. */
  datatype Expired = Expired(reason: Reason, dropped: bool)

  datatype Slot<E> = Ready(event: E) | Pending(id: nat)

  datatype Entry<E> = Entry(event: E, waits: seq<(Wait, bool)>, forced: bool)

  /** A wait that nothing has resolved and no deadline has ended: it has none, or one after `now`. */
  ghost predicate HoldsAt<E>(entry: Entry<E>, k: int, now: int) {
    && 0 <= k < |entry.waits| && !entry.waits[k].1
    && (entry.waits[k].0.deadline.None? || entry.waits[k].0.deadline.value > now)
  }

  /** Exactly an unforced event with such a wait holds the line. */
  lemma BlockedIff<E>(entry: Entry<E>, now: int)
    ensures Blocked(entry, now) <==> !entry.forced && exists k :: HoldsAt(entry, k, now)
  {
    if Blocked(entry, now) {
      var w :| w in Open(entry.waits) && (w.deadline.None? || now < w.deadline.value);
      var k :| 0 <= k < |entry.waits| && entry.waits[k] == (w, false);
      assert HoldsAt(entry, k, now);
    }
    if k :| HoldsAt(entry, k, now) {
      assert (entry.waits[k].0, false) in entry.waits;
    }
  }

  /** The slot's event is pending, was not forced out, and has such a wait. */
  ghost predicate HeldBack<E>(slot: Slot<E>, pending: map<nat, Entry<E>>, now: int) {
    && slot.Pending? && slot.id in pending && !pending[slot.id].forced
    && exists k :: HoldsAt(pending[slot.id], k, now)
  }

  lemma GoesIff<E>(queue: seq<Slot<E>>, pending: map<nat, Entry<E>>, now: int)
    ensures forall i | 0 <= i < |queue| :: Goes(queue[i], pending, now) <==> !HeldBack(queue[i], pending, now)
  {
    hide Blocked, HoldsAt;
    forall i | 0 <= i < |queue|
      ensures Goes(queue[i], pending, now) <==> !HeldBack(queue[i], pending, now)
    {
      if queue[i].Pending? && queue[i].id in pending {
        BlockedIff(pending[queue[i].id], now);
      }
    }
  }

  /** An unresolved wait that drops its event. */
  ghost predicate DropsAt<E>(entry: Entry<E>, k: int) {
    0 <= k < |entry.waits| && !entry.waits[k].1 && entry.waits[k].0.dropAtDeadline
  }

  /** What leaves is nothing, exactly if the event was not forced out and has such a wait; else the event,
      as it is exactly if all its waits were resolved. */
  lemma LeavesIff<E>(entry: Entry<E>, finish: Finish<E>)
    ensures Leaves(entry, finish) == [] <==> !entry.forced && exists k :: DropsAt(entry, k)
    ensures Expireds(entry) == [] <==> forall k | 0 <= k < |entry.waits| :: entry.waits[k].1
    ensures Leaves(entry, finish) != [] ==>
              Leaves(entry, finish) == [if forall k | 0 <= k < |entry.waits| :: entry.waits[k].1 then entry.event
                                        else finish(entry.event, Expireds(entry))]
  {
    var open, expired := Open(entry.waits), Expireds(entry);
    if x :| x in expired && x.dropped {
      var i :| 0 <= i < |expired| && expired[i] == x;
      assert open[i] in open;
      var k :| 0 <= k < |entry.waits| && entry.waits[k] == (open[i], false);
      assert DropsAt(entry, k);
    }
    if k :| DropsAt(entry, k) {
      assert (entry.waits[k].0, false) in entry.waits;
      var i :| 0 <= i < |open| && open[i] == entry.waits[k].0;
      assert !entry.forced ==> expired[i] in expired && expired[i].dropped;
    }
    forall k | 0 <= k < |entry.waits|
      ensures entry.waits[k].1 || expired != []
    {
      assert entry.waits[k].1 || (entry.waits[k].0, false) in entry.waits;
    }
    if expired != [] {
      assert open[0] in open;
    }
  }

  /** The reasons that are told of are the unresolved ones, in order, each with what it does. */
  lemma ExpiredsMore<E>(entry: Entry<E>, wait: Wait, done: bool)
    ensures Expireds(entry.(waits := [])) == []
    ensures Expireds(entry.(waits := entry.waits + [(wait, done)]))
         == Expireds(entry) + if done then [] else [Expired(wait.reason, wait.dropAtDeadline && !entry.forced)]
  {
    OpenMore(entry.waits, wait, done);
  }

  lemma {:induction false} OpenMore(waits: seq<(Wait, bool)>, wait: Wait, done: bool)
    ensures Open(waits + [(wait, done)]) == Open(waits) + if done then [] else [wait]
  {
    var more := waits + [(wait, done)];
    if waits == [] {
      assert more[1..] == [];
    } else {
      assert more[1..] == waits[1..] + [(wait, done)];
      OpenMore(waits[1..], wait, done);
    }
  }

  /** What became of a pushed event. */
  datatype Fate = InLine | Emitted | Dropped | Cancelled

  /** The waits still open. */
  function Open(waits: seq<(Wait, bool)>): (open: seq<Wait>)
    ensures forall w :: w in open <==> (w, false) in waits
  {
    if waits == [] then []
    else
      var rest := Open(waits[1..]);
      assert forall x :: x in waits <==> x == waits[0] || x in waits[1..];
      if waits[0].1 then rest else [waits[0].0] + rest
  }

  predicate Blocked<E>(entry: Entry<E>, now: int) {
    !entry.forced && exists w | w in Open(entry.waits) :: w.deadline.None? || now < w.deadline.value
  }

  function Expireds<E>(entry: Entry<E>): seq<Expired> {
    var open := Open(entry.waits);
    seq(|open|, i requires 0 <= i < |open| => Expired(open[i].reason, open[i].dropAtDeadline && !entry.forced))
  }

  type Finish<!E> = (E, seq<Expired>) -> E

  /** What leaves of an entry that leaves now: nothing, if one of its open reasons drops it. */
  function Leaves<E>(entry: Entry<E>, finish: Finish<E>): seq<E> {
    var expired := Expireds(entry);
    if exists x | x in expired :: x.dropped then []
    else [if expired == [] then entry.event else finish(entry.event, expired)]
  }

  /** What one slot puts out. */
  function Out<E>(slot: Slot<E>, pending: map<nat, Entry<E>>, finish: Finish<E>): seq<E> {
    match slot
    case Ready(e) => [e]
    case Pending(id) => if id in pending then Leaves(pending[id], finish) else []
  }

  function Outs<E>(queue: seq<Slot<E>>, pending: map<nat, Entry<E>>, finish: Finish<E>): seq<E> {
    if queue == [] then [] else Outs(queue[..|queue| - 1], pending, finish) + Out(queue[|queue| - 1], pending, finish)
  }

  /** The slot can go at `now`. */
  predicate Goes<E>(slot: Slot<E>, pending: map<nat, Entry<E>>, now: int) {
    slot.Pending? && slot.id in pending ==> !Blocked(pending[slot.id], now)
  }

  predicate Increasing(ns: seq<nat>) {
    forall i, j | 0 <= i < j < |ns| :: ns[i] < ns[j]
  }

  /** Still to be emitted or dropped. */
  predicate Held<E>(slot: Slot<E>, pending: map<nat, Entry<E>>) {
    slot.Pending? ==> slot.id in pending
  }

  /** The events pushed so far, by push number: `line`, those whose slots are in the queue;
      `emitted`, those put out, in order; `fates`, what became of each. */
  datatype Past = Past(line: seq<nat>, emitted: seq<nat>, fates: seq<Fate>)

  ghost predicate Tracks<E>(queue: seq<Slot<E>>, pending: map<nat, Entry<E>>, past: Past) {
    && |past.line| == |queue|
    && Increasing(past.line) && Increasing(past.emitted)
    && (forall i | 0 <= i < |past.line| :: past.line[i] < |past.fates|)
    && (forall n | n in past.emitted :: n < |past.fates|)
    && (forall n, i | n in past.emitted && 0 <= i < |past.line| :: n < past.line[i])
    && (forall n | 0 <= n < |past.fates| :: past.fates[n] == Emitted <==> n in past.emitted)
    && (forall n | 0 <= n < |past.fates| :: past.fates[n] == InLine ==> n in past.line)
    && (forall i | 0 <= i < |past.line| ::
          past.fates[past.line[i]] == if Held(queue[i], pending) then InLine else Cancelled)
  }

  /** Pending ids are handed out in push order, each entry has its slot, and each id leaves once. */
  ghost predicate Numbered<E>(queue: seq<Slot<E>>, pending: map<nat, Entry<E>>, next: nat, left: seq<nat>) {
    && (forall i, j | 0 <= i < j < |queue| && queue[i].Pending? && queue[j].Pending? :: queue[i].id < queue[j].id)
    && (forall i | 0 <= i < |queue| && queue[i].Pending? :: 1 <= queue[i].id <= next)
    && (forall id | id in pending :: Pending(id) in queue)
    && (forall i, j | 0 <= i < j < |left| :: left[i] != left[j])
    && (forall id: nat :: id in left <==> 1 <= id <= next && id !in pending)
  }

  function Unforced<E>(pending: map<nat, Entry<E>>): set<nat> {
    set id | id in pending && !pending[id].forced
  }

  /** The oldest unforced event was forced out, nothing else changed. */
  ghost predicate OldestForced<E>(pending: map<nat, Entry<E>>, pending': map<nat, Entry<E>>) {
    exists oldest ::
      && oldest in pending && oldest in Unforced(pending) && (forall o | o in Unforced(pending) :: oldest <= o)
      && pending' == pending[oldest := pending[oldest].(forced := true)]
  }

  /** The overflow rule: forced events are older than all unforced ones, which are within the cap. */
  ghost predicate Ruled<E>(pending: map<nat, Entry<E>>, order: seq<nat>, next: nat, cap: nat) {
    && Increasing(order) && (forall id | id in order :: id <= next)
    && (forall id | id in Unforced(pending) :: id in order)
    && (forall f, id | f in pending && pending[f].forced && id in order :: f < id)
    && |Unforced(pending)| <= cap
  }

  lemma ForcedAreOlder<E>(pending: map<nat, Entry<E>>, order: seq<nat>, next: nat, cap: nat, forced: nat, other: nat)
    requires Ruled(pending, order, next, cap) && forced in pending && other in pending
    requires pending[forced].forced && !pending[other].forced
    ensures forced < other
  {
    assert other in Unforced(pending);
  }

  // Steps of the history.

  lemma PushTracked<E>(queue: seq<Slot<E>>, pending: map<nat, Entry<E>>, past: Past, slot: Slot<E>,
                       pending': map<nat, Entry<E>>)
    requires Tracks(queue, pending, past) && Held(slot, pending')
    requires forall i | 0 <= i < |queue| :: Held(queue[i], pending') == Held(queue[i], pending)
    ensures var n := |past.fates|;
            Tracks(queue + [slot], pending', Past(past.line + [n], past.emitted, past.fates + [InLine]))
  {
    var past' := Past(past.line + [|past.fates|], past.emitted, past.fates + [InLine]);
    assert past'.line[|past.line|] == |past.fates|;
    forall n | 0 <= n < |past'.fates| && past'.fates[n] == InLine
      ensures n in past'.line
    {
      if n < |past.fates| {
        assert n in past.line;
      }
    }
  }

  lemma CancelTracked<E>(queue: seq<Slot<E>>, pending: map<nat, Entry<E>>, past: Past, next: nat, left: seq<nat>,
                         id: nat, at: nat)
    requires Tracks(queue, pending, past) && Numbered(queue, pending, next, left)
    requires id in pending && at < |queue| && queue[at] == Pending(id)
    ensures Tracks(queue, pending - {id}, past.(fates := past.fates[past.line[at] := Cancelled]))
    ensures Numbered(queue, pending - {id}, next, left + [id])
    ensures past.fates[past.line[at]] == InLine
  {
    hide Tracks, Numbered;
    OneSlot(queue, pending, next, left, id, at);
    CancelNumbered(queue, pending, next, left, id);
    SettleOne(queue, pending, pending - {id}, past, at);
  }

  /** An id is in one slot only. */
  lemma OneSlot<E>(queue: seq<Slot<E>>, pending: map<nat, Entry<E>>, next: nat, left: seq<nat>, id: nat, at: nat)
    requires Numbered(queue, pending, next, left) && at < |queue| && queue[at] == Pending(id)
    ensures forall i | 0 <= i < |queue| && i != at :: queue[i] != Pending(id)
  {
  }

  lemma CancelNumbered<E>(queue: seq<Slot<E>>, pending: map<nat, Entry<E>>, next: nat, left: seq<nat>, id: nat)
    requires Numbered(queue, pending, next, left) && id in pending
    ensures Numbered(queue, pending - {id}, next, left + [id])
  {
    assert forall n :: n in left + [id] <==> n in left || n == id;
  }

  /** The event in slot `at` is given up; the others stay as they are. */
  lemma SettleOne<E>(queue: seq<Slot<E>>, pending: map<nat, Entry<E>>, pending': map<nat, Entry<E>>, past: Past,
                     at: nat)
    requires Tracks(queue, pending, past) && at < |queue| && Held(queue[at], pending) && !Held(queue[at], pending')
    requires forall i | 0 <= i < |queue| && i != at :: Held(queue[i], pending') == Held(queue[i], pending)
    ensures Tracks(queue, pending', past.(fates := past.fates[past.line[at] := Cancelled]))
    ensures past.fates[past.line[at]] == InLine
  {
    hide Held;
    var n := past.line[at];
    assert n !in past.emitted;
    assert forall i | 0 <= i < |past.line| && i != at :: past.line[i] != n;
  }

  lemma SlotOf<E>(queue: seq<Slot<E>>, pending: map<nat, Entry<E>>, past: Past, next: nat, left: seq<nat>,
                  id: nat) returns (at: nat)
    requires Tracks(queue, pending, past) && Numbered(queue, pending, next, left) && id in pending
    ensures at < |queue| && queue[at] == Pending(id) && at < |past.line| && past.line[at] < |past.fates|
  {
    at :| at < |queue| && queue[at] == Pending(id);
  }

  /** The history once the front event has left, with `fate`. */
  function Left(past: Past, fate: Fate): Past
    requires past.line != [] && past.line[0] < |past.fates|
  {
    var n := past.line[0];
    Past(past.line[1..], if fate == Emitted then past.emitted + [n] else past.emitted, past.fates[n := fate])
  }

  /** The front slot leaves; `fate` is what becomes of it. */
  lemma LeaveTracked<E>(queue: seq<Slot<E>>, pending: map<nat, Entry<E>>, past: Past, pending': map<nat, Entry<E>>,
                        fate: Fate)
    requires queue != [] && Tracks(queue, pending, past) && fate != InLine
    requires fate == Cancelled <==> !Held(queue[0], pending)
    requires forall i | 1 <= i < |queue| :: Held(queue[i], pending') == Held(queue[i], pending)
    ensures past.line != [] && past.line[0] < |past.fates| && Tracks(queue[1..], pending', Left(past, fate))
  {
    hide Held, Increasing;
    var n, past' := past.line[0], Left(past, fate);
    LeaveEmitted(past.line, past.emitted);
    LeaveLine(past.line);
    assert forall i | 0 <= i < |past'.line| :: queue[1..][i] == queue[i + 1];
    assert past.fates[n] == InLine || past.fates[n] == Cancelled;
  }

  /** The others stay in line, behind the one that left. */
  lemma LeaveLine(line: seq<nat>)
    requires line != [] && Increasing(line)
    ensures forall m | m in line :: m == line[0] || m in line[1..]
    ensures forall i | 0 <= i < |line[1..]| :: line[1..][i] == line[i + 1] > line[0]
  {
  }

  /** What is put out comes before all that is still in line. */
  lemma LeaveEmitted(line: seq<nat>, emitted: seq<nat>)
    requires line != [] && Increasing(line) && Increasing(emitted)
    requires forall n, i | n in emitted && 0 <= i < |line| :: n < line[i]
    ensures Increasing(line[1..]) && Increasing(emitted + [line[0]]) && line[0] !in emitted
    ensures forall m :: m in emitted + [line[0]] <==> m in emitted || m == line[0]
    ensures forall m, i | m in emitted + [line[0]] && 0 <= i < |line[1..]| :: m < line[1..][i]
  {
    assert forall i | 0 <= i < |emitted| :: emitted[i] in emitted;
  }

  lemma LeaveNumbered<E>(queue: seq<Slot<E>>, pending: map<nat, Entry<E>>, next: nat, left: seq<nat>)
    requires queue != [] && Numbered(queue, pending, next, left)
    ensures if queue[0].Pending? && queue[0].id in pending
            then Numbered(queue[1..], pending - {queue[0].id}, next, left + [queue[0].id])
            else Numbered(queue[1..], pending, next, left)
    ensures queue[0].Pending? ==> forall i | 1 <= i < |queue| :: queue[i] != queue[0]
  {
    forall id | id in pending && Pending(id) != queue[0]
      ensures Pending(id) in queue[1..]
    {
      var i :| 0 <= i < |queue| && queue[i] == Pending(id);
      assert queue[1..][i - 1] == Pending(id);
    }
    if queue[0].Pending? && queue[0].id in pending {
      var id := queue[0].id;
      assert forall n :: n in left + [id] <==> n in left || n == id;
    }
  }

  lemma FewerRuled<E>(pending: map<nat, Entry<E>>, order: seq<nat>, next: nat, cap: nat, id: nat)
    requires Ruled(pending, order, next, cap)
    ensures Ruled(pending - {id}, order, next, cap)
  {
    assert Unforced(pending - {id}) == Unforced(pending) - {id};
  }

  /** Changing an entry, but not whether it was forced out, changes nothing here. */
  lemma ChangeKeeps<E>(queue: seq<Slot<E>>, pending: map<nat, Entry<E>>, past: Past, next: nat, left: seq<nat>,
                       order: seq<nat>, cap: nat, id: nat, entry: Entry<E>)
    requires id in pending && entry.forced == pending[id].forced
    requires Tracks(queue, pending, past) && Numbered(queue, pending, next, left) && Ruled(pending, order, next, cap)
    ensures var pending' := pending[id := entry];
            Tracks(queue, pending', past) && Numbered(queue, pending', next, left) && Ruled(pending', order, next, cap)
  {
    hide Tracks, Numbered, Ruled;
    SameKeys(queue, pending, pending[id := entry], past, next, left);
    ChangeRuled(pending, order, next, cap, id, entry);
  }

  /** Only which ids are pending counts for the line. */
  lemma SameKeys<E>(queue: seq<Slot<E>>, pending: map<nat, Entry<E>>, pending': map<nat, Entry<E>>, past: Past,
                    next: nat, left: seq<nat>)
    requires pending'.Keys == pending.Keys
    requires Tracks(queue, pending, past) && Numbered(queue, pending, next, left)
    ensures Tracks(queue, pending', past) && Numbered(queue, pending', next, left)
  {
    hide Tracks, Numbered;
    SameKeysTracked(queue, pending, pending', past);
    SameKeysNumbered(queue, pending, pending', next, left);
  }

  lemma SameKeysTracked<E>(queue: seq<Slot<E>>, pending: map<nat, Entry<E>>, pending': map<nat, Entry<E>>, past: Past)
    requires pending'.Keys == pending.Keys && Tracks(queue, pending, past)
    ensures Tracks(queue, pending', past)
  {
    hide Increasing;
    assert forall i | 0 <= i < |queue| :: Held(queue[i], pending') == Held(queue[i], pending);
  }

  lemma SameKeysNumbered<E>(queue: seq<Slot<E>>, pending: map<nat, Entry<E>>, pending': map<nat, Entry<E>>, next: nat,
                            left: seq<nat>)
    requires pending'.Keys == pending.Keys && Numbered(queue, pending, next, left)
    ensures Numbered(queue, pending', next, left)
  {
    forall id: nat
      ensures id in pending' <==> id in pending
    {
      assert id in pending'.Keys <==> id in pending.Keys;
    }
  }

  lemma ChangeRuled<E>(pending: map<nat, Entry<E>>, order: seq<nat>, next: nat, cap: nat, id: nat, entry: Entry<E>)
    requires id in pending && entry.forced == pending[id].forced && Ruled(pending, order, next, cap)
    ensures Ruled(pending[id := entry], order, next, cap)
  {
    hide Increasing;
    assert Unforced(pending[id := entry]) == Unforced(pending);
  }

  lemma PushNumbered<E>(queue: seq<Slot<E>>, pending: map<nat, Entry<E>>, next: nat, left: seq<nat>, entry: Entry<E>)
    requires Numbered(queue, pending, next, left)
    ensures next + 1 !in pending
    ensures Numbered(queue + [Pending(next + 1)], pending[next + 1 := entry], next + 1, left)
  {
    var queue' := queue + [Pending(next + 1)];
    assert queue'[|queue|] == Pending(next + 1);
    assert forall id | id in pending :: Pending(id) in queue && 1 <= id <= next;
    forall id: nat
      ensures id in left <==> 1 <= id <= next + 1 && id !in pending[next + 1 := entry]
    {
      assert id in left <==> 1 <= id <= next && id !in pending;
    }
  }

  lemma UnforcedGrows<E>(pending: map<nat, Entry<E>>, order: seq<nat>, next: nat, cap: nat, entry: Entry<E>)
    requires Ruled(pending, order, next, cap) && next + 1 !in pending && !entry.forced
    requires forall id | id in pending :: id <= next
    ensures Ruled(pending[next + 1 := entry], order + [next + 1], next + 1, cap + 1)
    ensures |pending[next + 1 := entry]| <= cap ==> Ruled(pending[next + 1 := entry], order + [next + 1], next + 1, cap)
  {
    var pending' := pending[next + 1 := entry];
    assert Unforced(pending') == Unforced(pending) + {next + 1};
    assert forall n :: n in order + [next + 1] <==> n in order || n == next + 1;
    assert forall i | 0 <= i < |order| :: order[i] in order;
    SubsetSize(Unforced(pending'), pending'.Keys);
  }

  /** Forcing the oldest unforced event out, which is the first in `order` that is still pending. */
  lemma ForceOldest<E>(pending: map<nat, Entry<E>>, order: seq<nat>, next: nat, cap: nat)
    requires Ruled(pending, order, next, cap + 1) && order != [] && order[0] in pending
    ensures order[0] in Unforced(pending) && forall id | id in Unforced(pending) :: order[0] <= id
    ensures Ruled(pending[order[0] := pending[order[0]].(forced := true)], order[1..], next, cap)
  {
    var oldest := order[0];
    assert oldest in order;
    var pending' := pending[oldest := pending[oldest].(forced := true)];
    assert Unforced(pending') == Unforced(pending) - {oldest};
    assert forall n | n in order :: n == oldest || n in order[1..];
    assert forall n | n in order[1..] :: n in order && oldest < n;
  }

  lemma SkipGone<E>(pending: map<nat, Entry<E>>, order: seq<nat>, next: nat, cap: nat)
    requires Ruled(pending, order, next, cap) && order != [] && order[0] !in pending
    ensures Ruled(pending, order[1..], next, cap)
  {
    assert forall n | n in order :: n == order[0] || n in order[1..];
    assert forall n | n in order[1..] :: n in order;
  }

  /** What is left of the pending events once `gone` slots are taken. */
  ghost function Remaining<E>(pending: map<nat, Entry<E>>, gone: seq<Slot<E>>): map<nat, Entry<E>> {
    map id | id in pending && Pending(id) !in gone :: pending[id]
  }

  lemma RemainingStep<E>(pending: map<nat, Entry<E>>, queue: seq<Slot<E>>, n: nat)
    requires n < |queue|
    ensures queue[n].Pending? && queue[n].id in Remaining(pending, queue[..n]) ==>
              Remaining(pending, queue[..n + 1]) == Remaining(pending, queue[..n]) - {queue[n].id}
    ensures !(queue[n].Pending? && queue[n].id in Remaining(pending, queue[..n])) ==>
              Remaining(pending, queue[..n + 1]) == Remaining(pending, queue[..n])
  {
    assert forall s :: s in queue[..n + 1] <==> s in queue[..n] || s == queue[n];
  }

  lemma StillThere<E>(queue: seq<Slot<E>>, pending: map<nat, Entry<E>>, next: nat, left: seq<nat>, n: nat)
    requires Numbered(queue, pending, next, left) && n < |queue| && queue[n].Pending?
    ensures queue[n].id in pending <==> queue[n].id in Remaining(pending, queue[..n])
  {
    assert queue[n] !in queue[..n];
  }

  /** Once the front of the line is blocked, no forced event is left. */
  lemma NoneForced<E>(queue: seq<Slot<E>>, pending: map<nat, Entry<E>>, next: nat, left: seq<nat>, order: seq<nat>,
                      cap: nat, now: int)
    requires Numbered(queue, pending, next, left) && Ruled(pending, order, next, cap)
    requires queue != [] ==> !Goes(queue[0], pending, now)
    ensures forall id | id in pending :: !pending[id].forced
    ensures |pending| <= cap
  {
    forall id | id in pending
      ensures !pending[id].forced
    {
      var i :| 0 <= i < |queue| && queue[i] == Pending(id);
      if pending[id].forced {
        ForcedAreOlder(pending, order, next, cap, id, queue[0].id);
      }
    }
    assert Unforced(pending) == pending.Keys;
  }

  class Stage<!E> {
    var queue: seq<Slot<E>>
    var pending: map<nat, Entry<E>>
    var next: nat
    const cap: nat
    var overflow: nat
    /** Ids that left since the last `TakeExited`. */
    var exited: seq<nat>
    /** Pending ids in push order; those that left are dropped as they are reached. */
    var order: seq<nat>
    /** What became of every event pushed, and every id that left, in order. */
    ghost var past: Past
    ghost var reported: seq<nat>

    ghost predicate Valid()
      reads this
    {
      && Tracks(queue, pending, past)
      && Numbered(queue, pending, next, reported + exited)
      && Ruled(pending, order, next, cap)
    }

    constructor (cap: nat)
      ensures Valid() && this.cap == cap && queue == [] && past == Past([], [], []) && exited == [] && reported == []
      ensures overflow == 0 && next == 0
    {
      this.cap := cap;
      queue, pending, next, overflow, exited, order := [], map[], 0, 0, [], [];
      past, reported := Past([], [], []), [];
    }

    /** An event that is ready joins the line. */
    method Push(event: E)
      requires Valid()
      modifies this`queue, this`past
      ensures Valid() && queue == old(queue) + [Ready(event)]
      ensures past == Past(old(past.line) + [|old(past.fates)|], old(past.emitted), old(past.fates) + [InLine])
    {
      PushTracked(queue, pending, past, Ready(event), pending);
      PushReadyNumbered(queue, pending, next, reported + exited, event);
      queue := queue + [Ready(event)];
      past := Past(past.line + [|past.fates|], past.emitted, past.fates + [InLine]);
    }

    /** An event that waits. Past the cap the oldest event not forced yet goes out as it is. */
    method PushPending(event: E, waits: seq<Wait>) returns (id: nat)
      requires Valid()
      modifies this`queue, this`pending, this`next, this`order, this`overflow, this`past
      ensures Valid() && id == old(next) + 1 == next && id !in old(pending)
      ensures queue == old(queue) + [Pending(id)]
      ensures past == Past(old(past.line) + [|old(past.fates)|], old(past.emitted), old(past.fates) + [InLine])
      ensures var entered := old(pending)[id := Entry(event, Unresolved(waits), false)];
              if |entered| <= cap then pending == entered && overflow == old(overflow)
              else
                && overflow == old(overflow) + 1
                && OldestForced(entered, pending)
    {
      hide Tracks, Numbered, Ruled, Unforced;
      var entry := Entry(event, Unresolved(waits), false);
      ghost var left := reported + exited;
      PushNumbered(queue, pending, next, left, entry);
      NumberedIds(queue, pending, next, left);
      UnforcedGrows(pending, order, next, cap, entry);
      NumberedIds(queue + [Pending(next + 1)], pending[next + 1 := entry], next + 1, left);
      PushTracked(queue, pending, past, Pending(next + 1), pending[next + 1 := entry]);
      next := next + 1;
      id := next;
      pending, queue, order := pending[id := entry], queue + [Pending(id)], order + [id];
      past := Past(past.line + [|past.fates|], past.emitted, past.fates + [InLine]);
      if |pending| > cap {
        ForceOut();
      }
    }

    /** Forces the oldest unforced event out. */
    method ForceOut()
      requires Tracks(queue, pending, past) && Numbered(queue, pending, next, reported + exited)
      requires Ruled(pending, order, next, cap + 1) && next in order && next in pending
      modifies this`pending, this`order, this`overflow
      ensures Valid() && overflow == old(overflow) + 1
      ensures OldestForced(old(pending), pending)
    {
      hide Tracks, Numbered, Ruled, Unforced;
      var done := false;
      while order != [] && !done
        invariant !done ==> Ruled(pending, order, next, cap + 1) && next in order && next in pending
        invariant !done ==> pending == old(pending) && overflow == old(overflow)
        invariant done ==> Valid() && overflow == old(overflow) + 1
        invariant done ==> OldestForced(old(pending), pending)
        decreases |order|, !done
      {
        var oldest := order[0];
        if oldest in pending {
          ForceOldest(pending, order, next, cap);
          ForcedKeeps(queue, pending, past, next, reported + exited, oldest);
          pending, order := pending[oldest := pending[oldest].(forced := true)], order[1..];
          overflow := overflow + 1;
          done := true;
        } else {
          SkipGone(pending, order, next, cap + 1);
          assert forall n | n in order :: n == order[0] || n in order[1..];
          order := order[1..];
        }
      }
    }

    /** Changes a pending event. False if it is gone. */
    method Update(id: nat, f: E -> E) returns (found: bool)
      requires Valid()
      modifies this`pending
      ensures Valid() && found == (id in old(pending))
      ensures pending == if id in old(pending) then
                old(pending)[id := old(pending)[id].(event := f(old(pending)[id].event))]
              else old(pending)
    {
      hide Tracks, Numbered, Ruled;
      found := id in pending;
      if found {
        var entry := pending[id].(event := f(pending[id].event));
        ChangeKeeps(queue, pending, past, next, reported + exited, order, cap, id, entry);
        pending := pending[id := entry];
      }
    }

    /** One more wait, unless the event has left. */
    method AddWait(id: nat, wait: Wait) returns (found: bool)
      requires Valid()
      modifies this`pending
      ensures Valid() && found == (id in old(pending))
      ensures pending == if id in old(pending) then
                old(pending)[id := old(pending)[id].(waits := old(pending)[id].waits + [(wait, false)])]
              else old(pending)
    {
      hide Tracks, Numbered, Ruled;
      found := id in pending;
      if found {
        var entry := pending[id].(waits := pending[id].waits + [(wait, false)]);
        ChangeKeeps(queue, pending, past, next, reported + exited, order, cap, id, entry);
        pending := pending[id := entry];
      }
    }

    /** The event waits no longer for this reason. */
    method Resolve(id: nat, reason: Reason)
      requires Valid()
      modifies this`pending
      ensures Valid()
      ensures pending == if id in old(pending) then
                old(pending)[id := old(pending)[id].(waits := Resolved(old(pending)[id].waits, reason))]
              else old(pending)
      ensures id in pending ==>
                forall w :: w in Open(pending[id].waits) <==> w in Open(old(pending)[id].waits) && w.reason != reason
    {
      hide Tracks, Numbered, Ruled;
      if id in pending {
        ResolvedOpen(pending[id].waits, reason);
        var waits, i := pending[id].waits, 0;
        while i < |waits|
          invariant i <= |waits| == |pending[id].waits|
          invariant forall k | 0 <= k < |waits| :: waits[k] == if k < i then Resolved(pending[id].waits, reason)[k]
                    else pending[id].waits[k]
        {
          if waits[i].0.reason == reason {
            waits := waits[i := (waits[i].0, true)];
          }
          i := i + 1;
        }
        assert waits == Resolved(pending[id].waits, reason);
        var entry := pending[id].(waits := waits);
        ChangeKeeps(queue, pending, past, next, reported + exited, order, cap, id, entry);
        pending := pending[id := entry];
      }
    }

    /** One of its open waits has this reason. */
    predicate IsWaiting(id: nat, reason: Reason)
      reads this
    {
      id in pending && exists w | w in Open(pending[id].waits) :: w.reason == reason
    }

    /** Drops a pending event. */
    method Cancel(id: nat) returns (gone: bool)
      requires Valid()
      modifies this`pending, this`exited, this`past
      ensures Valid() && gone == (id in old(pending)) && pending == old(pending) - {id}
      ensures exited == old(exited) + if gone then [id] else []
      ensures past.line == old(past.line) && past.emitted == old(past.emitted)
      ensures |past.fates| == |old(past.fates)| && Settles(old(past), past)
      ensures !gone ==> past == old(past)
      ensures gone ==>
                exists at :: 0 <= at < |queue| && queue[at] == Pending(id)
                             && past.fates == old(past.fates)[past.line[at] := Cancelled]
    {
      hide Tracks, Numbered, Ruled;
      gone := id in pending;
      if gone {
        ghost var at := SlotOf(queue, pending, past, next, reported + exited, id);
        CancelTracked(queue, pending, past, next, reported + exited, id, at);
        FewerRuled(pending, order, next, cap, id);
        assert reported + exited + [id] == reported + (exited + [id]);
        pending, exited := pending - {id}, exited + [id];
        past := past.(fates := past.fates[past.line[at] := Cancelled]);
      }
    }

    /** Hands out the ids that left, once. */
    method TakeExited() returns (ids: seq<nat>)
      requires Valid()
      modifies this`exited, this`reported
      ensures Valid() && ids == old(exited) && exited == [] && reported == old(reported) + ids
    {
      ids := exited;
      assert reported + exited == (reported + exited) + [];
      reported, exited := reported + exited, [];
    }

    /** The front slot leaves, whatever it waits for; `out` is what it puts out. */
    method TakeFront(finish: Finish<E>) returns (out: seq<E>)
      requires Valid() && queue != []
      modifies this`queue, this`pending, this`exited, this`past
      ensures Valid() && queue == old(queue)[1..] && out == Out(old(queue)[0], old(pending), finish)
      ensures pending == if old(queue)[0].Pending? then old(pending) - {old(queue)[0].id} else old(pending)
      ensures Moves(old(past), past, |out|, Held(old(queue)[0], old(pending))) && Settles(old(past), past)
    {
      hide Tracks, Numbered, Ruled, Leaves, Expireds;
      LeaveNumbered(queue, pending, next, reported + exited);
      HeldFate(queue, pending, past);
      match queue[0]
      case Ready(e) =>
        LeaveTracked(queue, pending, past, pending, Emitted);
        queue, out := queue[1..], [e];
        past := Left(past, Emitted);
      case Pending(id) =>
        if id !in pending {
          LeaveTracked(queue, pending, past, pending, Cancelled);
          Unchanged(pending, id);
          queue, out := queue[1..], [];
          past := Left(past, Cancelled);
        } else {
          var entry := pending[id];
          var expired := Expireds(entry);
          var event := if expired == [] then entry.event else finish(entry.event, expired);
          var dropped := exists x | x in expired :: x.dropped;
          LeavesWhat(entry, finish);
          out := if dropped then [] else [event];
          ghost var fate := if dropped then Dropped else Emitted;
          LeaveTracked(queue, pending, past, pending - {id}, fate);
          FewerRuled(pending, order, next, cap, id);
          assert reported + exited + [id] == reported + (exited + [id]);
          queue, pending, exited := queue[1..], pending - {id}, exited + [id];
          past := Left(past, fate);
        }
    }

    /** The first `n` slots leave, as many as can: each was forced, or waits for nothing that has not
        expired at `now`; the one after them does, and was not forced. */
    method Drain(now: int, finish: Finish<E>) returns (out: seq<E>, ghost n: nat)
      requires Valid()
      modifies this`queue, this`pending, this`exited, this`past, this`order
      ensures Valid()
      ensures n <= |old(queue)| && queue == old(queue)[n..] && pending == Remaining(old(pending), old(queue)[..n])
      ensures out == Outs(old(queue)[..n], old(pending), finish)
      ensures forall i | 0 <= i < n :: !HeldBack(old(queue)[i], old(pending), now)
      ensures n < |old(queue)| ==> HeldBack(old(queue)[n], old(pending), now)
      ensures old(past.emitted) <= past.emitted && |past.emitted| == |old(past.emitted)| + |out|
      ensures past.line == old(past.line)[n..] && |past.fates| == |old(past.fates)| && Settles(old(past), past)
      ensures forall id | id in pending :: !pending[id].forced
      ensures |pending| <= cap
    {
      hide Tracks, Numbered, Ruled, Leaves, Expireds, Unforced, Outs, Remaining, Blocked, Settles, HeldBack;
      ghost var left := reported + exited;
      out, n := [], 0;
      NothingGone(queue, pending, finish);
      SettlesSelf(past);
      while queue != []
        invariant Valid() && n <= |old(queue)| && queue == old(queue)[n..]
        invariant pending == Remaining(old(pending), old(queue)[..n])
        invariant out == Outs(old(queue)[..n], old(pending), finish)
        invariant forall i | 0 <= i < n :: Goes(old(queue)[i], old(pending), now)
        invariant old(past.emitted) <= past.emitted && |past.emitted| == |old(past.emitted)| + |out|
        invariant n <= |old(past.line)| && past.line == old(past.line)[n..] && |past.fates| == |old(past.fates)|
        invariant Settles(old(past), past)
        decreases |queue|
      {
        assert queue[0] == old(queue)[n];
        FrontThere(old(queue), old(pending), next, left, n);
        if queue[0].Pending? && queue[0].id in pending && Blocked(pending[queue[0].id], now) {
          break;
        }
        OutsStep(old(queue), old(pending), n, finish);
        RemainingStep(old(pending), old(queue), n);
        ghost var slot := queue[0];
        ghost var before := past;
        var more := TakeFront(finish);
        SettlesOn(old(past), before, past);
        Unchanged(Remaining(old(pending), old(queue)[..n]), if slot.Pending? then slot.id else 0);
        out, n := out + more, n + 1;
      }
      while order != [] && order[0] !in pending
        invariant Valid()
        decreases |order|
        modifies this`order
      {
        SkipGone(pending, order, next, cap);
        order := order[1..];
      }
      NoneForced(queue, pending, next, reported + exited, order, cap, now);
      GoesIff(old(queue), old(pending), now);
    }

    /** Everything, in order: unresolved reasons count as expired. */
    method Flush(finish: Finish<E>) returns (out: seq<E>)
      requires Valid()
      modifies this`queue, this`pending, this`exited, this`past, this`order
      ensures Valid() && queue == [] && pending == map[] && order == []
      ensures out == Outs(old(queue), old(pending), finish)
      ensures old(past.emitted) <= past.emitted && |past.emitted| == |old(past.emitted)| + |out|
      ensures Settles(old(past), past) && forall i | 0 <= i < |past.fates| :: past.fates[i] != InLine
    {
      hide Tracks, Numbered, Ruled, Leaves, Expireds, Unforced, Outs, Remaining, Settles;
      ghost var left, n := reported + exited, 0;
      out := [];
      NothingGone(queue, pending, finish);
      SettlesSelf(past);
      while queue != []
        invariant Valid() && n <= |old(queue)| && queue == old(queue)[n..]
        invariant pending == Remaining(old(pending), old(queue)[..n])
        invariant out == Outs(old(queue)[..n], old(pending), finish)
        invariant old(past.emitted) <= past.emitted && |past.emitted| == |old(past.emitted)| + |out|
        invariant Settles(old(past), past)
        decreases |queue|
      {
        assert queue[0] == old(queue)[n];
        FrontThere(old(queue), old(pending), next, left, n);
        OutsStep(old(queue), old(pending), n, finish);
        RemainingStep(old(pending), old(queue), n);
        ghost var slot := queue[0];
        ghost var before := past;
        var more := TakeFront(finish);
        SettlesOn(old(past), before, past);
        Unchanged(Remaining(old(pending), old(queue)[..n]), if slot.Pending? then slot.id else 0);
        out, n := out + more, n + 1;
      }
      assert old(queue)[..n] == old(queue);
      Emptied(pending, past, next, reported + exited, order, cap);
      order := [];
    }
  }

  /** A settled fate stays. */
  ghost predicate Settles(past: Past, past': Past) {
    && |past.fates| <= |past'.fates|
    && forall n | 0 <= n < |past.fates| && past.fates[n] != InLine :: past'.fates[n] == past.fates[n]
  }

  lemma SettlesSelf(a: Past)
    ensures Settles(a, a)
  {
  }

  lemma SettlesOn(a: Past, b: Past, c: Past)
    requires Settles(a, b) && Settles(b, c)
    ensures Settles(a, c)
  {
  }

  /** One slot left: its event was put out (`puts` is 1) or not (0); a cancelled one never is. */
  ghost predicate Moves(past: Past, past': Past, puts: nat, held: bool) {
    && past.line != [] && past'.line == past.line[1..] && past.line[0] < |past.fates|
    && past'.fates == past.fates[past.line[0] := if puts == 1 then Emitted else if held then Dropped else Cancelled]
    && past'.emitted == (if puts == 1 then past.emitted + [past.line[0]] else past.emitted)
    && puts <= (if held then 1 else 0)
  }

  function Resolved(waits: seq<(Wait, bool)>, reason: Reason): seq<(Wait, bool)> {
    seq(|waits|, i requires 0 <= i < |waits| => (waits[i].0, waits[i].1 || waits[i].0.reason == reason))
  }

  lemma ResolvedOpen(waits: seq<(Wait, bool)>, reason: Reason)
    ensures forall w :: w in Open(Resolved(waits, reason)) <==> w in Open(waits) && w.reason != reason
  {
    var done := Resolved(waits, reason);
    forall w: Wait
      ensures (w, false) in done <==> (w, false) in waits && w.reason != reason
    {
      if (w, false) in waits && w.reason != reason {
        var i :| 0 <= i < |waits| && waits[i] == (w, false);
        assert done[i] == (w, false);
      }
    }
  }

  lemma Unchanged<E>(pending: map<nat, Entry<E>>, id: nat)
    ensures id !in pending ==> pending - {id} == pending
  {
  }

  lemma LeavesWhat<E>(entry: Entry<E>, finish: Finish<E>)
    ensures var expired := Expireds(entry);
            Leaves(entry, finish) == if exists x | x in expired :: x.dropped then []
                else [if expired == [] then entry.event else finish(entry.event, expired)]
  {
  }

  lemma HeldFate<E>(queue: seq<Slot<E>>, pending: map<nat, Entry<E>>, past: Past)
    requires queue != [] && Tracks(queue, pending, past)
    ensures past.line != [] && past.line[0] < |past.fates|
    ensures past.fates[past.line[0]] == if Held(queue[0], pending) then InLine else Cancelled
  {
  }

  lemma NothingGone<E>(queue: seq<Slot<E>>, pending: map<nat, Entry<E>>, finish: Finish<E>)
    ensures Outs(queue[..0], pending, finish) == [] && Remaining(pending, queue[..0]) == pending && queue[0..] == queue
  {
  }

  lemma OutsStep<E>(queue: seq<Slot<E>>, pending: map<nat, Entry<E>>, n: nat, finish: Finish<E>)
    requires n < |queue|
    ensures Outs(queue[..n + 1], pending, finish) == Outs(queue[..n], pending, finish) + Out(queue[n], pending, finish)
  {
    assert queue[..n + 1][..n] == queue[..n];
  }

  /** An id is in one slot only: the entry at the front is as it was. */
  lemma FrontThere<E>(queue: seq<Slot<E>>, pending: map<nat, Entry<E>>, next: nat, left: seq<nat>, n: nat)
    requires Numbered(queue, pending, next, left) && n < |queue|
    ensures queue[n].Pending? ==>
              var now := Remaining(pending, queue[..n]);
              (queue[n].id in pending <==> queue[n].id in now)
                  && (queue[n].id in now ==> now[queue[n].id] == pending[queue[n].id])
  {
    if queue[n].Pending? {
      StillThere(queue, pending, next, left, n);
    }
  }

  lemma Emptied<E>(pending: map<nat, Entry<E>>, past: Past, next: nat, left: seq<nat>, order: seq<nat>, cap: nat)
    requires Tracks([], pending, past) && Numbered([], pending, next, left) && Ruled(pending, order, next, cap)
    ensures pending == map[] && Ruled(pending, [], next, cap)
    ensures forall i | 0 <= i < |past.fates| :: past.fates[i] != InLine
  {
    var none: seq<Slot<E>> := [];
    assert forall id | id in pending :: Pending(id) in none;
  }

  function Unresolved(waits: seq<Wait>): seq<(Wait, bool)> {
    seq(|waits|, i requires 0 <= i < |waits| => (waits[i], false))
  }

  lemma NumberedIds<E>(queue: seq<Slot<E>>, pending: map<nat, Entry<E>>, next: nat, left: seq<nat>)
    requires Numbered(queue, pending, next, left)
    ensures forall id | id in pending :: id <= next
    ensures forall i | 0 <= i < |queue| && queue[i].Pending? :: queue[i].id <= next
  {
  }

  lemma PushReadyNumbered<E>(queue: seq<Slot<E>>, pending: map<nat, Entry<E>>, next: nat, left: seq<nat>, event: E)
    requires Numbered(queue, pending, next, left)
    ensures Numbered(queue + [Ready(event)], pending, next, left)
  {
    assert forall s | s in queue :: s in queue + [Ready(event)];
  }

  lemma ForcedKeeps<E>(queue: seq<Slot<E>>, pending: map<nat, Entry<E>>, past: Past, next: nat, left: seq<nat>, id: nat)
    requires id in pending && Tracks(queue, pending, past) && Numbered(queue, pending, next, left)
    ensures var pending' := pending[id := pending[id].(forced := true)];
            Tracks(queue, pending', past) && Numbered(queue, pending', next, left)
  {
    hide Tracks, Numbered;
    SameKeys(queue, pending, pending[id := pending[id].(forced := true)], past, next, left);
  }
}
