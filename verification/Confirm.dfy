/** The failure-confirm window: a file operation is held until stream time passes its window, and
    stands unless a failed OperationEnd with its Irp comes first. The event of the operation waits in
    the completion stage for as long, and no longer. */
module Confirm {
  import opened Options
  import opened Time
  import opened Recent
  import Completion

  type Irp = nat

  /** A held operation: its time, its Irp, and its number unless it was taken out. */
  datatype Held = Held(ts: i64, irp: Irp, what: Option<nat>)

  datatype Fate = Waiting | Confirmed | Failed

  /** Each operation still waiting is held once, in order; nothing held is settled. */
  ghost predicate Waits(held: seq<Held>, fates: seq<Fate>) {
    && (forall i | 0 <= i < |held| && held[i].what.Some? ::
          held[i].what.value < |fates| && fates[held[i].what.value] == Waiting)
    && (forall i, j | 0 <= i < j < |held| && held[i].what.Some? && held[j].what.Some? ::
          held[i].what.value < held[j].what.value)
    && (forall op | 0 <= op < |fates| && fates[op] == Waiting ::
          exists i :: 0 <= i < |held| && held[i].what == Some(op))
  }

  /** The newest held operation on its Irp. */
  ghost predicate Newest(held: seq<Held>, i: int) {
    0 <= i < |held| && forall j | i < j < |held| :: held[j].irp != held[i].irp
  }

  ghost predicate Points(held: seq<Held>, base: nat, at: nat, irp: Irp) {
    && base <= at < base + |held|
    && Newest(held, at - base) && held[at - base].irp == irp && held[at - base].what.Some?
  }

  /** The index holds, by absolute position, exactly the newest operation of each Irp, unless that
      one failed. */
  ghost predicate Indexed(held: seq<Held>, base: nat, byIrp: map<Irp, nat>) {
    && (forall irp | irp in byIrp :: Points(held, base, byIrp[irp], irp))
    && (forall i | Newest(held, i) && held[i].what.Some? :: held[i].irp in byIrp && byIrp[held[i].irp] == base + i)
  }

  /** Its window has passed at `stream`. */
  predicate Passed(op: Held, window: i64, stream: i64) {
    SatAdd(op.ts, window) <= stream
  }

  lemma HoldWaits(held: seq<Held>, fates: seq<Fate>, ts: i64, irp: Irp)
    requires Waits(held, fates)
    ensures Waits(held + [Held(ts, irp, Some(|fates|))], fates + [Waiting])
  {
    var held' := held + [Held(ts, irp, Some(|fates|))];
    assert held'[|held|].what == Some(|fates|);
    forall op | 0 <= op < |fates| && fates[op] == Waiting
      ensures exists i :: 0 <= i < |held'| && held'[i].what == Some(op)
    {
      var i :| 0 <= i < |held| && held[i].what == Some(op);
      assert held'[i].what == Some(op);
    }
  }

  lemma HoldNewest(held: seq<Held>, last: Held)
    ensures forall i :: Newest(held + [last], i) <==> i == |held| || (Newest(held, i) && held[i].irp != last.irp)
  {
    var held' := held + [last];
    forall i | Newest(held', i)
      ensures i == |held| || (Newest(held, i) && held[i].irp != last.irp)
    {
      if i < |held| {
        assert held'[|held|] == last;
        assert forall j | i < j < |held| :: held'[j] == held[j];
      }
    }
  }

  lemma HoldIndexed(held: seq<Held>, base: nat, byIrp: map<Irp, nat>, last: Held)
    requires Indexed(held, base, byIrp) && last.what.Some?
    ensures Indexed(held + [last], base, byIrp[last.irp := base + |held|])
  {
    hide Newest;
    HoldNewest(held, last);
    NewestIn(held);
    NewestIn(held + [last]);
    var byIrp' := byIrp[last.irp := base + |held|];
    forall irp | irp in byIrp'
      ensures Points(held + [last], base, byIrp'[irp], irp)
    {
      assert irp != last.irp ==> Points(held, base, byIrp[irp], irp);
    }
  }

  lemma NewestIn(held: seq<Held>)
    ensures forall i | Newest(held, i) :: 0 <= i < |held|
  {
  }

  lemma FailWaits(held: seq<Held>, fates: seq<Fate>, i: nat)
    requires Waits(held, fates) && i < |held| && held[i].what.Some?
    ensures held[i].what.value < |fates| && fates[held[i].what.value] == Waiting
    ensures Waits(held[i := held[i].(what := None)], fates[held[i].what.value := Failed])
  {
    var held' := held[i := held[i].(what := None)];
    forall o | 0 <= o < |fates| && fates[o] == Waiting && o != held[i].what.value
      ensures exists j :: 0 <= j < |held'| && held'[j].what == Some(o)
    {
      var j :| 0 <= j < |held| && held[j].what == Some(o);
      assert held'[j].what == Some(o);
    }
  }

  /** The operation at `i` is taken out: it failed. */
  lemma FailIndexed(held: seq<Held>, base: nat, byIrp: map<Irp, nat>, i: nat)
    requires Indexed(held, base, byIrp) && Newest(held, i)
    ensures Indexed(held[i := held[i].(what := None)], base, byIrp - {held[i].irp})
  {
    var held' := held[i := held[i].(what := None)];
    FailNewest(held, i);
    hide Newest;
    NewestIn(held);
    forall irp | irp in byIrp && irp != held[i].irp
      ensures Points(held', base, byIrp[irp], irp)
    {
      assert Points(held, base, byIrp[irp], irp);
    }
    OneNewest(held, i);
  }

  lemma FailNewest(held: seq<Held>, i: nat)
    requires i < |held|
    ensures forall j :: Newest(held[i := held[i].(what := None)], j) <==> Newest(held, j)
  {
    var held' := held[i := held[i].(what := None)];
    assert forall j | 0 <= j < |held| :: held'[j].irp == held[j].irp;
  }

  lemma OneNewest(held: seq<Held>, i: nat)
    requires Newest(held, i)
    ensures forall j | Newest(held, j) && held[j].irp == held[i].irp :: j == i
  {
  }

  lemma PopWaits(held: seq<Held>, fates: seq<Fate>)
    requires held != [] && Waits(held, fates)
    ensures held[0].what.Some? ==> held[0].what.value < |fates| && fates[held[0].what.value] == Waiting
    ensures Waits(held[1..], if held[0].what.Some? then fates[held[0].what.value := Confirmed] else fates)
  {
    var held' := held[1..];
    forall o | 0 <= o < |fates| && fates[o] == Waiting && held[0].what != Some(o)
      ensures exists j :: 0 <= j < |held'| && held'[j].what == Some(o)
    {
      var j :| 0 <= j < |held| && held[j].what == Some(o);
      assert held'[j - 1].what == Some(o);
    }
  }

  lemma PopNewest(held: seq<Held>)
    requires held != []
    ensures forall i :: Newest(held[1..], i) <==> i >= 0 && Newest(held, i + 1)
  {
    var held' := held[1..];
    assert forall i | 0 <= i < |held'| :: held'[i] == held[i + 1];
    forall i | Newest(held', i)
      ensures Newest(held, i + 1)
    {
      assert forall j | i + 1 < j < |held| :: held[j] == held'[j - 1];
    }
  }

  /** The front operation leaves. */
  lemma PopIndexed(held: seq<Held>, base: nat, byIrp: map<Irp, nat>)
    requires held != [] && Indexed(held, base, byIrp)
    ensures var irp := held[0].irp;
            Indexed(held[1..], base + 1, if irp in byIrp && byIrp[irp] == base then byIrp - {irp} else byIrp)
  {
    hide Newest;
    PopNewest(held);
    NewestIn(held);
    var byIrp' := if held[0].irp in byIrp && byIrp[held[0].irp] == base then byIrp - {held[0].irp} else byIrp;
    forall irp | irp in byIrp'
      ensures Points(held[1..], base + 1, byIrp'[irp], irp)
    {
      assert Points(held, base, byIrp[irp], irp);
      assert byIrp[irp] - base - 1 >= 0 ==> Newest(held, byIrp[irp] - base - 1 + 1);
    }
    forall i | Newest(held[1..], i) && held[1..][i].what.Some?
      ensures held[1..][i].irp in byIrp' && byIrp'[held[1..][i].irp] == base + 1 + i
    {
      assert Newest(held, i + 1) && held[1..][i] == held[i + 1];
    }
  }

  /** What the index says about an Irp. */
  lemma IndexFinds(held: seq<Held>, base: nat, byIrp: map<Irp, nat>, irp: Irp)
    requires Indexed(held, base, byIrp)
    ensures irp in byIrp <==> exists i :: Newest(held, i) && held[i].irp == irp && held[i].what.Some?
    ensures irp in byIrp ==> Points(held, base, byIrp[irp], irp)
  {
    if irp in byIrp {
      assert Points(held, base, byIrp[irp], irp);
    }
  }

  // Operations and the events that wait for them.

  /** The event waits to be confirmed. */
  ghost predicate Awaits<E>(pending: map<nat, Completion.Entry<E>>, id: nat)
    requires id in pending
  {
    exists w | w in Completion.Open(pending[id].waits) :: w.reason == Completion.Confirm
  }

  /** An operation still waiting has this event. */
  ghost predicate HeldFor(ids: seq<Option<nat>>, fates: seq<Fate>, id: nat) {
    exists op :: 0 <= op < |ids| == |fates| && ids[op] == Some(id) && fates[op] == Waiting
  }

  /** Each event has one operation at most, and waits to be confirmed exactly while that one waits.
      `but`: an event whose operation is not held yet. */
  ghost predicate Tied<E>(pending: map<nat, Completion.Entry<E>>, next: nat, ids: seq<Option<nat>>, fates: seq<Fate>,
                          but: Option<nat>)
  {
    && |ids| == |fates|
    && (forall op | 0 <= op < |ids| && ids[op].Some? :: 1 <= ids[op].value <= next && ids[op] != but)
    && (forall i, j | 0 <= i < j < |ids| && ids[i].Some? :: ids[i] != ids[j])
    && (forall id | id in pending && Some(id) != but && Awaits(pending, id) :: HeldFor(ids, fates, id))
    && (forall op | 0 <= op < |ids| && fates[op] == Waiting && ids[op].Some? && ids[op].value in pending ::
          Awaits(pending, ids[op].value))
  }

  /** The same events, or fewer, wait to be confirmed: all but `id`, at least. */
  ghost predicate Fewer<E>(pending: map<nat, Completion.Entry<E>>, pending': map<nat, Completion.Entry<E>>,
                           id: Option<nat>)
  {
    forall i | i in pending' :: i in pending && (Some(i) != id ==> (Awaits(pending', i) <==> Awaits(pending, i)))
  }

  /** The operation of the event just pushed is held, or settled at once. */
  lemma TiedEnter<E>(pending: map<nat, Completion.Entry<E>>, pending': map<nat, Completion.Entry<E>>, next: nat,
                     ids: seq<Option<nat>>, fates: seq<Fate>, id: Option<nat>, fate: Fate)
    requires Tied(pending, next, ids, fates, id) && Fewer(pending, pending', id)
    requires id.Some? ==> 1 <= id.value <= next
    requires id.Some? && id.value in pending' ==> (Awaits(pending', id.value) <==> fate == Waiting)
    ensures Tied(pending', next, ids + [id], fates + [fate], None)
  {
    hide Awaits;
    var ids', fates', n := ids + [id], fates + [fate], |ids|;
    assert ids'[n] == id && fates'[n] == fate;
    forall i | i in pending' && Awaits(pending', i)
      ensures HeldFor(ids', fates', i)
    {
      if Some(i) != id {
        HeldMore(ids, fates, id, fate, i);
      }
    }
  }

  lemma HeldMore(ids: seq<Option<nat>>, fates: seq<Fate>, id: Option<nat>, fate: Fate, i: nat)
    requires HeldFor(ids, fates, i)
    ensures HeldFor(ids + [id], fates + [fate], i)
  {
    var op :| 0 <= op < |ids| == |fates| && ids[op] == Some(i) && fates[op] == Waiting;
    assert (ids + [id])[op] == Some(i) && (fates + [fate])[op] == Waiting;
  }

  /** A waiting operation is settled, and its event waits no longer. */
  lemma TiedSettle<E>(pending: map<nat, Completion.Entry<E>>, pending': map<nat, Completion.Entry<E>>, next: nat,
                      ids: seq<Option<nat>>, fates: seq<Fate>, op: nat, fate: Fate)
    requires Tied(pending, next, ids, fates, None) && op < |ids| && fates[op] == Waiting != fate
    requires Fewer(pending, pending', ids[op])
    requires ids[op].Some? && ids[op].value in pending' ==> !Awaits(pending', ids[op].value)
    ensures Tied(pending', next, ids, fates[op := fate], None)
  {
    hide Awaits;
    forall i | i in pending' && Awaits(pending', i)
      ensures HeldFor(ids, fates[op := fate], i)
    {
      assert HeldFor(ids, fates, i);
      var o :| 0 <= o < |ids| == |fates| && ids[o] == Some(i) && fates[o] == Waiting;
      assert o != op;
      assert fates[op := fate][o] == Waiting;
    }
  }

  /** Whatever else happens to pending events: one may leave, or change without starting or ceasing to
      wait to be confirmed. */
  lemma TiedStays<E>(pending: map<nat, Completion.Entry<E>>, pending': map<nat, Completion.Entry<E>>, next: nat,
                     ids: seq<Option<nat>>, fates: seq<Fate>)
    requires Tied(pending, next, ids, fates, None) && Fewer(pending, pending', None)
    ensures Tied(pending', next, ids, fates, None)
  {
    hide Awaits, HeldFor;
  }

  /** A new event waits to be confirmed exactly if one of its waits says so. */
  lemma TiedPush<E>(pending: map<nat, Completion.Entry<E>>, pending': map<nat, Completion.Entry<E>>, next: nat,
                    ids: seq<Option<nat>>, fates: seq<Fate>, event: E, waits: seq<Completion.Wait>)
    requires Tied(pending, next, ids, fates, None) && next + 1 !in pending
    requires Entered(pending, pending', next + 1, Completion.Entry(event, Completion.Unresolved(waits), false))
    ensures Tied(pending', next + 1, ids, fates, Some(next + 1))
    ensures next + 1 in pending'
    ensures Awaits(pending', next + 1) <==> exists w | w in waits :: w.reason == Completion.Confirm
  {
    hide HeldFor;
    UnresolvedOpen(waits);
    forall i | i in pending' && i != next + 1
      ensures i in pending && (Awaits(pending', i) <==> Awaits(pending, i))
    {
    }
  }

  /** The entry was added, and at most one forced out. */
  ghost predicate Entered<E>(pending: map<nat, Completion.Entry<E>>, pending': map<nat, Completion.Entry<E>>, id: nat,
                             entry: Completion.Entry<E>)
  {
    && pending'.Keys == pending.Keys + {id}
    && forall i | i in pending' :: pending'[i].waits == (if i == id then entry else pending[i]).waits
  }

  lemma UnresolvedOpen(waits: seq<Completion.Wait>)
    ensures forall w :: w in Completion.Open(Completion.Unresolved(waits)) <==> w in waits
  {
    var all := Completion.Unresolved(waits);
    forall w | w in waits
      ensures (w, false) in all
    {
      var i :| 0 <= i < |waits| && waits[i] == w;
      assert all[i] == (w, false);
    }
  }

  /** Once every wait for a confirmation is resolved, none is open; the others stay. */
  lemma ResolvedAwaits<E>(pending: map<nat, Completion.Entry<E>>, id: nat)
    requires id in pending
    ensures var waits := Completion.Resolved(pending[id].waits, Completion.Confirm);
            var pending' := pending[id := pending[id].(waits := waits)];
            !Awaits(pending', id) && Fewer(pending, pending', Some(id))
  {
    var waits, done := pending[id].waits, Completion.Resolved(pending[id].waits, Completion.Confirm);
    forall w: Completion.Wait | (w, false) in done
      ensures w.reason != Completion.Confirm
    {
      var i :| 0 <= i < |done| && done[i] == (w, false);
      assert waits[i].0 == w;
    }
  }

  class Window<!E> {
    /** Whether OperationEnds come at all. */
    const opEnd: bool
    const window: i64
    const stage: Completion.Stage<E>
    var held: seq<Held>
    /** The position of the front of `held`, counted since the start. */
    var heldBase: nat
    /** Irp to the position of the newest held operation with it. */
    var heldByIrp: map<Irp, nat>
    /** The pending event of each operation, by number, if it has one. */
    var ids: seq<Option<nat>>
    /** Failures no operation claimed yet. */
    const failed: RecentSet<Irp>
    /** Operations confirmed not long ago: a failure of one of these is late. */
    const confirmed: RecentSet<Irp>
    var opFailed: nat
    var lateFailures: nat
    /** What became of each operation, by number. */
    ghost var fates: seq<Fate>

    ghost predicate Sets()
      reads failed, confirmed
    {
      failed != confirmed && failed.Valid() && confirmed.Valid()
    }

    /** All is well, but for the operation of one event, which is not held yet. */
    ghost predicate ValidBut(id: Option<nat>)
      reads this, failed, confirmed, stage
    {
      && Sets() && stage.Valid()
      && Waits(held, fates) && Indexed(held, heldBase, heldByIrp)
      && Tied(stage.pending, stage.next, ids, fates, id)
    }

    ghost predicate Valid()
      reads this, failed, confirmed, stage
    {
      ValidBut(None)
    }

    constructor (opEnd: bool, window: i64, failedCap: nat, confirmedCap: nat, pendingCap: nat)
      ensures Valid() && fresh(failed) && fresh(confirmed) && fresh(stage)
      ensures this.opEnd == opEnd && this.window == window && held == [] && fates == []
      ensures failed.seen == map[] && failed.cap == (if failedCap == 0 then 1 else failedCap)
      ensures confirmed.seen == map[] && confirmed.cap == (if confirmedCap == 0 then 1 else confirmedCap)
      ensures stage.cap == pendingCap && opFailed == 0 && lateFailures == 0
    {
      this.opEnd, this.window := opEnd, window;
      held, heldBase, heldByIrp, opFailed, lateFailures, ids, fates := [], 0, map[], 0, 0, [], [];
      failed := new RecentSet(failedCap);
      confirmed := new RecentSet(confirmedCap);
      stage := new Completion.Stage(pendingCap);
      new;
      NonePending(stage);
    }

    lemma NonePending(stage: Completion.Stage<E>)
      requires stage.Valid() && stage.queue == []
      ensures stage.pending == map[]
    {
      hide Completion.Tracks, Completion.Ruled;
      assert forall id | id in stage.pending :: Completion.Pending(id) in stage.queue;
    }

    /** An operation stands. It was waiting: nothing is settled twice. */
    method Confirm(op: nat)
      requires op < |fates| && fates[op] == Waiting && stage.Valid()
      requires Tied(stage.pending, stage.next, ids, fates, None)
      modifies this`fates, stage`pending
      ensures fates == old(fates)[op := Confirmed] && stage.Valid()
      ensures Tied(stage.pending, stage.next, ids, fates, None)
    {
      hide Completion.Stage.Valid, Completion.Resolved;
      TiedLengths(stage.pending, stage.next, ids, fates, None);
      hide Tied, Awaits, Fewer;
      ghost var pending := stage.pending;
      Stand(ids[op]);
      TiedSettle(pending, stage.pending, stage.next, ids, fates, op, Confirmed);
      fates := fates[op := Confirmed];
    }

    /** The event waits to be confirmed no longer. */
    method Stand(id: Option<nat>)
      requires stage.Valid()
      modifies stage`pending
      ensures stage.Valid() && Fewer(old(stage.pending), stage.pending, id)
      ensures id.Some? && id.value in stage.pending ==> !Awaits(stage.pending, id.value)
    {
      hide Completion.Stage.Valid, Completion.Resolved, Awaits;
      if id.Some? {
        ghost var pending := stage.pending;
        stage.Resolve(id.value, Completion.Confirm);
        if id.value in pending {
          ResolvedAwaits(pending, id.value);
        }
      }
    }

    /** An operation failed, and its event with it. It was waiting: nothing is settled twice. */
    method Fail(op: nat)
      requires op < |fates| && fates[op] == Waiting && stage.Valid()
      requires Tied(stage.pending, stage.next, ids, fates, None)
      modifies this`fates, this`opFailed, stage`pending, stage`exited, stage`past
      ensures fates == old(fates)[op := Failed] && opFailed == old(opFailed) + 1 && stage.Valid()
      ensures stage.pending == if ids[op].Some? then old(stage.pending) - {ids[op].value} else old(stage.pending)
      ensures Tied(stage.pending, stage.next, ids, fates, None)
    {
      hide Completion.Stage.Valid, Awaits;
      ghost var pending := stage.pending;
      GiveUp(ids[op]);
      TiedSettle(pending, stage.pending, stage.next, ids, fates, op, Failed);
      fates := fates[op := Failed];
    }

    /** Counts a failed operation and drops its event. */
    method GiveUp(id: Option<nat>)
      requires stage.Valid()
      modifies this`opFailed, stage`pending, stage`exited, stage`past
      ensures stage.Valid() && opFailed == old(opFailed) + 1
      ensures stage.pending == if id.Some? then old(stage.pending) - {id.value} else old(stage.pending)
      ensures Fewer(old(stage.pending), stage.pending, id)
    {
      hide Completion.Stage.Valid, Awaits;
      opFailed := opFailed + 1;
      if id.Some? {
        ghost var pending := stage.pending;
        var gone := stage.Cancel(id.value);
        SameAwaits(pending, stage.pending);
      }
    }

    /** Whether a failure for `irp` was seen already: the operation arrived after its OperationEnd. */
    predicate FailedAlready(ts: i64, irp: Irp)
      reads this, failed
    {
      irp in failed.seen && failed.seen[irp] >= ts && failed.seen[irp] - ts <= window
    }

    /** The event of a file operation: it waits to be confirmed if OperationEnds come, and its operation
        is held. */
    method Start(ts: i64, irp: Irp, event: E, waits: seq<Completion.Wait>) returns (id: Option<nat>)
      requires Valid() && forall w | w in waits :: w.reason != Completion.Confirm
      modifies this, failed, stage
      ensures Valid() && |fates| == |old(fates)| + 1 && old(fates) <= fates && ids == old(ids) + [id]
      ensures id.None? <==> waits == [] && !opEnd
      // It has failed exactly if a failure of its Irp was heard, at its time or up to a window later.
      ensures fates[|old(fates)|]
           == if !opEnd then Confirmed
              else if irp in old(failed.seen) && 0 <= old(failed.seen)[irp] - ts <= window then Failed
              else Waiting
      ensures fates[|old(fates)|] == Failed ==>
                opFailed == old(opFailed) + 1 && (id.Some? ==> id.value !in stage.pending)
      ensures failed.seen == if fates[|old(fates)|] == Failed then old(failed.seen) - {irp} else old(failed.seen)
      ensures fates[|old(fates)|] != Waiting ==> held == old(held)
      ensures lateFailures == old(lateFailures)
      // Its event takes its place in line.
      ensures stage.queue == old(stage.queue)
                             + [if id.None? then Completion.Ready(event) else Completion.Pending(id.value)]
      ensures fates[|old(fates)|] == Waiting ==>
                && id.Some? && id.value in stage.pending && stage.pending[id.value].event == event
                && stage.pending[id.value].waits
                   == Completion.Unresolved(waits + [Completion.Wait(Completion.Confirm, None, false)])
      ensures fates[|old(fates)|] == Waiting ==>
                held == old(held) + [Held(ts, irp, Some(|old(fates)|))] && irp in heldByIrp
    {
      hide Completion.Stage.Valid, Waits, Indexed, Tied, Awaits, RecentSet.Valid;
      var all := if opEnd then waits + [Completion.Wait(Completion.Confirm, None, false)] else waits;
      assert opEnd ==> all[|waits|].reason == Completion.Confirm;
      id := PushWith(event, all);
      Hold(ts, irp, |fates|, id);
    }

    /** Puts an event in line, pending if it waits for anything. */
    method PushWith(event: E, waits: seq<Completion.Wait>) returns (id: Option<nat>)
      requires Valid()
      modifies stage
      ensures ValidBut(id) && (id.None? <==> waits == [])
      ensures id.Some? ==> 1 <= id.value <= stage.next && id.value in stage.pending
      ensures id.Some? ==>
                (Awaits(stage.pending, id.value) <==> exists w | w in waits :: w.reason == Completion.Confirm)
      ensures stage.queue == old(stage.queue)
                             + [if id.None? then Completion.Ready(event) else Completion.Pending(id.value)]
      ensures id.Some? ==>
                && stage.pending[id.value].event == event
                && stage.pending[id.value].waits == Completion.Unresolved(waits)
    {
      hide Completion.Stage.Valid, Waits, Indexed, Tied, Awaits, RecentSet.Valid, Completion.Unforced, Entered;
      id := None;
      if waits == [] {
        stage.Push(event);
      } else {
        ghost var pending, next := stage.pending, stage.next;
        var n := stage.PushPending(event, waits);
        id := Some(n);
        PushEntered(pending, stage.pending, n, Completion.Entry(event, Completion.Unresolved(waits), false));
        TiedPush(pending, stage.pending, next, ids, fates, event, waits);
      }
    }

    /** Holds operation `op` for its window, unless it is known to have failed. */
    method Hold(ts: i64, irp: Irp, ghost op: nat, id: Option<nat>)
      requires ValidBut(id) && op == |fates|
      requires id.Some? ==> 1 <= id.value <= stage.next && (id.value in stage.pending ==>
                 (Awaits(stage.pending, id.value) <==> opEnd))
      modifies this, failed, stage`pending, stage`exited, stage`past
      ensures Valid() && |fates| == |old(fates)| + 1 && old(fates) <= fates && ids == old(ids) + [id]
      ensures fates[op] == if !opEnd then Confirmed
                           else if irp in old(failed.seen) && 0 <= old(failed.seen)[irp] - ts <= window then Failed
                           else Waiting
      ensures failed.seen == if fates[op] == Failed then old(failed.seen) - {irp} else old(failed.seen)
      ensures fates[op] == Failed ==> opFailed == old(opFailed) + 1
      ensures fates[op] == Waiting ==> held == old(held) + [Held(ts, irp, Some(op))] && Newest(held, |old(held)|)
      ensures fates[op] == Waiting ==> heldByIrp == old(heldByIrp)[irp := heldBase + |old(held)|]
      ensures fates[op] != Waiting ==> held == old(held) && heldByIrp == old(heldByIrp)
      ensures fates[op] == Failed && id.Some? ==> id.value !in stage.pending
      ensures heldBase == old(heldBase) && lateFailures == old(lateFailures)
      ensures fates[op] == Waiting ==> stage.pending == old(stage.pending)
    {
      hide Waits, Indexed, Newest, RecentSet.Valid, Completion.Stage.Valid, Tied, Awaits, Fewer;
      SettledKeeps(held, fates);
      TiedLengths(stage.pending, stage.next, ids, fates, id);
      ghost var pending := stage.pending;
      if !opEnd {
        Stand(id);
        TiedEnter(pending, stage.pending, stage.next, ids, fates, id, Confirmed);
        ids, fates := ids + [id], fates + [Confirmed];
        return;
      }
      if FailedAlready(ts, irp) {
        var was := failed.Remove(irp);
        GiveUp(id);
        TiedEnter(pending, stage.pending, stage.next, ids, fates, id, Failed);
        ids, fates := ids + [id], fates + [Failed];
        return;
      }
      SameAwaits(pending, pending);
      TiedEnter(pending, stage.pending, stage.next, ids, fates, id, Waiting);
      HoldWaits(held, fates, ts, irp);
      HoldIndexed(held, heldBase, heldByIrp, Held(ts, irp, Some(|fates|)));
      HoldNewest(held, Held(ts, irp, Some(|fates|)));
      heldByIrp := heldByIrp[irp := heldBase + |held|];
      held := held + [Held(ts, irp, Some(|ids|))];
      ids, fates := ids + [id], fates + [Waiting];
    }

    /** A failed OperationEnd: it takes out the newest operation held on its Irp, if that one has
        not failed yet; else it is too late, or it is kept for an operation still to come. */
    method OperationFailed(ts: i64, irp: Irp)
      requires Valid()
      modifies this, failed, stage`pending, stage`exited, stage`past
      ensures Valid() && heldBase == old(heldBase) && ids == old(ids)
      ensures irp in old(heldByIrp) <==>
                exists i :: Newest(old(held), i) && old(held)[i].irp == irp && old(held)[i].what.Some?
      ensures irp in old(heldByIrp) ==>
                var i := old(heldByIrp)[irp] - heldBase;
                && Newest(old(held), i) && old(held)[i].irp == irp && old(held)[i].what.Some?
                && held == old(held)[i := old(held)[i].(what := None)]
                && fates == old(fates)[old(held)[i].what.value := Failed] && opFailed == old(opFailed) + 1
      ensures irp !in old(heldByIrp) ==> held == old(held) && fates == old(fates) && opFailed == old(opFailed)
      ensures irp !in old(heldByIrp) ==> stage.pending == old(stage.pending)
      ensures lateFailures == old(lateFailures)
                              + if irp !in old(heldByIrp) && irp in confirmed.seen then 1 else 0
      ensures irp in old(heldByIrp) || irp in confirmed.seen ==> failed.seen == old(failed.seen)
      // Otherwise it is remembered, at the latest time known; but for a failure that was claimed and comes
      // again at the same time, as the oldest in a full set.
      ensures irp !in old(heldByIrp) && irp !in confirmed.seen ==>
                && (irp !in failed.seen <==>
                      (&& !(irp in old(failed.seen) && old(failed.seen)[irp] >= ts)
                       && |old(failed.order)| == failed.cap && old(failed.order)[0] == (ts as int, irp)))
                && (irp in failed.seen ==>
                      failed.seen[irp] == if irp in old(failed.seen) && old(failed.seen)[irp] >= ts
                                          then old(failed.seen)[irp] else ts)
      ensures |old(failed.order)| < failed.cap ==>
                forall k | k in old(failed.seen) && k != irp ::
                  k in failed.seen && failed.seen[k] == old(failed.seen)[k]
    {
      hide Waits, Indexed, Newest, RecentSet.Valid, Completion.Stage.Valid, Tied;
      IndexFinds(held, heldBase, heldByIrp, irp);
      TiedLengths(stage.pending, stage.next, ids, fates, None);
      if irp in heldByIrp {
        var at := heldByIrp[irp];
        var i := at - heldBase; // never underflows
        FailWaits(held, fates, i);
        FailIndexed(held, heldBase, heldByIrp, i);
        var op := held[i].what.value;
        heldByIrp := heldByIrp - {irp};
        held := held[i := held[i].(what := None)];
        Fail(op);
      } else if irp in confirmed.seen {
        lateFailures := lateFailures + 1;
      } else {
        failed.Insert(irp, ts);
      }
    }

    /** The front operation stands, if it was not taken out. */
    method StandFront()
      requires Valid() && held != []
      modifies this`held, this`heldBase, this`heldByIrp, this`fates, confirmed, stage`pending
      ensures Valid() && held == old(held)[1..] && Later(old(fates), fates)
      ensures |confirmed.order| <= |old(confirmed.order)| + 1
      ensures |old(confirmed.order)| < confirmed.cap ==>
                (forall k | k in old(confirmed.seen) :: KnownSince(confirmed.seen, k, old(confirmed.seen)[k]))
                && (old(held)[0].what.Some? ==> KnownSince(confirmed.seen, old(held)[0].irp, old(held)[0].ts))
    {
      hide Waits, Indexed, Newest, RecentSet.Valid, Completion.Stage.Valid, Tied;
      PopWaits(held, fates);
      PopIndexed(held, heldBase, heldByIrp);
      var front := held[0];
      held := held[1..];
      var at := heldBase;
      heldBase := heldBase + 1;
      if front.irp in heldByIrp && heldByIrp[front.irp] == at {
        heldByIrp := heldByIrp - {front.irp};
      }
      if front.what.Some? {
        Confirm(front.what.value);
        confirmed.Insert(front.irp, front.ts);
      }
    }

    /** Confirms from the front while the window has passed at `stream`. Afterwards an operation is
        waiting only if one held at or before it has not passed its window. */
    method FileConfirm(stream: i64) returns (ghost n: nat)
      requires Valid()
      modifies this, failed, confirmed, stage`pending
      ensures Valid() && |fates| == |old(fates)| && ids == old(ids)
      ensures held == [] || SatAdd(held[0].ts, window) > stream
      ensures n <= |old(held)| && held == old(held)[n..]
      ensures forall i | 0 <= i < n :: SatAdd(old(held)[i].ts, window) <= stream
      // What stood is known as confirmed for 40 windows, while there is room.
      ensures |old(confirmed.order)| + n <= confirmed.cap ==>
                forall i | 0 <= i < n && old(held)[i].what.Some?
                           && old(held)[i].ts >= SatSub(stream, Saturate(40 * window)) ::
                  KnownSince(confirmed.seen, old(held)[i].irp, old(held)[i].ts)
      // Failures nobody claimed are known for a window.
      ensures forall k | k in old(failed.seen) && old(failed.seen)[k] >= SatSub(stream, window) ::
                KnownSince(failed.seen, k, old(failed.seen)[k])
      ensures forall k | k in failed.seen :: k in old(failed.seen) && failed.seen[k] == old(failed.seen)[k]
      ensures failed.order == [] || failed.order[0].0 >= SatSub(stream, window)
      ensures confirmed.order == [] || confirmed.order[0].0 >= SatSub(stream, Saturate(40 * window))
      ensures Later(old(fates), fates) && lateFailures == old(lateFailures) && opFailed == old(opFailed)
      ensures stream == I64_MAX ==> forall op | 0 <= op < |fates| :: fates[op] != Waiting
      ensures forall op | 0 <= op < |fates| && fates[op] == Waiting ::
                exists i :: 0 <= i < |held| && held[i].what == Some(op)
    {
      hide Waits, Indexed, Newest, RecentSet.Valid, Completion.Stage.Valid, Tied, KnownSince, Later, AllKnown;
      n := 0;
      NothingYet(fates, confirmed.seen, held);
      while held != [] && Passed(held[0], window, stream)
        invariant Valid() && |fates| == |old(fates)| && n <= |old(held)| && held == old(held)[n..] && ids == old(ids)
        invariant forall i | 0 <= i < n :: Passed(old(held)[i], window, stream)
        invariant Later(old(fates), fates) && failed.seen == old(failed.seen)
        invariant |confirmed.order| <= |old(confirmed.order)| + n
        invariant |old(confirmed.order)| + n <= confirmed.cap ==> AllKnown(confirmed.seen, old(held)[..n])
        decreases |held|
        modifies this`held, this`heldBase, this`heldByIrp, this`fates, confirmed, stage`pending
      {
        ghost var seen, before := confirmed.seen, fates;
        StandFront();
        LaterOn(old(fates), before, fates);
        if |old(confirmed.order)| + n < confirmed.cap {
          OneKnown(seen, confirmed.seen, old(held), n);
        }
        n := n + 1;
      }
      failed.Expire(SatSub(stream, window));
      ghost var seen := confirmed.seen;
      confirmed.Expire(SatSub(stream, Saturate(40 * window)));
      StillKnown(seen, confirmed.seen, old(held)[..n], SatSub(stream, Saturate(40 * window)));
      UnclaimedKnown(old(failed.seen), failed.seen, SatSub(stream, window));
      WaitsAreHeld(held, fates);
    }

    /** A pending event waits to be confirmed exactly while its operation is held. */
    lemma AwaitsIffHeld(id: nat)
      requires Valid() && id in stage.pending
      ensures stage.IsWaiting(id, Completion.Confirm) <==>
                exists i :: 0 <= i < |held| && held[i].what.Some? && held[i].what.value < |ids|
                            && ids[held[i].what.value] == Some(id)
    {
      hide Indexed, Completion.Stage.Valid, RecentSet.Valid;
      if Awaits(stage.pending, id) {
        var op :| 0 <= op < |ids| == |fates| && ids[op] == Some(id) && fates[op] == Waiting;
        var i :| 0 <= i < |held| && held[i].what == Some(op);
      }
    }

    /** What can go leaves the completion stage. */
    method Emit(now: int, finish: Completion.Finish<E>) returns (out: seq<E>)
      requires Valid()
      modifies stage
      ensures Valid()
    {
      hide Waits, Indexed, RecentSet.Valid, Completion.Stage.Valid, Tied, Completion.Outs, Completion.Goes,
           Completion.Settles;
      ghost var pending := stage.pending;
      ghost var n;
      out, n := stage.Drain(now, finish);
      SameAwaits(pending, stage.pending);
      TiedStays(pending, stage.pending, stage.next, ids, fates);
    }
  }

  lemma NothingYet(fates: seq<Fate>, seen: map<Irp, int>, held: seq<Held>)
    ensures Later(fates, fates) && AllKnown(seen, held[..0]) && |fates| == |fates|
  {
  }

  lemma LaterOn(a: seq<Fate>, b: seq<Fate>, c: seq<Fate>)
    requires Later(a, b) && Later(b, c)
    ensures Later(a, c)
  {
  }

  ghost predicate KnownSince(seen: map<Irp, int>, irp: Irp, ts: int) {
    irp in seen && seen[irp] >= ts
  }

  ghost predicate AllKnown(seen: map<Irp, int>, ops: seq<Held>) {
    forall i | 0 <= i < |ops| && ops[i].what.Some? :: KnownSince(seen, ops[i].irp, ops[i].ts)
  }

  lemma OneKnown(seen: map<Irp, int>, seen': map<Irp, int>, held: seq<Held>, n: nat)
    requires n < |held| && AllKnown(seen, held[..n])
    requires forall k | k in seen :: KnownSince(seen', k, seen[k])
    requires held[n].what.Some? ==> KnownSince(seen', held[n].irp, held[n].ts)
    ensures AllKnown(seen', held[..n + 1])
  {
    forall i | 0 <= i <= n && held[i].what.Some?
      ensures KnownSince(seen', held[i].irp, held[i].ts)
    {
      assert i < n ==> held[..n][i] == held[i] && KnownSince(seen, held[i].irp, held[i].ts);
    }
  }

  lemma StillKnown(seen: map<Irp, int>, seen': map<Irp, int>, ops: seq<Held>, before: int)
    requires forall k | k in seen && seen[k] >= before :: k in seen'
    requires forall k | k in seen' :: k in seen && seen'[k] == seen[k]
    ensures AllKnown(seen, ops) ==>
              forall i | 0 <= i < |ops| && ops[i].what.Some? && ops[i].ts >= before ::
                KnownSince(seen', ops[i].irp, ops[i].ts)
  {
    if AllKnown(seen, ops) {
      forall i | 0 <= i < |ops| && ops[i].what.Some? && ops[i].ts >= before
        ensures KnownSince(seen', ops[i].irp, ops[i].ts)
      {
        assert KnownSince(seen, ops[i].irp, ops[i].ts);
      }
    }
  }

  lemma UnclaimedKnown(seen: map<Irp, int>, seen': map<Irp, int>, before: int)
    requires forall k | k in seen && seen[k] >= before :: k in seen'
    requires forall k | k in seen' :: k in seen && seen'[k] == seen[k]
    ensures forall k | k in seen && seen[k] >= before :: KnownSince(seen', k, seen[k])
  {
  }

  /** A failure heard before its operation, and not more than a window after the operation's time: the
      operation fails when it comes, and its event is gone. */
  method FailsLate<E>(w: Window<E>, fts: i64, ts: i64, irp: Irp, event: E, waits: seq<Completion.Wait>)
    returns (id: Option<nat>)
    requires w.Valid() && w.opEnd && 0 <= fts - ts <= w.window
    requires forall x | x in waits :: x.reason != Completion.Confirm
    requires irp !in w.heldByIrp && irp !in w.confirmed.seen && |w.failed.order| < w.failed.cap
    requires irp in w.failed.seen ==> w.failed.seen[irp] - ts <= w.window
    modifies w, w.failed, w.stage
    ensures w.Valid() && |w.fates| == |old(w.fates)| + 1 && w.fates[|old(w.fates)|] == Failed
    ensures id.Some? && id.value !in w.stage.pending && w.opFailed == old(w.opFailed) + 1
    ensures w.held == old(w.held)
  {
    hide Window.ValidBut;
    w.OperationFailed(fts, irp);
    id := w.Start(ts, irp, event, waits);
  }

  /** A failure heard after its operation stood is late, and spoils no later operation on the Irp. */
  method LateIsLate<E>(w: Window<E>, stream: i64, fts: i64, irp: Irp)
    requires w.Valid() && w.held != [] && w.held[0].irp == irp && w.held[0].what.Some?
    requires SatAdd(w.held[0].ts, w.window) <= stream && w.held[0].ts >= SatSub(stream, Saturate(40 * w.window))
    requires |w.confirmed.order| + |w.held| <= w.confirmed.cap
    requires forall i | 0 < i < |w.held| :: w.held[i].irp != irp
    modifies w, w.failed, w.confirmed, w.stage
    ensures w.Valid() && w.lateFailures == old(w.lateFailures) + 1
    ensures irp in w.failed.seen ==> irp in old(w.failed.seen) && w.failed.seen[irp] == old(w.failed.seen)[irp]
  {
    hide Newest, Waits, Indexed, Tied, RecentSet.Valid, Completion.Stage.Valid;
    ghost var n := w.FileConfirm(stream);
    assert n > 0;
    assert KnownSince(w.confirmed.seen, irp, old(w.held)[0].ts);
    ghost var h := w.held;
    assert forall i | 0 <= i < |h| :: h[i] == old(w.held)[n + i];
    NewestIn(h);
    assert forall i | Newest(h, i) :: h[i].irp != irp;
    w.OperationFailed(fts, irp);
  }

  /** Settled fates stay, and of the others none has failed. */
  ghost predicate Later(fates: seq<Fate>, fates': seq<Fate>) {
    && |fates'| == |fates|
    && forall op | 0 <= op < |fates| ::
         if fates[op] != Waiting then fates'[op] == fates[op] else fates'[op] != Failed
  }

  lemma TiedLengths<E>(pending: map<nat, Completion.Entry<E>>, next: nat, ids: seq<Option<nat>>, fates: seq<Fate>,
                       but: Option<nat>)
    requires Tied(pending, next, ids, fates, but)
    ensures |ids| == |fates|
  {
  }

  /** Entries that are as they were wait for the same. */
  lemma SameAwaits<E>(pending: map<nat, Completion.Entry<E>>, pending': map<nat, Completion.Entry<E>>)
    requires forall i | i in pending' :: i in pending && pending'[i] == pending[i]
    ensures forall id :: Fewer(pending, pending', id)
  {
  }

  lemma PushEntered<E>(pending: map<nat, Completion.Entry<E>>, pending': map<nat, Completion.Entry<E>>, id: nat,
                       entry: Completion.Entry<E>)
    requires var entered := pending[id := entry];
             || pending' == entered
             || exists oldest :: oldest in entered && pending' == entered[oldest := entered[oldest].(forced := true)]
    ensures Entered(pending, pending', id, entry)
  {
  }

  lemma WaitsAreHeld(held: seq<Held>, fates: seq<Fate>)
    requires Waits(held, fates)
    ensures forall op | 0 <= op < |fates| && fates[op] == Waiting ::
              exists i :: 0 <= i < |held| && held[i].what == Some(op)
  {
  }

  /** An operation settled at once changes nothing held. */
  lemma SettledKeeps(held: seq<Held>, fates: seq<Fate>)
    requires Waits(held, fates)
    ensures Waits(held, fates + [Confirmed]) && Waits(held, fates + [Failed])
  {
  }
}
