/** The pipeline's clock: stream time, tied to the ordering stage. What handlers do with an event is
    abstract; only when they see it is modelled. */
module Pipeline {
  import opened Collections
  import opened Options
  import opened Time
  import opened Ordering

  /** What happened, in order: stream time moved (what is due by then is applied), or an event was
      processed while stream time was `at`. */
  datatype Action<E> =
    | Stepped(to: i64)
    | Processed(inc: Incoming<E>, late: bool, at: i64)
  {
    function Time(): i64 {
      match this case Stepped(to) => to case Processed(_, _, at) => at
    }

    /** Late means older than stream time; an event in order is processed exactly at its time. */
    predicate Timely() {
      Processed? ==> (late <==> inc.ts < at) && (!late ==> at == inc.ts)
    }
  }

  /** Stream time never goes back, and moves before what happens later. */
  ghost predicate Timed<E>(trace: seq<Action<E>>, stream: i64) {
    && (forall i | 0 <= i < |trace| :: trace[i].Timely() && trace[i].Time() <= stream)
    && (forall i, j | 0 <= i < j < |trace| :: trace[i].Time() <= trace[j].Time())
    && (forall i, j | 0 <= i < j < |trace| && trace[j].Stepped? :: trace[i].Time() < trace[j].Time())
  }

  /** The events processed: late ones, or those in order. */
  function Seen<E>(trace: seq<Action<E>>, late: bool): seq<Incoming<E>> {
    if trace == [] then []
    else
      var last := trace[|trace| - 1];
      Seen(trace[..|trace| - 1], late) + if last.Processed? && last.late == late then [last.inc] else []
  }

  /** Nothing late was processed since. */
  ghost predicate InOrderSince<E>(before: seq<Action<E>>, trace: seq<Action<E>>) {
    before <= trace && forall i | |before| <= i < |trace| :: trace[i].Processed? ==> !trace[i].late
  }

  lemma SeenStep<E>(trace: seq<Action<E>>, action: Action<E>, late: bool)
    ensures Seen(trace + [action], late)
         == Seen(trace, late) + if action.Processed? && action.late == late then [action.inc] else []
  {
    assert (trace + [action])[..|trace|] == trace;
  }

  /** The events released, in release order. */
  ghost function Events<E>(entered: seq<Incoming<E>>, released: seq<nat>): (es: seq<Incoming<E>>)
    requires forall i | 0 <= i < |released| :: 1 <= released[i] <= |entered|
    ensures |es| == |released|
  {
    seq(|released|, i requires 0 <= i < |released| => entered[released[i] - 1])
  }

  class Clock<!E> {
    const ordering: Stage<E>
    var stream: i64
    /** The time passed to the last tick. */
    var now: i64
    var lateArrivals: nat
    ghost var trace: seq<Action<E>>
    ghost var arrived: seq<Incoming<E>>

    ghost predicate Valid()
      reads this, ordering
    {
      && ordering.Valid()
      && ordering.lastReleased <= stream
      && (forall a | a in ordering.held :: ordering.held[a].ts >= stream)
      && Timed(trace, stream)
      && Seen(trace, false) == Events(ordering.entered, ordering.released)
      && multiset(arrived) == multiset(Seen(trace, true)) + multiset(ordering.entered)
      && lateArrivals == |Seen(trace, true)|
    }

    constructor (hold: i64)
      ensures Valid() && fresh(ordering) && ordering.hold == hold && stream == I64_MIN && trace == [] && arrived == []
    {
      ordering := new Stage(hold);
      stream, now, lateArrivals, trace, arrived := I64_MIN, I64_MIN, 0, [], [];
    }

    /** An event arrives: it is held, or if it is late handled right away. */
    method Push(inc: Incoming<E>)
      requires Valid()
      modifies this, ordering
      ensures inc.ts < stream || old(ordering.HasSlot()) ==> Valid()
      ensures stream == old(stream) && now == old(now) && arrived == old(arrived) + [inc]
      ensures inc.ts < stream ==>
                trace == old(trace) + [Processed(inc, true, stream)] && ordering.held == old(ordering.held)
      ensures inc.ts >= stream ==> trace == old(trace) && ordering.held == old(ordering.held)[|ordering.entered| := inc]
      ensures inc.ts >= stream ==> ordering.entered == old(ordering.entered) + [inc]
    {
      hide Seen, Past, Stored, Timed, Events, Stage.Valid;
      if inc.ts < stream {
        Late(inc);
      } else {
        Hold(inc);
      }
    }

    method Late(inc: Incoming<E>)
      requires Valid() && inc.ts < stream
      modifies this`arrived, this`lateArrivals, this`trace
      ensures Valid() && arrived == old(arrived) + [inc] && trace == old(trace) + [Processed(inc, true, stream)]
    {
      hide Past, Stored, Timed, Events, Stage.Valid, Seen;
      arrived := arrived + [inc];
      lateArrivals := lateArrivals + 1;
      Process(inc, true);
    }

    method Hold(inc: Incoming<E>)
      requires Valid() && inc.ts >= stream
      modifies this`arrived, ordering
      ensures old(ordering.HasSlot()) ==> Valid()
      ensures arrived == old(arrived) + [inc] && ordering.entered == old(ordering.entered) + [inc]
      ensures ordering.held == old(ordering.held)[|ordering.entered| := inc]
    {
      hide Past, Stored, Timed, Seen;
      arrived := arrived + [inc];
      ghost var entered, released := ordering.entered, ordering.released;
      PastOf(entered, released, ordering.held, ordering.lastReleased);
      var r := ordering.Push(inc);
      if r.Late? {
        assert false; // the stage's own late result is never reached
      }
      assert Events(ordering.entered, released) == Events(entered, released);
    }

    /** Hands one event to its handler, at the current stream time. */
    ghost method Process(inc: Incoming<E>, late: bool)
      requires Timed(trace, stream) && (late <==> inc.ts < stream) && (!late ==> inc.ts == stream)
      modifies this`trace
      ensures Timed(trace, stream) && trace == old(trace) + [Processed(inc, late, stream)]
      ensures Seen(trace, late) == Seen(old(trace), late) + [inc] && Seen(trace, !late) == Seen(old(trace), !late)
    {
      SeenStep(trace, Processed(inc, late, stream), late);
      SeenStep(trace, Processed(inc, late, stream), !late);
      trace := trace + [Processed(inc, late, stream)];
    }

    /** Stream time moves to `to` between two events, and never back. */
    method Step(to: i64)
      requires Timed(trace, stream)
      modifies this`stream, this`trace
      ensures Timed(trace, stream) && stream == Max(old(stream), to)
      ensures trace == if to > old(stream) then old(trace) + [Stepped(to)] else old(trace)
      ensures forall late :: Seen(trace, late) == Seen(old(trace), late)
    {
      if to <= stream { return; }
      stream := to;
      SeenStep(trace, Stepped(to), false);
      SeenStep(trace, Stepped(to), true);
      trace := trace + [Stepped(to)];
    }

    /** Takes the next event to release at `now`, or of all held (`None`, a clean stop). */
    method Take(now: Option<i64>) returns (inc: Option<Incoming<E>>)
      requires Valid()
      modifies ordering
      ensures Advancing(inc, Limit(now)) && ordering.entered == old(ordering.entered)
      ensures |ordering.held| == |old(ordering.held)| - (if inc.Some? then 1 else 0)
      ensures old(ordering.lastReleased) <= ordering.lastReleased
    {
      hide Seen, Past, Stored, Timed;
      PastOf(ordering.entered, ordering.released, ordering.held, ordering.lastReleased);
      ghost var entered, released, held := ordering.entered, ordering.released, ordering.held;
      if now.Some? {
        inc := ordering.NextDue(now.value);
      } else {
        inc := ordering.NextHeld();
      }
      PastOf(entered, ordering.released, ordering.held, ordering.lastReleased);
      ReleasedSeen(entered, released, ordering.released, inc, held, ordering.held);
    }

    function Limit(now: Option<i64>): i64
      reads this, ordering
    {
      if now.Some? then SatSub(now.value, ordering.hold) else I64_MAX
    }

    /** A held event that was released: stream time reaches it, then it is processed. */
    method Handle(inc: Incoming<E>, ghost limit: i64)
      requires Advancing(Some(inc), limit)
      modifies this`stream, this`trace
      ensures Valid() && stream == inc.ts && old(stream) <= stream
      ensures old(trace) <= trace && trace[|trace| - 1] == Processed(inc, false, inc.ts)
      ensures InOrderSince(old(trace), trace)
    {
      hide Seen, Past, Stored, Timed;
      Step(inc.ts);
      Process(inc, false);
    }

    /** Advances to `now`: everything whose hold has passed is processed in order, each event when
        stream time is its own time, and stream time reaches the watermark. */
    method Tick(now: i64)
      requires Valid()
      modifies this, ordering
      ensures Valid() && arrived == old(arrived) && old(stream) <= stream
      // Stream time goes on with the clock, and never behind a release.
      ensures stream == Max(old(stream), Max(ordering.lastReleased, SatSub(now, ordering.hold)))
      ensures this.now == now
      ensures forall a | a in ordering.held :: ordering.held[a].ts > SatSub(now, ordering.hold)
      ensures InOrderSince(old(trace), trace)
    {
      hide Seen, Past, Stored, Timed, Stage.Valid, Events;
      this.now := now;
      var inc := Take(Some(now));
      while inc.Some?
        invariant Advancing(inc, SatSub(now, ordering.hold)) && arrived == old(arrived) && this.now == now
        invariant old(stream) <= stream
        invariant stream <= Max(old(stream), ordering.lastReleased)
        invariant InOrderSince(old(trace), trace)
        decreases |ordering.held|, if inc.Some? then 1 else 0
      {
        Handle(inc.value, SatSub(now, ordering.hold));
        inc := Take(Some(now));
      }
      Advance(now);
    }

    /** After the releases stream time goes on to the watermark. */
    method Advance(now: i64)
      requires Advancing(None, SatSub(now, ordering.hold))
      modifies this`stream, this`trace
      ensures Valid() && stream == Max(old(stream), ordering.Watermark(now)) && InOrderSince(old(trace), trace)
    {
      hide Seen, Past, Stored, Timed, Stage.Valid, Events;
      Step(ordering.Watermark(now));
    }

    /** A clean stop: everything held is processed, in order. */
    method Stop()
      requires Valid()
      modifies this, ordering
      ensures Valid() && arrived == old(arrived) && old(trace) <= trace
      ensures ordering.held == map[] && stream == I64_MAX
      ensures multiset(arrived) == multiset(Seen(trace, true)) + multiset(Seen(trace, false))
    {
      hide Seen, Past, Stored, Timed, Stage.Valid, Events;
      var inc := Take(None);
      while inc.Some?
        invariant Advancing(inc, I64_MAX) && arrived == old(arrived) && old(trace) <= trace
        decreases |ordering.held|, if inc.Some? then 1 else 0
      {
        Handle(inc.value, I64_MAX);
        inc := Take(None);
      }
      assert ordering.held.Keys == {};
      Step(I64_MAX);
      Counted();
    }

    lemma Counted()
      requires Valid() && ordering.held == map[]
      ensures multiset(arrived) == multiset(Seen(trace, true)) + multiset(Seen(trace, false))
    {
      hide Seen, Stored, Timed;
      AllReleased(ordering.entered, ordering.released, ordering.lastReleased);
    }

    /** Between two releases: `inc`, just taken from the stage, is still to be processed. */
    ghost predicate Advancing(inc: Option<Incoming<E>>, limit: i64)
      reads this, ordering
    {
      && ordering.Valid() && Timed(trace, stream)
      && multiset(arrived) == multiset(Seen(trace, true)) + multiset(ordering.entered)
      && lateArrivals == |Seen(trace, true)|
      && match inc
         case Some(e) =>
           && stream <= e.ts == ordering.lastReleased && e.ts <= limit
           && (forall a | a in ordering.held :: ordering.held[a].ts >= e.ts)
           && Events(ordering.entered, ordering.released) == Seen(trace, false) + [e]
         case None =>
           && ordering.lastReleased <= stream
           && (forall a | a in ordering.held :: ordering.held[a].ts >= stream && ordering.held[a].ts > limit)
           && Events(ordering.entered, ordering.released) == Seen(trace, false)
    }
  }

  lemma PastOf<E>(entered: seq<Incoming<E>>, released: seq<nat>, held: map<nat, Incoming<E>>, lastReleased: i64)
    requires Past(entered, released, held, lastReleased)
    ensures forall i | 0 <= i < |released| :: 1 <= released[i] <= |entered|
    ensures forall a | a in held :: 1 <= a <= |entered| && held[a] == entered[a - 1]
    ensures |entered| == |held| + |released|
  {
  }

  lemma ReleasedSeen<E>(entered: seq<Incoming<E>>, released: seq<nat>, released': seq<nat>, r: Option<Incoming<E>>,
                        held: map<nat, Incoming<E>>, held': map<nat, Incoming<E>>)
    requires forall i | 0 <= i < |released| :: 1 <= released[i] <= |entered|
    requires forall i | 0 <= i < |released'| :: 1 <= released'[i] <= |entered|
    requires forall a | a in held :: 1 <= a <= |entered| && held[a] == entered[a - 1]
    requires r.None? ==> released' == released
    requires r.Some? ==> |released'| == |released| + 1 && released <= released'
                         && released'[|released|] in held && r.value == held[released'[|released|]]
    ensures Events(entered, released') == Events(entered, released) + if r.Some? then [r.value] else []
  {
  }

  /** With nothing held, what was released is what entered, in another order. */
  lemma AllReleased<E>(entered: seq<Incoming<E>>, released: seq<nat>, lastReleased: i64)
    requires Past(entered, released, map[], lastReleased)
    ensures forall i | 0 <= i < |released| :: 1 <= released[i] <= |entered|
    ensures multiset(Events(entered, released)) == multiset(entered)
  {
    hide Events;
    forall i, j | 0 <= i < j < |released|
      ensures released[i] != released[j]
    {
      assert Before(entered, released[i], released[j]);
    }
    Permuted(entered, released);
  }

  lemma {:induction false} Permuted<E>(entered: seq<Incoming<E>>, released: seq<nat>)
    requires forall i | 0 <= i < |released| :: 1 <= released[i] <= |entered|
    requires forall a: nat | 1 <= a <= |entered| :: a in released
    requires |released| == |entered| && forall i, j | 0 <= i < j < |released| :: released[i] != released[j]
    ensures multiset(Events(entered, released)) == multiset(entered)
    decreases |entered|
  {
    hide Events;
    if entered == [] {
      assert Events(entered, released) == [];
    } else {
      var n := |entered|;
      assert n in released;
      var i :| 0 <= i < |released| && released[i] == n;
      WithoutLast(released, n, i);
      Permuted(entered[..n - 1], RemoveAt(released, i));
      EventsWithout(entered, released, i);
      assert entered == entered[..n - 1] + [entered[n - 1]];
    }
  }

  /** Without the position of the greatest, the rest are all the others. */
  lemma WithoutLast(released: seq<nat>, n: nat, i: nat)
    requires 0 < n && i < |released| == n && released[i] == n
    requires forall j | 0 <= j < n :: 1 <= released[j] <= n
    requires forall a: nat | 1 <= a <= n :: a in released
    requires forall j, k | 0 <= j < k < n :: released[j] != released[k]
    ensures var rest := RemoveAt(released, i);
            && |rest| == n - 1 && (forall j | 0 <= j < |rest| :: 1 <= rest[j] <= n - 1)
            && (forall a: nat | 1 <= a <= n - 1 :: a in rest)
            && (forall j, k | 0 <= j < k < |rest| :: rest[j] != rest[k])
  {
    var rest := RemoveAt(released, i);
    forall a: nat | 1 <= a <= n - 1
      ensures a in rest
    {
      assert a in released;
      var j :| 0 <= j < |released| && released[j] == a;
      assert rest[if j < i then j else j - 1] == a;
    }
    assert forall j | 0 <= j < |rest| :: rest[j] == released[if j < i then j else j + 1];
  }

  lemma EventsWithout<E>(entered: seq<Incoming<E>>, released: seq<nat>, i: nat)
    requires i < |released| && entered != [] && released[i] == |entered|
    requires forall j | 0 <= j < |released| :: 1 <= released[j] <= |entered|
    requires var rest := RemoveAt(released, i); forall j | 0 <= j < |rest| :: 1 <= rest[j] <= |entered| - 1
    ensures multiset(Events(entered, released))
         == multiset(Events(entered[..|entered| - 1], RemoveAt(released, i))) + multiset{entered[|entered| - 1]}
  {
    var es, others, rest := Events(entered, released), RemoveAt(released, i), RemoveAt(Events(entered, released), i);
    forall j | 0 <= j < |others|
      ensures Events(entered[..|entered| - 1], others)[j] == rest[j]
    {
      assert others[j] == released[if j < i then j else j + 1];
    }
    assert Events(entered[..|entered| - 1], others) == rest;
    TakenOut(es, i);
  }

  lemma TakenOut<T>(s: seq<T>, i: nat)
    requires i < |s|
    ensures multiset(s) == multiset(RemoveAt(s, i)) + multiset{s[i]}
  {
    assert s == s[..i] + [s[i]] + s[i + 1..];
  }
}
