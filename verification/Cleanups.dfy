/** The callback's pairing of file Cleanups with their outcomes. An Irp carries one operation at a time:
    the start of the next shows that the one before is done. */
module Cleanups {
  import opened Collections
  import opened Options
  import opened Time
  import opened Recent

  type Id = int

  const CLEANUP_IRPS_CAP: nat := 4096
  const DELETE_REQUESTS_CAP: nat := 4096

  const UNKNOWN: bv64 := 0
  const FILE_DELETED: bv64 := 0x4
  const LINK_DELETED: bv64 := 0x8
  const STREAM_DELETED: bv64 := 0x10
  const POSIX_STYLE_DELETE: bv64 := 0x20

  /** The value says that a name was removed: one of three, the POSIX flag aside. */
  predicate Removed(info: bv64)
    ensures Removed(info) <==> info in [0x4, 0x8, 0x10, 0x24, 0x28, 0x30]
  {
    var kind := info & !POSIX_STYLE_DELETE;
    kind == FILE_DELETED || kind == LINK_DELETED || kind == STREAM_DELETED
  }

  /** A delete, or no report at all although one was asked for. */
  ghost predicate Wanted(info: bv64, asked: bool) {
    Removed(info) || (info == UNKNOWN && asked)
  }

  datatype Cleanup = Cleanup(fo: Id, key: Id, ts: i64)

  datatype Outcome = Outcome(ts: i64, info: bv64)

  /** What the callback saw, on each Irp. */
  datatype Seen =
    | Start(irp: Id)
    | CleanedUp(irp: Id, ts: i64)
    | EndOk(irp: Id, ts: i64, info: bv64)
    | EndFailed(irp: Id)

  datatype Fate = Waiting | Decided | Unpaired | Late | Failed | Cleared

  /** A Cleanup and the OperationEnd that decided it, by position in the history. */
  datatype Pair = Pair(cleanup: nat, end: nat)

  /** No other operation starts on the Irp, and no other Cleanup, in `log[from..to]`. */
  ghost predicate Quiet(log: seq<Seen>, irp: Id, from: nat, to: nat) {
    forall i | from <= i < to && i < |log| :: log[i].irp == irp ==> !log[i].Start? && !log[i].CleanedUp?
  }

  /** Each waiting Cleanup is the last event on its Irp. */
  ghost predicate WaitsFor(log: seq<Seen>, irps: map<Id, Cleanup>, at: map<Id, nat>) {
    && irps.Keys == at.Keys
    && forall irp | irp in irps ::
         && at[irp] < |log| && log[at[irp]] == CleanedUp(irp, irps[irp].ts)
         && forall i | at[irp] < i < |log| :: log[i].irp != irp
  }

  /** Each early outcome is an OperationEnd no Cleanup was waiting for, with nothing else started
      on its Irp since. */
  ghost predicate CameEarly(log: seq<Seen>, early: map<Id, Outcome>, at: map<Id, nat>, pairs: seq<Pair>) {
    && early.Keys == at.Keys
    && (forall irp | irp in early ::
          && at[irp] < |log| && log[at[irp]] == EndOk(irp, early[irp].ts, early[irp].info) && Removed(early[irp].info)
          && Quiet(log, irp, at[irp], |log|))
    && (forall irp, p | irp in early && p in pairs :: p.end != at[irp])
  }

  /** Every Cleanup seen has one fate; it waits exactly while its Irp is remembered. */
  ghost predicate Accounted(log: seq<Seen>, fates: map<nat, Fate>, at: map<Id, nat>) {
    && (forall i: nat :: i in fates <==> i < |log| && log[i].CleanedUp?)
    && (forall i | i in fates :: fates[i] == Waiting <==> log[i].irp in at && at[log[i].irp] == i)
  }

  /** The pair may be taken for a Cleanup and its outcome. */
  ghost predicate Matches(log: seq<Seen>, p: Pair, window: int) {
    && p.cleanup < |log| && p.end < |log| && log[p.cleanup].CleanedUp? && log[p.end].EndOk?
    && log[p.cleanup].irp == log[p.end].irp
    && 0 <= log[p.end].ts - log[p.cleanup].ts <= window
    && (if p.cleanup < p.end then Quiet(log, log[p.end].irp, p.cleanup + 1, p.end)
        else Quiet(log, log[p.end].irp, p.end, p.cleanup))
  }

  /** Every decision is such a pair; no Cleanup is decided twice, and no OperationEnd used twice. */
  ghost predicate Paired(log: seq<Seen>, fates: map<nat, Fate>, pairs: seq<Pair>, window: int) {
    && (forall p | p in pairs :: Matches(log, p, window))
    && (forall p | p in pairs :: p.cleanup in fates && fates[p.cleanup] == Decided)
    && (forall i, j | 0 <= i < j < |pairs| :: pairs[i].cleanup != pairs[j].cleanup && pairs[i].end != pairs[j].end)
  }

  ghost function With(fates: map<nat, Fate>, fate: Fate): set<nat> {
    set i | i in fates && fates[i] == fate
  }

  // Steps of the history.

  lemma LogWaits(log: seq<Seen>, irps: map<Id, Cleanup>, at: map<Id, nat>, e: Seen)
    requires WaitsFor(log, irps, at) && e.irp !in irps
    ensures WaitsFor(log + [e], irps, at)
  {
  }

  lemma LogEarly(log: seq<Seen>, early: map<Id, Outcome>, at: map<Id, nat>, pairs: seq<Pair>, e: Seen)
    requires CameEarly(log, early, at, pairs) && (e.irp in early ==> e.EndOk?)
    ensures CameEarly(log + [e], early, at, pairs)
  {
  }

  lemma LogPaired(log: seq<Seen>, fates: map<nat, Fate>, pairs: seq<Pair>, window: int, e: Seen)
    requires Paired(log, fates, pairs, window)
    ensures Paired(log + [e], fates, pairs, window)
  {
    forall p | p in pairs
      ensures Matches(log + [e], p, window)
    {
      assert Matches(log, p, window);
    }
  }

  lemma LogAccounted(log: seq<Seen>, fates: map<nat, Fate>, at: map<Id, nat>, e: Seen)
    requires Accounted(log, fates, at) && !e.CleanedUp?
    ensures Accounted(log + [e], fates, at)
  {
  }

  /** A waiting Cleanup stops waiting. */
  lemma Forget(log: seq<Seen>, irps: map<Id, Cleanup>, at: map<Id, nat>, fates: map<nat, Fate>, pairs: seq<Pair>,
               window: int, irp: Id, fate: Fate)
    requires WaitsFor(log, irps, at) && Accounted(log, fates, at) && Paired(log, fates, pairs, window)
    requires irp in irps && fate != Waiting
    ensures at[irp] in fates && fates[at[irp]] == Waiting && log[at[irp]].irp == irp
    ensures WaitsFor(log, Without(irps, irp), Without(at, irp))
    ensures Accounted(log, fates[at[irp] := fate], Without(at, irp))
    ensures Paired(log, fates[at[irp] := fate], pairs, window)
  {
    assert log[at[irp]] == CleanedUp(irp, irps[irp].ts);
  }

  lemma CountChange(fates: map<nat, Fate>, i: nat, fate: Fate, counted: Fate)
    ensures (i !in fates || fates[i] != counted) && fate == counted ==>
              |With(fates[i := fate], counted)| == |With(fates, counted)| + 1
    ensures (i !in fates || fates[i] != counted) && fate != counted ==>
              |With(fates[i := fate], counted)| == |With(fates, counted)|
  {
    var s, t := With(fates, counted), With(fates[i := fate], counted);
    assert t == if fate == counted then s + {i} else s - {i};
  }

  /** A Cleanup that begins to wait: the newest event. */
  lemma Await(log: seq<Seen>, irps: map<Id, Cleanup>, at: map<Id, nat>, fates: map<nat, Fate>, irp: Id, c: Cleanup)
    requires WaitsFor(log, irps, at) && Accounted(log, fates, at) && irp !in irps
    ensures WaitsFor(log + [CleanedUp(irp, c.ts)], irps[irp := c], at[irp := |log|])
    ensures Accounted(log + [CleanedUp(irp, c.ts)], fates[|log| := Waiting], at[irp := |log|])
  {
  }

  /** A Cleanup decided when it came, by an early outcome. */
  lemma DecideAtOnce(log: seq<Seen>, at: map<Id, nat>, fates: map<nat, Fate>, pairs: seq<Pair>, window: int, irp: Id,
                     ts: i64, p: Pair)
    requires Accounted(log, fates, at) && Paired(log, fates, pairs, window) && irp !in at
    requires p.cleanup == |log| && p.end < |log| && log[p.end].EndOk? && log[p.end].irp == irp
    requires 0 <= log[p.end].ts - ts <= window
    requires Quiet(log, irp, p.end, |log|) && forall q | q in pairs :: q.end != p.end
    ensures Accounted(log + [CleanedUp(irp, ts)], fates[|log| := Decided], at)
    ensures Paired(log + [CleanedUp(irp, ts)], fates[|log| := Decided], pairs + [p], window)
  {
    var log', fates' := log + [CleanedUp(irp, ts)], fates[|log| := Decided];
    LogPaired(log, fates, pairs, window, CleanedUp(irp, ts));
    assert Matches(log', p, window);
    assert forall q | q in pairs + [p] :: q in pairs || q == p;
    assert forall i | 0 <= i < |pairs| :: pairs[i] in pairs && pairs[i].cleanup in fates;
  }

  /** A waiting Cleanup decided by the OperationEnd that comes now. */
  lemma DecideWaiting(log: seq<Seen>, irps: map<Id, Cleanup>, at: map<Id, nat>, fates: map<nat, Fate>,
                      pairs: seq<Pair>, window: int, irp: Id, o: Outcome)
    requires WaitsFor(log, irps, at) && Accounted(log, fates, at) && Paired(log, fates, pairs, window) && irp in irps
    requires 0 <= o.ts - irps[irp].ts <= window
    ensures Paired(log + [EndOk(irp, o.ts, o.info)], fates[at[irp] := Decided], pairs + [Pair(at[irp], |log|)], window)
  {
    var e, p := EndOk(irp, o.ts, o.info), Pair(at[irp], |log|);
    Forget(log, irps, at, fates, pairs, window, irp, Decided);
    LogPaired(log, fates[at[irp] := Decided], pairs, window, e);
    assert Matches(log + [e], p, window);
    forall i | 0 <= i < |pairs|
      ensures pairs[i].cleanup != p.cleanup && pairs[i].end != p.end
    {
      assert pairs[i] in pairs && Matches(log, pairs[i], window);
    }
  }

  lemma EarlyKept(log: seq<Seen>, early: map<Id, Outcome>, at: map<Id, nat>, pairs: seq<Pair>, p: Pair)
    requires CameEarly(log, early, at, pairs) && p.end >= |log|
    ensures CameEarly(log, early, at, pairs + [p])
  {
    assert forall q | q in pairs + [p] :: q in pairs || q == p;
  }

  lemma EarlyDropped(log: seq<Seen>, early: map<Id, Outcome>, at: map<Id, nat>, pairs: seq<Pair>, irp: Id)
    requires CameEarly(log, early, at, pairs)
    ensures CameEarly(log, Without(early, irp), Without(at, irp), pairs)
  {
  }

  lemma EarlyMore(log: seq<Seen>, early: map<Id, Outcome>, at: map<Id, nat>, pairs: seq<Pair>, fates: map<nat, Fate>,
                  window: int, irp: Id, o: Outcome)
    requires CameEarly(log, early, at, pairs) && Paired(log, fates, pairs, window) && Removed(o.info)
    ensures CameEarly(log + [EndOk(irp, o.ts, o.info)], early[irp := o], at[irp := |log|], pairs)
  {
    hide Removed;
    LogEarly(log, Without(early, irp), Without(at, irp), pairs, EndOk(irp, o.ts, o.info));
    forall p | p in pairs
      ensures p.end != |log|
    {
      assert Matches(log, p, window);
    }
  }

  /** The cap forgets every Cleanup waiting. */
  ghost function ClearedFates(fates: map<nat, Fate>): map<nat, Fate> {
    map i | i in fates :: if fates[i] == Waiting then Cleared else fates[i]
  }

  lemma ClearAll(log: seq<Seen>, irps: map<Id, Cleanup>, at: map<Id, nat>, fates: map<nat, Fate>, pairs: seq<Pair>,
                 window: int)
    requires WaitsFor(log, irps, at) && Accounted(log, fates, at) && Paired(log, fates, pairs, window)
    ensures WaitsFor(log, map[], map[]) && Accounted(log, ClearedFates(fates), map[])
    ensures Paired(log, ClearedFates(fates), pairs, window)
    ensures With(ClearedFates(fates), Unpaired) == With(fates, Unpaired)
    ensures With(ClearedFates(fates), Late) == With(fates, Late)
  {
  }

  /** What happened, and what became of it. */
  datatype Story = Story(log: seq<Seen>, at: map<Id, nat>, earlyAt: map<Id, nat>, fates: map<nat, Fate>,
      pairs: seq<Pair>)

  /** The callback's maps and counters tell this story. */
  ghost predicate Tells(irps: map<Id, Cleanup>, early: map<Id, Outcome>, unpaired: nat, late: nat, window: int,
                        s: Story) {
    && WaitsFor(s.log, irps, s.at) && CameEarly(s.log, early, s.earlyAt, s.pairs)
    && Accounted(s.log, s.fates, s.at) && Paired(s.log, s.fates, s.pairs, window)
    && unpaired == |With(s.fates, Unpaired)| && late == |With(s.fates, Late)|
  }

  /** What happened stays so; only a waiting Cleanup's fate is still open. */
  ghost predicate Later(s: Story, s': Story) {
    && s.log <= s'.log && s.pairs <= s'.pairs
    && (forall i | i in s.fates :: i in s'.fates && (s.fates[i] != Waiting ==> s'.fates[i] == s.fates[i]))
  }

  lemma LaterStill(s: Story, s': Story, s'': Story)
    requires Later(s, s') && Later(s', s'')
    ensures Later(s, s'')
  {
    assert forall i | i in s.fates :: i in s'.fates;
  }

  ghost function Give(s: Story, irp: Id, fate: Fate): Story {
    if irp in s.at then s.(at := Without(s.at, irp), fates := s.fates[s.at[irp] := fate]) else s
  }

  ghost function Log(s: Story, e: Seen): Story {
    s.(log := s.log + [e])
  }

  /** A waiting Cleanup's fate is settled; nothing happens to an Irp that holds none. */
  lemma GiveTells(irps: map<Id, Cleanup>, early: map<Id, Outcome>, unpaired: nat, late: nat, window: int, s: Story,
                  irp: Id, fate: Fate)
    requires Tells(irps, early, unpaired, late, window, s) && fate != Waiting
    ensures Tells(Without(irps, irp), early, if irp in irps && fate == Unpaired then unpaired + 1 else unpaired,
              if irp in irps && fate == Late then late + 1 else late, window, Give(s, irp, fate))
    ensures Later(s, Give(s, irp, fate))
  {
    hide WaitsFor, CameEarly, Accounted, Paired, With;
    Known(s.log, irps, s.at);
    if irp in irps {
      Forget(s.log, irps, s.at, s.fates, s.pairs, window, irp, fate);
      CountChange(s.fates, s.at[irp], fate, Unpaired);
      CountChange(s.fates, s.at[irp], fate, Late);
    } else {
      NotThere(irps, irp);
    }
  }

  lemma NoEarlyTells(irps: map<Id, Cleanup>, early: map<Id, Outcome>, unpaired: nat, late: nat, window: int, s: Story,
                     irp: Id)
    requires Tells(irps, early, unpaired, late, window, s)
    ensures Tells(irps, Without(early, irp), unpaired, late, window, s.(earlyAt := Without(s.earlyAt, irp)))
  {
    EarlyDropped(s.log, early, s.earlyAt, s.pairs, irp);
  }

  lemma LogTells(irps: map<Id, Cleanup>, early: map<Id, Outcome>, unpaired: nat, late: nat, window: int, s: Story,
                 e: Seen)
    requires Tells(irps, early, unpaired, late, window, s)
    requires e.irp !in irps && (e.irp in early ==> e.EndOk?) && !e.CleanedUp?
    ensures Tells(irps, early, unpaired, late, window, Log(s, e)) && Later(s, Log(s, e))
  {
    hide WaitsFor, CameEarly, Accounted, Paired, With;
    LogWaits(s.log, irps, s.at, e);
    LogEarly(s.log, early, s.earlyAt, s.pairs, e);
    LogPaired(s.log, s.fates, s.pairs, window, e);
    LogAccounted(s.log, s.fates, s.at, e);
  }

  /** The Cleanup that comes now, and is decided by the outcome logged at `end`. */
  ghost function Early(s: Story, irp: Id, ts: i64, end: nat): Story {
    Story(s.log + [CleanedUp(irp, ts)], s.at, s.earlyAt, s.fates[|s.log| := Decided], s.pairs + [Pair(|s.log|, end)])
  }

  lemma EarlyTells(irps: map<Id, Cleanup>, early: map<Id, Outcome>, unpaired: nat, late: nat, window: int, s: Story,
                   irp: Id, ts: i64, end: nat)
    requires Tells(irps, early, unpaired, late, window, s) && irp !in irps && irp !in early
    requires end < |s.log| && s.log[end].EndOk? && s.log[end].irp == irp && 0 <= s.log[end].ts - ts <= window
    requires Quiet(s.log, irp, end, |s.log|) && (forall q | q in s.pairs :: q.end != end)
    ensures Tells(irps, early, unpaired, late, window, Early(s, irp, ts, end)) && Later(s, Early(s, irp, ts, end))
  {
    hide WaitsFor, CameEarly, Accounted, Paired, With, Quiet;
    var p, e := Pair(|s.log|, end), CleanedUp(irp, ts);
    Known(s.log, irps, s.at);
    FateIsNew(s.log, s.fates, s.at);
    LogWaits(s.log, irps, s.at, e);
    EarlyNotUsed(s.log, early, s.earlyAt, s.pairs, irp, p);
    LogEarly(s.log, early, s.earlyAt, s.pairs + [p], e);
    DecideAtOnce(s.log, s.at, s.fates, s.pairs, window, irp, ts, p);
    CountChange(s.fates, |s.log|, Decided, Unpaired);
    CountChange(s.fates, |s.log|, Decided, Late);
  }

  ghost function Awaited(s: Story, irp: Id, ts: i64): Story {
    s.(log := s.log + [CleanedUp(irp, ts)], at := s.at[irp := |s.log|], fates := s.fates[|s.log| := Waiting])
  }

  lemma AwaitTells(irps: map<Id, Cleanup>, early: map<Id, Outcome>, unpaired: nat, late: nat, window: int, s: Story,
                   irp: Id, c: Cleanup)
    requires Tells(irps, early, unpaired, late, window, s) && irp !in irps && irp !in early
    ensures Tells(irps[irp := c], early, unpaired, late, window, Awaited(s, irp, c.ts))
    ensures Later(s, Awaited(s, irp, c.ts))
  {
    hide WaitsFor, CameEarly, Accounted, Paired, With;
    var e := CleanedUp(irp, c.ts);
    FateIsNew(s.log, s.fates, s.at);
    Await(s.log, irps, s.at, s.fates, irp, c);
    LogEarly(s.log, early, s.earlyAt, s.pairs, e);
    WaitPaired(s.log, s.fates, s.pairs, window, e);
    CountChange(s.fates, |s.log|, Waiting, Unpaired);
    CountChange(s.fates, |s.log|, Waiting, Late);
  }

  ghost function AllCleared(s: Story): Story {
    s.(at := map[], fates := ClearedFates(s.fates))
  }

  lemma ClearTells(irps: map<Id, Cleanup>, early: map<Id, Outcome>, unpaired: nat, late: nat, window: int, s: Story)
    requires Tells(irps, early, unpaired, late, window, s)
    ensures Tells(map[], early, unpaired, late, window, AllCleared(s)) && Later(s, AllCleared(s))
  {
    hide WaitsFor, CameEarly, Accounted, Paired, With;
    ClearAll(s.log, irps, s.at, s.fates, s.pairs, window);
  }

  /** The OperationEnd that comes now decides the waiting Cleanup. */
  ghost function Answered(s: Story, irp: Id, o: Outcome): Story
    requires irp in s.at
  {
    Story(s.log + [EndOk(irp, o.ts, o.info)], Without(s.at, irp), s.earlyAt, s.fates[s.at[irp] := Decided],
        s.pairs + [Pair(s.at[irp], |s.log|)])
  }

  lemma AnswerTells(irps: map<Id, Cleanup>, early: map<Id, Outcome>, unpaired: nat, late: nat, window: int, s: Story,
                    irp: Id, o: Outcome)
    requires Tells(irps, early, unpaired, late, window, s) && irp in irps && 0 <= o.ts - irps[irp].ts <= window
    ensures irp in s.at && Tells(Without(irps, irp), early, unpaired, late, window, Answered(s, irp, o))
    ensures Later(s, Answered(s, irp, o))
  {
    hide WaitsFor, CameEarly, Accounted, Paired, With;
    var e, p := EndOk(irp, o.ts, o.info), Pair(if irp in s.at then s.at[irp] else 0, |s.log|);
    Known(s.log, irps, s.at);
    Forget(s.log, irps, s.at, s.fates, s.pairs, window, irp, Decided);
    DecideWaiting(s.log, irps, s.at, s.fates, s.pairs, window, irp, o);
    LogWaits(s.log, Without(irps, irp), Without(s.at, irp), e);
    LogAccounted(s.log, s.fates[s.at[irp] := Decided], Without(s.at, irp), e);
    EarlyKept(s.log, early, s.earlyAt, s.pairs, p);
    LogEarly(s.log, early, s.earlyAt, s.pairs + [p], e);
    CountChange(s.fates, s.at[irp], Decided, Unpaired);
    CountChange(s.fates, s.at[irp], Decided, Late);
  }

  /** An outcome that came before its Cleanup is kept; past the cap the others are forgotten. */
  ghost function KeptEarly(s: Story, irp: Id, o: Outcome): Story {
    s.(log := s.log + [EndOk(irp, o.ts, o.info)], earlyAt := s.earlyAt[irp := |s.log|])
  }

  lemma KeepEarlyTells(irps: map<Id, Cleanup>, early: map<Id, Outcome>, unpaired: nat, late: nat, window: int,
                       s: Story, irp: Id, o: Outcome)
    requires Tells(irps, early, unpaired, late, window, s) && irp !in irps && Removed(o.info)
    ensures Tells(irps, early[irp := o], unpaired, late, window, KeptEarly(s, irp, o)) && Later(s, KeptEarly(s, irp, o))
  {
    hide WaitsFor, CameEarly, Accounted, Paired, With, Removed;
    var e := EndOk(irp, o.ts, o.info);
    LogWaits(s.log, irps, s.at, e);
    EarlyMore(s.log, early, s.earlyAt, s.pairs, s.fates, window, irp, o);
    LogPaired(s.log, s.fates, s.pairs, window, e);
    LogAccounted(s.log, s.fates, s.at, e);
  }

  lemma ClearEarlyTells(irps: map<Id, Cleanup>, early: map<Id, Outcome>, unpaired: nat, late: nat, window: int,
                        s: Story)
    requires Tells(irps, early, unpaired, late, window, s)
    ensures Tells(irps, map[], unpaired, late, window, s.(earlyAt := map[]))
  {
  }

  ghost predicate Small(irps: map<Id, Cleanup>, early: map<Id, Outcome>, requests: map<Id, Id>) {
    |irps| <= CLEANUP_IRPS_CAP && |early| <= CLEANUP_IRPS_CAP && |requests| <= CLEANUP_IRPS_CAP
  }

  lemma SmallerToo(irps: map<Id, Cleanup>, early: map<Id, Outcome>, requests: map<Id, Id>, irp: Id)
    requires Small(irps, early, requests)
    ensures Small(Without(irps, irp), early, requests) && Small(irps, Without(early, irp), requests)
    ensures Small(irps, early, Without(requests, irp))
  {
    OneLess(irps, irp);
    OneLess(early, irp);
    OneLess(requests, irp);
  }

  function Room<V>(m: map<Id, V>): map<Id, V> {
    if |m| >= CLEANUP_IRPS_CAP then map[] else m
  }

  /** Whatever an Irp did before is over. */
  ghost function Dropped(s: Story, irp: Id, fate: Fate): Story {
    Give(s.(earlyAt := Without(s.earlyAt, irp)), irp, fate)
  }

  lemma DropTells(irps: map<Id, Cleanup>, early: map<Id, Outcome>, unpaired: nat, late: nat, window: int, s: Story,
                  irp: Id, fate: Fate)
    requires Tells(irps, early, unpaired, late, window, s) && (fate == Unpaired || fate == Failed)
    ensures Tells(Without(irps, irp), Without(early, irp),
              if irp in irps && fate == Unpaired then unpaired + 1 else unpaired, late, window,
              Dropped(s, irp, fate))
    ensures Later(s, Dropped(s, irp, fate)) && Dropped(s, irp, fate).log == s.log
    ensures Dropped(s, irp, fate).pairs == s.pairs
    ensures irp in irps <==> irp in s.at
    ensures irp in irps ==> s.at[irp] in Dropped(s, irp, fate).fates && Dropped(s, irp, fate).fates[s.at[irp]] == fate
  {
    hide Without, Tells, With;
    ToldWaiting(irps, early, unpaired, late, window, s, irp);
    NoEarlyTells(irps, early, unpaired, late, window, s, irp);
    GiveTells(irps, Without(early, irp), unpaired, late, window, s.(earlyAt := Without(s.earlyAt, irp)), irp, fate);
  }

  lemma LateTells(irps: map<Id, Cleanup>, early: map<Id, Outcome>, unpaired: nat, late: nat, window: int, s: Story,
                  irp: Id, o: Outcome)
    requires Tells(irps, early, unpaired, late, window, s) && irp in irps
    ensures irp in s.at && s.at[irp] in Log(Give(s, irp, Late), EndOk(irp, o.ts, o.info)).fates
    ensures Tells(Without(irps, irp), early, unpaired, late + 1, window,
              Log(Give(s, irp, Late), EndOk(irp, o.ts, o.info)))
    ensures Later(s, Log(Give(s, irp, Late), EndOk(irp, o.ts, o.info)))
  {
    hide Without, Tells, With;
    ToldWaiting(irps, early, unpaired, late, window, s, irp);
    GiveTells(irps, early, unpaired, late, window, s, irp, Late);
    LogTells(Without(irps, irp), early, unpaired, late + 1, window, Give(s, irp, Late), EndOk(irp, o.ts, o.info));
  }

  /** What the story says of a waiting Cleanup, an early outcome and an Irp that has neither. */
  lemma ToldWaiting(irps: map<Id, Cleanup>, early: map<Id, Outcome>, unpaired: nat, late: nat, window: int, s: Story,
                    irp: Id)
    requires Tells(irps, early, unpaired, late, window, s)
    ensures irp in irps <==> irp in s.at
    ensures irp in irps ==>
              s.at[irp] < |s.log| && s.log[s.at[irp]] == CleanedUp(irp, irps[irp].ts) && s.at[irp] in s.fates
  {
  }

  lemma ToldEarly(irps: map<Id, Cleanup>, early: map<Id, Outcome>, unpaired: nat, late: nat, window: int, s: Story,
                  irp: Id)
    requires Tells(irps, early, unpaired, late, window, s)
    ensures irp in early <==> irp in s.earlyAt
    ensures irp in early ==>
              s.earlyAt[irp] < |s.log| && s.log[s.earlyAt[irp]] == EndOk(irp, early[irp].ts, early[irp].info)
    ensures irp in early ==>
              Quiet(s.log, irp, s.earlyAt[irp], |s.log|) && forall q | q in s.pairs :: q.end != s.earlyAt[irp]
  {
    EarlyKnown(s.log, early, s.earlyAt, s.pairs, irp);
  }

  ghost function Cleanups(log: seq<Seen>): set<nat> {
    set i: nat | i < |log| && log[i].CleanedUp?
  }

  /** Every Cleanup ever seen is in exactly one place: waiting, decided, unpaired, late, failed or
      forgotten past the cap. */
  lemma EachCleanupCountedOnce(irps: map<Id, Cleanup>, early: map<Id, Outcome>, unpaired: nat, late: nat, window: int,
                               s: Story)
    requires Tells(irps, early, unpaired, late, window, s)
    ensures |Cleanups(s.log)| == |irps| + |With(s.fates, Decided)| + unpaired + late + |With(s.fates, Failed)|
              + |With(s.fates, Cleared)|
  {
    hide With, Cleanups, Accounted, CameEarly, Paired;
    Places(s.log, s.at, s.fates);
    assert irps.Keys == s.at.Keys;
    InjectiveImage(s.at.Keys, s.at, With(s.fates, Waiting));
    Partition(s.fates);
  }

  lemma Partition(f: map<nat, Fate>)
    ensures |f.Keys| == |With(f, Waiting)| + |With(f, Decided)| + |With(f, Unpaired)| + |With(f, Late)|
              + |With(f, Failed)| + |With(f, Cleared)|
  {
    hide With;
    forall x, y | x != y
      ensures With(f, x) !! With(f, y)
    {
      Apart(f, x, y);
    }
    Covered(f);
    Sizes(With(f, Waiting), With(f, Decided), With(f, Unpaired), With(f, Late), With(f, Failed), With(f, Cleared));
  }

  lemma Apart(f: map<nat, Fate>, x: Fate, y: Fate)
    requires x != y
    ensures With(f, x) !! With(f, y)
  {
  }

  lemma Covered(f: map<nat, Fate>)
    ensures f.Keys == With(f, Waiting) + With(f, Decided) + With(f, Unpaired) + With(f, Late) + With(f, Failed)
              + With(f, Cleared)
  {
  }

  lemma Sizes(a: set<nat>, b: set<nat>, c: set<nat>, d: set<nat>, e: set<nat>, f: set<nat>)
    requires a !! b !! c !! d !! e !! f
    ensures |a + b + c + d + e + f| == |a| + |b| + |c| + |d| + |e| + |f|
  {
  }

  lemma Places(log: seq<Seen>, at: map<Id, nat>, fates: map<nat, Fate>)
    requires Accounted(log, fates, at)
    requires forall irp | irp in at :: at[irp] < |log| && log[at[irp]].CleanedUp? && log[at[irp]].irp == irp
    ensures Cleanups(log) == fates.Keys && (forall irp | irp in at :: at[irp] in With(fates, Waiting))
    ensures forall i | i in With(fates, Waiting) :: exists irp | irp in at :: at[irp] == i
    ensures forall a, b | a in at && b in at && at[a] == at[b] :: a == b
  {
    forall i | i in With(fates, Waiting)
      ensures exists irp | irp in at :: at[irp] == i
    {
      assert log[i].irp in at;
    }
  }

  lemma {:induction false} InjectiveImage<K>(keys: set<K>, at: map<K, nat>, image: set<nat>)
    requires keys <= at.Keys && (forall k | k in keys :: at[k] in image)
    requires (forall i | i in image :: exists k | k in keys :: at[k] == i)
    requires forall a, b | a in keys && b in keys && at[a] == at[b] :: a == b
    ensures |image| == |keys|
    decreases keys
  {
    if keys == {} {
      assert |image| == 0;
    } else {
      var k :| k in keys;
      InjectiveImage(keys - {k}, at, image - {at[k]});
    }
  }

  class Callback {
    /** Cleanups waiting for their OperationEnd. */
    var irps: map<Id, Cleanup>
    /** Outcomes that came before their Cleanup. */
    var early: map<Id, Outcome>
    /** Files that are to be deleted, as far as requests tell. */
    const requested: RecentSet<Id>
    var requestIrps: map<Id, Id>
    /** Open handles with the delete-on-close flag. */
    const onClose: RecentSet<Id>
    const window: i64
    var unpaired: nat
    var late: nat
    ghost var story: Story

    ghost predicate Told()
      reads this
    {
      Tells(irps, early, unpaired, late, window, story)
    }

    ghost predicate Bounded()
      reads this
    {
      Small(irps, early, requestIrps)
    }

    ghost predicate Valid()
      reads this, requested, onClose
    {
      && requested != onClose && requested.Valid() && onClose.Valid()
      && requested.cap == onClose.cap == DELETE_REQUESTS_CAP && Told() && Bounded()
    }

    constructor (window: i64)
      ensures Valid() && fresh(requested) && fresh(onClose) && story == Story([], map[], map[], map[], [])
      ensures this.window == Max(window, 1)
    {
      irps, early, requestIrps, this.window, unpaired, late := map[], map[], map[], Max(window, 1), 0, 0;
      requested := new RecentSet(DELETE_REQUESTS_CAP);
      onClose := new RecentSet(DELETE_REQUESTS_CAP);
      story := Story([], map[], map[], map[], []);
      new;
      assert With(story.fates, Unpaired) == {} && With(story.fates, Late) == {};
    }

    /** The Irp starts another operation, so a Cleanup waiting on it stays unpaired. */
    method Drop(irp: Id, failed: bool)
      requires Told() && Bounded()
      modifies this`irps, this`early, this`requestIrps, this`unpaired, this`story
      ensures Told() && Bounded()
      ensures irps == Without(old(irps), irp) && early == Without(old(early), irp)
      ensures requestIrps == Without(old(requestIrps), irp)
      ensures unpaired == old(unpaired) + (if irp in old(irps) && !failed then 1 else 0)
      ensures Later(old(story), story) && story.log == old(story.log) && story.pairs == old(story.pairs)
      ensures irp in old(irps) ==>
                && irp in old(story.at) && old(story.at)[irp] in story.fates
                && story.fates[old(story.at)[irp]] == if failed then Failed else Unpaired
    {
      hide Without, Tells, Small, Later, Dropped;
      DropTells(irps, early, unpaired, late, window, story, irp, if failed then Failed else Unpaired);
      SmallerToo(irps, early, requestIrps, irp);
      SmallerToo(Without(irps, irp), early, requestIrps, irp);
      SmallerToo(Without(irps, irp), Without(early, irp), requestIrps, irp);
      story := Dropped(story, irp, if failed then Failed else Unpaired);
      if irp in irps && !failed { unpaired := unpaired + 1; }
      irps, early, requestIrps := Without(irps, irp), Without(early, irp), Without(requestIrps, irp);
    }

    ghost method Append(e: Seen)
      requires Told() && e.irp !in irps && (e.irp in early ==> e.EndOk?) && !e.CleanedUp?
      modifies this`story
      ensures Told() && story == Log(old(story), e) && Later(old(story), story)
    {
      hide Without, Tells;
      LogTells(irps, early, unpaired, late, window, story, e);
      story := Log(story, e);
    }

    /** Another operation starts on the Irp. */
    method NextOp(irp: Id)
      requires Valid()
      modifies this`irps, this`early, this`requestIrps, this`unpaired, this`story
      ensures Valid() && Later(old(story), story) && story.log == old(story.log) + [Start(irp)]
      ensures story.pairs == old(story.pairs)
      ensures irps == Without(old(irps), irp) && early == Without(old(early), irp)
      ensures requestIrps == Without(old(requestIrps), irp)
      ensures unpaired == old(unpaired) + if irp in old(irps) then 1 else 0
      ensures irp in old(irps) ==>
                irp in old(story.at) && old(story.at)[irp] in story.fates && story.fates[old(story.at)[irp]] == Unpaired
    {
      hide Without, Tells, RecentSet.Valid;
      Drop(irp, false);
      Append(Start(irp));
    }

    /** An OperationEnd that reports an error: what the operation asked for does not count. */
    method OperationFailed(irp: Id)
      requires Valid()
      modifies this`irps, this`early, this`requestIrps, this`unpaired, this`story, requested
      ensures Valid() && Later(old(story), story) && story.log == old(story.log) + [EndFailed(irp)]
      ensures story.pairs == old(story.pairs)
      ensures irps == Without(old(irps), irp) && early == Without(old(early), irp)
      ensures requestIrps == Without(old(requestIrps), irp)
      ensures unpaired == old(unpaired)
      ensures irp in old(irps) ==>
                irp in old(story.at) && old(story.at)[irp] in story.fates && story.fates[old(story.at)[irp]] == Failed
      ensures requested.seen == if irp in old(requestIrps) then old(requested.seen) - {old(requestIrps)[irp]}
                else old(requested.seen)
    {
      hide Without, Tells, RecentSet.Valid;
      if irp in requestIrps {
        var was := requested.Remove(requestIrps[irp]);
      }
      Drop(irp, true);
      Append(EndFailed(irp));
    }

    /** Decides by the value and the requests whether to pass an outcome on; doing so settles the
        request. */
    method Decide(fo: Id, key: Id, info: bv64) returns (pass: bool)
      requires requested.Valid() && onClose.Valid() && requested != onClose
      modifies requested`seen
      ensures requested.Valid()
      ensures pass == Wanted(info, key in old(requested.seen) || fo in onClose.seen)
      ensures requested.seen == if pass then old(requested.seen) - {key} else old(requested.seen)
    {
      hide RecentSet.Valid, Removed;
      var asked := key in requested.seen || fo in onClose.seen;
      pass := Removed(info) || (info == UNKNOWN && asked);
      if pass {
        var was := requested.Remove(key);
      }
    }

    /** A Cleanup, which waits unless its outcome is already there. */
    method CleanUp(irp: Id, fo: Id, key: Id, ts: i64) returns (r: Option<Outcome>)
      requires Valid()
      modifies this`irps, this`early, this`requestIrps, this`unpaired, this`story, requested
      ensures Valid() && Later(old(story), story) && story.log == old(story.log) + [CleanedUp(irp, ts)]
      ensures unpaired == old(unpaired) + if irp in old(irps) then 1 else 0
      ensures early == Without(old(early), irp) && requestIrps == Without(old(requestIrps), irp)
      ensures |old(story.log)| in story.fates
      // An early outcome in the window decides it; otherwise it waits.
      ensures if irp in old(early) && 0 <= old(early)[irp].ts - ts <= window
              then irp in old(story.earlyAt)
                  && story.pairs == old(story.pairs) + [Pair(|old(story.log)|, old(story.earlyAt)[irp])]
                   && story.fates[|old(story.log)|] == Decided && irps == Without(old(irps), irp)
                   && r == Some(old(early)[irp])
              else r == None && story.pairs == old(story.pairs) && story.fates[|old(story.log)|] == Waiting
                   && irps == Room(Without(old(irps), irp))[irp := Cleanup(fo, key, ts)]
      // A delete-on-close handle's file is outstanding, until the delete is passed on.
      ensures r.Some? ==> key !in requested.seen
      ensures r == None && fo in onClose.seen ==>
                key in requested.seen || (old(requested.order) != [] && old(requested.order)[0] == (ts as int, key))
      ensures r == None && fo !in onClose.seen ==> requested.seen == old(requested.seen)
    {
      hide Without, Tells, RecentSet.Valid, Removed, Quiet, Later, Room, Small;
      EarlyRemoved(irps, early, unpaired, late, window, story, irp);
      ToldEarly(irps, early, unpaired, late, window, story, irp);
      ghost var s0 := story;
      ghost var end := if irp in story.earlyAt then story.earlyAt[irp] else 0;
      var e := if irp in early then Some(early[irp]) else None;
      Drop(irp, false);
      ghost var s1 := story;
      AskFor(fo, key, ts);
      if e.Some? && 0 <= e.value.ts - ts <= window {
        DecideEarly(irp, ts, end);
        LaterStill(s0, s1, story);
        var pass := Decide(fo, key, e.value.info);
        return if pass then e else None;
      }
      WaitForEnd(irp, Cleanup(fo, key, ts));
      LaterStill(s0, s1, story);
      r := None;
    }

    /** The request of a handle is now known by its file, for Cleanups of other handles. */
    method AskFor(fo: Id, key: Id, ts: i64)
      requires requested.Valid() && requested != onClose
      modifies requested
      ensures requested.Valid()
      ensures fo in onClose.seen ==>
                key in requested.seen || (old(requested.order) != [] && old(requested.order)[0] == (ts as int, key))
      ensures fo !in onClose.seen ==> requested.seen == old(requested.seen)
    {
      hide RecentSet.Valid;
      if fo in onClose.seen { Ask(key, ts); }
    }

    method Ask(key: Id, ts: i64)
      requires requested.Valid()
      modifies requested
      ensures requested.Valid()
      ensures key in requested.seen || (old(requested.order) != [] && old(requested.order)[0] == (ts as int, key))
    {
      requested.Insert(key, ts);
    }

    /** The Cleanup that comes now is decided by the outcome logged at `end`. */
    ghost method DecideEarly(irp: Id, ts: i64, end: nat)
      requires Told() && irp !in irps && irp !in early
      requires end < |story.log| && story.log[end].EndOk? && story.log[end].irp == irp
      requires 0 <= story.log[end].ts - ts <= window
      requires Quiet(story.log, irp, end, |story.log|) && (forall q | q in story.pairs :: q.end != end)
      modifies this`story
      ensures Told() && Later(old(story), story) && story == Early(old(story), irp, ts, end)
    {
      hide Without, Tells, Quiet, Later;
      EarlyTells(irps, early, unpaired, late, window, story, irp, ts, end);
      story := Early(story, irp, ts, end);
    }

    /** The Cleanup that comes now waits for its OperationEnd; past the cap the others are forgotten. */
    method WaitForEnd(irp: Id, c: Cleanup)
      requires Told() && Bounded() && irp !in irps && irp !in early
      modifies this`irps, this`story
      ensures Told() && Bounded() && Later(old(story), story)
      ensures irps == Room(old(irps))[irp := c]
      ensures story.log == old(story.log) + [CleanedUp(irp, c.ts)] && story.pairs == old(story.pairs)
      ensures |old(story.log)| in story.fates && story.fates[|old(story.log)|] == Waiting
    {
      hide Without, Tells, Later;
      ghost var s0 := story;
      if |irps| >= CLEANUP_IRPS_CAP {
        ClearTells(irps, early, unpaired, late, window, story);
        irps, story := map[], AllCleared(story);
      }
      NothingNew(s0);
      AwaitTells(irps, early, unpaired, late, window, story, irp, c);
      LaterStill(s0, story, Awaited(story, irp, c.ts));
      irps, story := irps[irp := c], Awaited(story, irp, c.ts);
    }

    /** An OperationEnd without an error: the outcome of a Cleanup, or the answer to a request. */
    method End(irp: Id, o: Outcome) returns (pass: bool)
      requires Valid()
      modifies this`irps, this`early, this`requestIrps, this`late, this`story, requested`seen
      ensures Valid() && Later(old(story), story) && story.log == old(story.log) + [EndOk(irp, o.ts, o.info)]
      ensures irps == Without(old(irps), irp) && requestIrps == Without(old(requestIrps), irp)
      ensures pass <==>
                || irp in old(requestIrps)
                || (irp in old(irps) && 0 <= o.ts - old(irps)[irp].ts <= window
                    && Wanted(o.info, old(irps)[irp].key in old(requested.seen) || old(irps)[irp].fo in onClose.seen))
      // The request has had its effect.
      ensures requested.seen == if irp in old(irps) && 0 <= o.ts - old(irps)[irp].ts <= window
                && Wanted(o.info, old(irps)[irp].key in old(requested.seen) || old(irps)[irp].fo in onClose.seen)
                then old(requested.seen) - {old(irps)[irp].key} else old(requested.seen)
      ensures irp in old(irps) ==> irp in old(story.at) && old(story.at)[irp] in story.fates && early == old(early)
      ensures irp in old(irps) && 0 <= o.ts - old(irps)[irp].ts <= window ==>
                story.pairs == old(story.pairs) + [Pair(old(story.at)[irp], |old(story.log)|)]
                && story.fates[old(story.at)[irp]] == Decided && late == old(late)
      ensures irp in old(irps) && !(0 <= o.ts - old(irps)[irp].ts <= window) ==>
                story.pairs == old(story.pairs) && story.fates[old(story.at)[irp]] == Late && late == old(late) + 1
      ensures irp !in old(irps) ==> story.pairs == old(story.pairs) && late == old(late)
      ensures irp !in old(irps) ==>
                early == if Removed(o.info) then Room(old(early))[irp := o] else old(early)
    {
      hide Without, Tells, RecentSet.Valid, Removed, Later, Wanted, Room;
      OneLess(requestIrps, irp);
      var request := irp in requestIrps;
      requestIrps := Without(requestIrps, irp);
      pass := false;
      if irp in irps && 0 <= o.ts - irps[irp].ts <= window {
        var c := irps[irp];
        Answer(irp, o);
        pass := Decide(c.fo, c.key, o.info);
      } else if irp in irps {
        TooLate(irp, o);
      } else {
        NotThere(irps, irp);
        if Removed(o.info) {
          KeepEarly(irp, o);
        } else {
          Append(EndOk(irp, o.ts, o.info));
        }
      }
      pass := pass || request;
    }

    method Answer(irp: Id, o: Outcome)
      requires Told() && Bounded() && irp in irps && 0 <= o.ts - irps[irp].ts <= window
      modifies this`irps, this`story
      ensures Told() && Bounded() && irps == Without(old(irps), irp) && Later(old(story), story)
      ensures irp in old(story.at) && story == Answered(old(story), irp, o)
    {
      hide Without, Tells, Later;
      OneLess(irps, irp);
      AnswerTells(irps, early, unpaired, late, window, story, irp, o);
      irps, story := Without(irps, irp), Answered(story, irp, o);
    }

    method TooLate(irp: Id, o: Outcome)
      requires Told() && Bounded() && irp in irps
      modifies this`irps, this`late, this`story
      ensures Told() && Bounded() && irps == Without(old(irps), irp) && late == old(late) + 1
      ensures Later(old(story), story)
      ensures irp in old(story.at) && story == Log(Give(old(story), irp, Late), EndOk(irp, o.ts, o.info))
    {
      hide Without, Tells, Small, Later, Log, Give;
      SmallerToo(irps, early, requestIrps, irp);
      LateTells(irps, early, unpaired, late, window, story, irp, o);
      irps, late, story := Without(irps, irp), late + 1, Log(Give(story, irp, Late), EndOk(irp, o.ts, o.info));
    }

    method KeepEarly(irp: Id, o: Outcome)
      requires Told() && Bounded() && irp !in irps && Removed(o.info)
      modifies this`early, this`story
      ensures Told() && Bounded() && Later(old(story), story)
      ensures early == Room(old(early))[irp := o]
      ensures story.log == old(story.log) + [EndOk(irp, o.ts, o.info)] && story.pairs == old(story.pairs)
    {
      hide Without, Tells, Removed;
      if |early| >= CLEANUP_IRPS_CAP {
        ClearEarlyTells(irps, early, unpaired, late, window, story);
        early, story := map[], story.(earlyAt := map[]);
      }
      KeepEarlyTells(irps, early, unpaired, late, window, story, irp, o);
      early, story := early[irp := o], KeptEarly(story, irp, o);
    }

    method Close(fo: Id)
      requires Valid()
      modifies onClose`seen
      ensures Valid() && onClose.seen == old(onClose.seen) - {fo}
    {
      hide Without, Tells, RecentSet.Valid;
      if |onClose.seen| > 0 {
        var was := onClose.Remove(fo);
      }
    }

    method DeleteOnClose(fo: Id, ts: i64)
      requires Valid()
      modifies onClose
      ensures Valid()
      ensures fo in onClose.seen || (old(onClose.order) != [] && old(onClose.order)[0] == (ts as int, fo))
      ensures |old(onClose.order)| < onClose.cap ==> onClose.seen.Keys == old(onClose.seen).Keys + {fo}
    {
      hide Without, Tells, RecentSet.Valid;
      onClose.Insert(fo, ts);
    }

    /** A delete is requested: the file stays outstanding until its OperationEnd fails, it is cleared,
        or the delete is passed on. */
    method Request(key: Id, irp: Id, ts: i64)
      requires Valid()
      modifies this`requestIrps, requested
      ensures Valid()
      ensures requestIrps == Room(old(requestIrps))[irp := key]
      ensures key in requested.seen || (old(requested.order) != [] && old(requested.order)[0] == (ts as int, key))
      ensures |old(requested.order)| < requested.cap ==> requested.seen.Keys == old(requested.seen).Keys + {key}
    {
      hide Without, Tells, RecentSet.Valid;
      if |requestIrps| >= CLEANUP_IRPS_CAP {
        requestIrps := map[];
      }
      requestIrps := requestIrps[irp := key];
      requested.Insert(key, ts);
    }

    /** The disposition is cleared: the flag of this handle if it has one, else the file's request. */
    method Clear(key: Id, fo: Id)
      requires Valid()
      modifies onClose`seen, requested`seen
      ensures Valid() && onClose.seen == old(onClose.seen) - {fo}
      ensures requested.seen == if fo in old(onClose.seen) then old(requested.seen) else old(requested.seen) - {key}
    {
      hide Without, Tells, RecentSet.Valid;
      var was := onClose.Remove(fo);
      if was == None {
        var other := requested.Remove(key);
      }
    }
  }

  lemma NothingNew(s: Story)
    ensures Later(s, s)
  {
  }

  lemma EarlyRemoved(irps: map<Id, Cleanup>, early: map<Id, Outcome>, unpaired: nat, late: nat, window: int, s: Story,
                     irp: Id)
    requires Tells(irps, early, unpaired, late, window, s)
    ensures irp in early ==> Removed(early[irp].info)
  {
  }

  /** What an early outcome is known to be. */
  lemma EarlyKnown(log: seq<Seen>, early: map<Id, Outcome>, at: map<Id, nat>, pairs: seq<Pair>, irp: Id)
    requires CameEarly(log, early, at, pairs)
    ensures early.Keys == at.Keys
    ensures irp in early ==>
              && at[irp] < |log| && log[at[irp]] == EndOk(irp, early[irp].ts, early[irp].info)
              && Quiet(log, irp, at[irp], |log|) && forall q | q in pairs :: q.end != at[irp]
  {
  }

  lemma EarlyNotUsed(log: seq<Seen>, early: map<Id, Outcome>, at: map<Id, nat>, pairs: seq<Pair>, irp: Id, p: Pair)
    requires CameEarly(log, early, at, pairs) && irp !in early && p.end < |log| && log[p.end].irp == irp
    ensures CameEarly(log, early, at, pairs + [p])
  {
    forall other | other in early
      ensures at[other] != p.end
    {
      assert log[at[other]] == EndOk(other, early[other].ts, early[other].info);
    }
    assert forall q | q in pairs + [p] :: q in pairs || q == p;
  }

  lemma FateIsNew(log: seq<Seen>, fates: map<nat, Fate>, at: map<Id, nat>)
    requires Accounted(log, fates, at)
    ensures |log| !in fates
  {
  }

  lemma WaitPaired(log: seq<Seen>, fates: map<nat, Fate>, pairs: seq<Pair>, window: int, e: Seen)
    requires Paired(log, fates, pairs, window) && |log| !in fates
    ensures Paired(log + [e], fates[|log| := Waiting], pairs, window)
  {
    LogPaired(log, fates, pairs, window, e);
  }

  lemma Known(log: seq<Seen>, irps: map<Id, Cleanup>, at: map<Id, nat>)
    requires WaitsFor(log, irps, at)
    ensures irps.Keys == at.Keys
  {
  }
}
