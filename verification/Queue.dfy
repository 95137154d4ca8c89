/** The bounded queue: an unbounded channel whose cap a shared counter keeps. Each atomic operation of
    a sender or the receiver is one step; any interleaving of them is a run. */
module Queue {
  const USIZE_MAX: nat := 0xffff_ffff_ffff_ffff

  /** Where a sending thread is within a call. */
  datatype Phase<T> =
    | Idle
    /** Counted; the message goes to the channel next. */
    | Claimed(msg: T, tried: bool)
    /** Counted, but the queue was full; the count is taken back next. */
    | Refused(msg: T)
    /** Counted, but the receiver is gone; the count is taken back next. */
    | Rejected(msg: T)

  datatype Receiver = Listening | Took | Gone

  datatype Queued<T> = Queued(msg: T, tried: bool)

  datatype State<T> = State(
    cap: nat,
    counter: nat,
    chan: seq<Queued<T>>,
    senders: seq<Phase<T>>,
    receiver: Receiver,
    ghost lost: seq<Queued<T>>,
    ghost begun: multiset<T>,
    ghost returned: multiset<T>,
    ghost sent: seq<Queued<T>>,
    ghost received: seq<Queued<T>>
  )

  datatype Step<T> =
    /** `try_send` counts its message, and finds the queue full or not. */
    | BeginTry(i: nat, msg: T)
    /** `send` counts its message. */
    | BeginSend(i: nat, msg: T)
    | Push(i: nat)
    | TakeBack(i: nat)
    | Receive
    | CountDown
    | DropReceiver

  ghost function Init<T>(cap: nat, senders: nat): State<T> {
    State(if cap == 0 then 1 else cap, 0, [], seq(senders, _ => Idle), Listening, [], multiset{}, multiset{}, [], [])
  }

  /** `fetch_sub` wraps. */
  function Minus(counter: nat): nat {
    if counter == 0 then USIZE_MAX else counter - 1
  }

  ghost predicate Enabled<T>(s: State<T>, step: Step<T>) {
    match step
    case BeginTry(i, _) => i < |s.senders| && s.senders[i].Idle?
    case BeginSend(i, _) => i < |s.senders| && s.senders[i].Idle?
    case Push(i) => i < |s.senders| && s.senders[i].Claimed?
    case TakeBack(i) => i < |s.senders| && (s.senders[i].Refused? || s.senders[i].Rejected?)
    case Receive => s.receiver.Listening? && s.chan != []
    case CountDown => s.receiver.Took?
    case DropReceiver => s.receiver.Listening?
  }

  ghost function After<T>(s: State<T>, step: Step<T>): State<T>
    requires Enabled(s, step)
  {
    match step
    case BeginTry(i, m) =>
      var phase := if s.counter >= s.cap then Refused(m) else Claimed(m, true);
      s.(counter := s.counter + 1, senders := s.senders[i := phase], begun := s.begun + multiset{m})
    case BeginSend(i, m) =>
      s.(counter := s.counter + 1, senders := s.senders[i := Claimed(m, false)], begun := s.begun + multiset{m})
    case Push(i) =>
      var q := Queued(s.senders[i].msg, s.senders[i].tried);
      if s.receiver.Gone? then s.(senders := s.senders[i := Rejected(q.msg)])
      else s.(senders := s.senders[i := Idle], chan := s.chan + [q], sent := s.sent + [q])
    case TakeBack(i) =>
      s.(counter := Minus(s.counter), senders := s.senders[i := Idle],
          returned := s.returned + multiset{s.senders[i].msg})
    case Receive => s.(chan := s.chan[1..], receiver := Took, received := s.received + [s.chan[0]])
    case CountDown => s.(counter := Minus(s.counter), receiver := Listening)
    case DropReceiver => s.(receiver := Gone, lost := s.chan, chan := [])
  }

  ghost predicate Runs<T>(s: State<T>, steps: seq<Step<T>>, s': State<T>)
    decreases |steps|
  {
    if steps == [] then s == s' else Enabled(s, steps[0]) && Runs(After(s, steps[0]), steps[1..], s')
  }

  // What is counted.

  /** Threads in a call. */
  ghost function Busy<T>(senders: seq<Phase<T>>): nat {
    if senders == [] then 0 else (if senders[0].Idle? then 0 else 1) + Busy(senders[1..])
  }

  /** Threads about to queue a message that `try_send` let through. */
  ghost function Let<T>(senders: seq<Phase<T>>): (n: nat)
    ensures n <= Busy(senders)
  {
    if senders == [] then 0 else (if senders[0].Claimed? && senders[0].tried then 1 else 0) + Let(senders[1..])
  }

  /** Messages queued by `try_send`. */
  ghost function Tried<T>(chan: seq<Queued<T>>): (n: nat)
    ensures n <= |chan|
  {
    if chan == [] then 0 else (if chan[0].tried then 1 else 0) + Tried(chan[1..])
  }

  /** The messages still in a thread's hands. */
  ghost function Held<T>(senders: seq<Phase<T>>): multiset<T> {
    if senders == [] then multiset{} else InHand(senders[0]) + Held(senders[1..])
  }

  ghost function Messages<T>(qs: seq<Queued<T>>): multiset<T> {
    if qs == [] then multiset{} else multiset{qs[0].msg} + Messages(qs[1..])
  }

  lemma {:induction false} SenderChanges<T>(senders: seq<Phase<T>>, i: nat, p: Phase<T>)
    requires i < |senders|
    ensures var was, now := senders[i], senders[i := p];
            && Busy(now) + (if was.Idle? then 0 else 1) == Busy(senders) + (if p.Idle? then 0 else 1)
            && Let(now) + (if was.Claimed? && was.tried then 1 else 0)
                == Let(senders) + (if p.Claimed? && p.tried then 1 else 0)
  {
    if i == 0 {
      assert senders[0 := p][1..] == senders[1..];
    } else {
      assert senders[i := p][1..] == senders[1..][i - 1 := p];
      SenderChanges(senders[1..], i - 1, p);
    }
  }

  ghost function InHand<T>(p: Phase<T>): multiset<T> {
    if p.Idle? then multiset{} else multiset{p.msg}
  }

  lemma {:induction false} HandChanges<T>(senders: seq<Phase<T>>, i: nat, p: Phase<T>)
    requires i < |senders|
    ensures Held(senders[i := p]) + InHand(senders[i]) == Held(senders) + InHand(p)
  {
    hide InHand;
    var rest := senders[1..];
    if i == 0 {
      assert senders[0 := p][1..] == rest;
      Swap(InHand(p), InHand(senders[0]), Held(rest), Held(rest));
    } else {
      assert senders[i := p][1..] == rest[i - 1 := p];
      HandChanges(rest, i - 1, p);
      Under(InHand(senders[0]), Held(rest[i - 1 := p]), InHand(senders[i]), Held(rest), InHand(p));
    }
  }

  lemma Swap<T>(a: multiset<T>, b: multiset<T>, h: multiset<T>, h': multiset<T>)
    requires h == h'
    ensures a + h + b == b + h' + a
  {
  }

  lemma Under<T>(a: multiset<T>, h: multiset<T>, b: multiset<T>, h': multiset<T>, c: multiset<T>)
    requires h + b == h' + c
    ensures a + h + b == a + h' + c
  {
    assert a + h + b == a + (h + b);
    assert a + h' + c == a + (h' + c);
  }

  lemma Begun<T>(begun: multiset<T>, h: multiset<T>, h': multiset<T>, queued: multiset<T>, returned: multiset<T>, m: T)
    requires begun == h + queued + returned && h' + multiset{} == h + multiset{m}
    ensures begun + multiset{m} == h' + queued + returned
  {
    assert h' == h' + multiset{};
    assert h + queued + returned + multiset{m} == h + multiset{m} + queued + returned;
  }

  lemma Given<T>(begun: multiset<T>, h: multiset<T>, h': multiset<T>, queued: multiset<T>, returned: multiset<T>, m: T)
    requires begun == h + queued + returned && h' + multiset{m} == h + multiset{}
    ensures begun == h' + (queued + multiset{m}) + returned && begun == h' + queued + (returned + multiset{m})
  {
    assert h == h + multiset{};
    assert h' + multiset{m} + queued + returned == h' + (queued + multiset{m}) + returned;
    assert h' + multiset{m} + queued + returned == h' + queued + (returned + multiset{m});
  }

  lemma {:induction false} QueuedLast<T>(chan: seq<Queued<T>>, q: Queued<T>)
    ensures Tried(chan + [q]) == Tried(chan) + (if q.tried then 1 else 0)
    ensures Messages(chan + [q]) == Messages(chan) + multiset{q.msg}
    decreases |chan|
  {
    if chan == [] {
      assert chan + [q] == [q] && [q][1..] == [];
    } else {
      assert (chan + [q])[1..] == chan[1..] + [q];
      QueuedLast(chan[1..], q);
    }
  }

  lemma {:induction false} AllIdle<T>(senders: seq<Phase<T>>)
    requires forall p | p in senders :: p.Idle?
    ensures Busy(senders) == 0 && Held(senders) == multiset{}
    decreases |senders|
  {
    if senders != [] {
      assert senders[0] in senders && forall p | p in senders[1..] :: p in senders;
      AllIdle(senders[1..]);
    }
  }

  /** Kept by every step. */
  ghost predicate Valid<T>(s: State<T>) {
    && s.cap >= 1
    && s.counter == |s.chan| + Busy(s.senders) + (if s.receiver.Took? then 1 else 0) + |s.lost|
    && Tried(s.chan) + Let(s.senders) <= s.cap
    && (s.receiver.Gone? ==> s.chan == []) && (!s.receiver.Gone? ==> s.lost == [])
    && s.sent == s.received + s.chan + s.lost
    && s.begun == Held(s.senders) + Messages(s.sent) + s.returned
  }

  lemma InitValid<T>(cap: nat, senders: nat)
    ensures Valid(Init<T>(cap, senders))
  {
    AllIdle(Init<T>(cap, senders).senders);
  }

  lemma StepKeeps<T>(s: State<T>, step: Step<T>)
    requires Valid(s) && Enabled(s, step)
    ensures Valid(After(s, step)) && After(s, step).cap == s.cap
  {
    match step
    case BeginTry(i, m) => CallBegins(s, step);
    case BeginSend(i, m) => CallBegins(s, step);
    case Push(i) => PushKeeps(s, i);
    case TakeBack(i) =>
      SenderChanges(s.senders, i, Idle);
      HandChanges(s.senders, i, Idle);
      Given(s.begun, Held(s.senders), Held(s.senders[i := Idle]), Messages(s.sent), s.returned, s.senders[i].msg);
    case Receive => assert s.received + s.chan == s.received + [s.chan[0]] + s.chan[1..];
    case CountDown =>
    case DropReceiver =>
  }

  lemma CallBegins<T>(s: State<T>, step: Step<T>)
    requires Valid(s) && Enabled(s, step) && (step.BeginTry? || step.BeginSend?)
    ensures Valid(After(s, step))
  {
    var s' := After(s, step);
    SenderChanges(s.senders, step.i, s'.senders[step.i]);
    HandChanges(s.senders, step.i, s'.senders[step.i]);
    Begun(s.begun, Held(s.senders), Held(s'.senders), Messages(s.sent), s.returned, step.msg);
  }

  lemma PushKeeps<T>(s: State<T>, i: nat)
    requires Valid(s) && Enabled(s, Push(i))
    ensures Valid(After(s, Push(i)))
  {
    hide Held, Messages, Busy, Let, Tried;
    var m := s.senders[i].msg;
    var q, p := Queued(m, s.senders[i].tried), After(s, Push(i)).senders[i];
    SenderChanges(s.senders, i, p);
    HandChanges(s.senders, i, p);
    if s.receiver.Gone? {
      SameHands(s.begun, Held(s.senders), Held(s.senders[i := p]), Messages(s.sent), s.returned, m);
    } else {
      QueuedLast(s.chan, q);
      QueuedLast(s.sent, q);
      assert s.received + s.chan + [q] == s.received + (s.chan + [q]);
      Given(s.begun, Held(s.senders), Held(s.senders[i := Idle]), Messages(s.sent), s.returned, m);
    }
  }

  lemma SameHands<T>(begun: multiset<T>, h: multiset<T>, h': multiset<T>, queued: multiset<T>, returned: multiset<T>,
                     m: T)
    requires begun == h + queued + returned && h' + multiset{m} == h + multiset{m}
    ensures begun == h' + queued + returned
  {
    assert (h' + multiset{m}) - multiset{m} == h' && (h + multiset{m}) - multiset{m} == h;
  }

  lemma {:induction false} RunsKeep<T>(s: State<T>, steps: seq<Step<T>>, s': State<T>)
    requires Valid(s) && Runs(s, steps, s')
    ensures Valid(s') && s'.cap == s.cap
    decreases |steps|
  {
    if steps != [] {
      StepKeeps(s, steps[0]);
      RunsKeep(After(s, steps[0]), steps[1..], s');
    }
  }

  /** Whatever the interleaving: the counter covers what is queued and never wraps, `try_send` alone
      never queues more than the cap, and messages come out in the order they went in. */
  lemma EveryRunIsBounded<T>(cap: nat, senders: nat, steps: seq<Step<T>>, s: State<T>, next: Step<T>)
    requires Runs(Init(cap, senders), steps, s) && Enabled(s, next)
    ensures s.counter >= |s.chan| && Tried(s.chan) <= s.cap
    ensures next.TakeBack? || next.CountDown? ==> After(s, next).counter == s.counter - 1
    ensures s.received <= s.sent && (!s.receiver.Gone? ==> s.sent == s.received + s.chan)
    ensures s.begun == Held(s.senders) + Messages(s.sent) + s.returned
  {
    InitValid<T>(cap, senders);
    RunsKeep(Init(cap, senders), steps, s);
    if next.TakeBack? {
      SenderChanges(s.senders, next.i, Idle);
    }
  }

  /** With no call in flight the counter is the queue's length, so `try_send` is refused exactly when
      the queue holds its cap. */
  lemma QuietCounterIsLength<T>(cap: nat, senders: nat, steps: seq<Step<T>>, s: State<T>, i: nat, m: T)
    requires Runs(Init(cap, senders), steps, s) && (forall p | p in s.senders :: p.Idle?) && s.receiver.Listening?
    requires i < |s.senders|
    ensures s.counter == |s.chan|
    ensures After(s, BeginTry(i, m)).senders[i].Refused? <==> |s.chan| >= s.cap
    ensures s.begun == Messages(s.sent) + s.returned
  {
    InitValid<T>(cap, senders);
    RunsKeep(Init(cap, senders), steps, s);
    AllIdle(s.senders);
    assert s.senders[i] in s.senders;
  }

  ghost predicate OnlyTries<T>(steps: seq<Step<T>>) {
    forall i | 0 <= i < |steps| :: !steps[i].BeginSend?
  }

  ghost predicate AllTried<T>(s: State<T>) {
    && (forall p | p in s.senders :: p.Claimed? ==> p.tried)
    && (forall q | q in s.chan :: q.tried)
  }

  lemma {:induction false} EveryoneTried<T>(chan: seq<Queued<T>>)
    requires forall q | q in chan :: q.tried
    ensures Tried(chan) == |chan|
    decreases |chan|
  {
    if chan != [] {
      assert chan[0] in chan && forall q | q in chan[1..] :: q in chan;
      EveryoneTried(chan[1..]);
    }
  }

  lemma {:induction false} TriesOnly<T>(s: State<T>, steps: seq<Step<T>>, s': State<T>)
    requires Valid(s) && AllTried(s) && OnlyTries(steps) && Runs(s, steps, s')
    ensures Valid(s') && |s'.chan| <= s.cap == s'.cap
    decreases |steps|
  {
    if steps == [] {
      EveryoneTried(s.chan);
    } else {
      var s1 := After(s, steps[0]);
      StepKeeps(s, steps[0]);
      TriedStep(s, steps[0]);
      assert forall i | 0 <= i < |steps[1..]| :: !steps[1..][i].BeginSend?;
      TriesOnly(s1, steps[1..], s');
    }
  }

  lemma TriedStep<T>(s: State<T>, step: Step<T>)
    requires AllTried(s) && Enabled(s, step) && !step.BeginSend?
    ensures AllTried(After(s, step))
  {
    var s' := After(s, step);
    if step.BeginTry? || step.Push? || step.TakeBack? {
      forall p | p in s'.senders
        ensures p.Claimed? ==> p.tried
      {
        var k :| 0 <= k < |s'.senders| && s'.senders[k] == p;
        assert k != step.i ==> s.senders[k] in s.senders;
      }
      assert step.Push? ==> s.senders[step.i] in s.senders;
    }
  }

  /** Without `send`, the queue itself stays within the cap. */
  lemma TriesStayWithinCap<T>(cap: nat, senders: nat, steps: seq<Step<T>>, s: State<T>)
    requires Runs(Init(cap, senders), steps, s) && OnlyTries(steps)
    ensures |s.chan| <= s.cap
  {
    InitValid<T>(cap, senders);
    TriesOnly(Init(cap, senders), steps, s);
  }
}
