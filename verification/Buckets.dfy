/** The per-process token buckets for DNS events, refilled by event time. */
module Buckets {
  import opened Time

  /** Tokens are kept in thousandths. */
  datatype Bucket = Bucket(tokens: nat, last: i64)

  datatype Event = Event(pid: int, ts: i64)

  /** Thousandths of an event a second, and ticks a second. */
  datatype Limit = Limit(rate: nat, frequency: i64)

  const FORGET_PAST: nat := 8192

  function Ten(frequency: i64): i64 {
    Saturate(10 * frequency as int)
  }

  /** What is left after forgetting the processes idle for ten seconds. */
  function Awake(l: Limit, m: map<int, Bucket>, ts: i64): map<int, Bucket> {
    if |m| > FORGET_PAST then map pid | pid in m && m[pid].last >= SatSub(ts, Ten(l.frequency)) :: m[pid] else m
  }

  function Elapsed(ts: i64, last: i64): nat {
    if SatSub(ts, last) < 0 then 0 else SatSub(ts, last)
  }

  /** Refills are truncated. */
  function Gained(l: Limit, elapsed: nat): nat
    requires l.frequency > 0
  {
    Quotient(elapsed * l.rate, l.frequency)
  }

  function Quotient(a: nat, d: int): nat
    requires d > 0
  {
    a / d
  }

  function Refilled(l: Limit, b: Bucket, ts: i64): nat
    requires l.frequency > 0
  {
    var tokens := b.tokens + Gained(l, Elapsed(ts, b.last));
    if tokens > l.rate then l.rate else tokens
  }

  function Spend(l: Limit, b: Bucket, ts: i64): (Bucket, bool)
    requires l.frequency > 0
  {
    var tokens := Refilled(l, b, ts);
    if tokens >= 1000 then (Bucket(tokens - 1000, Max(b.last, ts)), true) else (Bucket(tokens, Max(b.last, ts)), false)
  }

  function BucketOf(l: Limit, m: map<int, Bucket>, e: Event): Bucket {
    if e.pid in m then m[e.pid] else Bucket(l.rate, e.ts)
  }

  /** One event; `forget` says whether idle processes are forgotten. */
  function Next(l: Limit, forget: bool, m: map<int, Bucket>, e: Event): (map<int, Bucket>, bool)
    requires l.frequency > 0
  {
    if l.rate == 0 then (m, true)
    else
      var m := if forget then Awake(l, m, e.ts) else m;
      var (b, ok) := Spend(l, BucketOf(l, m, e), e.ts);
      (m[e.pid := b], ok)
  }

  function Run(l: Limit, forget: bool, m: map<int, Bucket>, es: seq<Event>): (r: (map<int, Bucket>, seq<bool>))
    requires l.frequency > 0
    ensures |r.1| == |es|
    decreases |es|
  {
    if es == [] then (m, [])
    else
      var (m1, ok) := Next(l, forget, m, es[0]);
      var (m2, oks) := Run(l, forget, m1, es[1..]);
      (m2, [ok] + oks)
  }

  lemma {:induction false} RunConcat(l: Limit, forget: bool, m: map<int, Bucket>, a: seq<Event>, b: seq<Event>)
    requires l.frequency > 0
    ensures Run(l, forget, m, a + b).0 == Run(l, forget, Run(l, forget, m, a).0, b).0
    ensures Run(l, forget, m, a + b).1 == Run(l, forget, m, a).1 + Run(l, forget, Run(l, forget, m, a).0, b).1
    decreases |a|
  {
    hide Next;
    if a == [] {
      assert a + b == b;
    } else {
      var (m1, ok) := Next(l, forget, m, a[0]);
      assert (a + b)[0] == a[0] && (a + b)[1..] == a[1..] + b;
      RunConcat(l, forget, m1, a[1..], b);
      Associate([ok], Run(l, forget, m1, a[1..]).1, Run(l, forget, Run(l, forget, m, a).0, b).1);
    }
  }

  lemma Associate(a: seq<bool>, b: seq<bool>, c: seq<bool>)
    ensures a + (b + c) == a + b + c
  {
  }

  /** How many of the process's events were accepted. */
  function Accepted(es: seq<Event>, oks: seq<bool>, pid: int): nat
    requires |es| == |oks|
  {
    if es == [] then 0 else (if es[0].pid == pid && oks[0] then 1 else 0) + Accepted(es[1..], oks[1..], pid)
  }

  ghost predicate Within(es: seq<Event>, pid: int, from: i64, to: i64) {
    forall e | e in es && e.pid == pid :: from <= e.ts <= to
  }

  // One event.

  lemma Refill(l: Limit, b: Bucket, ts: i64)
    requires l.frequency > 0 && b.tokens <= l.rate
    ensures Refilled(l, b, ts) * l.frequency <= b.tokens * l.frequency + l.rate * (Max(b.last, ts) - b.last)
  {
    var n := Elapsed(ts, b.last);
    var gained := n * l.rate / l.frequency;
    assert gained * l.frequency <= n * l.rate;
    assert n <= Max(b.last, ts) - b.last;
    Times(l.rate, n, Max(b.last, ts) - b.last);
    Times(l.frequency as nat, Refilled(l, b, ts), b.tokens + gained);
    Spread(l.frequency, b.tokens, gained);
  }

  lemma Times(k: int, a: int, b: int)
    requires 0 <= k && a <= b
    ensures k * a <= k * b && a * k <= b * k
  {
  }

  lemma Spread(k: int, a: int, b: int)
    ensures k * (a + b) == k * a + k * b && (a + b) * k == a * k + b * k
  {
  }

  lemma SpendBound(l: Limit, b: Bucket, ts: i64)
    requires l.frequency > 0 && b.tokens <= l.rate
    ensures var (b', ok) := Spend(l, b, ts); var n := if ok then 1 else 0;
            && b'.tokens + 1000 * n <= l.rate && b'.last == Max(b.last, ts)
            && (b'.tokens + 1000 * n) * l.frequency <= b.tokens * l.frequency + l.rate * (b'.last - b.last)
  {
    hide Refilled;
    Refill(l, b, ts);
    AtMostFull(l, b, ts);
  }

  lemma AtMostFull(l: Limit, b: Bucket, ts: i64)
    requires l.frequency > 0
    ensures Refilled(l, b, ts) <= l.rate
  {
  }

  ghost predicate Filled(l: Limit, m: map<int, Bucket>) {
    forall pid | pid in m :: m[pid].tokens <= l.rate
  }

  lemma NextFilled(l: Limit, forget: bool, m: map<int, Bucket>, e: Event)
    requires l.frequency > 0 && Filled(l, m)
    ensures Filled(l, Next(l, forget, m, e).0)
  {
    hide Refilled;
    var m1 := if forget then Awake(l, m, e.ts) else m;
    AtMostFull(l, BucketOf(l, m1, e), e.ts);
  }

  lemma {:induction false} RunFilled(l: Limit, forget: bool, m: map<int, Bucket>, es: seq<Event>)
    requires l.frequency > 0 && Filled(l, m)
    ensures Filled(l, Run(l, forget, m, es).0)
    decreases |es|
  {
    if es != [] {
      NextFilled(l, forget, m, es[0]);
      RunFilled(l, forget, Next(l, forget, m, es[0]).0, es[1..]);
    }
  }

  // A process whose bucket is never forgotten.

  lemma KeptStep(l: Limit, m: map<int, Bucket>, es: seq<Event>, pid: int)
    requires l.frequency > 0 && l.rate > 0 && es != []
    ensures var (m1, ok) := Next(l, false, m, es[0]); var (b, ok') := Spend(l, BucketOf(l, m, es[0]), es[0].ts);
            && m1 == m[es[0].pid := b] && ok == ok'
            && Run(l, false, m, es).0 == Run(l, false, m1, es[1..]).0
            && Accepted(es, Run(l, false, m, es).1, pid)
               == (if es[0].pid == pid && ok then 1 else 0) + Accepted(es[1..], Run(l, false, m1, es[1..]).1, pid)
    ensures forall e | e in es[1..] :: e in es
  {
    var (m1, ok) := Next(l, false, m, es[0]);
    assert Run(l, false, m, es).1[1..] == Run(l, false, m1, es[1..]).1;
  }

  /** `n` events let through, between two states of a bucket, are what it held and what it gained. */
  ghost predicate PaidFor(l: Limit, n: nat, b: Bucket, b': Bucket) {
    1000 * n * l.frequency <= b.tokens * l.frequency + l.rate * (b'.last - b.last)
  }

  lemma NothingRun(l: Limit, m: map<int, Bucket>, es: seq<Event>, pid: int)
    requires l.frequency > 0 && es == []
    ensures Run(l, false, m, es).0 == m && Accepted(es, Run(l, false, m, es).1, pid) == 0
    ensures forall b :: PaidFor(l, 0, b, b)
  {
  }

  lemma {:induction false} KnownBound(l: Limit, m: map<int, Bucket>, es: seq<Event>, pid: int, to: i64)
    requires l.frequency > 0 && l.rate > 0 && Filled(l, m) && pid in m
    requires forall e | e in es && e.pid == pid :: e.ts <= to
    ensures var (m', oks) := Run(l, false, m, es);
            pid in m' && m[pid].last <= m'[pid].last <= Max(m[pid].last, to)
                && PaidFor(l, Accepted(es, oks, pid), m[pid], m'[pid])
    decreases |es|
  {
    hide Spend, Next, BucketOf, Run, Accepted, Filled, PaidFor;
    if es == [] {
      NothingRun(l, m, es, pid);
    } else {
      var e := es[0];
      var (m1, ok) := Next(l, false, m, e);
      var (m2, oks) := Run(l, false, m1, es[1..]);
      NextFilled(l, false, m, e);
      KeptStep(l, m, es, pid);
      KnownBound(l, m1, es[1..], pid, to);
      if e.pid == pid {
        BucketKnown(l, m, e);
        PaidBoth(l, m[pid], e.ts, m2[pid], Accepted(es[1..], oks, pid));
      }
    }
  }

  lemma PaidBoth(l: Limit, b: Bucket, ts: i64, b2: Bucket, n: nat)
    requires l.frequency > 0 && b.tokens <= l.rate && PaidFor(l, n, Spend(l, b, ts).0, b2)
    ensures PaidFor(l, (if Spend(l, b, ts).1 then 1 else 0) + n, b, b2) && Spend(l, b, ts).0.last == Max(b.last, ts)
  {
    hide Spend;
    SpendBound(l, b, ts);
    Sum(l, b, Spend(l, b, ts).0, b2, if Spend(l, b, ts).1 then 1 else 0, n);
  }

  lemma BucketKnown(l: Limit, m: map<int, Bucket>, e: Event)
    requires Filled(l, m)
    ensures BucketOf(l, m, e).tokens <= l.rate && (e.pid in m ==> BucketOf(l, m, e) == m[e.pid])
  {
  }

  lemma Sum(l: Limit, b: Bucket, b1: Bucket, b2: Bucket, k: nat, n: nat)
    requires l.frequency > 0
    requires (b1.tokens + 1000 * k) * l.frequency <= b.tokens * l.frequency + l.rate * (b1.last - b.last)
    requires 1000 * n * l.frequency <= b1.tokens * l.frequency + l.rate * (b2.last - b1.last)
    ensures 1000 * (k + n) * l.frequency <= b.tokens * l.frequency + l.rate * (b2.last - b.last)
  {
    Spread(l.frequency, b1.tokens, 1000 * k);
    Spread(l.frequency, 1000 * k, 1000 * n);
    Spread(l.rate, b1.last - b.last, b2.last - b1.last);
  }

  /** `n` events in the span are one burst and what the span refills. */
  ghost predicate WithinRate(l: Limit, n: nat, from: i64, to: i64) {
    1000 * n * l.frequency <= l.rate * l.frequency + l.rate * (to - from)
  }

  /** Over any span, whatever was there before. */
  lemma {:induction false} KeptBound(l: Limit, m: map<int, Bucket>, es: seq<Event>, pid: int, from: i64, to: i64)
    requires l.frequency > 0 && l.rate > 0 && Filled(l, m) && from <= to && Within(es, pid, from, to)
    ensures WithinRate(l, Accepted(es, Run(l, false, m, es).1, pid), from, to)
    decreases |es|
  {
    hide Spend, Next, BucketOf, Run, Accepted, WithinRate, PaidFor, Filled;
    if es == [] {
      NothingRun(l, m, es, pid);
      NoneWithinRate(l, from, to);
    } else {
      var e := es[0];
      var m1 := Next(l, false, m, e).0;
      NextFilled(l, false, m, e);
      KeptStep(l, m, es, pid);
      if e.pid == pid {
        KnownBound(l, m1, es[1..], pid, to);
        BucketKnown(l, m, e);
        var (m2, oks) := Run(l, false, m1, es[1..]);
        FirstBound(l, BucketOf(l, m, e), e.ts, m2[pid], Accepted(es[1..], oks, pid), from, to);
      } else {
        KeptBound(l, m1, es[1..], pid, from, to);
      }
    }
  }

  lemma NoneWithinRate(l: Limit, from: i64, to: i64)
    requires l.frequency > 0 && from <= to
    ensures WithinRate(l, 0, from, to)
  {
    Times(l.rate, 0, to - from);
  }

  lemma FirstBound(l: Limit, b: Bucket, ts: i64, b2: Bucket, n: nat, from: i64, to: i64)
    requires l.frequency > 0 && b.tokens <= l.rate && from <= ts <= to
    requires var b1 := Spend(l, b, ts).0; b2.last <= Max(b1.last, to) && PaidFor(l, n, b1, b2)
    ensures WithinRate(l, (if Spend(l, b, ts).1 then 1 else 0) + n, from, to)
  {
    hide Spend;
    SpendBound(l, b, ts);
    var (b1, ok) := Spend(l, b, ts);
    var k := if ok then 1 else 0;
    Times(l.rate, b2.last - b1.last, to - from);
    Times(l.frequency as nat, b1.tokens + 1000 * k, l.rate);
    Spread(l.frequency, b1.tokens, 1000 * k);
    Spread(l.frequency, 1000 * k, 1000 * n);
  }

  // Forgetting.

  /** No event is more than `back` ticks behind one before it. */
  ghost predicate NoFurtherBehind(es: seq<Event>, back: int) {
    forall i, j | 0 <= i < j < |es| :: es[j].ts >= es[i].ts - back
  }

  /** How far behind an event may come: a tick more than nine seconds (see `RateHoldsIff`). */
  function Slack(frequency: i64): int {
    Ten(frequency) - frequency + 1
  }

  /** The forgetful map agrees with one that keeps everything, but for buckets that are full by the
      time of any event still to come. */
  ghost predicate Agrees(l: Limit, m: map<int, Bucket>, kept: map<int, Bucket>, newest: int) {
    && (forall pid | pid in m :: pid in kept && kept[pid] == m[pid])
    && (forall pid | pid in kept && pid !in m :: kept[pid].last + l.frequency <= newest - Slack(l.frequency))
  }

  lemma FullAgain(l: Limit, b: Bucket, ts: i64)
    requires l.frequency > 0 && b.last + l.frequency <= ts
    ensures Spend(l, b, ts) == Spend(l, Bucket(l.rate, ts), ts)
  {
    hide Elapsed;
    FarEnough(l.frequency, b.last, ts);
    var n := Elapsed(ts, b.last);
    Times(l.rate, l.frequency as int, n);
    AtLeast(n * l.rate, l.frequency as int, l.rate);
    AtLeast(Elapsed(ts, ts) * l.rate, l.frequency as int, 0);
  }

  lemma FarEnough(frequency: i64, last: i64, ts: i64)
    requires frequency > 0 && last + frequency <= ts
    ensures Elapsed(ts, last) >= frequency && Elapsed(ts, ts) == 0
  {
  }

  lemma AtLeast(a: nat, d: int, q: nat)
    requires d > 0 && a >= d * q
    ensures a / d >= q
  {
    if a / d < q {
      Times(d, a / d + 1, q);
      Spread(d, a / d, 1);
    }
  }

  lemma AwakeAgrees(l: Limit, m: map<int, Bucket>, kept: map<int, Bucket>, newest: int, ts: i64)
    requires l.frequency > 0 && Agrees(l, m, kept, newest)
    ensures Agrees(l, Awake(l, m, ts), kept, if newest < ts then ts else newest)
  {
  }

  lemma NextAgrees(l: Limit, m: map<int, Bucket>, kept: map<int, Bucket>, newest: int, e: Event)
    requires l.frequency > 0 && Agrees(l, m, kept, newest) && e.ts >= newest - Slack(l.frequency)
    ensures var (m', ok) := Next(l, true, m, e); var (kept', ok') := Next(l, false, kept, e);
            ok == ok' && Agrees(l, m', kept', if newest < e.ts then e.ts else newest)
  {
    hide Spend, Awake;
    var awake := Awake(l, m, e.ts);
    AwakeAgrees(l, m, kept, newest, e.ts);
    if e.pid in kept && e.pid !in awake {
      FullAgain(l, kept[e.pid], e.ts);
    }
  }

  lemma {:induction false} RunAgrees(l: Limit, m: map<int, Bucket>, kept: map<int, Bucket>, newest: int, es: seq<Event>)
    requires l.frequency > 0 && Agrees(l, m, kept, newest) && NoFurtherBehind(es, Slack(l.frequency))
    requires forall e | e in es :: e.ts >= newest - Slack(l.frequency)
    ensures Run(l, true, m, es).1 == Run(l, false, kept, es).1
    decreases |es|
  {
    hide Agrees, Next, NoFurtherBehind;
    if es != [] {
      NextAgrees(l, m, kept, newest, es[0]);
      Later(l, es);
      var newest' := if newest < es[0].ts then es[0].ts else newest;
      assert forall e | e in es[1..] :: e in es;
      RunAgrees(l, Next(l, true, m, es[0]).0, Next(l, false, kept, es[0]).0, newest', es[1..]);
    }
  }

  lemma Later(l: Limit, es: seq<Event>)
    requires NoFurtherBehind(es, Slack(l.frequency)) && es != []
    ensures NoFurtherBehind(es[1..], Slack(l.frequency))
              && forall e | e in es[1..] :: e.ts >= es[0].ts - Slack(l.frequency)
  {
  }

  /** Forgetting idle processes changes no answer, if no event comes too far behind. */
  lemma ForgettingIsUnseen(l: Limit, es: seq<Event>)
    requires l.frequency > 0 && NoFurtherBehind(es, Slack(l.frequency))
    ensures Run(l, true, map[], es).1 == Run(l, false, map[], es).1
  {
    RunAgrees(l, map[], map[], I64_MIN as int, es);
  }

  /** Nor does it while few enough processes send events, however late these come. */
  lemma {:induction false} FewProcesses(l: Limit, m: map<int, Bucket>, es: seq<Event>, pids: set<int>)
    requires l.frequency > 0 && |pids| <= FORGET_PAST && m.Keys <= pids && forall e | e in es :: e.pid in pids
    ensures Run(l, true, m, es) == Run(l, false, m, es)
    decreases |es|
  {
    if es != [] {
      assert pids == m.Keys + (pids - m.Keys);
      FewProcesses(l, Next(l, true, m, es[0]).0, es[1..], pids);
    }
  }

  ghost predicate KeepsRate(l: Limit, es: seq<Event>, oks: seq<bool>, pid: int, from: i64, to: i64)
    requires |es| == |oks|
  {
    WithinRate(l, Accepted(es, oks, pid), from, to)
  }

  lemma RateHolds(l: Limit, before: seq<Event>, es: seq<Event>, pid: int, from: i64, to: i64)
    requires l.frequency > 0 && l.rate > 0 && NoFurtherBehind(before + es, Slack(l.frequency))
    requires from <= to && Within(es, pid, from, to)
    ensures KeepsRate(l, es, Run(l, true, map[], before + es).1[|before|..], pid, from, to)
  {
    ForgettingIsUnseen(l, before + es);
    UnforgottenRate(l, before, es, pid, from, to);
  }

  lemma RateHoldsForFew(l: Limit, before: seq<Event>, es: seq<Event>, pids: set<int>, pid: int, from: i64, to: i64)
    requires l.frequency > 0 && l.rate > 0 && |pids| <= FORGET_PAST && forall e | e in before + es :: e.pid in pids
    requires from <= to && Within(es, pid, from, to)
    ensures KeepsRate(l, es, Run(l, true, map[], before + es).1[|before|..], pid, from, to)
  {
    FewProcesses(l, map[], before + es, pids);
    UnforgottenRate(l, before, es, pid, from, to);
  }

  lemma UnforgottenRate(l: Limit, before: seq<Event>, es: seq<Event>, pid: int, from: i64, to: i64)
    requires l.frequency > 0 && l.rate > 0 && from <= to && Within(es, pid, from, to)
    ensures KeepsRate(l, es, Run(l, false, map[], before + es).1[|before|..], pid, from, to)
  {
    RunConcat(l, false, map[], before, es);
    var m := Run(l, false, map[], before).0;
    assert Run(l, false, map[], before + es).1[|before|..] == Run(l, false, m, es).1;
    RunFilled(l, false, map[], before);
    KeptBound(l, m, es, pid, from, to);
  }

  // And not less than the rate.

  /** The process's events. */
  function EventsOf(es: seq<Event>, pid: int): nat {
    if es == [] then 0 else (if es[0].pid == pid then 1 else 0) + EventsOf(es[1..], pid)
  }

  ghost predicate InOrder(es: seq<Event>, pid: int) {
    forall i, j | 0 <= i < j < |es| && es[i].pid == es[j].pid == pid :: es[i].ts <= es[j].ts
  }

  /** From its event `k` on, when its bucket was full, the process was given all that the rate allows, short of
      one event, and of a thousandth for each of its events, as refills are truncated. */
  ghost predicate UsedUp(l: Limit, es: seq<Event>, oks: seq<bool>, pid: int, k: int)
    requires |es| == |oks|
  {
    && 0 <= k < |es| && es[k].pid == pid
    && (1000 * Accepted(es[k..], oks[k..], pid) + 1000 + EventsOf(es[k..], pid)) * l.frequency
       > l.rate * l.frequency + l.rate * (es[|es| - 1].ts - es[k].ts)
  }

  /** What the bucket holds and what was taken from it since its event `k` is a burst and all refills since,
      less what truncation took. */
  ghost predicate Funded(l: Limit, es: seq<Event>, oks: seq<bool>, pid: int, b: Bucket, k: int)
    requires |es| == |oks|
  {
    && 0 <= k < |es| && es[k].pid == pid
    && (b.tokens + 1000 * Accepted(es[k..], oks[k..], pid) + EventsOf(es[k..], pid)) * l.frequency
       >= l.rate * l.frequency + l.rate * (b.last - es[k].ts)
  }

  ghost predicate LastSeen(es: seq<Event>, pid: int, ts: i64) {
    exists j :: 0 <= j < |es| && es[j].pid == pid && es[j].ts == ts
  }

  lemma {:induction false} CountedMore(es: seq<Event>, oks: seq<bool>, e: Event, ok: bool, pid: int)
    requires |es| == |oks|
    ensures Accepted(es + [e], oks + [ok], pid) == Accepted(es, oks, pid) + if e.pid == pid && ok then 1 else 0
    ensures EventsOf(es + [e], pid) == EventsOf(es, pid) + if e.pid == pid then 1 else 0
    decreases |es|
  {
    if es == [] {
      assert [e][1..] == [] && [ok][1..] == [];
      assert es + [e] == [e] && oks + [ok] == [ok];
    } else {
      assert (es + [e])[1..] == es[1..] + [e] && (oks + [ok])[1..] == oks[1..] + [ok];
      CountedMore(es[1..], oks[1..], e, ok, pid);
    }
  }

  /** A refill that does not fill the bucket is exact but for truncation. */
  lemma RefillExact(l: Limit, b: Bucket, ts: i64)
    requires l.frequency > 0 && b.last <= ts && Refilled(l, b, ts) < l.rate
    ensures (Refilled(l, b, ts) + 1) * l.frequency >= b.tokens * l.frequency + l.rate * (ts - b.last)
  {
    var n := Elapsed(ts, b.last);
    var f, gained := l.frequency, Gained(l, n);
    assert n * l.rate < (gained + 1) * f;
    if n != ts - b.last {
      assert n == I64_MAX;
      Times(l.rate, f, n);
      AtLeastFull(gained, l.rate, f, n);
      assert false;
    }
    Spread(f, b.tokens, gained + 1);
  }

  lemma AtLeastFull(gained: nat, rate: nat, f: int, n: nat)
    requires f > 0 && n * rate < (gained + 1) * f && n >= f
    ensures gained >= rate
  {
    Times(rate, f, n);
    if gained < rate {
      Times(f, gained + 1, rate);
    }
  }

  lemma Sums(f: int, rate: int, t: int, u: int, x: int, y: int, from: int, mid: int, to: int)
    requires (t + x) * f >= rate * f + rate * (mid - from)
    requires (u + y) * f >= t * f + rate * (to - mid)
    ensures (u + x + y) * f >= rate * f + rate * (to - from)
  {
    Spread(f, t, x);
    Spread(f, u, y);
    Spread(f, u + y, x);
    Spread(rate, mid - from, to - mid);
  }

  /** One event: the bucket was full, or it goes on from where it was. */
  lemma FundedMore(l: Limit, es: seq<Event>, oks: seq<bool>, pid: int, b: Bucket, k: int, e: Event)
    requires |es| == |oks| && l.frequency > 0 && l.rate >= 1000 && e.pid == pid && b.last <= e.ts && b.tokens <= l.rate
    requires Refilled(l, b, e.ts) == l.rate || Funded(l, es, oks, pid, b, k)
    ensures var (b', ok) := Spend(l, b, e.ts);
            exists k' :: Funded(l, es + [e], oks + [ok], pid, b', k')
  {
    hide Refilled;
    var (b', ok) := Spend(l, b, e.ts);
    var es', oks', n := es + [e], oks + [ok], |es|;
    AtMostFull(l, b, e.ts);
    if Refilled(l, b, e.ts) == l.rate {
      assert es'[n..] == [] + [e] && oks'[n..] == [] + [ok];
      CountedMore([], [], e, ok, pid);
      Times(l.frequency as nat, l.rate, l.rate + 1);
      assert Funded(l, es', oks', pid, b', n);
    } else {
      assert es'[k..] == es[k..] + [e] && oks'[k..] == oks[k..] + [ok];
      CountedMore(es[k..], oks[k..], e, ok, pid);
      RefillExact(l, b, e.ts);
      Sums(l.frequency, l.rate, b.tokens, Refilled(l, b, e.ts), 1000 * Accepted(es[k..], oks[k..], pid)
           + EventsOf(es[k..], pid), 1, es[k].ts, b.last, e.ts);
      assert Funded(l, es', oks', pid, b', k);
    }
  }

  lemma {:induction false} AlwaysFunded(l: Limit, es: seq<Event>, pid: int)
    requires l.frequency > 0 && l.rate >= 1000 && InOrder(es, pid)
    ensures var (m, oks) := Run(l, false, map[], es);
            if pid in m then LastSeen(es, pid, m[pid].last) && m[pid].tokens <= l.rate
                             && exists k :: Funded(l, es, oks, pid, m[pid], k)
            else forall e | e in es :: e.pid != pid
    decreases |es|
  {
    hide Run, Spend, Funded;
    if es == [] {
      EmptyRun(l);
    } else {
      var n := |es| - 1;
      var e := es[n];
      LastRun(l, es);
      AlwaysFunded(l, es[..n], pid);
      var (m, oks) := Run(l, false, map[], es[..n]);
      var b := BucketOf(l, m, e);
      var (b', ok) := Spend(l, b, e.ts);
      assert es == es[..n] + [e];
      SpendLast(l, b, e.ts);
      if e.pid == pid {
        if pid in m {
          var j :| 0 <= j < n && es[..n][j].pid == pid && es[..n][j].ts == b.last;
          var k :| Funded(l, es[..n], oks, pid, m[pid], k);
          FundedMore(l, es[..n], oks, pid, b, k, e);
        } else {
          NewIsFull(l, e);
          FundedMore(l, es[..n], oks, pid, b, 0, e);
        }
        assert es[n].ts == b'.last;
      } else if pid in m {
        var j :| 0 <= j < n && es[..n][j].pid == pid && es[..n][j].ts == m[pid].last;
        assert es[j].ts == m[pid].last;
        var k :| Funded(l, es[..n], oks, pid, m[pid], k);
        FundedOther(l, es[..n], oks, pid, m[pid], k, e, ok);
      }
    }
  }

  lemma FundedOther(l: Limit, es: seq<Event>, oks: seq<bool>, pid: int, b: Bucket, k: int, e: Event, ok: bool)
    requires |es| == |oks| && Funded(l, es, oks, pid, b, k) && e.pid != pid
    ensures Funded(l, es + [e], oks + [ok], pid, b, k)
  {
    assert (es + [e])[k..] == es[k..] + [e] && (oks + [ok])[k..] == oks[k..] + [ok];
    CountedMore(es[k..], oks[k..], e, ok, pid);
  }

  lemma EmptyRun(l: Limit)
    requires l.frequency > 0
    ensures Run(l, false, map[], []) == (map[], [])
  {
  }

  lemma SpendLast(l: Limit, b: Bucket, ts: i64)
    requires l.frequency > 0
    ensures Spend(l, b, ts).0.last == Max(b.last, ts) && Spend(l, b, ts).0.tokens <= l.rate
  {
    AtMostFull(l, b, ts);
  }

  lemma NewIsFull(l: Limit, e: Event)
    requires l.frequency > 0
    ensures Refilled(l, Bucket(l.rate, e.ts), e.ts) == l.rate
  {
  }

  lemma LastRun(l: Limit, es: seq<Event>)
    requires l.frequency > 0 && l.rate > 0 && es != []
    ensures var n := |es| - 1;
            var (m, oks) := Run(l, false, map[], es[..n]);
            var (b, ok) := Spend(l, BucketOf(l, m, es[n]), es[n].ts);
            Run(l, false, map[], es) == (m[es[n].pid := b], oks + [ok])
  {
    hide Spend, BucketOf, Refilled;
    var n := |es| - 1;
    var m := Run(l, false, map[], es[..n]).0;
    RunConcat(l, false, map[], es[..n], [es[n]]);
    assert es == es[..n] + [es[n]] && [es[n]][1..] == [];
    OneRun(l, m, es[n]);
  }

  lemma OneRun(l: Limit, m: map<int, Bucket>, e: Event)
    requires l.frequency > 0 && l.rate > 0
    ensures var (b, ok) := Spend(l, BucketOf(l, m, e), e.ts);
            Run(l, false, m, [e]) == (m[e.pid := b], [ok])
  {
    hide Spend, BucketOf;
    var (m1, ok) := Next(l, false, m, e);
    assert [e][1..] == [] && Run(l, false, m1, []) == (m1, []);
    assert [ok] + [] == [ok];
  }

  /** An event is refused only if since some earlier one its process has used up what the rate allows. */
  lemma RefusedAtRate(l: Limit, es: seq<Event>, pid: int)
    requires l.frequency > 0 && l.rate >= 1000 && NoFurtherBehind(es, Slack(l.frequency)) && InOrder(es, pid)
    requires es != [] && es[|es| - 1].pid == pid && !Run(l, true, map[], es).1[|es| - 1]
    ensures exists k :: UsedUp(l, es, Run(l, true, map[], es).1, pid, k)
  {
    hide Run, Spend, Funded, NoFurtherBehind;
    var n := |es| - 1;
    ForgettingIsUnseen(l, es);
    LastRun(l, es);
    AlwaysFunded(l, es, pid);
    var (m, oks) := Run(l, false, map[], es);
    var k :| Funded(l, es, oks, pid, m[pid], k);
    LowWhenRefused(l, BucketOf(l, Run(l, false, map[], es[..n]).0, es[n]), es[n].ts);
    NewestIsLast(l, es, pid);
    Short(l, es, oks, pid, m[pid], k);
  }

  lemma LowWhenRefused(l: Limit, b: Bucket, ts: i64)
    requires l.frequency > 0 && !Spend(l, b, ts).1
    ensures Spend(l, b, ts).0.tokens < 1000 && Spend(l, b, ts).0.last == Max(b.last, ts)
  {
  }

  lemma NewestIsLast(l: Limit, es: seq<Event>, pid: int)
    requires l.frequency > 0 && l.rate >= 1000 && InOrder(es, pid) && es != [] && es[|es| - 1].pid == pid
    ensures var m := Run(l, false, map[], es).0; pid in m && m[pid].last == es[|es| - 1].ts
  {
    hide Run, Spend;
    var n := |es| - 1;
    LastRun(l, es);
    AlwaysFunded(l, es, pid);
    var m := Run(l, false, map[], es).0;
    var b := BucketOf(l, Run(l, false, map[], es[..n]).0, es[n]);
    SpendLast(l, b, es[n].ts);
    var j :| 0 <= j < |es| && es[j].pid == pid && es[j].ts == m[pid].last;
  }

  lemma Short(l: Limit, es: seq<Event>, oks: seq<bool>, pid: int, b: Bucket, k: int)
    requires |es| == |oks| && l.frequency > 0 && es != []
    requires Funded(l, es, oks, pid, b, k) && b.tokens < 1000 && b.last == es[|es| - 1].ts
    ensures UsedUp(l, es, oks, pid, k)
  {
    var x := 1000 * Accepted(es[k..], oks[k..], pid) + EventsOf(es[k..], pid);
    LessThan(l.frequency, b.tokens, x);
  }

  lemma LessThan(f: int, t: int, x: int)
    requires f > 0 && t < 1000
    ensures (t + x) * f < (1000 + x) * f
  {
    Times(f, t + 1, 1000);
    Spread(f, t, x);
    Spread(f, t, 1);
    Spread(f, 1000, x);
  }

  /** Without a rate nothing is refused. */
  lemma {:induction false} NoLimit(l: Limit, forget: bool, m: map<int, Bucket>, es: seq<Event>)
    requires l.frequency > 0 && l.rate == 0
    ensures forall ok | ok in Run(l, forget, m, es).1 :: ok
    decreases |es|
  {
    if es != [] {
      NoLimit(l, forget, m, es[1..]);
    }
  }

  // Exactly how far behind. One tick further, a process that spent its burst is forgotten, and gets
  // another before a second has passed.

  function Repeat(e: Event, n: nat): seq<Event> {
    seq(n, _ => e)
  }

  /** When process 0 is forgotten. */
  function Forgets(l: Limit): int {
    10 * l.frequency + 1
  }

  /** Any rate the constructor makes but none, while ten seconds of ticks do not saturate. */
  ghost predicate Plain(l: Limit, r: nat) {
    r > 0 && l.rate == 1000 * r && l.frequency > 0 && Forgets(l) <= I64_MAX
  }

  /** `r` events of process 0, one each of enough others, one more, and `r` again of process 0. */
  function Breaker(l: Limit, r: nat): seq<Event>
    requires 0 < l.frequency && Forgets(l) <= I64_MAX
  {
    Repeat(Event(0, 0), r) + Crowd(l) + [Event(1, Forgets(l))] + Repeat(Event(0, l.frequency - 1), r)
  }

  function Crowd(l: Limit): seq<Event>
    requires 0 < l.frequency && Forgets(l) <= I64_MAX
  {
    seq(FORGET_PAST, i requires 0 <= i < FORGET_PAST => Event(i + 1, Forgets(l)))
  }

  ghost predicate NoneBefore(m: map<int, Bucket>, ts: i64) {
    forall pid | pid in m :: m[pid].last >= ts
  }

  lemma AwakeAll(l: Limit, m: map<int, Bucket>, ts: i64)
    requires l.frequency > 0 && NoneBefore(m, ts)
    ensures Awake(l, m, ts) == m
  {
    assert SatSub(ts, Ten(l.frequency)) <= ts;
    forall pid | pid in m
      ensures m[pid].last >= SatSub(ts, Ten(l.frequency))
    {
      assert m[pid].last >= ts;
    }
  }

  lemma SpendAgain(l: Limit, tokens: nat, last: i64, ts: i64)
    requires l.frequency > 0 && 1000 <= tokens <= l.rate && last >= ts
    ensures Spend(l, Bucket(tokens, last), ts) == (Bucket(tokens - 1000, last), true)
  {
    AtLeast(Elapsed(ts, last) * l.rate, l.frequency as int, 0);
    assert Elapsed(ts, last) * l.rate == 0;
  }

  /** A known process spends what it has, at one instant. */
  lemma {:induction false} Drain(l: Limit, m: map<int, Bucket>, e: Event, n: nat)
    requires l.frequency > 0 && l.rate > 0 && NoneBefore(m, e.ts) && e.pid in m && 1000 * n <= m[e.pid].tokens <= l.rate
    ensures Run(l, true, m, Repeat(e, n)).1 == seq(n, _ => true)
    ensures var m' := Run(l, true, m, Repeat(e, n)).0;
            m' == m[e.pid := Bucket(m[e.pid].tokens - 1000 * n, m[e.pid].last)]
  {
    hide Spend, Awake;
    if n == 0 {
      assert Repeat(e, n) == [] && m[e.pid := m[e.pid]] == m;
    } else {
      var b := m[e.pid];
      assert Repeat(e, n)[0] == e && Repeat(e, n)[1..] == Repeat(e, n - 1);
      AwakeAll(l, m, e.ts);
      SpendAgain(l, b.tokens, b.last, e.ts);
      var m1 := m[e.pid := Bucket(b.tokens - 1000, b.last)];
      Drain(l, m1, e, n - 1);
      assert [true] + seq(n - 1, _ => true) == seq(n, _ => true);
    }
  }

  /** One not known gets a whole burst. */
  lemma FreshBurst(l: Limit, m: map<int, Bucket>, e: Event, r: nat)
    requires Plain(l, r) && NoneBefore(m, e.ts) && e.pid !in m
    ensures Run(l, true, m, Repeat(e, r)).1 == seq(r, _ => true)
    ensures Run(l, true, m, Repeat(e, r)).0 == m[e.pid := Bucket(0, e.ts)]
  {
    hide Spend, Awake;
    var m0 := m[e.pid := Bucket(l.rate, e.ts)];
    AwakeAll(l, m, e.ts);
    AwakeAll(l, m0, e.ts);
    assert Repeat(e, r)[0] == e;
    var b := Spend(l, Bucket(l.rate, e.ts), e.ts).0;
    assert m0[e.pid := b] == m[e.pid := b];
    assert Next(l, true, m, e) == Next(l, true, m0, e);
    Drain(l, m0, e, r);
  }

  lemma {:induction false} CrowdFills(l: Limit, n: nat, m: map<int, Bucket>, es: seq<Event>)
    requires l.frequency > 0 && l.rate > 0 && Forgets(l) <= I64_MAX && n + |es| <= FORGET_PAST && |m| == n + 1
    requires 0 in m && m[0] == Bucket(0, 0) && (forall pid | pid in m :: 0 <= pid <= n)
    requires forall pid | pid in m && pid != 0 :: m[pid].last == Forgets(l)
    requires forall i | 0 <= i < |es| :: es[i] == Event(n + i + 1, Forgets(l))
    ensures var m' := Run(l, true, m, es).0;
            && |m'| == n + |es| + 1 && 0 in m' && m'[0] == Bucket(0, 0)
            && forall pid | pid in m' && pid != 0 :: m'[pid].last == Forgets(l)
    decreases |es|
  {
    hide Refilled;
    if es != [] {
      var m1 := Next(l, true, m, es[0]).0;
      assert m1.Keys == m.Keys + {n + 1};
      CrowdFills(l, n + 1, m1, es[1..]);
    }
  }

  /** The event after the crowd forgets process 0. */
  lemma ForgetsFirst(l: Limit, m: map<int, Bucket>)
    requires l.frequency > 0 && l.rate > 0 && Forgets(l) <= I64_MAX && |m| == FORGET_PAST + 1 && 0 in m
              && m[0] == Bucket(0, 0)
    requires forall pid | pid in m && pid != 0 :: m[pid].last == Forgets(l)
    ensures var m' := Run(l, true, m, [Event(1, Forgets(l))]).0; 0 !in m' && NoneBefore(m', l.frequency - 1)
  {
    hide Refilled;
    var e := Event(1, Forgets(l));
    assert [e][1..] == [];
    assert 0 !in Awake(l, m, e.ts);
  }

  lemma {:induction false} AcceptedConcat(a: seq<Event>, b: seq<Event>, oks: seq<bool>, oks': seq<bool>, pid: int)
    requires |a| == |oks| && |b| == |oks'|
    ensures Accepted(a + b, oks + oks', pid) == Accepted(a, oks, pid) + Accepted(b, oks', pid)
    decreases |a|
  {
    if a == [] {
      assert a + b == b && oks + oks' == oks';
    } else {
      assert (a + b)[1..] == a[1..] + b && (oks + oks')[1..] == oks[1..] + oks';
      AcceptedConcat(a[1..], b, oks[1..], oks', pid);
    }
  }

  lemma {:induction false} AllAccepted(e: Event, n: nat)
    ensures Accepted(Repeat(e, n), seq(n, _ => true), e.pid) == n
  {
    if n > 0 {
      assert Repeat(e, n)[1..] == Repeat(e, n - 1) && seq(n, _ => true)[1..] == seq(n - 1, _ => true);
      AllAccepted(e, n - 1);
    }
  }

  /** Process 0 gets two whole bursts in less than a second. */
  lemma TwoBursts(l: Limit, r: nat)
    requires Plain(l, r)
    ensures Accepted(Breaker(l, r), Run(l, true, map[], Breaker(l, r)).1, 0) >= 2 * r
  {
    hide Run, Accepted, Crowd, NoneBefore, Repeat;
    var first, last, one := Event(0, 0), Event(0, l.frequency - 1), [Event(1, Forgets(l))];
    var a, b := Repeat(first, r), Repeat(last, r);
    NothingBefore(map[], 0);
    FreshBurst(l, map[], first, r);
    AllAccepted(first, r);
    AllAccepted(last, r);
    var m := map[0 := Bucket(0, 0)];
    CrowdThenOne(l, m);
    var (m1, oks1) := Run(l, true, m, Crowd(l));
    var (m2, oks2) := Run(l, true, m1, one);
    FreshBurst(l, m2, last, r);
    FourRuns(l, map[], a, Crowd(l), one, b, 0);
  }

  lemma NothingBefore(m: map<int, Bucket>, ts: i64)
    requires m == map[]
    ensures NoneBefore(m, ts)
  {
  }

  lemma CrowdThenOne(l: Limit, m: map<int, Bucket>)
    requires l.frequency > 0 && l.rate > 0 && Forgets(l) <= I64_MAX && m == map[0 := Bucket(0, 0)]
    ensures var m2 := Run(l, true, Run(l, true, m, Crowd(l)).0, [Event(1, Forgets(l))]).0;
            0 !in m2 && NoneBefore(m2, l.frequency - 1)
  {
    hide Run;
    assert m.Keys == {0};
    CrowdFills(l, 0, m, Crowd(l));
    ForgetsFirst(l, Run(l, true, m, Crowd(l)).0);
  }

  /** What four stretches of a run accept is at least what the first and the last do. */
  lemma FourRuns(l: Limit, m: map<int, Bucket>, a: seq<Event>, b: seq<Event>, c: seq<Event>, d: seq<Event>, pid: int)
    requires l.frequency > 0
    ensures var (m1, oks1) := Run(l, true, m, a); var m2 := Run(l, true, m1, b).0; var m3 := Run(l, true, m2, c).0;
            Accepted(a + b + c + d, Run(l, true, m, a + b + c + d).1, pid)
            >= Accepted(a, oks1, pid) + Accepted(d, Run(l, true, m3, d).1, pid)
  {
    hide Run, Accepted;
    var (m1, oks1) := Run(l, true, m, a);
    var (m2, oks2) := Run(l, true, m1, b);
    var (m3, oks3) := Run(l, true, m2, c);
    RunConcat(l, true, m, a, b);
    RunConcat(l, true, m, a + b, c);
    RunConcat(l, true, m, a + b + c, d);
    AcceptedConcat(a, b, oks1, oks2, pid);
    AcceptedConcat(a + b, c, oks1 + oks2, oks3, pid);
    AcceptedConcat(a + b + c, d, oks1 + oks2 + oks3, Run(l, true, m3, d).1, pid);
  }

  lemma BreakerBehind(l: Limit, r: nat)
    requires Plain(l, r)
    ensures NoFurtherBehind(Breaker(l, r), 9 * l.frequency + 2) && Within(Breaker(l, r), 0, 0, l.frequency - 1)
  {
    var es := Breaker(l, r);
    forall i | 0 <= i < |es|
      ensures 0 <= es[i].ts <= Forgets(l) && (i < r ==> es[i] == Event(0, 0))
                && (i >= r ==> es[i].ts >= l.frequency - 1)
      ensures es[i].pid == 0 ==> es[i].ts <= l.frequency - 1
    {
    }
  }

  /** And that is more than the rate. */
  lemma BreakerBreaks(l: Limit, r: nat)
    requires Plain(l, r)
    ensures !KeepsRate(l, Breaker(l, r), Run(l, true, map[], Breaker(l, r)).1, 0, 0, l.frequency - 1)
  {
    hide Run, Breaker, Accepted;
    TwoBursts(l, r);
    var n := Accepted(Breaker(l, r), Run(l, true, map[], Breaker(l, r)).1, 0);
    Times(1000 * l.frequency, 2 * r, n);
    assert 1000 * n * l.frequency == 1000 * l.frequency * n;
    Spread(l.rate, l.frequency as int, l.frequency - 1);
    assert 1000 * l.frequency * (2 * r) == 2 * (l.rate * l.frequency);
    assert l.rate * (l.frequency + (l.frequency - 1)) == 2 * (l.rate * l.frequency) - l.rate;
  }

  lemma WithinSlack(l: Limit, es: seq<Event>, back: nat)
    requires l.frequency > 0 && Forgets(l) <= I64_MAX && back <= 9 * l.frequency + 1 && NoFurtherBehind(es, back)
    ensures NoFurtherBehind(es, Slack(l.frequency))
  {
  }

  ghost predicate RateAlways(l: Limit, back: nat)
    requires l.frequency > 0
  {
    forall before, es, pid, from, to | NoFurtherBehind(before + es, back) && from <= to && Within(es, pid, from, to) ::
      KeepsRate(l, es, Run(l, true, map[], before + es).1[|before|..], pid, from, to)
  }

  ghost predicate NeverSeen(l: Limit, back: nat)
    requires l.frequency > 0
  {
    forall es | NoFurtherBehind(es, back) :: Run(l, true, map[], es).1 == Run(l, false, map[], es).1
  }

  /** The rate holds over every run in which no event is more than `back` ticks behind, if and only if
      `back` is at most a tick more than nine seconds. */
  lemma RateHoldsIff(l: Limit, r: nat, back: nat)
    requires Plain(l, r)
    ensures RateAlways(l, back) <==> back <= 9 * l.frequency + 1
  {
    hide Run, Breaker, KeepsRate, NoFurtherBehind, Within;
    if back <= 9 * l.frequency + 1 {
      forall before, es, pid, from, to | NoFurtherBehind(before + es, back) && from <= to && Within(es, pid, from, to)
        ensures KeepsRate(l, es, Run(l, true, map[], before + es).1[|before|..], pid, from, to)
      {
        WithinSlack(l, before + es, back);
        RateHolds(l, before, es, pid, from, to);
      }
    } else {
      BreakerFits(l, r, back);
      NothingFirst(l, true, Breaker(l, r));
      BreakerBreaks(l, r);
      assert !KeepsRate(l, Breaker(l, r), Run(l, true, map[], [] + Breaker(l, r)).1[0..], 0, 0, l.frequency - 1);
      assert !RateAlways(l, back) by {
        var none: seq<Event> := [];
        assert |none| == 0 && NoFurtherBehind(none + Breaker(l, r), back);
      }
    }
  }

  lemma BreakerFits(l: Limit, r: nat, back: nat)
    requires Plain(l, r) && back > 9 * l.frequency + 1
    ensures NoFurtherBehind([] + Breaker(l, r), back) && NoFurtherBehind(Breaker(l, r), back)
    ensures Within(Breaker(l, r), 0, 0, l.frequency - 1)
  {
    hide Breaker, NoFurtherBehind, Within;
    BreakerBehind(l, r);
    assert [] + Breaker(l, r) == Breaker(l, r);
    FurtherStill(Breaker(l, r), 9 * l.frequency + 2, back);
  }

  lemma NothingFirst(l: Limit, forget: bool, es: seq<Event>)
    requires l.frequency > 0
    ensures [] + es == es && Run(l, forget, map[], [] + es).1[0..] == Run(l, forget, map[], es).1
  {
    hide Run;
    assert [] + es == es;
  }

  lemma FurtherStill(es: seq<Event>, back: int, further: int)
    requires NoFurtherBehind(es, back) && back <= further
    ensures NoFurtherBehind(es, further)
  {
  }

  /** So it is with the answers: forgetting changes none, over all such runs, exactly then. */
  lemma ForgettingUnseenIff(l: Limit, r: nat, back: nat)
    requires Plain(l, r)
    ensures NeverSeen(l, back) <==> back <= 9 * l.frequency + 1
  {
    hide Run, Breaker, KeepsRate, NoFurtherBehind, Within;
    if back <= 9 * l.frequency + 1 {
      forall es | NoFurtherBehind(es, back)
        ensures Run(l, true, map[], es).1 == Run(l, false, map[], es).1
      {
        WithinSlack(l, es, back);
        ForgettingIsUnseen(l, es);
      }
    } else {
      var es := Breaker(l, r);
      BreakerFits(l, r, back);
      BreakerBreaks(l, r);
      NothingFirst(l, false, es);
      UnforgottenRate(l, [], es, 0, 0, l.frequency - 1);
      assert Run(l, true, map[], es).1 != Run(l, false, map[], es).1;
    }
  }

  class Limiter {
    const limit: Limit
    var byPid: map<int, Bucket>

    ghost predicate Valid()
      reads this
    {
      limit.frequency > 0 && Filled(limit, byPid)
    }

    constructor (rate: nat, frequency: i64)
      requires frequency > 0
      ensures Valid() && limit == Limit(1000 * rate, frequency) && byPid == map[]
    {
      limit, byPid := Limit(1000 * rate, frequency), map[];
    }

    /** Whether the event is accepted. */
    method Take(pid: int, ts: i64) returns (ok: bool)
      requires Valid()
      modifies this
      ensures Valid() && (byPid, ok) == Next(limit, true, old(byPid), Event(pid, ts))
    {
      hide Filled, Gained, Elapsed;
      NextFilled(limit, true, byPid, Event(pid, ts));
      if limit.rate == 0 { return true; }
      if |byPid| > FORGET_PAST {
        // Forgotten or refilled, the process has its whole burst.
        var horizon := SatSub(ts, Ten(limit.frequency));
        byPid := map p | p in byPid && byPid[p].last >= horizon :: byPid[p];
      }
      var b := if pid in byPid then byPid[pid] else Bucket(limit.rate, ts);
      var tokens := b.tokens + Gained(limit, Elapsed(ts, b.last));
      if tokens > limit.rate { tokens := limit.rate; }
      ok := tokens >= 1000;
      if ok { tokens := tokens - 1000; }
      byPid := byPid[pid := Bucket(tokens, Max(b.last, ts))];
    }
  }
}
