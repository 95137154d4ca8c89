/** Health reports: differences between snapshots of cumulative counters, any part of which may go
    unread. One counter of each kind stands for the others of that kind. */
module Health {
  import opened Options

  type u64 = x: int | 0 <= x < 0x1_0000_0000_0000_0000
  type u32 = x: int | 0 <= x < 0x1_0000_0000

  const WRAP: nat := 0x1_0000_0000

  type Class = int

  datatype Counters = Counters(lateArrivals: u64, actorDropped: map<Class, u64>)

  /** One ETW session's cumulative losses, which wrap. */
  datatype SessionLoss = SessionLoss(eventsLost: u32, buffersLost: u32)

  /** `None`: no reading. */
  datatype Snapshot = Snapshot(
    pipeline: Option<Counters>,
    kernelQueueDrops: u64,
    cleanupUnpaired: u64,
    cleanupOutcomeLate: u64,
    sensorSession: Option<SessionLoss>,
    cpuTime: Option<u64>,
    workingSet: Option<u64>
  )

  datatype Report = Report(
    lateArrivals: Option<nat>,
    actorDropped: map<Class, nat>,
    kernelQueueDrops: nat,
    fileCleanupUnpaired: nat,
    sensorEventsLost: Option<nat>,
    sensorBuffersLost: Option<nat>,
    cpuTime: Option<nat>,
    workingSet: Option<u64>
  )

  function AtStart(kernel: u64, unpaired: u64, late: u64): Snapshot {
    Snapshot(Some(Counters(0, map[])), kernel, unpaired, late, Some(SessionLoss(0, 0)), Some(0), None)
  }

  function Or<T>(now: Option<T>, before: Option<T>): Option<T> {
    if now.Some? then now else before
  }

  /** The base of the next difference: the latest reading of each counter. */
  function Advance(prev: Snapshot, now: Snapshot): Snapshot {
    now.(
      pipeline := Or(now.pipeline, prev.pipeline),
      sensorSession := Or(now.sensorSession, prev.sensorSession),
      cpuTime := Or(now.cpuTime, prev.cpuTime)
    )
  }

  function D(prev: u64, now: u64): nat {
    if now < prev then 0 else now - prev
  }

  function D32(prev: u32, now: u32): nat {
    (now - prev) % WRAP
  }

  function CountOf(m: map<Class, u64>, class_: Class): u64 {
    if class_ in m then m[class_] else 0
  }

  /** Per class, zero counts left out. */
  function DClasses(prev: map<Class, u64>, now: map<Class, u64>): (more: map<Class, nat>)
    ensures forall c :: c in more <==> c in now && CountOf(prev, c) < now[c]
    ensures forall c | c in more :: CountOf(prev, c) + more[c] == now[c]
  {
    map c | c in now && D(CountOf(prev, c), now[c]) > 0 :: D(CountOf(prev, c), now[c])
  }

  function ReportOf(prev: Snapshot, now: Snapshot): Report {
    var both := prev.pipeline.Some? && now.pipeline.Some?;
    var session := prev.sensorSession.Some? && now.sensorSession.Some?;
    Report(
      if both then Some(D(prev.pipeline.value.lateArrivals, now.pipeline.value.lateArrivals)) else None,
      if both then DClasses(prev.pipeline.value.actorDropped, now.pipeline.value.actorDropped) else map[],
      D(prev.kernelQueueDrops, now.kernelQueueDrops),
      D(prev.cleanupUnpaired, now.cleanupUnpaired) + D(prev.cleanupOutcomeLate, now.cleanupOutcomeLate),
      if session then Some(D32(prev.sensorSession.value.eventsLost, now.sensorSession.value.eventsLost)) else None,
      if session then Some(D32(prev.sensorSession.value.buffersLost, now.sensorSession.value.buffersLost)) else None,
      if prev.cpuTime.Some? && now.cpuTime.Some? then Some(D(prev.cpuTime.value, now.cpuTime.value)) else None,
      now.workingSet
    )
  }

  /** The reports of a run, each measured from what was known before. */
  function Reports(prev: Snapshot, snaps: seq<Snapshot>): seq<Report>
    decreases |snaps|
  {
    if snaps == [] then [] else [ReportOf(prev, snaps[0])] + Reports(Advance(prev, snaps[0]), snaps[1..])
  }

  function Last(prev: Snapshot, snaps: seq<Snapshot>): Snapshot
    decreases |snaps|
  {
    if snaps == [] then prev else Last(Advance(prev, snaps[0]), snaps[1..])
  }

  // Any one counter.

  datatype Counter = LateArrivals | ActorDropped(class_: Class) | KernelQueueDrops | CpuTime

  datatype Wrapping = EventsLost | BuffersLost

  function Read(s: Snapshot, c: Counter): Option<u64> {
    match c
    case LateArrivals => if s.pipeline.Some? then Some(s.pipeline.value.lateArrivals) else None
    case ActorDropped(k) => if s.pipeline.Some? then Some(CountOf(s.pipeline.value.actorDropped, k)) else None
    case KernelQueueDrops => Some(s.kernelQueueDrops)
    case CpuTime => s.cpuTime
  }

  function Shown(r: Report, c: Counter): nat {
    match c
    case LateArrivals => if r.lateArrivals.Some? then r.lateArrivals.value else 0
    case ActorDropped(k) => if k in r.actorDropped then r.actorDropped[k] else 0
    case KernelQueueDrops => r.kernelQueueDrops
    case CpuTime => if r.cpuTime.Some? then r.cpuTime.value else 0
  }

  function ReadWrapping(s: Snapshot, c: Wrapping): Option<u32> {
    if s.sensorSession == None then None
    else Some(if c.EventsLost? then s.sensorSession.value.eventsLost else s.sensorSession.value.buffersLost)
  }

  function ShownWrapping(r: Report, c: Wrapping): nat {
    var lost := if c.EventsLost? then r.sensorEventsLost else r.sensorBuffersLost;
    if lost.Some? then lost.value else 0
  }

  function Sum(rs: seq<Report>, c: Counter): nat {
    if rs == [] then 0 else Shown(rs[0], c) + Sum(rs[1..], c)
  }

  function SumWrapping(rs: seq<Report>, c: Wrapping): nat {
    if rs == [] then 0 else ShownWrapping(rs[0], c) + SumWrapping(rs[1..], c)
  }

  /** No reading is below the last one before it. */
  ghost predicate Rising(prev: Snapshot, snaps: seq<Snapshot>, c: Counter)
    decreases |snaps|
  {
    snaps != [] ==>
      && (Read(prev, c).Some? && Read(snaps[0], c).Some? ==> Read(prev, c).value <= Read(snaps[0], c).value)
      && Rising(Advance(prev, snaps[0]), snaps[1..], c)
  }

  lemma OneStep(prev: Snapshot, now: Snapshot, c: Counter)
    requires Read(prev, c).Some?
    ensures Read(Advance(prev, now), c) == Or(Read(now, c), Read(prev, c))
    ensures Shown(ReportOf(prev, now), c) == if Read(now, c).Some? then D(Read(prev, c).value, Read(now, c).value)
              else 0
  {
  }

  /** Over any run, whatever goes unread, a counter's reported differences add up to its last reading
      less its first exactly when its readings never fall; otherwise they add up to more. */
  lemma {:induction false} ReportsAddUp(prev: Snapshot, snaps: seq<Snapshot>, c: Counter)
    requires Read(prev, c).Some?
    ensures Read(Last(prev, snaps), c).Some?
    ensures Sum(Reports(prev, snaps), c) >= Read(Last(prev, snaps), c).value - Read(prev, c).value
    ensures Sum(Reports(prev, snaps), c) == Read(Last(prev, snaps), c).value - Read(prev, c).value <==>
              Rising(prev, snaps, c)
    decreases |snaps|
  {
    hide Read, Shown, Advance, ReportOf;
    if snaps != [] {
      var next := Advance(prev, snaps[0]);
      OneStep(prev, snaps[0], c);
      ReportsAddUp(next, snaps[1..], c);
      assert Reports(prev, snaps)[1..] == Reports(next, snaps[1..]);
    }
  }

  /** From the start, where every counter is zero, the reports add up to the counter itself. */
  lemma FromStart(kernel: u64, unpaired: u64, late: u64, snaps: seq<Snapshot>, c: Counter)
    requires Rising(AtStart(kernel, unpaired, late), snaps, c) && !c.KernelQueueDrops?
    ensures var start := AtStart(kernel, unpaired, late);
            && Read(Last(start, snaps), c).Some? && Sum(Reports(start, snaps), c) == Read(Last(start, snaps), c).value
  {
    ReportsAddUp(AtStart(kernel, unpaired, late), snaps, c);
  }

  // The counters that wrap. `truth` is how much was really lost by each snapshot.

  ghost predicate Samples(snaps: seq<Snapshot>, truth: seq<nat>, c: Wrapping) {
    && |snaps| == |truth|
    && forall i | 0 <= i < |snaps| && ReadWrapping(snaps[i], c).Some? ::
         ReadWrapping(snaps[i], c).value == truth[i] % WRAP
  }

  /** What had really been lost by the last reading. */
  ghost function TrueLast(before: nat, snaps: seq<Snapshot>, truth: seq<nat>, c: Wrapping): nat
    requires |snaps| == |truth|
    decreases |snaps|
  {
    if snaps == [] then before
    else TrueLast(if ReadWrapping(snaps[0], c).Some? then truth[0] else before, snaps[1..], truth[1..], c)
  }

  /** Fewer than 2^32 are lost between two readings. */
  ghost predicate SmallSteps(before: nat, snaps: seq<Snapshot>, truth: seq<nat>, c: Wrapping)
    requires |snaps| == |truth|
    decreases |snaps|
  {
    snaps != [] ==>
      var now := if ReadWrapping(snaps[0], c).Some? then truth[0] else before;
      now - before < WRAP && SmallSteps(now, snaps[1..], truth[1..], c)
  }

  ghost predicate NeverFalls(before: nat, truth: seq<nat>) {
    && (forall i | 0 <= i < |truth| :: before <= truth[i])
    && (forall i, j | 0 <= i < j < |truth| :: truth[i] <= truth[j])
  }

  lemma Wraps(a: nat, b: nat)
    requires a <= b
    ensures D32(a % WRAP, b % WRAP) <= b - a && (D32(a % WRAP, b % WRAP) == b - a <==> b - a < WRAP)
  {
    var x, y := a % WRAP, b % WRAP;
    assert a == a / WRAP * WRAP + x && b == b / WRAP * WRAP + y;
    assert b - a == (b / WRAP - a / WRAP) * WRAP + (y - x);
  }

  lemma OneStepWrapping(prev: Snapshot, now: Snapshot, c: Wrapping)
    requires ReadWrapping(prev, c).Some?
    ensures ReadWrapping(Advance(prev, now), c) == Or(ReadWrapping(now, c), ReadWrapping(prev, c))
    ensures ShownWrapping(ReportOf(prev, now), c)
            == if ReadWrapping(now, c).Some? then D32(ReadWrapping(prev, c).value, ReadWrapping(now, c).value) else 0
  {
  }

  /** The wrapping counters' differences add up to what was really lost exactly when every step
      between two readings stays below 2^32; otherwise to less. */
  lemma {:induction false} WrappingAddsUp(prev: Snapshot, before: nat, snaps: seq<Snapshot>, truth: seq<nat>,
                                          c: Wrapping)
    requires Samples(snaps, truth, c) && NeverFalls(before, truth)
    requires ReadWrapping(prev, c).Some? && ReadWrapping(prev, c).value == before % WRAP
    ensures SumWrapping(Reports(prev, snaps), c) <= TrueLast(before, snaps, truth, c) - before
    ensures SumWrapping(Reports(prev, snaps), c) == TrueLast(before, snaps, truth, c) - before <==>
              SmallSteps(before, snaps, truth, c)
    decreases |snaps|
  {
    hide ReadWrapping, ShownWrapping, Advance, ReportOf, D32;
    if snaps != [] {
      var next := Advance(prev, snaps[0]);
      var now := if ReadWrapping(snaps[0], c).Some? then truth[0] else before;
      OneStepWrapping(prev, snaps[0], c);
      Wraps(before, now);
      WrappingAddsUp(next, now, snaps[1..], truth[1..], c);
      assert Reports(prev, snaps)[1..] == Reports(next, snaps[1..]);
    }
  }

  /** The unpaired figure is the sum of its two parts. */
  function SumUnpaired(rs: seq<Report>): nat {
    if rs == [] then 0 else rs[0].fileCleanupUnpaired + SumUnpaired(rs[1..])
  }

  ghost predicate UnpairedRises(prev: Snapshot, snaps: seq<Snapshot>)
    decreases |snaps|
  {
    snaps != [] ==>
      && prev.cleanupUnpaired <= snaps[0].cleanupUnpaired && prev.cleanupOutcomeLate <= snaps[0].cleanupOutcomeLate
      && UnpairedRises(Advance(prev, snaps[0]), snaps[1..])
  }

  lemma {:induction false} UnpairedAddsUp(prev: Snapshot, snaps: seq<Snapshot>)
    ensures var last := Last(prev, snaps);
            var all := (last.cleanupUnpaired + last.cleanupOutcomeLate)
                     - (prev.cleanupUnpaired + prev.cleanupOutcomeLate);
            SumUnpaired(Reports(prev, snaps)) >= all
                && (SumUnpaired(Reports(prev, snaps)) == all <==> UnpairedRises(prev, snaps))
    decreases |snaps|
  {
    if snaps != [] {
      UnpairedAddsUp(Advance(prev, snaps[0]), snaps[1..]);
      assert Reports(prev, snaps)[1..] == Reports(Advance(prev, snaps[0]), snaps[1..]);
    }
  }
}
