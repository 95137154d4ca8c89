/** What was deleted or dropped before it was delivered, as a gap report tells it. */
module Gaps {
  import opened Options
  import opened Framing
  import opened Time

  /** The time of a record, if it decodes. */
  type RecordTime = Payload -> Option<i64>

  /** How many records, and the first and the last time among them. */
  datatype Gap = Gap(records: nat, first: Option<i64>, last: Option<i64>)
  {
    function Add(time: Option<i64>): Gap {
      match time
      case None => this.(records := records + 1)
      case Some(t) =>
        Gap(records + 1, Some(if first.Some? && first.value <= t then first.value else t),
            Some(if last.Some? && last.value >= t then last.value else t))
    }
  }

  const NO_GAP := Gap(0, None, None)

  function AddAll(gap: Gap, time: RecordTime, ps: seq<Payload>): Gap
    decreases |ps|
  {
    if ps == [] then gap else AddAll(gap.Add(time(ps[0])), time, ps[1..])
  }

  /** A gap over these records: all are counted, its times are the least and the greatest of theirs, and
      there are none exactly if no record has one. */
  ghost predicate Tells(gap: Gap, time: RecordTime, ps: seq<Payload>) {
    && gap.records == |ps|
    && (gap.first == None <==> forall p | p in ps :: time(p) == None)
    && (gap.last == None <==> gap.first == None)
    && (gap.first.Some? ==>
          && (exists p :: p in ps && time(p) == gap.first) && (exists p :: p in ps && time(p) == gap.last)
          && forall p | p in ps && time(p).Some? :: gap.first.value <= time(p).value <= gap.last.value)
  }

  lemma OneTold(gap: Gap, time: RecordTime, ps: seq<Payload>, p: Payload)
    requires Tells(gap, time, ps)
    ensures Tells(gap.Add(time(p)), time, ps + [p])
  {
    var more := gap.Add(time(p));
    assert p in ps + [p] && forall x | x in ps :: x in ps + [p];
    if gap.first.Some? {
      var f :| f in ps && time(f) == gap.first;
      var l :| l in ps && time(l) == gap.last;
      assert f in ps + [p] && l in ps + [p];
    }
  }

  /** Adding records one by one tells of all of them. */
  lemma {:induction false} AllTold(gap: Gap, time: RecordTime, before: seq<Payload>, ps: seq<Payload>)
    requires Tells(gap, time, before)
    ensures Tells(AddAll(gap, time, ps), time, before + ps)
    decreases |ps|
  {
    if ps == [] {
      assert before + ps == before;
    } else {
      OneTold(gap, time, before, ps[0]);
      AllTold(gap.Add(time(ps[0])), time, before + [ps[0]], ps[1..]);
      assert before + [ps[0]] + ps[1..] == before + ps;
    }
  }

  /** From an empty gap on, whatever is added in whatever pieces. */
  lemma GapTells(time: RecordTime, before: seq<Payload>, ps: seq<Payload>)
    ensures AddAll(AddAll(NO_GAP, time, before), time, ps) == AddAll(NO_GAP, time, before + ps)
    ensures Tells(AddAll(NO_GAP, time, before + ps), time, before + ps)
  {
    AddAllJoined(NO_GAP, time, before, ps);
    AllTold(NO_GAP, time, [], before + ps);
    assert [] + (before + ps) == before + ps;
  }

  lemma {:induction false} AddAllJoined(gap: Gap, time: RecordTime, a: seq<Payload>, b: seq<Payload>)
    ensures AddAll(AddAll(gap, time, a), time, b) == AddAll(gap, time, a + b)
    decreases |a|
  {
    if a == [] {
      assert a + b == b;
    } else {
      AddAllJoined(gap.Add(time(a[0])), time, a[1..], b);
      assert (a + b)[1..] == a[1..] + b;
    }
  }

  lemma AddOne(gap: Gap, time: RecordTime, ps: seq<Payload>, p: Payload)
    ensures AddAll(gap, time, ps + [p]) == AddAll(gap, time, ps).Add(time(p))
  {
    AddAllJoined(gap, time, ps, [p]);
    assert [p][1..] == [];
  }
}
