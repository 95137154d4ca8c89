/** The writer's segments against what is on disk. */
module Segments {
  import opened Collections
  import opened Framing
  import opened Disk
  import opened Log

  datatype Segment = Segment(number: u64, len: nat)

  /** Bytes in all segments. */
  function Total(segs: seq<Segment>): nat {
    if segs == [] then 0 else Total(segs[..|segs| - 1]) + segs[|segs| - 1].len
  }

  lemma {:induction false} TotalConcat(a: seq<Segment>, b: seq<Segment>)
    ensures Total(a + b) == Total(a) + Total(b)
    decreases |b|
  {
    if b == [] {
      assert a + b == a;
    } else {
      assert (a + b)[..|a + b| - 1] == a + b[..|b| - 1];
      TotalConcat(a, b[..|b| - 1]);
    }
  }

  lemma TotalWithout(segs: seq<Segment>, i: nat)
    requires i < |segs|
    ensures Total(RemoveAt(segs, i)) == Total(segs) - segs[i].len
  {
    hide Total;
    assert segs == segs[..i] + ([segs[i]] + segs[i + 1..]);
    TotalConcat(segs[..i], [segs[i]] + segs[i + 1..]);
    TotalConcat([segs[i]], segs[i + 1..]);
    TotalConcat(segs[..i], segs[i + 1..]);
    TotalOne(segs[i]);
  }

  lemma TotalOne(s: Segment)
    ensures Total([s]) == s.len && Total([]) == 0
  {
    assert [s][..0] == [];
  }

  /** Without its last segment. */
  function Sealed(segs: seq<Segment>): seq<Segment>
    requires segs != []
  {
    segs[..|segs| - 1]
  }

  function Active(segs: seq<Segment>): Segment
    requires segs != []
  {
    segs[|segs| - 1]
  }

  predicate Small(segs: seq<Segment>, limit: nat) {
    forall i | 0 <= i < |segs| :: segs[i].len <= limit
  }

  lemma {:induction false} TotalSmall(segs: seq<Segment>, limit: nat)
    requires Small(segs, limit)
    ensures Total(segs) <= |segs| * limit
    decreases |segs|
  {
    if segs != [] {
      TotalSmall(segs[..|segs| - 1], limit);
    }
  }

  predicate Ascending(segs: seq<Segment>) {
    forall i, j | 0 <= i < j < |segs| :: segs[i].number < segs[j].number
  }

  function Numbers(segs: seq<Segment>): set<u64> {
    set i | 0 <= i < |segs| :: segs[i].number
  }

  /** The active segment on an undamaged disk: what is written is there, followed by nothing or by
      a torn piece of the promised records, which come next. */
  ghost predicate ActiveOnDisk(crc: Checksum, v: View, a: Segment, rs: seq<Payload>, promised: seq<Payload>) {
    a.number in v.files ==>
      && a.number in v.plan && v.plan[a.number] == rs + promised
      && (a.len > 0 ==> Content(crc, rs) <= v.files[a.number])
  }

  ghost predicate SealedOnDisk(v: View, segs: seq<Segment>, recs: map<u64, seq<Payload>>)
    requires segs != []
  {
    && (forall s | s in recs && s != Active(segs).number :: s in v.files && s in v.plan && v.plan[s] == recs[s])
    && (forall i | 0 <= i < |segs| - 1 :: segs[i].number in v.files && segs[i].len == |v.files[segs[i].number]|)
  }

  /** Files of earlier runs come before those of this one. */
  ghost predicate Ours(v: View, recs: map<u64, seq<Payload>>) {
    forall s, t | s in v.files && s !in recs && t in recs :: s < t
  }

  /** `recs`: the records written to each segment of this run; `promised`: how many of the queued
      records the active segment is already committed to. */
  ghost predicate OnDisk(crc: Checksum, v: View, segs: seq<Segment>, recs: map<u64, seq<Payload>>,
                         queue: seq<Payload>, promised: nat, limit: nat)
  {
    && segs != [] && Ascending(segs)
    && var a := Active(segs);
    && a.number in recs && v.current == a.number
    && Ours(v, recs)
    && (forall s | s in v.files :: s <= a.number)
    && (forall i | 0 <= i < |segs| - 1 :: segs[i].number in v.files)
    && (a.len == 0 ==> recs[a.number] == [] && promised == 0)
    && (a.len > 0 ==> a.number in v.files && a.len == |Content(crc, recs[a.number])|)
    && promised <= Batch(queue, a.len, limit)
    && (!v.damaged ==> ActiveOnDisk(crc, v, a, recs[a.number], queue[..promised]) && SealedOnDisk(v, segs, recs))
  }

  /** The active file is open and holds nothing but what was written. */
  ghost predicate Clean(crc: Checksum, v: View, segs: seq<Segment>, recs: map<u64, seq<Payload>>) {
    && segs != []
    && var a := Active(segs);
    && a.len > 0 && a.number in v.files && a.number in recs
    && (!v.damaged ==> v.files[a.number] == Content(crc, recs[a.number]))
  }

  lemma OpenedOnDisk(crc: Checksum, v: View, w: View, segs: seq<Segment>, recs: map<u64, seq<Payload>>,
                     queue: seq<Payload>, promised: nat, limit: nat)
    requires OnDisk(crc, v, segs, recs, queue, promised, limit)
    requires w.damaged == v.damaged && w.current == v.current
    requires var a := Active(segs).number;
             || (w.files == v.files && w.plan == v.plan)
             || (a !in v.files && w.files == v.files[a := []] && w.plan == v.plan[a := []])
    ensures OnDisk(crc, w, segs, recs, queue, promised, limit)
  {
    hide Content, Batch;
    var a := Active(segs);
    assert a.len == 0 ==> recs[a.number] + queue[..promised] == [];
  }

  /** Cutting the active file at its last good length removes the torn bytes. */
  lemma CutOnDisk(crc: Checksum, v: View, w: View, segs: seq<Segment>, recs: map<u64, seq<Payload>>,
                  queue: seq<Payload>, promised: nat, limit: nat)
    requires OnDisk(crc, v, segs, recs, queue, promised, limit) && Active(segs).number in v.files
    requires var a := Active(segs); w == v.(files := v.files[a.number := Resized(v.files[a.number], a.len)])
    ensures OnDisk(crc, w, segs, recs, queue, promised, limit)
    ensures Active(segs).len > 0 ==> Clean(crc, w, segs, recs)
  {
    hide Content, Batch;
    var a := Active(segs);
    if !v.damaged && a.len > 0 {
      assert Content(crc, recs[a.number]) <= v.files[a.number];
      assert w.files[a.number] == Content(crc, recs[a.number]);
    }
  }

  /** More bytes at the end of the active file leave what was written as it was. */
  lemma TornOnDisk(crc: Checksum, v: View, w: View, segs: seq<Segment>, recs: map<u64, seq<Payload>>,
                   queue: seq<Payload>, promised: nat, limit: nat, data: seq<byte>)
    requires OnDisk(crc, v, segs, recs, queue, promised, limit) && Active(segs).number in v.files
    requires var a := Active(segs).number; w == v.(files := v.files[a := v.files[a] + data])
    ensures OnDisk(crc, w, segs, recs, queue, promised, limit)
  {
    hide Content, Batch;
    var a := Active(segs);
    if !v.damaged && a.len > 0 {
      assert Content(crc, recs[a.number]) <= v.files[a.number] <= w.files[a.number];
    }
  }

  /** A new segment's header is written. */
  lemma HeaderOnDisk(crc: Checksum, v: View, segs: seq<Segment>, segs': seq<Segment>, recs: map<u64, seq<Payload>>,
                     queue: seq<Payload>, limit: nat)
    requires OnDisk(crc, v, segs, recs, queue, 0, limit) && Active(segs).len == 0 && Active(segs).number in v.files
    requires v.files[Active(segs).number] == SEGMENT_MAGIC
    requires segs' == segs[|segs| - 1 := Segment(Active(segs).number, SEGMENT_HEADER)]
    ensures OnDisk(crc, v, segs', recs, queue, 0, limit) && Clean(crc, v, segs', recs)
  {
    hide Frames, Batch;
    FramesOfNone(crc);
    assert Content(crc, []) == SEGMENT_MAGIC;
  }

  /** The next batch is promised before it is written. */
  lemma PromisedOnDisk(crc: Checksum, v: View, w: View, segs: seq<Segment>, recs: map<u64, seq<Payload>>,
                       queue: seq<Payload>, promised: nat, limit: nat)
    requires OnDisk(crc, v, segs, recs, queue, promised, limit) && Clean(crc, v, segs, recs)
    requires var a := Active(segs); var n := Batch(queue, a.len, limit);
             promised <= n && w == v.(plan := Committed(v.plan, a.number, queue[promised..n]))
    ensures OnDisk(crc, w, segs, recs, queue, Batch(queue, Active(segs).len, limit), limit) && Clean(crc, w, segs, recs)
  {
    hide Content, Batch;
    var a := Active(segs);
    var n := Batch(queue, a.len, limit);
    assert queue[..n] == queue[..promised] + queue[promised..n];
  }

  /** The promised batch was written. */
  lemma WrittenOnDisk(crc: Checksum, v: View, w: View, segs: seq<Segment>, segs': seq<Segment>,
                      recs: map<u64, seq<Payload>>, queue: seq<Payload>, n: nat, limit: nat)
    requires OnDisk(crc, v, segs, recs, queue, n, limit) && Clean(crc, v, segs, recs) && n <= |queue|
    requires var a := Active(segs);
             && w == v.(files := v.files[a.number := v.files[a.number] + Frames(crc, queue[..n])])
             && segs' == segs[|segs| - 1 := Segment(a.number, a.len + |Frames(crc, queue[..n])|)]
    ensures var recs' := recs[Active(segs).number := recs[Active(segs).number] + queue[..n]];
            && OnDisk(crc, w, segs', recs', queue[n..], 0, limit) && Clean(crc, w, segs', recs')
  {
    hide Frames, Content, Batch;
    var a := Active(segs);
    ContentConcat(crc, recs[a.number], queue[..n]);
    assert queue[n..][..0] == [];
    assert forall rs: seq<Payload> :: rs + [] == rs;
  }

  /** The next segment comes after one that holds all that was planned for it. */
  lemma RotatedOnDisk(crc: Checksum, v: View, w: View, segs: seq<Segment>, recs: map<u64, seq<Payload>>,
                      queue: seq<Payload>, limit: nat, b: u64)
    requires OnDisk(crc, v, segs, recs, queue, 0, limit) && Clean(crc, v, segs, recs)
    requires Active(segs).number < b && w == v.(current := b)
    ensures OnDisk(crc, w, segs + [Segment(b, 0)], recs[b := []], queue, 0, limit)
  {
    hide Content, Batch;
    ActivePlanned(crc, v, segs, recs, queue, limit);
  }

  lemma ActivePlanned(crc: Checksum, v: View, segs: seq<Segment>, recs: map<u64, seq<Payload>>, queue: seq<Payload>,
                      limit: nat)
    requires OnDisk(crc, v, segs, recs, queue, 0, limit) && Clean(crc, v, segs, recs)
    ensures var a := Active(segs);
            && a.number == v.current && a.number in v.files && a.number in recs
            && (!v.damaged ==> && a.number in v.plan && v.plan[a.number] == recs[a.number]
                               && v.files[a.number] == Content(crc, recs[a.number])
                               && |v.files[a.number]| == a.len)
  {
    hide Content, Batch;
    var a := Active(segs);
    assert queue[..0] == [] && recs[a.number] + [] == recs[a.number];
  }

  /** A segment other than the active one goes. */
  lemma RemovedOnDisk(crc: Checksum, v: View, w: View, segs: seq<Segment>, i: nat, recs: map<u64, seq<Payload>>,
                      queue: seq<Payload>, promised: nat, limit: nat)
    requires OnDisk(crc, v, segs, recs, queue, promised, limit) && i < |segs| - 1
    requires w.files == v.files && w.plan == v.plan && w.damaged == v.damaged && w.current == v.current
    ensures OnDisk(crc, w, RemoveAt(segs, i), recs, queue, promised, limit)
    ensures Active(RemoveAt(segs, i)) == Active(segs)
    ensures Clean(crc, v, segs, recs) ==> Clean(crc, w, RemoveAt(segs, i), recs)
  {
    hide Frames, Content, Batch;
    var segs' := RemoveAt(segs, i);
    assert forall j | 0 <= j < |segs'| :: segs'[j] == if j < i then segs[j] else segs[j + 1];
  }

  lemma QueuedOnDisk(crc: Checksum, v: View, segs: seq<Segment>, recs: map<u64, seq<Payload>>, queue: seq<Payload>,
                     promised: nat, limit: nat, p: Payload)
    requires OnDisk(crc, v, segs, recs, queue, promised, limit)
    ensures OnDisk(crc, v, segs, recs, queue + [p], promised, limit)
  {
    hide Frames, Content, Batch;
    BatchGrows(queue, [p], Active(segs).len, limit);
    assert (queue + [p])[..promised] == queue[..promised];
  }

  lemma DroppedOnDisk(crc: Checksum, v: View, segs: seq<Segment>, recs: map<u64, seq<Payload>>, queue: seq<Payload>,
                      limit: nat)
    requires OnDisk(crc, v, segs, recs, queue, 0, limit)
    ensures OnDisk(crc, v, segs, recs, [], 0, limit)
  {
    hide Frames, Content;
    assert queue[..0] == [];
  }

  /** When the active file may be cut, given a header and written to. */
  lemma CutAllowed(crc: Checksum, v: View, segs: seq<Segment>, recs: map<u64, seq<Payload>>, queue: seq<Payload>,
                   promised: nat, limit: nat)
    requires OnDisk(crc, v, segs, recs, queue, promised, limit) && Active(segs).number in v.files
    ensures var a := Active(segs); a.number == v.current && (v.damaged || a.len <= |v.files[a.number]|)
  {
    hide Content, Batch;
  }

  lemma HeaderAllowed(crc: Checksum, v: View, segs: seq<Segment>, recs: map<u64, seq<Payload>>, queue: seq<Payload>,
                      promised: nat, limit: nat)
    requires OnDisk(crc, v, segs, recs, queue, promised, limit) && Active(segs).number in v.files
    requires Active(segs).len == 0 && v.files[Active(segs).number] == []
    ensures promised == 0 && Active(segs).number == v.current
    ensures var a := Active(segs).number;
            v.damaged || (a in v.plan && v.files[a] + SEGMENT_MAGIC <= Content(crc, v.plan[a]))
  {
    hide Frames, Batch;
    FramesOfNone(crc);
  }

  lemma BatchAllowed(crc: Checksum, v: View, segs: seq<Segment>, recs: map<u64, seq<Payload>>, queue: seq<Payload>,
                     n: nat, limit: nat)
    requires OnDisk(crc, v, segs, recs, queue, n, limit) && Clean(crc, v, segs, recs) && n <= |queue|
    ensures var a := Active(segs).number;
            v.damaged || (a in v.plan && v.files[a] + Frames(crc, queue[..n]) <= Content(crc, v.plan[a]))
  {
    hide Frames, Content, Batch;
    ContentConcat(crc, recs[Active(segs).number], queue[..n]);
  }

  /** A sealed segment of the run is exactly its records. */
  lemma SealedFile(crc: Checksum, v: View, segs: seq<Segment>, recs: map<u64, seq<Payload>>, queue: seq<Payload>,
                   promised: nat, limit: nat, s: u64)
    requires Sound(crc, v) && !v.damaged && OnDisk(crc, v, segs, recs, queue, promised, limit)
    requires s in recs && s != Active(segs).number
    ensures s in v.files && v.files[s] == Content(crc, recs[s])
  {
    hide Content, Batch;
    var a := Active(segs).number;
    assert FileSound(crc, v, s);
    assert s <= a;
  }

  /** The active segment is its records followed by a piece of what is queued. */
  lemma ActiveFile(crc: Checksum, v: View, segs: seq<Segment>, recs: map<u64, seq<Payload>>, queue: seq<Payload>,
                   promised: nat, limit: nat)
    requires Sound(crc, v) && !v.damaged && OnDisk(crc, v, segs, recs, queue, promised, limit)
    requires Active(segs).len > 0
    ensures var a := Active(segs);
            && a.number in v.files && a.number in recs && a.len == |Content(crc, recs[a.number])|
            && Content(crc, recs[a.number]) <= v.files[a.number] <= Content(crc, recs[a.number]) + Frames(crc, queue)
  {
    hide Content, Frames, Batch, FileSound;
    var a := Active(segs);
    var rs := recs[a.number];
    FileWithinPlan(crc, v, a.number);
    PromiseWithinQueue(crc, rs, queue, promised);
  }

  lemma FileWithinPlan(crc: Checksum, v: View, s: u64)
    requires Sound(crc, v) && !v.damaged && s in v.files
    ensures s in v.plan && v.files[s] <= Content(crc, v.plan[s])
  {
    hide Content;
    assert FileSound(crc, v, s);
  }

  lemma PromiseWithinQueue(crc: Checksum, rs: seq<Payload>, queue: seq<Payload>, n: nat)
    requires n <= |queue|
    ensures Content(crc, rs + queue[..n]) <= Content(crc, rs) + Frames(crc, queue)
  {
    hide Content, Frames;
    var promised := queue[..n];
    ContentConcat(crc, rs, promised);
    QueueSplits(crc, queue, n);
    StartsWith(Content(crc, rs), Frames(crc, promised), Frames(crc, queue[n..]));
  }

  lemma QueueSplits(crc: Checksum, queue: seq<Payload>, n: nat)
    requires n <= |queue|
    ensures Frames(crc, queue) == Frames(crc, queue[..n]) + Frames(crc, queue[n..])
  {
    hide Frames;
    FramesConcat(crc, queue[..n], queue[n..]);
    assert queue == queue[..n] + queue[n..];
  }

  lemma StartsWith(a: seq<byte>, b: seq<byte>, c: seq<byte>)
    ensures a + b <= a + (b + c)
  {
    assert a + (b + c) == (a + b) + c;
  }
}
