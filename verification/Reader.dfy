/** A reader of a log that is being written.

    Between any two steps of the reader (a listing, an open, the read of a header, the read of a
    payload) the writer may have done anything: appends, torn and truncated writes, retries,
    rotations, deletions. */
module Reader {
  import opened Options
  import opened Framing
  import opened Disk

  /** Where a reader stands, and what it has behind it.
      - `first`: the segment it started in;
      - `k`: how many records of the current segment are before it;
      - `read`: how many it had behind it in each earlier segment it was in;
      - `taken`: these records, in order. */
  datatype Place = Place(first: u64, pos: Cursor, file: bool, k: nat, read: map<u64, nat>, taken: seq<Payload>)

  /** What was behind the reader in earlier segments stays so. */
  ghost predicate StillBehind(was: map<u64, nat>, now: map<u64, nat>, segment: u64) {
    forall s: u64 | s < segment :: Count(now, s) == Count(was, s)
  }

  /** The records taken from one earlier segment. */
  function Part(plan: map<u64, seq<Payload>>, read: map<u64, nat>, s: nat): seq<Payload> {
    if s in read && s in plan && read[s] <= |plan[s]| then plan[s][..read[s]] else []
  }

  /** The records taken from all segments before `n`, in segment order. */
  function Parts(plan: map<u64, seq<Payload>>, read: map<u64, nat>, n: nat): seq<Payload> {
    if n == 0 then [] else Parts(plan, read, n - 1) + Part(plan, read, n - 1)
  }

  function Offset(crc: Checksum, ps: seq<Payload>, k: nat): nat
    requires k <= |ps|
  {
    |Content(crc, ps[..k])|
  }

  function Count(read: map<u64, nat>, s: u64): nat {
    if s in read then read[s] else 0
  }

  /** Between two records, at the start of a segment not opened yet, or past the end of one. */
  ghost predicate AtBoundary(crc: Checksum, v: View, p: Place) {
    || (p.pos.offset == 0 && p.k == 0 && !p.file)
    || Between(crc, v, p)
    || PastEnd(crc, v, p)
  }

  ghost predicate Between(crc: Checksum, v: View, p: Place) {
    var s := p.pos.segment;
    s in v.plan && p.k <= |v.plan[s]| && p.pos.offset == Offset(crc, v.plan[s], p.k)
  }

  /** In or past a segment that is final and shorter: where a stored cursor can be after a power cut. */
  ghost predicate PastEnd(crc: Checksum, v: View, p: Place) {
    var s := p.pos.segment;
    && s < v.current
    && (if s in v.plan then p.k == |v.plan[s]| && p.pos.offset >= |Content(crc, v.plan[s])| else p.k == 0 && !p.file)
  }

  /** The reader stands at a boundary, every segment it has left is used up or was deleted, and what
      is behind it is exactly what the earlier parts of the log hold. */
  ghost predicate Follows(crc: Checksum, v: View, p: Place) {
    && (p.file ==> p.pos.segment in v.files)
    && (!v.damaged ==>
          && p.first <= p.pos.segment <= v.current
          && AtBoundary(crc, v, p)
          && (forall s | s in p.read :: p.first <= s < p.pos.segment)
          && (forall s | s in v.files && p.first <= s < p.pos.segment :: UsedUp(v, p, s))
          && p.taken == Parts(v.plan, p.read, p.pos.segment) + Current(v, p))
  }

  ghost predicate UsedUp(v: View, p: Place, s: u64)
    requires s in v.files
  {
    s in v.plan && Count(p.read, s) <= |v.plan[s]| && (Count(p.read, s) == |v.plan[s]| || s !in v.listed)
  }

  ghost function Current(v: View, p: Place): seq<Payload> {
    Part(v.plan, p.read[p.pos.segment := p.k], p.pos.segment)
  }

  lemma {:induction false} PartsAgree(plan: map<u64, seq<Payload>>, read: map<u64, nat>,
                                      plan': map<u64, seq<Payload>>, read': map<u64, nat>, n: nat)
    requires forall s :: 0 <= s < n ==> Part(plan, read, s) == Part(plan', read', s)
    ensures Parts(plan, read, n) == Parts(plan', read', n)
  {
    if n > 0 {
      PartsAgree(plan, read, plan', read', n - 1);
    }
  }

  lemma {:induction false} PartsSkip(plan: map<u64, seq<Payload>>, read: map<u64, nat>, m: nat, n: nat)
    requires m <= n
    requires forall s | s in read :: s < m
    ensures Parts(plan, read, n) == Parts(plan, read, m)
    decreases n
  {
    if m < n {
      PartsSkip(plan, read, m, n - 1);
    }
  }

  lemma PartsStep(plan: map<u64, seq<Payload>>, read: map<u64, nat>, n: nat)
    ensures Parts(plan, read, n + 1) == Parts(plan, read, n) + Part(plan, read, n)
  {
  }

  /** The segments before the reader are final, and stay as they are. */
  lemma EarlierStay(crc: Checksum, v: View, w: View, seg: u64, s: u64)
    requires Evolves(crc, v, w) && !w.damaged && s < seg <= v.current
    ensures s in w.files <==> s in v.files
    ensures s in v.files ==> s in v.plan && s in w.plan && w.plan[s] == v.plan[s] && (s in w.listed ==> s in v.listed)
  {
    hide Content, Sound;
    assert s in v.files ==> FileKept(v, w, s);
  }

  /** The current segment only grows after what was taken from it. */
  lemma CurrentStays(crc: Checksum, v: View, w: View, p: Place)
    requires Sound(crc, v) && Evolves(crc, v, w) && !w.damaged && AtBoundary(crc, v, p)
    ensures AtBoundary(crc, w, p) && Current(v, p) == Current(w, p)
  {
    hide Content, Frames;
    var seg := p.pos.segment;
    if seg in v.plan {
      assert FileKept(v, w, seg);
      assert p.k <= |v.plan[seg]| ==> v.plan[seg][..p.k] == w.plan[seg][..p.k];
    }
  }

  lemma EarlierPartsStay(crc: Checksum, v: View, w: View, p: Place)
    requires Sound(crc, v) && Evolves(crc, v, w) && !w.damaged && p.pos.segment <= v.current
    requires forall s | s in v.files && p.first <= s < p.pos.segment :: UsedUp(v, p, s)
    ensures forall s | s in w.files && p.first <= s < p.pos.segment :: UsedUp(w, p, s)
    ensures Parts(v.plan, p.read, p.pos.segment) == Parts(w.plan, p.read, p.pos.segment)
  {
    hide Content, Frames, Parts, FileSound, FileKept, Evolves;
    EvolvesSound(crc, v, w);
    EveryFilePlanned(crc, v);
    EveryFilePlanned(crc, w);
    forall s: u64 | s < p.pos.segment
      ensures Part(v.plan, p.read, s) == Part(w.plan, p.read, s)
      ensures s in w.files && p.first <= s ==> UsedUp(w, p, s)
    {
      EarlierStay(crc, v, w, p.pos.segment, s);
      assert s in v.files && p.first <= s ==> UsedUp(v, p, s);
    }
    PartsAgree(v.plan, p.read, w.plan, p.read, p.pos.segment);
  }

  /** Whatever the writer does, the reader's place stays good: nothing it took is contradicted. */
  lemma Stable(crc: Checksum, v: View, w: View, p: Place)
    requires Sound(crc, v) && Evolves(crc, v, w) && Follows(crc, v, p)
    ensures Follows(crc, w, p)
  {
    hide Content, Frames, Parts, Part, UsedUp, AtBoundary, Sound, FileKept, Current;
    EvolvesSound(crc, v, w);
    if !w.damaged {
      CurrentStays(crc, v, w, p);
      EarlierPartsStay(crc, v, w, p);
    }
  }

  /** The place after giving up on the current segment. */
  ghost function Moved(v: View, p: Place, n: u64): Place {
    p.(pos := Cursor(n, 0), file := false, k := 0,
       read := if p.pos.segment in v.files then p.read[p.pos.segment := p.k] else p.read)
  }

  /** Moving on to a later segment loses nothing but deleted segments. */
  lemma MoveOn(crc: Checksum, v: View, p: Place, n: u64)
    requires Sound(crc, v) && Follows(crc, v, p) && p.pos.segment < n
    requires !v.damaged ==> n <= v.current
    requires !v.damaged ==> forall s | s in v.files && p.pos.segment <= s < n ::
                              s !in v.listed || (s == p.pos.segment && s in v.plan && p.k == |v.plan[s]|)
    ensures Follows(crc, v, Moved(v, p, n))
  {
    hide Content, Frames, Parts, Part, Sound, UsedUp, Current;
    if !v.damaged {
      EveryFilePlanned(crc, v);
      MoveKeepsTakenAt(v, p, n);
      MovePastUsed(crc, v, p, n);
      MoveKeepsTaken(v, p, n);
    }
  }

  lemma EveryFilePlanned(crc: Checksum, v: View)
    requires Sound(crc, v) && !v.damaged
    ensures v.plan.Keys == v.files.Keys
  {
  }

  lemma MovePastUsed(crc: Checksum, v: View, p: Place, n: u64)
    requires Sound(crc, v) && !v.damaged && AtBoundary(crc, v, p)
    requires forall s | s in p.read :: p.first <= s < p.pos.segment
    requires forall s | s in v.files && p.first <= s < p.pos.segment :: UsedUp(v, p, s)
    requires forall s | s in v.files && p.pos.segment <= s < n ::
               s !in v.listed || (s == p.pos.segment && s in v.plan && p.k == |v.plan[s]|)
    ensures forall s | s in v.files && p.first <= s < n :: UsedUp(v, Moved(v, p, n), s)
  {
    hide Content, Frames;
    forall s | s in v.files && p.first <= s < n
      ensures UsedUp(v, Moved(v, p, n), s)
    {
      assert s < p.pos.segment ==> UsedUp(v, p, s);
    }
  }

  lemma MoveKeepsTakenAt(v: View, p: Place, n: u64)
    requires p.pos.segment < n
    requires forall s | s in p.read :: p.first <= s < p.pos.segment
    ensures Current(v, Moved(v, p, n)) == []
  {
  }

  lemma MoveKeepsTaken(v: View, p: Place, n: u64)
    requires p.pos.segment < n && v.plan.Keys == v.files.Keys
    requires forall s | s in p.read :: p.first <= s < p.pos.segment
    requires p.pos.segment in v.files || p.k == 0
    ensures Parts(v.plan, Moved(v, p, n).read, n) == Parts(v.plan, p.read, p.pos.segment) + Current(v, p)
  {
    hide Parts;
    var seg, read := p.pos.segment, Moved(v, p, n).read;
    PartsSkip(v.plan, read, seg + 1, n);
    PartsStep(v.plan, read, seg);
    PartsAgree(v.plan, p.read, v.plan, read, seg);
  }

  /** What was read at the reader's offset: a piece of the next records, and all of it once the file is
      complete. */
  lemma ReadOfPlan(crc: Checksum, ps: seq<Payload>, k: nat, data: seq<byte>, skip: nat, n: nat, got: seq<byte>)
    requires k <= |ps| && data <= Content(crc, ps) && skip <= |Frames(crc, ps[k..])|
    requires PieceRead(crc, ps, data, Offset(crc, ps, k) + skip, n, got)
    ensures got <= Frames(crc, ps[k..])[skip..]
    ensures data == Content(crc, ps) && skip + n <= |Frames(crc, ps[k..])| ==> |got| == n
  {
    hide Frames;
    FramesConcat(crc, ps[..k], ps[k..]);
    assert ps == ps[..k] + ps[k..];
    var at := Offset(crc, ps, k);
    assert Content(crc, ps) == Content(crc, ps[..k]) + Frames(crc, ps[k..]);
    assert Content(crc, ps)[at + skip..] == Frames(crc, ps[k..])[skip..];
    assert got == Content(crc, ps)[at + skip..][..|got|];
  }

  /** Bytes of the plan, up to `n` or to where the file ends. */
  ghost predicate PieceRead(crc: Checksum, ps: seq<Payload>, data: seq<byte>, offset: nat, n: nat, got: seq<byte>) {
    |got| <= n && got == Slice(Content(crc, ps), offset, |got|) && (|got| < n ==> |data| <= offset + |got|)
  }

  lemma FirstFrame(crc: Checksum, ps: seq<Payload>, k: nat)
    requires k <= |ps|
    ensures k == |ps| ==> Frames(crc, ps[k..]) == []
    ensures k < |ps| ==> Frame(crc, ps[k]) <= Frames(crc, ps[k..])
  {
    assert k < |ps| ==> ps[k..][0] == ps[k];
  }

  lemma OffsetStep(crc: Checksum, ps: seq<Payload>, k: nat)
    requires k < |ps|
    ensures Offset(crc, ps, k + 1) == Offset(crc, ps, k) + RECORD_HEADER + |ps[k]|
  {
    assert ps[..k + 1] == ps[..k] + [ps[k]];
    FramesConcat(crc, ps[..k], [ps[k]]);
    assert Frames(crc, [ps[k]]) == Frame(crc, ps[k]) + Frames(crc, []);
  }

  /** A header read at a record boundary is the next record's, or there is no next record yet. */
  lemma HeaderRead(crc: Checksum, ps: seq<Payload>, k: nat, data: seq<byte>, head: seq<byte>)
    requires k <= |ps| && data <= Content(crc, ps)
    requires PieceRead(crc, ps, data, Offset(crc, ps, k), RECORD_HEADER, head)
    ensures k == |ps| ==> head == []
    ensures k < |ps| ==> head <= Frame(crc, ps[k])[..RECORD_HEADER]
    ensures k < |ps| && data == Content(crc, ps) ==> |head| == RECORD_HEADER
    ensures k < |ps| && |head| == RECORD_HEADER ==> FromLe32(head[..4]) == |ps[k]| && Parse(crc, head, 0) == Incomplete
  {
    FirstFrame(crc, ps, k);
    ReadOfPlan(crc, ps, k, data, 0, RECORD_HEADER, head);
    if k < |ps| {
      var f := Frame(crc, ps[k]);
      assert head <= f;
      if |head| == RECORD_HEADER {
        assert head == f[..RECORD_HEADER];
        assert f[..4] == ToLe32(|ps[k]|);
        assert head[..4] == f[..4];
        assert head[0..] == f[..RECORD_HEADER];
        ParseTorn(crc, head, 0, ps[k], RECORD_HEADER);
      }
    }
  }

  /** The payload read after the next record's header is a piece of that payload. */
  lemma PayloadRead(crc: Checksum, ps: seq<Payload>, k: nat, data: seq<byte>, body: seq<byte>)
    requires k < |ps| && data <= Content(crc, ps)
    requires PieceRead(crc, ps, data, Offset(crc, ps, k) + RECORD_HEADER, |ps[k]|, body)
    ensures body <= ps[k]
    ensures data == Content(crc, ps) ==> body == ps[k]
  {
    FirstFrame(crc, ps, k);
    ReadOfPlan(crc, ps, k, data, RECORD_HEADER, |ps[k]|, body);
    var f := Frame(crc, ps[k]);
    assert f[RECORD_HEADER..] == ps[k];
    assert Frames(crc, ps[k..])[RECORD_HEADER..][..|ps[k]|] == ps[k];
  }

  /** The place after taking the next record of the current segment. */
  ghost function Took(p: Place, payload: Payload): Place {
    p.(pos := Cursor(p.pos.segment, p.pos.offset + RECORD_HEADER + |payload|), k := p.k + 1,
        taken := p.taken + [payload])
  }

  lemma TakeNext(crc: Checksum, v: View, p: Place, payload: Payload)
    requires Sound(crc, v) && Follows(crc, v, p) && p.file
    requires !v.damaged ==>
               && p.pos.segment in v.plan && p.k < |v.plan[p.pos.segment]|
               && payload == v.plan[p.pos.segment][p.k]
    ensures Follows(crc, v, Took(p, payload))
  {
    hide Content, Frames, Parts, Sound;
    if !v.damaged {
      var ps := v.plan[p.pos.segment];
      OffsetStep(crc, ps, p.k);
      assert ps[..p.k + 1] == ps[..p.k] + [ps[p.k]];
      assert Current(v, Took(p, payload)) == Current(v, p) + [payload];
    }
  }

  datatype Step =
    | Got(at: Cursor, next: Cursor, payload: Payload)
    | End
    | Bad
    | Error

  datatype Next =
    | Delivered(at: Cursor, next: Cursor, payload: Payload)
    | CaughtUp
    | IoError

  /** No whole record lies at the position, or the segment was deleted. */
  ghost predicate Lacking(crc: Checksum, v: View, pos: Cursor) {
    pos.segment in v.listed && pos.segment in v.files ==>
      !Parse(crc, v.files[pos.segment], if pos.offset < SEGMENT_HEADER then SEGMENT_HEADER else pos.offset).Record?
  }

  /** The segment has nothing after the position. */
  ghost predicate FileEnds(v: View, pos: Cursor) {
    pos.segment in v.files && |v.files[pos.segment]| <= pos.offset
  }

  /** No segment comes after the position. */
  ghost predicate Newest(v: View, n: u64) {
    forall s | s in v.listed :: s <= n
  }

  ghost predicate Lacked(crc: Checksum, run: seq<View>, i: nat, j: nat, pos: Cursor) {
    exists t :: i <= t <= j && t < |run| && Lacking(crc, run[t], pos)
  }

  /** The reader has caught up between the instants `i` and `j`: at one of them nothing more could be
      read at the position, and at one of them there was no later segment. */
  ghost predicate Caught(crc: Checksum, run: seq<View>, i: nat, j: nat, pos: Cursor) {
    && Lacked(crc, run, i, j, pos)
    && exists t :: i <= t <= j && t < |run| && Newest(run[t], pos.segment)
  }

  lemma Widen(crc: Checksum, run: seq<View>, i: nat, j: nat, i': nat, j': nat, pos: Cursor)
    requires i' <= i && j <= j'
    ensures Lacked(crc, run, i, j, pos) ==> Lacked(crc, run, i', j', pos)
    ensures Caught(crc, run, i, j, pos) ==> Caught(crc, run, i', j', pos)
  {
    hide Lacking, Newest;
  }

  lemma LackedAt(crc: Checksum, run: seq<View>, i: nat, t: nat, pos: Cursor)
    requires i <= t < |run| && Lacking(crc, run[t], pos)
    ensures Lacked(crc, run, i, t, pos)
  {
    hide Lacking;
  }

  lemma CaughtAt(crc: Checksum, run: seq<View>, i: nat, t: nat, j: nat, pos: Cursor)
    requires Lacked(crc, run, i, j, pos) && i <= t <= j && t < |run| && Newest(run[t], pos.segment)
    ensures Caught(crc, run, i, j, pos)
  {
    hide Lacked, Newest;
  }

  /** Where a reader may start: the start of the log, a position a reader was at, or a cursor stored
      before a power cut that lost what it points at. `k`: how many records of the segment are before
      it. */
  ghost predicate Standing(crc: Checksum, v: View, from: Cursor, k: nat) {
    v.damaged || (from.segment <= v.current && AtBoundary(crc, v, Place(from.segment, from, false, k, map[], [])))
  }

  class LogReader {
    const dir: Sight
    var pos: Cursor
    var file: bool
    /** Sealed segments that were left before their end, as corrupt. */
    var corruptSegments: nat

    ghost const first: u64
    /** The records of the first segment that lie before the start position. */
    ghost const before: seq<Payload>
    ghost var k: nat
    ghost var read: map<u64, nat>
    /** The records delivered. */
    ghost var taken: seq<Payload>

    ghost function Here(): Place
      reads this
    {
      Place(first, pos, file, k, read, before + taken)
    }

    ghost predicate Valid()
      reads this, dir, dir.log`history
    {
      && dir.Valid()
      && Follows(dir.log.crc, dir.Now(), Here())
      && (!dir.Now().damaged ==> corruptSegments == 0)
    }

    /** A reader positioned at `from`. */
    constructor (dir: Sight, from: Cursor, ghost k: nat)
      requires dir.Valid() && Standing(dir.log.crc, dir.Now(), from, k)
      ensures Valid() && this.dir == dir && pos == from && corruptSegments == 0
      ensures taken == [] && first == from.segment && this.k == k
      ensures !dir.Now().damaged ==> before == Part(dir.Now().plan, map[from.segment := k], from.segment)
    {
      hide Content, Frames, Ordered;
      this.dir, this.pos, this.file, this.corruptSegments := dir, from, false, 0;
      this.first, this.k, this.read, this.taken := from.segment, k, map[], [];
      this.before := Part(dir.Now().plan, map[from.segment := k], from.segment);
      PartsSkip(dir.Now().plan, map[], 0, from.segment);
      EmptyPlace(dir.log.crc, dir.Now(), from, k, Part(dir.Now().plan, map[from.segment := k], from.segment));
    }

    /** What a place was good for at an instant it is good for later. */
    lemma Later(i: nat, p: Place)
      requires dir.Valid() && i <= dir.at && Follows(dir.log.crc, dir.log.history[i], p)
      ensures Follows(dir.log.crc, dir.Now(), p)
      ensures Sound(dir.log.crc, dir.log.history[i]) && Sound(dir.log.crc, dir.Now())
      ensures Evolves(dir.log.crc, dir.log.history[i], dir.Now())
      ensures dir.log.history[i].damaged ==> dir.Now().damaged
      ensures dir.log.history[i].files.Keys <= dir.Now().files.Keys
      ensures !dir.Now().damaged ==> dir.log.history[i].current <= dir.Now().current
    {
      hide Follows, Sound, FileKept;
      dir.Since(i);
      Stable(dir.log.crc, dir.log.history[i], dir.Now(), p);
      EvolvesSound(dir.log.crc, dir.log.history[i], dir.Now());
    }

    /** Reads the record at the position. On a segment that was final when the read began the
        answer is final: the next record, or the end of the segment. */
    method ReadAt() returns (r: Step)
      requires Valid() && file
      modifies this`pos, this`k, this`taken, dir
      ensures Valid() && old(dir.at) <= dir.at
      // An error exactly if a read failed.
      ensures dir.failures == old(dir.failures) + if r.Error? then 1 else 0
      // The end only at the end of the file.
      ensures r.End? ==> FileEnds(dir.Now(), pos)
      ensures pos.segment == old(pos.segment)
      ensures r.Got? ==> r.at == old(pos) && r.next == pos && taken == old(taken) + [r.payload] && old(pos).Before(pos)
      ensures !r.Got? ==> pos == old(pos) && k == old(k) && taken == old(taken)
      ensures !dir.Now().damaged && pos.segment < old(dir.Now().current) ==>
                !r.Bad? && (r.End? ==> Finished(dir.Now(), Here()))
      ensures !dir.Now().damaged && (r.End? || r.Bad?) ==>
                Lacked(dir.log.crc, dir.log.history, old(dir.at), dir.at, pos)
    {
      hide Follows, Content, Frames, Frame, Parse, Sound, Evolves, Ordered, Lacked, Finished;
      ghost var i, p := dir.at, Here();
      OpenFileExists();
      var head := dir.ReadUpTo(pos.segment, pos.offset, RECORD_HEADER);
      Later(i, p);
      if head.Failed? { return Error; }
      HeaderSeen(dir.log.crc, dir.Now(), p, head.value);
      if |head.value| < RECORD_HEADER {
        if !dir.Now().damaged {
          NotWhole();
        }
        return if |head.value| == 0 then End else Bad;
      }
      if Parse(dir.log.crc, head.value, 0) == Invalid { return Bad; }
      var len := FromLe32(head.value[..4]);
      ghost var j := dir.at;

      r := ReadPayload(head.value, len);
      dir.Since(j);
      Widen(dir.log.crc, dir.log.history, j, dir.at, i, dir.at, pos);
    }

    lemma OpenFileExists()
      requires Valid() && file
      ensures dir.at < |dir.log.history| && pos.segment in dir.Now().files
    {
      hide Parts, Part, AtBoundary, UsedUp, Ordered;
    }

    /** Nothing whole is at the position now. */
    lemma NotWhole()
      requires dir.Valid() && Lacking(dir.log.crc, dir.Now(), pos)
      ensures Lacked(dir.log.crc, dir.log.history, dir.at, dir.at, pos)
      ensures forall i: nat | i <= dir.at :: Lacked(dir.log.crc, dir.log.history, i, dir.at, pos)
    {
      hide Lacking, Ordered, Lacked;
      forall i: nat | i <= dir.at
        ensures Lacked(dir.log.crc, dir.log.history, i, dir.at, pos)
      {
        LackedAt(dir.log.crc, dir.log.history, i, dir.at, pos);
      }
    }

    /** The rest of `ReadAt`, once the header was read. */
    method ReadPayload(head: seq<byte>, len: nat) returns (r: Step)
      requires Valid() && file && |head| == RECORD_HEADER && len == FromLe32(head[..4])
      requires !dir.Now().damaged ==>
                 && pos.segment in dir.Now().plan && k < |dir.Now().plan[pos.segment]|
                 && head == Frame(dir.log.crc, dir.Now().plan[pos.segment][k])[..RECORD_HEADER]
      modifies this`pos, this`k, this`taken, dir
      ensures Valid() && old(dir.at) <= dir.at
      ensures dir.failures == old(dir.failures) + if r.Error? then 1 else 0
      ensures pos.segment == old(pos.segment)
      ensures r.Got? ==> r.at == old(pos) && r.next == pos && taken == old(taken) + [r.payload] && old(pos).Before(pos)
      ensures !r.Got? ==> pos == old(pos) && k == old(k) && taken == old(taken)
      ensures !r.End?
      ensures !dir.Now().damaged && pos.segment < old(dir.Now().current) ==> !r.Bad?
      ensures !dir.Now().damaged && r.Bad? ==> Lacked(dir.log.crc, dir.log.history, old(dir.at), dir.at, pos)
    {
      hide Follows, Content, Frames, Frame, Parse, Sound, Evolves, Ordered, Lacked, Lacking;
      ghost var i, p := dir.at, Here();
      OpenFileExists();
      var body := dir.ReadUpTo(pos.segment, pos.offset + RECORD_HEADER, len);
      Later(i, p);
      if body.Failed? { return Error; }
      RecordSeen(dir.log.crc, dir.log.history[i], dir.Now(), p, head, body.value);
      if |body.value| < len {
        if !dir.Now().damaged {
          NotWhole();
        }
        return Bad;
      }
      var buf := head + body.value;
      var frame := Parse(dir.log.crc, buf, 0);
      if !frame.Record? { return Bad; }
      WholeBuffer(dir.log.crc, head, body.value);
      r := Got(pos, Cursor(pos.segment, pos.offset + |buf|), buf[frame.payloadStart..]);
      TakeNext(dir.log.crc, dir.Now(), p, r.payload);
      assert before + (taken + [r.payload]) == (before + taken) + [r.payload];
      pos, k, taken := r.next, k + 1, taken + [r.payload];
    }

    method NewerSegmentExists() returns (r: Io<bool>)
      requires Valid()
      modifies dir
      ensures Valid() && old(dir.at) <= dir.at
      ensures r.Done? || r.Failed?
      ensures dir.failures == old(dir.failures) + if r.Failed? then 1 else 0
      ensures r == Done(true) ==> pos.segment < U64_MAX && (dir.Now().damaged || pos.segment < dir.Now().current)
      ensures r == Done(false) ==> Newest(dir.Now(), pos.segment)
    {
      hide Follows, Content, Frames, Frame, Parse, Sound, Evolves, Ordered, Newest;
      ghost var i, p := dir.at, Here();
      var seqs := dir.List();
      Later(i, p);
      if seqs.Failed? { return Failed; }
      ListSeen(dir.log.crc, dir.Now(), seqs.value, pos.segment);
      r := Done(|seqs.value| > 0 && seqs.value[|seqs.value| - 1] > pos.segment);
    }

    /** Moves on from the current segment: used up, or deleted, or damaged. */
    method NextSegment()
      requires Valid() && pos.segment < U64_MAX
      requires dir.Now().damaged || (pos.segment < dir.Now().current && Finished(dir.Now(), Here()))
      modifies this`pos, this`file, this`k, this`read
      ensures Valid() && pos == Cursor(old(pos.segment) + 1, 0) && !file
      ensures StillBehind(old(read), read, old(pos.segment))
    {
      hide Follows, Content, Frames, Frame, Parse, Sound, Evolves, Ordered;
      ghost var p, q := Here(), Moved(dir.Now(), Here(), pos.segment + 1);
      Later(dir.at, p);
      MoveOn(dir.log.crc, dir.Now(), p, pos.segment + 1);
      file, pos := false, Cursor(pos.segment + 1, 0);
      k, read := q.k, q.read;
    }

    /** Jumps to the first segment listed at or after the position. */
    method JumpTo(number: u64)
      requires Valid() && !file && pos.segment <= number && number in dir.Now().files
      requires dir.Now().damaged || forall s | s in dir.Now().listed :: s < pos.segment || number <= s
      modifies this`pos, this`k, this`read
      ensures Valid() && pos.segment == number && !pos.Before(old(pos))
      ensures StillBehind(old(read), read, old(pos.segment))
    {
      hide Follows, Content, Frames, Frame, Parse, Sound, Evolves, Ordered;
      if number > pos.segment {
        ghost var p, q := Here(), Moved(dir.Now(), Here(), number);
        Later(dir.at, p);
        FileReached(dir.log.crc, dir.Now(), number);
        MoveOn(dir.log.crc, dir.Now(), p, number);
        pos := Cursor(number, 0);
        k, read := q.k, q.read;
      }
    }

    /** Tries the first segment not before the position; `NotFound`: it was left, try the next. */
    method TryEnter() returns (r: Io<bool>)
      requires Valid() && !file
      modifies this`pos, this`file, this`k, this`read, this`corruptSegments, dir
      ensures Valid() && old(dir.at) <= dir.at && StillBehind(old(read), read, old(pos.segment))
      ensures corruptSegments >= old(corruptSegments)
      ensures !r.Denied? && !pos.Before(old(pos))
      ensures dir.failures == old(dir.failures) + if r.Failed? then 1 else 0
      ensures r == Done(true) <==> file
      ensures r == Done(false) && !dir.Now().damaged ==>
                Caught(dir.log.crc, dir.log.history, old(dir.at), dir.at, pos)
      ensures r.NotFound? ==> old(pos.segment) < pos.segment
    {
      hide Follows, Content, Frames, Frame, Parse, Sound, Evolves, Ordered, Lacking, Newest, Lacked, Caught;
      ghost var i, p := dir.at, Here();
      var seqs := dir.List();
      Later(i, p);
      if seqs.Failed? { return Failed; }
      ghost var t, v := dir.at, dir.Now();
      var n := FirstAtOrAfter(seqs.value, pos.segment);
      if n == |seqs.value| {
        NoneLeft(dir.log.crc, v, seqs.value, pos);
        NotWhole();
        CaughtAt(dir.log.crc, dir.log.history, i, t, t, pos);
        return Done(false);
      }
      var number := seqs.value[n];
      ListSeen(dir.log.crc, v, seqs.value, number);
      JumpTo(number);
      var sealed := seqs.value[|seqs.value| - 1] > number;
      r := OpenAt(number, sealed);
      if r == Done(false) && !dir.Now().damaged {
        Widen(dir.log.crc, dir.log.history, t, dir.at, i, dir.at, pos);
        CaughtAt(dir.log.crc, dir.log.history, i, t, dir.at, pos);
      }
    }

    /** Opens the segment at the position and checks its header. */
    method OpenAt(number: u64, sealed: bool) returns (r: Io<bool>)
      requires Valid() && !file && number == pos.segment && number in dir.Now().files
      requires sealed <==> number < dir.top
      requires sealed ==> number < U64_MAX && (dir.Now().damaged || number < dir.Now().current)
      modifies this`pos, this`file, this`k, this`read, this`corruptSegments, dir
      ensures Valid() && old(dir.at) <= dir.at && StillBehind(old(read), read, old(pos.segment))
      ensures !r.Denied? && !pos.Before(old(pos))
      ensures dir.failures == old(dir.failures) + if r.Failed? then 1 else 0
      ensures r == Done(true) <==> file
      ensures r == Done(false) ==> !sealed && pos == old(pos)
      ensures r == Done(false) && !dir.Now().damaged ==>
                Lacked(dir.log.crc, dir.log.history, old(dir.at), dir.at, pos)
      ensures r.NotFound? ==> pos.segment == number + 1
      ensures r.NotFound? ==>
                || corruptSegments == old(corruptSegments) + 1
                || (corruptSegments == old(corruptSegments) && number !in dir.Now().listed)
      ensures !r.NotFound? ==> corruptSegments == old(corruptSegments)
    {
      hide Follows, Content, Frames, Frame, Parse, Sound, Evolves, Ordered, Lacking, Lacked;
      ghost var i, p := dir.at, Here();
      var handle := dir.OpenRead(number);
      Later(i, p);
      if sealed && (handle.NotFound? || handle.Denied?) {
        NextSegment();
        return NotFound;
      }
      if !handle.Done? { return Failed; }

      ghost var j := dir.at;
      var header := dir.ReadUpTo(number, 0, SEGMENT_HEADER);
      Later(j, p);
      if header.Failed? { return Failed; }
      if header.value == SEGMENT_MAGIC {
        Entered(dir.log.crc, dir.Now(), p);
        pos := Cursor(pos.segment, if pos.offset < SEGMENT_HEADER then SEGMENT_HEADER else pos.offset);
        file := true;
        return Done(true);
      }
      HeaderComplete(dir.log.crc, dir.Now(), pos, header.value);
      if !sealed {
        if !dir.Now().damaged {
          NotWhole();
        }
        return Done(false);
      }
      corruptSegments := corruptSegments + 1;
      NextSegment();
      r := NotFound;
    }

    /** Opens the first segment it can from the position on. `Done(false)`: there is none yet. */
    method EnterSegment() returns (r: Io<bool>)
      requires Valid() && !file
      modifies this`pos, this`file, this`k, this`read, this`corruptSegments, dir
      ensures Valid() && old(dir.at) <= dir.at && StillBehind(old(read), read, old(pos.segment))
      ensures corruptSegments >= old(corruptSegments)
      ensures (r.Done? || r.Failed?) && !pos.Before(old(pos))
      ensures dir.failures == old(dir.failures) + if r.Failed? then 1 else 0
      ensures r == Done(true) <==> file
      ensures r == Done(false) && !dir.Now().damaged ==>
                Caught(dir.log.crc, dir.log.history, old(dir.at), dir.at, pos)
    {
      hide Follows, Content, Frames, Frame, Parse, Sound, Evolves, Ordered, Caught, Lacked;
      r := NotFound;
      while r.NotFound?
        invariant Valid() && old(dir.at) <= dir.at && StillBehind(old(read), read, old(pos.segment))
        invariant corruptSegments >= old(corruptSegments)
        invariant !r.Denied? && !pos.Before(old(pos))
        invariant dir.failures == old(dir.failures) + if r.Failed? then 1 else 0
        invariant r == Done(true) <==> file
        invariant r == Done(false) && !dir.Now().damaged ==>
                    Caught(dir.log.crc, dir.log.history, old(dir.at), dir.at, pos)
        decreases U64_MAX - pos.segment, if r.NotFound? then 1 else 0
      {
        ghost var i := dir.at;
        r := TryEnter();
        Widen(dir.log.crc, dir.log.history, i, dir.at, old(dir.at), dir.at, pos);
      }
    }

    /** The next record, or `CaughtUp`. For an undamaged directory:
        - what is delivered is the next record of the log (`Valid`: everything taken is exactly
          the parts of the log behind the position, segment by segment);
        - no segment is counted as corrupt;
        - `CaughtUp` means that at some instant of the call nothing more could be read, and that at
          some instant no later segment existed.
        On any: `IoError` exactly if a call to the system failed; otherwise the reader gets on. */
    method NextRecord() returns (r: Next)
      requires Valid()
      modifies this, dir
      ensures Valid() && old(dir.at) <= dir.at && StillBehind(old(read), read, old(pos.segment))
      ensures corruptSegments >= old(corruptSegments)
      ensures dir.failures == old(dir.failures) + if r.IoError? then 1 else 0
      ensures r.Delivered? ==> taken == old(taken) + [r.payload] && r.next == pos
      ensures r.Delivered? ==> !r.at.Before(old(pos)) && r.at.Before(r.next)
      ensures !r.Delivered? ==> taken == old(taken) && !pos.Before(old(pos))
      ensures r.CaughtUp? && !dir.Now().damaged ==>
                Caught(dir.log.crc, dir.log.history, old(dir.at), dir.at, pos)
    {
      hide Follows, Content, Frames, Frame, Parse, Sound, Evolves, Ordered, Caught, Lacked;
      while true
        invariant Valid() && old(dir.at) <= dir.at && StillBehind(old(read), read, old(pos.segment))
        invariant corruptSegments >= old(corruptSegments)
        invariant taken == old(taken) && !pos.Before(old(pos)) && dir.failures == old(dir.failures)
        decreases U64_MAX - pos.segment
      {
        ghost var i := dir.at;
        if !file {
          var entered := EnterSegment();
          Widen(dir.log.crc, dir.log.history, i, dir.at, old(dir.at), dir.at, pos);
          if !entered.Done? { return IoError; }
          if !entered.value { return CaughtUp; }
        }
        i := dir.at;
        var last := ReadAtLast();
        Widen(dir.log.crc, dir.log.history, i, dir.at, old(dir.at), dir.at, pos);
        if last.Some? { return last.value; }
      }
    }

    /** Reads at the position of the open segment; if nothing is there and a newer segment exists,
        reads once more before moving on. `None`: moved on. */
    method ReadAtLast() returns (r: Option<Next>)
      requires Valid() && file
      modifies this, dir
      ensures Valid() && old(dir.at) <= dir.at && StillBehind(old(read), read, old(pos.segment))
      ensures corruptSegments >= old(corruptSegments)
      ensures dir.failures == old(dir.failures) + if r == Some(IoError) then 1 else 0
      ensures r.None? ==> pos.segment == old(pos.segment) + 1 && taken == old(taken)
      ensures r.Some? && r.value.Delivered? ==> taken == old(taken) + [r.value.payload] && r.value.next == pos
      ensures r.Some? && r.value.Delivered? ==> r.value.at == old(pos) && r.value.at.Before(r.value.next)
      ensures r.Some? && !r.value.Delivered? ==> taken == old(taken) && pos == old(pos)
      ensures r == Some(CaughtUp) && !dir.Now().damaged ==>
                Caught(dir.log.crc, dir.log.history, old(dir.at), dir.at, pos)
    {
      hide Follows, Content, Frames, Frame, Parse, Sound, Evolves, Ordered, Caught, Lacked, Newest, Finished;
      ghost var i := dir.at;
      var step := ReadAt();
      ghost var j := dir.at;
      if step.Got? { return Some(Delivered(step.at, step.next, step.payload)); }
      if step.Error? { return Some(IoError); }
      ghost var p := Here();
      var newer := NewerSegmentExists();
      Later(j, p);
      if newer.Failed? { return Some(IoError); }
      if !newer.value {
        if !dir.Now().damaged {
          Widen(dir.log.crc, dir.log.history, i, j, i, dir.at, pos);
          CaughtAt(dir.log.crc, dir.log.history, i, dir.at, dir.at, pos);
        }
        return Some(CaughtUp);
      }
      r := ReadOnce();
    }

    /** The segment is final: the next record, or the end of it. It is left as corrupt unless it ended there. */
    method ReadOnce() returns (r: Option<Next>)
      requires Valid() && file && pos.segment < U64_MAX
      requires dir.Now().damaged || pos.segment < dir.Now().current
      modifies this, dir
      ensures Valid() && old(dir.at) <= dir.at && StillBehind(old(read), read, old(pos.segment))
      ensures dir.failures == old(dir.failures) + if r == Some(IoError) then 1 else 0
      ensures r.None? ==> pos.segment == old(pos.segment) + 1 && taken == old(taken)
      ensures r.None? ==>
                || corruptSegments == old(corruptSegments) + 1
                || (corruptSegments == old(corruptSegments) && FileEnds(dir.Now(), old(pos)))
      ensures r.Some? ==> corruptSegments == old(corruptSegments)
      ensures r.Some? && r.value.Delivered? ==> taken == old(taken) + [r.value.payload] && r.value.next == pos
      ensures r.Some? && r.value.Delivered? ==> r.value.at == old(pos) && r.value.at.Before(r.value.next)
      ensures r.Some? && !r.value.Delivered? ==> r.value.IoError? && taken == old(taken) && pos == old(pos)
    {
      hide Follows, Content, Frames, Frame, Parse, Sound, Evolves, Ordered, Lacked, Finished;
      ghost var i, p := dir.at, Here();
      var step := ReadAt();
      if step.Got? { return Some(Delivered(step.at, step.next, step.payload)); }
      if step.Error? { return Some(IoError); }
      Later(i, p);
      if step.Bad? { corruptSegments := corruptSegments + 1; }
      NextSegment();
      r := None;
    }
  }

  /** Nothing more can come from the current segment. */
  ghost predicate Finished(v: View, p: Place) {
    p.pos.segment in v.files ==>
      p.pos.segment !in v.listed || (p.pos.segment in v.plan && p.k == |v.plan[p.pos.segment]|)
  }

  /** Only how much is before a start position counts, not what. */
  lemma EmptyPlace(crc: Checksum, v: View, from: Cursor, k: nat, before: seq<Payload>)
    ensures AtBoundary(crc, v, Place(from.segment, from, false, k, map[], []))
        ==> AtBoundary(crc, v, Place(from.segment, from, false, k, map[], before + []))
  {
    hide Content, Offset;
  }

  lemma FileReached(crc: Checksum, v: View, s: u64)
    requires Sound(crc, v) && s in v.files
    ensures v.damaged || s <= v.current
  {
    hide Content;
  }

  /** What a listing says about a segment number. */
  lemma ListSeen(crc: Checksum, v: View, seqs: seq<u64>, n: u64)
    requires Sound(crc, v) && (forall s | s in v.listed :: s in seqs) && (forall s | s in seqs :: s in v.files)
    requires forall i, j :: 0 <= i < j < |seqs| ==> seqs[i] < seqs[j]
    ensures |seqs| > 0 && seqs[|seqs| - 1] > n ==> n < U64_MAX && (v.damaged || n < v.current)
    ensures |seqs| == 0 || seqs[|seqs| - 1] <= n ==> Newest(v, n)
  {
    hide Sound;
    if |seqs| > 0 && seqs[|seqs| - 1] > n {
      FileReached(crc, v, seqs[|seqs| - 1]);
    }
  }

  /** Every listed segment is before the position. */
  lemma NoneLeft(crc: Checksum, v: View, seqs: seq<u64>, pos: Cursor)
    requires (forall s | s in v.listed :: s in seqs) && (forall j :: 0 <= j < |seqs| ==> seqs[j] < pos.segment)
    ensures Newest(v, pos.segment) && Lacking(crc, v, pos)
  {
    hide Parse;
  }

  method FirstAtOrAfter(seqs: seq<u64>, n: u64) returns (i: nat)
    ensures i <= |seqs|
    ensures forall j :: 0 <= j < i ==> seqs[j] < n
    ensures i < |seqs| ==> seqs[i] >= n
  {
    i := 0;
    while i < |seqs| && seqs[i] < n
      invariant i <= |seqs|
      invariant forall j :: 0 <= j < i ==> seqs[j] < n
    {
      i := i + 1;
    }
  }

  lemma Entered(crc: Checksum, v: View, p: Place)
    requires Sound(crc, v) && Follows(crc, v, p) && p.pos.segment in v.files
    ensures var offset := if p.pos.offset < SEGMENT_HEADER then SEGMENT_HEADER else p.pos.offset;
            Follows(crc, v, p.(file := true, pos := Cursor(p.pos.segment, offset)))
  {
    hide Parts, Part, FileSound, Frames;
    FramesOfNone(crc);
    if !v.damaged {
      assert v.plan[p.pos.segment][..0] == [];
    }
  }

  /** Without a whole header the segment is neither final nor holds a record, unless it was damaged. */
  lemma HeaderComplete(crc: Checksum, v: View, pos: Cursor, header: seq<byte>)
    requires Sound(crc, v) && pos.segment in v.files
    requires WasRead(crc, v, pos.segment, 0, SEGMENT_HEADER, header) && header != SEGMENT_MAGIC
    ensures v.damaged || (Lacking(crc, v, pos) && pos.segment >= v.current)
  {
    hide Frames;
    if !v.damaged {
      assert FileSound(crc, v, pos.segment);
      assert Content(crc, v.plan[pos.segment])[0..SEGMENT_HEADER] == SEGMENT_MAGIC;
    }
  }

  lemma WholeBuffer(crc: Checksum, head: seq<byte>, body: seq<byte>)
    requires |head| == RECORD_HEADER && |body| == FromLe32(head[..4]) && Parse(crc, head + body, 0).Record?
    ensures Parse(crc, head + body, 0) == Record(RECORD_HEADER, |head + body|)
    ensures 1 <= |body| <= MAX_PAYLOAD
  {
    assert (head + body)[0..4] == head[..4];
  }

  lemma HeaderSeen(crc: Checksum, v: View, p: Place, head: seq<byte>)
    requires Sound(crc, v) && Follows(crc, v, p) && p.file
    requires WasRead(crc, v, p.pos.segment, p.pos.offset, RECORD_HEADER, head)
    ensures !v.damaged && |head| > 0 ==> p.pos.segment in v.plan && p.k < |v.plan[p.pos.segment]|
    ensures !v.damaged && |head| == RECORD_HEADER ==>
              && Parse(crc, head, 0) == Incomplete
              && head == Frame(crc, v.plan[p.pos.segment][p.k])[..RECORD_HEADER]
    ensures !v.damaged && p.pos.segment < v.current ==>
              if |head| == 0 then Finished(v, p) else |head| == RECORD_HEADER
    ensures !v.damaged && |head| < RECORD_HEADER ==> Lacking(crc, v, p.pos)
  {
    hide Frames, Frame, Parts, Content;
    if !v.damaged {
      assert FileSound(crc, v, p.pos.segment);
      if Between(crc, v, p) {
        HeaderRead(crc, v.plan[p.pos.segment], p.k, v.files[p.pos.segment], head);
      }
    }
  }

  lemma PlanGrows(crc: Checksum, v: View, w: View, s: u64)
    requires Evolves(crc, v, w) && !w.damaged && s in v.files
    ensures !v.damaged && s in v.plan && s in w.plan && v.plan[s] <= w.plan[s]
    ensures s in w.files && w.files[s] <= Content(crc, w.plan[s])
    ensures s < w.current ==> w.files[s] == Content(crc, w.plan[s])
  {
    hide Content;
    assert FileKept(v, w, s) && FileSound(crc, w, s);
  }

  lemma RecordSeen(crc: Checksum, v: View, w: View, p: Place, head: seq<byte>, body: seq<byte>)
    requires Evolves(crc, v, w) && Follows(crc, w, p) && p.file && p.pos.segment in v.files
    requires |head| == RECORD_HEADER
    requires !v.damaged ==>
               && p.pos.segment in v.plan && p.k < |v.plan[p.pos.segment]|
               && head == Frame(crc, v.plan[p.pos.segment][p.k])[..RECORD_HEADER]
    requires p.pos.segment in w.files
    requires WasRead(crc, w, p.pos.segment, p.pos.offset + RECORD_HEADER, FromLe32(head[..4]), body)
    ensures !w.damaged ==>
              && p.pos.segment in w.plan && p.k < |w.plan[p.pos.segment]|
              && var next := w.plan[p.pos.segment][p.k];
                 && FromLe32(head[..4]) == |next|
                 && (|body| == |next| ==>
                       && head + body == Frame(crc, next)
                       && Parse(crc, head + body, 0) == Record(RECORD_HEADER, RECORD_HEADER + |next|)
                       && (head + body)[RECORD_HEADER..] == next)
                 && (p.pos.segment < w.current ==> |body| == |next|)
                 && (|body| < |next| ==> Lacking(crc, w, p.pos))
  {
    hide Frames, Parts, Content, Parse, Sound, Evolves, UsedUp;
    if !w.damaged {
      PlanGrows(crc, v, w, p.pos.segment);
      var ps := w.plan[p.pos.segment];
      var next := ps[p.k];
      var f := Frame(crc, next);
      assert head[..4] == f[..4] == ToLe32(|next|);
      assert Between(crc, w, p);
      PayloadRead(crc, ps, p.k, w.files[p.pos.segment], body);
      if |body| == |next| {
        assert head + body == f;
        assert (head + body)[0..] == f;
        ParseAccepts(crc, head + body, 0, next);
      } else {
        TornThere(crc, ps, p.k, w.files[p.pos.segment]);
      }
    }
  }

  /** A file that ends inside the next record holds no whole record there. */
  lemma TornThere(crc: Checksum, ps: seq<Payload>, k: nat, data: seq<byte>)
    requires k < |ps| && data <= Content(crc, ps) && |data| < Offset(crc, ps, k) + RECORD_HEADER + |ps[k]|
    ensures Offset(crc, ps, k) >= SEGMENT_HEADER && !Parse(crc, data, Offset(crc, ps, k)).Record?
  {
    hide Frames, Frame;
    var at, f := Offset(crc, ps, k), Frame(crc, ps[k]);
    FirstFrame(crc, ps, k);
    if |data| >= at {
      assert data[at..] == Content(crc, ps)[at..|data|];
      ReadOfPlan(crc, ps, k, data, 0, |f|, data[at..]);
      assert data[at..] == f[..|data| - at];
      ParseTorn(crc, data, at, ps[k], |data| - at);
    }
  }
}
