/** The single writer: frames and queues records, writes them in batches, rotates segments, makes
    room by policy, and retries after errors. */
module Writer {
  import opened Collections
  import opened Options
  import opened Framing
  import opened Disk
  import opened Log
  import opened Segments
  import opened Policy
  import opened Gaps

  datatype Stats = Stats(recordsWritten: nat, bytesWritten: nat, retentionEvictions: nat, overflowEvictions: nat,
                         overflowDrops: nat, deleteFailures: nat, backlogDrops: nat, rejected: nat,
                         writeErrors: nat, recoveries: nat)
  {
    /** Segments deleted by the policy. */
    function Evictions(): nat {
      retentionEvictions + overflowEvictions
    }

    /** Records refused. */
    function Refused(): nat {
      rejected + backlogDrops
    }

    /** One more segment deleted by the policy. */
    function Evict(overflow: Overflow): Stats {
      if overflow == Retention then this.(retentionEvictions := retentionEvictions + 1)
      else this.(overflowEvictions := overflowEvictions + 1)
    }
  }

  datatype Appended = Queued | Rejected | BacklogFull

  datatype Acked = Recorded | Ignored | PastNewest | StoreFailed

  datatype Room = Made | Full | RotateFailed

  /** Bytes of the framed record that starts at `at`. */
  function RecordLen(pending: seq<byte>, at: nat): nat
    requires at + 4 <= |pending|
  {
    RECORD_HEADER + FromLe32(pending[at..at + 4])
  }

  lemma RecordLenOfFrames(crc: Checksum, pending: seq<byte>, at: nat, queue: seq<Payload>)
    requires at <= |pending| && pending[at..] == Frames(crc, queue) && queue != []
    ensures at + RECORD_HEADER + |queue[0]| <= |pending|
    ensures RecordLen(pending, at) == RECORD_HEADER + |queue[0]|
    ensures pending[at + RecordLen(pending, at)..] == Frames(crc, queue[1..])
  {
    var f := Frame(crc, queue[0]);
    assert pending[at..at + 4] == pending[at..][..4] == f[..4] == ToLe32(|queue[0]|);
    assert pending[at + |f|..] == pending[at..][|f|..];
  }

  class LogWriter {
    const dir: Directory
    const cfg: Config
    const recordTime: RecordTime
    /** All segments, oldest first; the last is the active one, whose file may not exist yet. */
    var segments: seq<Segment>
    /** The active file is open. */
    var file: bool
    /** Something written is not flushed. */
    var unsynced: bool
    /** The queued records, framed. */
    var pending: seq<byte>
    var acked: Option<Cursor>
    var lastFlush: Option<int>
    /** After a failure: no I/O before this time. */
    var retryAt: Option<int>
    var stats: Stats
    /** The gaps to report. */
    var gaps: seq<Gap>
    /** The gap that dropped records go to. */
    var dropGap: Option<Gap>

    /** Every record `Append` accepted, and what became of the settled ones. */
    ghost var accepted: seq<Payload>
    ghost var fates: seq<bool>
    /** The accepted records neither written nor dropped yet. */
    ghost var queue: seq<Payload>
    /** The records written to each segment of this run, deleted segments included. */
    ghost var recs: map<u64, seq<Payload>>
    /** How many of the queued records are planned for the active segment: a retry writes them again. */
    ghost var promised: nat
    /** The segment this run began with. */
    ghost const first: u64
    /** The segments found at the start were within the segment size. */
    ghost const modest: bool
    /** Rotations so far. */
    ghost var rotations: nat

    function Number(): u64
      reads this`segments
      requires segments != []
    {
      Active(segments).number
    }

    ghost predicate Stored()
      reads this`segments, this`recs, this`queue, this`promised, this`accepted, this`fates, this`stats,
            this`rotations, this`unsynced, dir
    {
      && dir.Recorded()
      && Keeps(dir.crc, dir.Now(), dir.durable, cfg, segments, recs, queue, promised, accepted, fates, stats, rotations,
               unsynced, first, modest)
    }

    ghost predicate Opened()
      reads this`file, this`segments, this`recs, dir
    {
      file && Clean(dir.crc, dir.Now(), segments, recs)
    }

    lemma Basics()
      requires Stored()
      ensures segments != [] && cfg.Valid()
    {
      hide OnDisk, Directory.Recorded, Safe, Snug, Ledger, Capped;
    }

    lemma IsCurrent()
      requires Stored()
      ensures segments != [] && dir.current == Number() && dir.Recorded()
    {
      hide Content, Batch, Directory.Recorded, Safe, Snug, Ledger, Capped;
    }

    /** Where no record fits, none is promised. */
    lemma NothingPromised()
      requires Stored()
      ensures segments != [] && (Batch(queue, Active(segments).len, cfg.segmentBytes) == 0 ==> promised == 0)
    {
      hide Content, Batch, Directory.Recorded, Safe, Snug, Ledger, Capped;
    }

    ghost predicate Valid()
      reads this, dir
    {
      Stored() && pending == Frames(dir.crc, queue) && (file ==> Opened())
    }

    /** A writer over the segments found (see `Recovery.Open`), the last one new and active. */
    constructor (dir: Directory, cfg: Config, recordTime: RecordTime, segments: seq<Segment>, acked: Option<Cursor>,
                 deleteFailures: nat)
      requires cfg.Valid() && dir.Recorded() && segments != [] && Active(segments).len == 0
      requires OnDisk(dir.crc, dir.Now(), segments, map[Active(segments).number := []], [], 0, cfg.segmentBytes)
      requires forall s | s in dir.files :: s in dir.durable && dir.durable[s] >= |dir.files[s]|
      ensures Valid() && !file && this.dir == dir && this.cfg == cfg && this.segments == segments && this.acked == acked
      ensures accepted == [] && queue == [] && recs == map[Active(segments).number := []]
      ensures first == Active(segments).number && modest == Small(segments, cfg.segmentBytes)
      ensures pending == [] && lastFlush == None && retryAt == None && !unsynced
      ensures stats == Stats(0, 0, 0, 0, 0, deleteFailures, 0, 0, 0, 0)
    {
      hide Content, OnDisk, Directory.Recorded;
      this.dir, this.cfg, this.recordTime, this.segments, this.acked := dir, cfg, recordTime, segments, acked;
      file, unsynced, pending := false, false, [];
      lastFlush, retryAt := None, None;
      stats := Stats(0, 0, 0, 0, 0, deleteFailures, 0, 0, 0, 0);
      gaps, dropGap := [], None;
      accepted, fates, queue, promised, rotations := [], [], [], 0, 0;
      recs := map[Active(segments).number := []];
      first, modest := Active(segments).number, Small(segments, cfg.segmentBytes);
      LedgerStart(Active(segments).number);
    }

    /** Opens the active file and cuts it to what counts as written; a new one gets its header. */
    method OpenActive() returns (ok: bool)
      requires Stored() && !file
      modifies this`file, this`unsynced, this`segments,
               dir`files, dir`listed, dir`plan, dir`history, dir`durable, dir`failures
      ensures Stored() && old(dir.history) <= dir.history
      ensures ok == file && (ok ==> Opened())
      ensures Sealed(segments) == old(Sealed(segments)) && Number() == old(Number())
      ensures ok ==> segments == Started(old(segments))
      ensures dir.Gone() <= old(dir.Gone())
      ensures dir.failures == old(dir.failures) + if ok then 0 else 1
      ensures GoesUp(old(segments), segments)
    {
      hide Content, Frames, Ledger, Batch, Directory.Recorded, Safe, Snug, OnDisk, Clean, Total, Committed, Fits,
           Capped, Small;
      ghost var u := dir.Now();
      var a := Active(segments);
      CurrentActive(dir.crc, u, segments, recs, queue, promised, cfg.segmentBytes);
      ok := dir.OpenRw(a.number);
      ghost var v := dir.Now();
      OpenedOnDisk(dir.crc, u, v, segments, recs, queue, promised, cfg.segmentBytes);
      SafeOther(u.files, dir.files, dir.durable, dir.durable, dir.damaged, a, a, unsynced, unsynced);
      if !ok { return; }
      ok := CutActive();
      if !ok { return; }
      if a.len == 0 {
        ok := WriteHeader();
        if !ok { return; }
      }
      file := true;
    }

    /** Takes off what an error left behind what counts as written. */
    method CutActive() returns (ok: bool)
      requires Stored() && segments != [] && Number() in dir.files && (dir.damaged || dir.current == Number())
      modifies dir`files, dir`history, dir`durable, dir`failures
      ensures Stored() && old(dir.history) <= dir.history && dir.files.Keys == old(dir.files).Keys
      ensures ok ==> |dir.files[Number()]| == Active(segments).len
      ensures ok && Active(segments).len > 0 ==> Clean(dir.crc, dir.Now(), segments, recs)
      ensures dir.failures == old(dir.failures) + if ok then 0 else 1
    {
      hide Content, Frames, Ledger, Batch, Directory.Recorded, Safe, Snug, OnDisk, Clean, Total, Committed, Fits,
           Capped, Small;
      ghost var v, durable := dir.Now(), dir.durable;
      var a := Active(segments);
      CutAllowed(dir.crc, v, segments, recs, queue, promised, cfg.segmentBytes);
      ok := dir.SetLen(a.number, a.len);
      SafeOther(v.files, dir.files, durable, dir.durable, dir.damaged, a, a, unsynced, unsynced);
      if ok {
        CutOnDisk(dir.crc, v, dir.Now(), segments, recs, queue, promised, cfg.segmentBytes);
      }
    }

    method WriteHeader() returns (ok: bool)
      requires Stored() && Active(segments).len == 0 && Number() in dir.files && dir.files[Number()] == []
      modifies this`unsynced, this`segments, dir`files, dir`history, dir`failures
      ensures Stored() && old(dir.history) <= dir.history
      ensures Sealed(segments) == old(Sealed(segments)) && Number() == old(Number())
      ensures !ok ==> segments == old(segments)
      ensures ok ==> segments == Started(old(segments)) && Clean(dir.crc, dir.Now(), segments, recs)
      ensures dir.Gone() == old(dir.Gone())
      ensures dir.failures == old(dir.failures) + if ok then 0 else 1
    {
      hide Content, Frames, Ledger, Batch, Directory.Recorded, Safe, OnDisk, Clean, Total, Committed, Fits, Capped;
      ghost var n: nat;
      ghost var u := dir.Now();
      HeaderAllowed(dir.crc, u, segments, recs, queue, promised, cfg.segmentBytes);
      ok, n := dir.WriteAll(Number(), SEGMENT_MAGIC);
      TornOnDisk(dir.crc, u, dir.Now(), segments, recs, queue, promised, cfg.segmentBytes, SEGMENT_MAGIC[..n]);
      SafeOther(u.files, dir.files, dir.durable, dir.durable, dir.damaged, Active(segments), Active(segments),
          unsynced, unsynced);
      if ok {
        var longer := Longer(segments, SEGMENT_HEADER);
        SealedLonger(segments, SEGMENT_HEADER);
        assert SEGMENT_MAGIC[..n] == SEGMENT_MAGIC;
        HeaderOnDisk(dir.crc, dir.Now(), segments, longer, recs, queue, cfg.segmentBytes);
        HeaderCapped(segments, cfg, rotations, stats.deleteFailures);
        SafeOther(dir.files, dir.files, dir.durable, dir.durable, dir.damaged, Active(segments), Active(longer),
            unsynced, true);
        segments, unsynced := longer, true;
      }
    }

    /** The whole records that go into the active segment next: `pending[done..end]`. */
    method NextBatch(done: nat) returns (end: nat, count: nat)
      requires segments != [] && done <= |pending| && pending[done..] == Frames(dir.crc, queue)
      ensures count == Batch(queue, Active(segments).len, cfg.segmentBytes)
      ensures done <= end <= |pending| && pending[done..end] == Frames(dir.crc, queue[..count])
      ensures pending[end..] == Frames(dir.crc, queue[count..])
    {
      hide Frames, Frame, RecordLen, FromLe32;
      var len := Active(segments).len;
      end, count := done, 0;
      ghost var fitting := Fitting(queue, len, cfg.segmentBytes);
      FramesOfNone(dir.crc);
      assert queue[0..] == queue && queue[..0] == [];
      while end < |pending|
        invariant done <= end <= |pending| && count <= |queue|
        invariant pending[done..end] == Frames(dir.crc, queue[..count])
        invariant pending[end..] == Frames(dir.crc, queue[count..])
        invariant count == 0 <==> end == done
        invariant count == 0 || fitting > 0 ==>
                    fitting == count + Fitting(queue[count..], len + (end - done), cfg.segmentBytes)
        invariant count > 0 && fitting == 0 ==>
                    count == 1 && len == SEGMENT_HEADER && len + (end - done) > cfg.segmentBytes
        decreases |pending| - end
      {
        EmptyFrames(dir.crc, queue[count..]);
        RecordLenOfFrames(dir.crc, pending, end, queue[count..]);
        var next := end + RecordLen(pending, end);
        var fits := len + (next - done) <= cfg.segmentBytes;
        if !fits && !(end == done && len == SEGMENT_HEADER) { break; }
        assert queue[..count + 1] == queue[..count] + [queue[count]];
        assert queue[count..][1..] == queue[count + 1..];
        FittingStep(queue[count..], len + (end - done), cfg.segmentBytes);
        FramesConcat(dir.crc, queue[..count], [queue[count]]);
        assert pending[done..next] == pending[done..end] + pending[end..next];
        OneFrame(dir.crc, pending, end, next, queue[count..]);
        end, count := next, count + 1;
      }
      if end == |pending| {
        EmptyFrames(dir.crc, queue[count..]);
      }
    }

    /** The active segment is to hold the next batch, which begins with what an earlier try tore. */
    method CommitBatch(ghost count: nat)
      requires Stored() && Opened()
      requires count == Batch(queue, Active(segments).len, cfg.segmentBytes)
      modifies this`promised, dir`plan, dir`history
      ensures Stored() && Opened() && old(dir.history) <= dir.history
      ensures promised == count <= |queue| && Number() in dir.files && Number() in recs && dir.current == Number()
      ensures dir.damaged || (Number() in dir.plan
                && dir.files[Number()] + Frames(dir.crc, queue[..count]) <= Content(dir.crc, dir.plan[Number()]))
    {
      hide Content, Frames, Ledger, Batch, Directory.Recorded, Safe, Snug, OnDisk, Clean, Total, Committed, Small, Fits,
           Capped;
      ghost var u := dir.Now();
      ghost var limit := cfg.segmentBytes;
      ActiveExists(dir.crc, u, segments, recs, queue, promised, limit);
      CurrentActive(dir.crc, u, segments, recs, queue, promised, limit);
      BatchOfSome(queue, Active(segments).len, limit);
      dir.Commit(Number(), queue[promised..count]);
      PromisedOnDisk(dir.crc, u, dir.Now(), segments, recs, queue, promised, limit);
      BatchAllowed(dir.crc, dir.Now(), segments, recs, queue, count, limit);
      promised := count;
    }

    /** Writes one batch. On an error some prefix of it may have reached the file. */
    method WriteBatch(done: nat, end: nat, count: nat) returns (ok: bool)
      requires Stored() && Opened()
      requires count == Batch(queue, Active(segments).len, cfg.segmentBytes)
      requires done <= end <= |pending| && pending[done..end] == Frames(dir.crc, queue[..count])
      modifies this`segments, this`unsynced, this`stats, this`fates, this`queue, this`recs, this`promised,
               dir`files, dir`plan, dir`history, dir`failures
      ensures Stored() && old(dir.history) <= dir.history
      ensures dir.Gone() == old(dir.Gone())
      ensures !ok ==> queue == old(queue) && fates == old(fates) && stats == old(stats) && recs == old(recs)
      ensures !ok ==> segments == old(segments)
      ensures ok ==> Opened() && queue == old(queue)[count..] && fates == old(fates) + Same(count, true)
      ensures ok ==> recs == old(recs)[old(Number()) := old(recs)[old(Number())] + old(queue)[..count]]
      ensures ok ==> segments == Longer(old(segments), end - done)
      ensures ok ==> stats == old(stats).(recordsWritten := old(stats.recordsWritten) + count,
                                          bytesWritten := old(stats.bytesWritten) + (end - done))
      ensures dir.failures == old(dir.failures) + if ok then 0 else 1
    {
      hide Content, Frames, Ledger, Batch, Directory.Recorded, Safe, Snug, OnDisk, Clean, Total, Committed, Small, Fits,
           Capped;
      ghost var limit := cfg.segmentBytes;
      CommitBatch(count);
      ghost var v := dir.Now();
      ghost var n: nat;
      ok, n := dir.WriteAll(Number(), pending[done..end]);
      TornOnDisk(dir.crc, v, dir.Now(), segments, recs, queue, promised, limit, pending[done..end][..n]);
      SafeOther(v.files, dir.files, dir.durable, dir.durable, dir.damaged, Active(segments), Active(segments),
          unsynced, unsynced);
      if !ok { return; }
      assert pending[done..end][..n] == pending[done..end];
      BatchDone(end - done, count, v);
    }

    /** The whole batch is in the file. */
    method BatchDone(bytes: nat, count: nat, ghost v: View)
      requires Stored() && file && promised == count == Batch(queue, Active(segments).len, cfg.segmentBytes)
      requires OnDisk(dir.crc, v, segments, recs, queue, promised, cfg.segmentBytes)
      requires Clean(dir.crc, v, segments, recs)
      requires Number() in v.files && Number() in recs && bytes == |Frames(dir.crc, queue[..count])|
      requires dir.Now() == v.(files := v.files[Number() := v.files[Number()] + Frames(dir.crc, queue[..count])])
      modifies this`segments, this`unsynced, this`stats, this`fates, this`queue, this`recs, this`promised
      ensures Stored() && Opened()
      ensures queue == old(queue)[count..] && fates == old(fates) + Same(count, true)
      ensures recs == old(recs)[old(Number()) := old(recs)[old(Number())] + old(queue)[..count]]
      ensures segments == Longer(old(segments), bytes)
      ensures stats == old(stats).(recordsWritten := old(stats.recordsWritten) + count,
                                   bytesWritten := old(stats.bytesWritten) + bytes)
    {
      hide Content, Frames, Batch, Directory.Recorded, OnDisk, Clean, Longer, Same, Keeps;
      Basics();
      BatchOfSome(queue, Active(segments).len, cfg.segmentBytes);
      BatchKeeps(dir.crc, v, dir.Now(), dir.durable, cfg, segments, recs, queue, count, accepted, fates, stats,
                 rotations, unsynced, first, modest, bytes);
      ghost var a := Number();
      unsynced, segments := true, Longer(segments, bytes);
      stats := stats.(recordsWritten := stats.recordsWritten + count, bytesWritten := stats.bytesWritten + bytes);
      fates, recs := fates + Same(count, true), recs[a := recs[a] + queue[..count]];
      queue, promised := queue[count..], 0;
    }

    /** The first segment that the policy may delete and that is not in `skip`. */
    method Victim(skip: set<u64>) returns (i: Option<nat>)
      requires segments != []
      ensures i.None? ==> forall j | First(segments, cfg.overflow) <= j < |segments| - 1 :: segments[j].number in skip
      ensures i.Some? ==> First(segments, cfg.overflow) <= i.value < |segments| - 1
      ensures i.Some? ==> segments[i.value].number !in skip
      ensures i.Some? ==> forall j | First(segments, cfg.overflow) <= j < i.value :: segments[j].number in skip
    {
      hide Total;
      var sealed := |segments| - 1;
      if cfg.overflow == DropNewest { return None; }
      var first := 0;
      if cfg.overflow == HeadTail {
        var target, bytes := Total(segments) / 4, 0;
        TotalEmpty(segments);
        while first < sealed && bytes < target
          invariant first <= sealed && bytes == Total(segments[..first])
          invariant Pinned(segments, target, 0) == Pinned(segments, target, first)
        {
          TotalStep(segments, first);
          bytes := bytes + segments[first].len;
          first := first + 1;
        }
      }
      assert first == First(segments, cfg.overflow);
      var j := first;
      while j < sealed && segments[j].number in skip
        invariant first <= j <= sealed
        invariant forall k | first <= k < j :: segments[k].number in skip
      {
        j := j + 1;
      }
      i := if j < sealed then Some(j) else None;
    }

    /** The gap a segment leaves, from what reading it gave. */
    method SegmentGap(read: Io<seq<byte>>) returns (gap: Gap)
      ensures gap == AddAll(NO_GAP, recordTime, Whole(dir.crc, read))
      ensures Tells(gap, recordTime, Whole(dir.crc, read))
    {
      hide Decode, Frames, Tells, AddAll;
      ghost var ps := Whole(dir.crc, read);
      GapTells(recordTime, [], ps);
      assert [] + ps == ps;
      NoneAdded(NO_GAP, recordTime);
      gap := NO_GAP;
      if read.Done? && SEGMENT_MAGIC <= read.value {
        var validEnd, found := Scan(dir.crc, read.value, SEGMENT_HEADER);
        gap := GapOf(read.value, found, ps);
      }
    }

    method GapOf(data: seq<byte>, places: seq<(nat, nat)>, ghost ps: seq<Payload>) returns (gap: Gap)
      requires |ps| == |places|
      requires forall i | 0 <= i < |places| :: places[i].0 <= places[i].1 <= |data|
      requires forall i | 0 <= i < |places| :: data[places[i].0..places[i].1] == ps[i]
      ensures gap == AddAll(NO_GAP, recordTime, ps)
    {
      hide AddAll;
      NoneAdded(NO_GAP, recordTime);
      gap := NO_GAP;
      assert ps[..0] == [];
      for i := 0 to |places|
        invariant gap == AddAll(NO_GAP, recordTime, ps[..i])
        modifies {}
      {
        AddOne(NO_GAP, recordTime, ps[..i], ps[i]);
        assert ps[..i + 1] == ps[..i] + [ps[i]];
        gap := gap.Add(recordTime(data[places[i].0..places[i].1]));
      }
      assert ps[..|ps|] == ps;
    }

    /** Deletes segments until another full one fits under the cap. */
    method MakeRoom() returns (room: Room, ghost failed: set<u64>)
      requires Stored() && (file ==> Opened()) && Number() in dir.files
      modifies this`segments, this`stats, this`gaps, dir`listed, dir`history, dir`unread
      ensures Stored() && (file ==> Opened()) && old(dir.history) <= dir.history
      ensures Evicted(old(segments), old(stats), segments, stats, cfg)
      ensures NamesStay(old(dir.Gone()), old(stats), dir.Gone(), stats)
      // Without failures: what the policy deletes is deleted, and no more.
      ensures stats.deleteFailures == old(stats.deleteFailures) ==> segments == Fitted(old(segments), cfg)
      ensures room == if stats.deleteFailures == old(stats.deleteFailures) && cfg.Over(segments) then Full else Made
      // What goes is reported, unless the policy is `Retention`; of a file that was not read, nothing.
      ensures cfg.overflow == Retention ==> gaps == old(gaps)
      ensures cfg.overflow != Retention && stats.deleteFailures == old(stats.deleteFailures)
              && dir.unread == old(dir.unread) ==>
                gaps == old(gaps) + Reported(old(segments), cfg, dir.crc, dir.files, recordTime)
      // Each failure is another segment; over the cap, every segment the policy may delete has failed.
      ensures stats.deleteFailures == old(stats.deleteFailures) + |failed| && failed <= Numbers(segments)
      ensures cfg.Over(segments) ==> Exhausted(segments, cfg, failed)
      ensures room.Full? && Small(segments, cfg.segmentBytes) ==> cfg.overflow == DropNewest
    {
      hide Content, Frames, Ledger, Batch, Directory.Recorded, Safe, Snug, OnDisk, Clean, Total, First, Fits, Evicted,
           Small, Capped, Fitted, Numbers, LogWriter.Stored, LogWriter.Opened, Exhausted, Reported, Told;
      Basics();
      ghost var segs, counts, told, unread := segments, stats, gaps, dir.unread;
      ghost var all := Reported(segs, cfg, dir.crc, dir.files, recordTime);
      EvictedSame(segs, counts, cfg);
      var undeletable: set<u64> := {};
      while cfg.Over(segments)
        invariant Stored() && (file ==> Opened()) && old(dir.history) <= dir.history
        invariant segments != [] && Number() in dir.files
        invariant Evicted(segs, counts, segments, stats, cfg)
        invariant NamesStay(old(dir.Gone()), counts, dir.Gone(), stats)
        invariant undeletable <= Numbers(segments)
        invariant stats.deleteFailures == counts.deleteFailures + |undeletable|
        invariant undeletable == {} ==> Fitted(segments, cfg) == Fitted(segs, cfg)
        invariant dir.unread >= unread && (cfg.overflow == Retention ==> gaps == told)
        invariant cfg.overflow != Retention && undeletable == {} && dir.unread == unread ==>
                    gaps + Reported(segments, cfg, dir.crc, dir.files, recordTime) == told + all
        decreases Numbers(segments) - undeletable
      {
        Basics();
        var i := Victim(undeletable);
        if i.None? {
          ExhaustedAll(segments, cfg, undeletable);
          if undeletable == {} {
            NothingToDelete(segments, cfg);
            ReportedNone(segments, cfg, dir.crc, dir.files, recordTime);
            return Full, {};
          }
          return Made, undeletable;
        }
        undeletable := DeleteNext(i.value, undeletable, segs, counts);
      }
      FittedAlready(segments, cfg);
      ReportedNone(segments, cfg, dir.crc, dir.files, recordTime);
      room, failed := Made, undeletable;
    }

    /** One more victim is tried, with what that keeps since making room began. */
    method DeleteNext(i: nat, undeletable: set<u64>, ghost segs: seq<Segment>, ghost counts: Stats)
      returns (undeletable': set<u64>)
      requires Stored() && (file ==> Opened()) && Number() in dir.files && cfg.Over(segments)
      requires First(segments, cfg.overflow) <= i < |segments| - 1 && undeletable <= Numbers(segments)
      requires segments[i].number !in undeletable
      requires forall j | First(segments, cfg.overflow) <= j < i :: segments[j].number in undeletable
      requires Evicted(segs, counts, segments, stats, cfg)
      modifies this`segments, this`stats, this`gaps, dir`listed, dir`history, dir`unread
      ensures Stored() && (file ==> Opened()) && old(dir.history) <= dir.history
      ensures segments != [] && Number() in dir.files && Evicted(segs, counts, segments, stats, cfg)
      ensures NamesStay(old(dir.Gone()), old(stats), dir.Gone(), stats)
      ensures undeletable' <= Numbers(segments) && |undeletable'| >= |undeletable|
      ensures stats.deleteFailures == old(stats.deleteFailures) + |undeletable'| - |undeletable|
      ensures Numbers(segments) - undeletable' < old(Numbers(segments)) - undeletable
      ensures undeletable' == {} ==> undeletable == {} && Fitted(segments, cfg) == Fitted(old(segments), cfg)
      ensures dir.unread >= old(dir.unread) && (cfg.overflow == Retention ==> gaps == old(gaps))
      ensures cfg.overflow != Retention && undeletable' == {} && dir.unread == old(dir.unread) ==>
                gaps + Reported(segments, cfg, dir.crc, dir.files, recordTime)
                == old(gaps) + Reported(old(segments), cfg, dir.crc, dir.files, recordTime)
    {
      hide Content, Frames, Ledger, Batch, Directory.Recorded, Safe, Snug, OnDisk, Clean, Total, First, Fits, Evicted,
           Small, Capped, Fitted, Numbers, LogWriter.Stored, LogWriter.Opened, Reported, Told;
      Basics();
      VictimNext(segments, cfg, undeletable, i);
      ReportedNext(segments, cfg, undeletable, i, dir.crc, dir.files, recordTime);
      EvictedOne(segs, counts, segments, stats, cfg, i);
      ghost var number, left := segments[i].number, Numbers(segments) - undeletable;
      undeletable' := DeleteOne(i, undeletable);
      assert number in left && number !in Numbers(segments) - undeletable';
    }

    /** Deletes one segment, or remembers that it could not be deleted. */
    method DeleteOne(i: nat, undeletable: set<u64>) returns (undeletable': set<u64>)
      requires Stored() && (file ==> Opened()) && Number() in dir.files
      requires i < |segments| - 1 && segments[i].number !in undeletable && undeletable <= Numbers(segments)
      modifies this`segments, this`stats, this`gaps, dir`listed, dir`history, dir`unread
      ensures Stored() && (file ==> Opened()) && old(dir.history) <= dir.history
      ensures Active(segments) == old(Active(segments))
      ensures undeletable' == undeletable || undeletable' == undeletable + {old(segments[i].number)}
      ensures undeletable' == undeletable ==>
                && segments == RemoveAt(old(segments), i)
                && Numbers(segments) == old(Numbers(segments)) - {old(segments[i].number)}
                && stats == old(stats).Evict(cfg.overflow)
                && old(segments[i].number) in dir.files && dir.unread >= old(dir.unread)
                && gaps == old(gaps) + if cfg.overflow == Retention || dir.unread > old(dir.unread) then []
                                       else Told(dir.crc, dir.files, recordTime, old(segments[i].number))
      ensures undeletable' != undeletable ==>
                && segments == old(segments) && gaps == old(gaps)
                && stats == old(stats).(deleteFailures := old(stats.deleteFailures) + 1)
      ensures undeletable' <= Numbers(segments) && dir.unread >= old(dir.unread)
      ensures NamesStay(old(dir.Gone()), old(stats), dir.Gone(), stats)
    {
      hide Content, Frames, Ledger, Batch, Directory.Recorded, Safe, Snug, OnDisk, Clean, Total, First, Fits, Small,
           Capped, Told;
      ghost var v := dir.Now();
      var number := segments[i].number;
      VictimSealed(dir.crc, v, segments, recs, queue, promised, cfg.segmentBytes, i);
      var gap := VictimGap(number);
      assert number in Numbers(segments);
      var removed := dir.Remove(number);
      if removed {
        Forget(i, v);
        CountEviction(gap);
        undeletable' := undeletable;
      } else {
        CountFailure(v);
        undeletable' := undeletable + {number};
      }
    }

    /** What is to be reported of a segment before it goes. */
    method VictimGap(number: u64) returns (gap: Gap)
      requires number in dir.files
      modifies dir`unread
      ensures dir.unread >= old(dir.unread)
      ensures (if gap.records > 0 then [gap] else [])
           == if cfg.overflow == Retention || dir.unread > old(dir.unread) then []
              else Told(dir.crc, dir.files, recordTime, number)
    {
      hide Decode, AddAll, Tells;
      NoneAdded(NO_GAP, recordTime);
      gap := NO_GAP;
      if cfg.overflow != Retention {
        var read := dir.ReadAll(number);
        gap := SegmentGap(read);
      }
    }

    /** A deletion that failed is counted. */
    method CountFailure(ghost v: View)
      requires segments != [] && cfg.Valid() && first in recs && forall s | s in recs :: first <= s
      requires OnDisk(dir.crc, v, segments, recs, queue, promised, cfg.segmentBytes)
      requires (file ==> Clean(dir.crc, v, segments, recs))
      requires dir.files == v.files && dir.plan == v.plan && dir.damaged == v.damaged && dir.current == v.current
      requires dir.Recorded()
      requires Ledger(accepted, fates, queue, recs, Number(), stats.recordsWritten, stats.overflowDrops)
      requires Capped(segments, cfg, rotations, stats.deleteFailures)
      requires modest && Fits(accepted, cfg.segmentBytes) ==> Small(segments, cfg.segmentBytes)
      requires Snug(accepted, Active(segments), cfg.segmentBytes)
      requires Safe(dir.files, dir.durable, dir.damaged, Active(segments), unsynced)
      modifies this`stats
      ensures Stored() && (file ==> Opened())
      ensures stats == old(stats).(deleteFailures := old(stats.deleteFailures) + 1)
    {
      hide Content, Frames, Ledger, Batch, Directory.Recorded, Safe, Snug, OnDisk, Clean, Total, Fits, Small;
      SameOnDisk(dir.crc, v, dir.Now(), segments, recs, queue, promised, cfg.segmentBytes);
      stats := stats.(deleteFailures := stats.deleteFailures + 1);
    }

    /** A deleted segment leaves the list. */
    method Forget(i: nat, ghost v: View)
      requires segments != [] && i < |segments| - 1 && Ascending(segments) && cfg.Valid()
      requires first in recs && forall s | s in recs :: first <= s
      requires OnDisk(dir.crc, v, segments, recs, queue, promised, cfg.segmentBytes)
      requires (file ==> Clean(dir.crc, v, segments, recs))
      requires dir.files == v.files && dir.plan == v.plan && dir.damaged == v.damaged && dir.current == v.current
      requires dir.Recorded()
      requires Ledger(accepted, fates, queue, recs, Number(), stats.recordsWritten, stats.overflowDrops)
      requires Capped(segments, cfg, rotations, stats.deleteFailures)
      requires modest && Fits(accepted, cfg.segmentBytes) ==> Small(segments, cfg.segmentBytes)
      requires Snug(accepted, Active(segments), cfg.segmentBytes)
      requires Safe(dir.files, dir.durable, dir.damaged, Active(segments), unsynced)
      modifies this`segments
      ensures Stored() && (file ==> Opened())
      ensures segments == RemoveAt(old(segments), i) && Active(segments) == old(Active(segments))
      ensures Numbers(segments) == old(Numbers(segments)) - {old(segments[i].number)}
    {
      hide Content, Frames, Ledger, Batch, Directory.Recorded, Safe, Snug, OnDisk, Clean, Total, Fits, Capped,
           Ascending;
      RemovedOnDisk(dir.crc, v, dir.Now(), segments, i, recs, queue, promised, cfg.segmentBytes);
      CappedWithout(segments, i, cfg, rotations, stats.deleteFailures);
      NumbersWithout(segments, i);
      segments := RemoveAt(segments, i);
    }

    /** An evicted segment is counted, and reported as a gap unless the policy is `Retention`. */
    method CountEviction(gap: Gap)
      requires Stored() && (file ==> Opened())
      modifies this`stats, this`gaps
      ensures Stored() && (file ==> Opened())
      ensures stats == old(stats).Evict(cfg.overflow)
      ensures gaps == old(gaps) + if cfg.overflow != Retention && gap.records > 0 then [gap] else []
    {
      hide Content, Frames, Ledger, Batch, Directory.Recorded, Safe, Snug, OnDisk, Clean, Total, Fits, Small;
      stats := stats.Evict(cfg.overflow);
      if cfg.overflow != Retention && gap.records > 0 { gaps := gaps + [gap]; }
    }

    /** The open file exists. */
    lemma FileThere()
      requires Stored() && Opened()
      ensures segments != [] && cfg.Valid() && Number() in dir.files && Number() in recs
    {
      hide Content, OnDisk, Ledger, Directory.Recorded, Safe, Snug, Capped;
    }

    /** An open file holds what counts as written. */
    lemma OpenLen()
      requires Stored() && Opened()
      ensures segments != []
      ensures dir.damaged || (Number() in dir.files && |dir.files[Number()]| >= Active(segments).len)
    {
      hide Content, Ledger, Directory.Recorded, Capped, Safe, Batch;
    }

    /** Makes room and goes on in the next segment. */
    method Rotate() returns (room: Room)
      requires Stored() && Opened() && promised == 0
      modifies this`segments, this`stats, this`gaps, this`file, this`unsynced, this`recs, this`rotations,
               dir`files, dir`listed, dir`plan, dir`current, dir`history, dir`durable, dir`unread, dir`failures
      ensures Stored() && old(dir.history) <= dir.history && Settled(old(stats), stats)
      ensures NamesStay(old(dir.Gone()), old(stats), dir.Gone(), stats)
      ensures room.Made? ==> Opened() && old(Number()) < U64_MAX && rotations == old(rotations) + 1
      ensures room.Made? ==> Active(segments) == Segment(old(Number()) + 1, SEGMENT_HEADER)
      ensures room.Made? && stats.deleteFailures == old(stats.deleteFailures) ==>
                && !cfg.Over(Fitted(old(segments), cfg))
                && segments == Fitted(old(segments), cfg) + [Segment(old(Number()) + 1, SEGMENT_HEADER)]
      ensures room.Full? ==> Opened() && recs == old(recs) && stats.deleteFailures == old(stats.deleteFailures)
      ensures room.Full? ==> segments == Fitted(old(segments), cfg) && cfg.Over(segments)
      ensures room.Full? && Small(segments, cfg.segmentBytes) ==> cfg.overflow == DropNewest
      ensures room.RotateFailed? ==> !file
      ensures if room.RotateFailed? then Excused(dir.failures, old(dir.failures), segments)
              else dir.failures == old(dir.failures)
      ensures GoesUp(old(segments), segments)
    {
      hide Content, Frames, Ledger, Batch, Directory.Recorded, Safe, Snug, OnDisk, Clean, Total, First, Fits, Evicted,
           Small, Capped, Fitted, Numbers, Exhausted, Config.Over, LogWriter.Stored;
      FileThere();
      ghost var segs, counts := segments, stats;
      ghost var failed: set<u64>;
      room, failed := MakeRoom();
      EvictedSettles(segs, counts, segments, stats, cfg);
      if room == Made {
        var ok := StartNext(counts);
        room := if ok then Made else RotateFailed;
      }
    }

    /** Flushes the open file. */
    method SyncActive() returns (ok: bool)
      requires Stored() && Opened()
      modifies this`unsynced, dir`durable, dir`failures
      ensures Stored() && Opened() && unsynced == (old(unsynced) && !ok)
      ensures ok ==> Number() in dir.files && Number() in dir.durable && dir.durable[Number()] == |dir.files[Number()]|
      ensures dir.failures == old(dir.failures) + if ok then 0 else 1
    {
      hide Content, Frames, Ledger, Batch, Directory.Recorded, Safe, OnDisk, Clean, Total, Fits, Small, Capped, Snug;
      FileThere();
      OpenLen();
      ghost var durable := dir.durable;
      ok := dir.Sync(Number());
      SafeSynced(dir.files, durable, dir.durable, dir.damaged, Active(segments), unsynced, ok);
      if ok { unsynced := false; }
    }

    /** Flushes, and opens the next segment. */
    method StartNext(ghost counts: Stats) returns (ok: bool)
      requires Stored() && Opened() && promised == 0
      requires stats.deleteFailures >= counts.deleteFailures
      requires stats.deleteFailures == counts.deleteFailures ==> !cfg.Over(segments)
      modifies this`segments, this`file, this`unsynced, this`recs, this`rotations,
               dir`files, dir`listed, dir`plan, dir`current, dir`history, dir`durable, dir`failures
      ensures Stored() && old(dir.history) <= dir.history && ok == file && dir.Gone() <= old(dir.Gone())
      ensures ok ==> Opened() && old(Number()) < U64_MAX && rotations == old(rotations) + 1
      ensures ok ==> segments == old(segments) + [Segment(old(Number()) + 1, SEGMENT_HEADER)]
      ensures if ok then dir.failures == old(dir.failures) else Excused(dir.failures, old(dir.failures), segments)
      ensures GoesUp(old(segments), segments)
    {
      hide Content, Frames, Ledger, Batch, Directory.Recorded, Safe, Snug, OnDisk, Clean, Total, Fits, Small, Capped,
           Config.Over, LogWriter.Stored;
      Basics();
      ok := SyncActive();
      Basics();
      FileThere();
      file := false;
      if !ok { return; }
      if Number() == U64_MAX { return false; }
      ghost var left := segments;
      NextSegment(counts);
      StartedNew(left, Active(left).number + 1);
      ok := OpenActive();
    }

    /** Adds the next segment; its file is made by `OpenActive`. */
    method NextSegment(ghost counts: Stats)
      requires Stored() && !file && promised == 0 && Clean(dir.crc, dir.Now(), segments, recs) && Number() < U64_MAX
      requires stats.deleteFailures >= counts.deleteFailures
      requires stats.deleteFailures == counts.deleteFailures ==> !cfg.Over(segments)
      requires Number() in dir.files && Number() in dir.durable && dir.durable[Number()] == |dir.files[Number()]|
      modifies this`segments, this`recs, this`rotations, dir`current, dir`history
      ensures Stored() && old(dir.history) <= dir.history && rotations == old(rotations) + 1
      ensures segments == old(segments) + [Segment(old(Number()) + 1, 0)]
    {
      hide Content, Frames, Ledger, Batch, Directory.Recorded, Safe, OnDisk, Clean, Total, First, Fits;
      ghost var b, v := Number() + 1, dir.Now();
      ActivePlanned(dir.crc, v, segments, recs, queue, cfg.segmentBytes);
      dir.Seal(b);
      RotatedOnDisk(dir.crc, v, dir.Now(), segments, recs, queue, cfg.segmentBytes, b);
      LedgerRotate(accepted, fates, queue, recs, Number(), stats.recordsWritten, stats.overflowDrops, b);
      assert Sealed(segments + [Segment(b, 0)]) == segments;
      SafeNext(dir.files, dir.durable, dir.damaged, Active(segments), unsynced);
      segments, recs, rotations := segments + [Segment(Number() + 1, 0)], recs[b := []], rotations + 1;
    }

    /** Drops `pending[from..]` and counts it in the open gap. */
    method DropPending(from: nat)
      requires Stored() && (file ==> Opened()) && promised == 0 && from <= |pending|
      requires pending[from..] == Frames(dir.crc, queue)
      modifies this`stats, this`dropGap, this`queue, this`fates
      ensures Stored() && (file ==> Opened()) && queue == [] && fates == old(fates) + Same(|old(queue)|, false)
      ensures stats == old(stats).(overflowDrops := old(stats.overflowDrops) + |old(queue)|)
      ensures dropGap == Some(AddAll(if old(dropGap).Some? then old(dropGap).value else NO_GAP, recordTime, old(queue)))
    {
      hide Content, Frames, Ledger, Batch, Directory.Recorded, Safe, Snug, OnDisk, Clean, Total, First, Fits, FromLe32,
           Small, Capped, RecordLen, AddAll;
      var gap, at, drops := if dropGap.Some? then dropGap.value else NO_GAP, from, 0;
      ghost var n, open := 0, gap;
      NoneAdded(open, recordTime);
      assert queue[0..] == queue && queue[..0] == [];
      while at < |pending|
        invariant from <= at <= |pending| && n <= |queue| && drops == n
        invariant pending[at..] == Frames(dir.crc, queue[n..])
        invariant gap == AddAll(open, recordTime, queue[..n])
        decreases |pending| - at
        modifies {}
      {
        EmptyFrames(dir.crc, queue[n..]);
        RecordLenOfFrames(dir.crc, pending, at, queue[n..]);
        PayloadOfFrames(dir.crc, pending, at, queue[n..]);
        AddOne(open, recordTime, queue[..n], queue[n]);
        assert queue[n..][1..] == queue[n + 1..] && queue[..n + 1] == queue[..n] + [queue[n]];
        var next := at + RecordLen(pending, at);
        gap, drops := gap.Add(recordTime(pending[at + RECORD_HEADER..next])), drops + 1;
        at, n := next, n + 1;
      }
      EmptyFrames(dir.crc, queue[n..]);
      assert queue[..|queue|] == queue;
      LedgerDrop(accepted, fates, queue, recs, Number(), stats.recordsWritten, stats.overflowDrops);
      DroppedOnDisk(dir.crc, dir.Now(), segments, recs, queue, cfg.segmentBytes);
      dropGap := Some(gap);
      stats := stats.(overflowDrops := stats.overflowDrops + drops);
      fates, queue := fates + Same(|queue|, false), [];
    }

    /** The active segment takes no more: rotates, or drops what is left if there is no room. */
    method RotateOrDrop(done: nat) returns (room: Room)
      requires Stored() && Opened() && promised == 0 && done <= |pending| && pending[done..] == Frames(dir.crc, queue)
      requires queue != [] && Batch(queue, Active(segments).len, cfg.segmentBytes) == 0
      modifies this`segments, this`stats, this`gaps, this`file, this`unsynced, this`recs, this`rotations,
               this`dropGap, this`queue, this`fates,
               dir`files, dir`listed, dir`plan, dir`current, dir`history, dir`durable, dir`unread, dir`failures
      ensures Stored() && old(dir.history) <= dir.history && Progress(old(stats), old(fates), stats, fates)
      ensures NamesStay(old(dir.Gone()), old(stats), dir.Gone(), stats)
      ensures room.Made? ==> Opened() && queue == old(queue) && Active(segments).len == SEGMENT_HEADER
      ensures room.RotateFailed? ==> queue == old(queue)
      ensures room.Full? ==> Opened() && queue == []
      ensures !room.Full? ==> stats.overflowDrops == old(stats.overflowDrops)
      ensures !room.RotateFailed? && stats.deleteFailures == old(stats.deleteFailures) ==>
                Shifted(old(queue), old(segments), queue, segments, stats.overflowDrops - old(stats.overflowDrops), cfg)
      ensures KeepsRecords(cfg, modest, accepted) ==> stats.overflowDrops == old(stats.overflowDrops)
      ensures if room.RotateFailed? then Excused(dir.failures, old(dir.failures), segments)
              else dir.failures == old(dir.failures)
      ensures GoesUp(old(segments), segments)
    {
      hide Content, Frames, Ledger, Batch, Directory.Recorded, Safe, Snug, OnDisk, Clean, Total, First, Fits, Small,
           Capped, Fitted, Flushed, Config.Over;
      ghost var q, segs := queue, segments;
      room := Rotate();
      if room == Full {
        NoRoomFor(segs, cfg, modest, accepted);
        FlushedFull(q, segs, cfg);
        FlushedNone(segments, cfg);
        DropPending(done);
      } else if room == Made && stats.deleteFailures == old(stats.deleteFailures) {
        FlushedRotated(q, segs, cfg);
      }
    }

    /** Writes the queue, over as many segments as it takes. `done`: how far whole records were written
        or dropped, also on an error. */
    method WriteFrom() returns (ok: bool, done: nat)
      requires Stored() && Opened() && pending == Frames(dir.crc, queue)
      modifies this`segments, this`stats, this`gaps, this`file, this`unsynced, this`recs, this`rotations,
               this`dropGap, this`queue, this`fates, this`promised,
               dir`files, dir`listed, dir`plan, dir`current, dir`history, dir`durable, dir`unread, dir`failures
      ensures Stored() && old(dir.history) <= dir.history
      ensures done <= |pending| && pending[done..] == Frames(dir.crc, queue)
      ensures ok ==> Opened() && queue == []
      ensures Progress(old(stats), old(fates), stats, fates)
      ensures NamesStay(old(dir.Gone()), old(stats), dir.Gone(), stats)
      ensures ok && stats.deleteFailures == old(stats.deleteFailures) ==>
                Shifted(old(queue), old(segments), [], segments, stats.overflowDrops - old(stats.overflowDrops), cfg)
      ensures KeepsRecords(cfg, modest, accepted) ==> stats.overflowDrops == old(stats.overflowDrops)
      ensures if ok then dir.failures == old(dir.failures) else Excused(dir.failures, old(dir.failures), segments)
      ensures GoesUp(old(segments), segments)
    {
      hide Content, Frames, Ledger, Batch, Directory.Recorded, Safe, Snug, OnDisk, Clean, Total, Fits, Small, Capped,
           Flushed, Shifted, KeepsRecords, LogWriter.Stored, LogWriter.Opened;
      Basics();
      done := 0;
      ShiftedSame(queue, segments, cfg);
      while done < |pending|
        invariant Stored() && Opened() && old(dir.history) <= dir.history
        invariant done <= |pending| && pending[done..] == Frames(dir.crc, queue)
        invariant Progress(old(stats), old(fates), stats, fates)
        invariant NamesStay(old(dir.Gone()), old(stats), dir.Gone(), stats)
        invariant stats.overflowDrops == old(stats.overflowDrops) && dir.failures == old(dir.failures)
        invariant GoesUp(old(segments), segments)
        invariant stats.deleteFailures == old(stats.deleteFailures) ==>
                    Shifted(old(queue), old(segments), queue, segments, 0, cfg)
        decreases |queue|, if Batch(queue, Active(segments).len, cfg.segmentBytes) == 0 then 1 else 0
      {
        ghost var q, segs, counts := queue, segments, stats;
        Basics();
        EmptyFrames(dir.crc, queue);
        BatchOfSome(queue, Active(segments).len, cfg.segmentBytes);
        var end, count := NextBatch(done);
        FramesSize(dir.crc, queue[..count]);
        EmptyFrames(dir.crc, queue[..count]);
        if end == done {
          NothingPromised();
          var room := RotateOrDrop(done);
          ShiftedMore(old(queue), old(segments), q, segs, queue, segments, stats.overflowDrops - counts.overflowDrops,
              cfg);
          if room == RotateFailed { return false, done; }
          if room == Full {
            EmptyFrames(dir.crc, queue);
            return true, |pending|;
          }
          BatchOfSome(queue, Active(segments).len, cfg.segmentBytes);
        } else {
          ok := WriteBatch(done, end, count);
          if !ok { return false, done; }
          ShiftedBatch(q, segs, cfg);
          ShiftedMore(old(queue), old(segments), q, segs, queue, segments, 0, cfg);
          done := end;
        }
      }
      EmptyFrames(dir.crc, queue);
      ok := true;
    }

    /** Writes the whole queue, then flushes. */
    method FlushNow() returns (ok: bool)
      requires Valid()
      modifies this`segments, this`stats, this`gaps, this`file, this`unsynced, this`recs, this`rotations,
               this`dropGap, this`queue, this`fates, this`promised, this`pending,
               dir`files, dir`listed, dir`plan, dir`current, dir`history, dir`durable, dir`unread, dir`failures
      ensures Stored() && pending == Frames(dir.crc, queue) && old(dir.history) <= dir.history
      ensures ok ==> Valid() && queue == [] && !unsynced
      ensures Progress(old(stats), old(fates), stats, fates)
      ensures NamesStay(old(dir.Gone()), old(stats), dir.Gone(), stats)
      ensures ok && old(queue) != [] && stats.deleteFailures == old(stats.deleteFailures) ==>
                Shifted(old(queue), Started(old(segments)), [], segments,
                        stats.overflowDrops - old(stats.overflowDrops), cfg)
      ensures KeepsRecords(cfg, modest, accepted) ==> stats.overflowDrops == old(stats.overflowDrops)
      ensures old(queue) == [] && !old(unsynced) ==>
                ok && dir.Now() == old(dir.Now()) && segments == old(segments) && stats == old(stats)
      ensures if ok then dir.failures == old(dir.failures) else Excused(dir.failures, old(dir.failures), segments)
      ensures GoesUp(old(segments), segments)
    {
      hide Content, Frames, Ledger, Batch, Directory.Recorded, Safe, Snug, OnDisk, Total, Fits, Small, Capped, Flushed,
           Shifted, KeepsRecords, Started, Clean, LogWriter.Stored;
      Basics();
      EmptyFrames(dir.crc, queue);
      OpenStarted(dir.crc, dir.Now(), segments, recs);
      if !file && (pending != [] || unsynced) {
        ok := OpenActive();
        if !ok { return; }
      }
      if pending != [] {
        var done;
        ok, done := WriteFrom();
        pending := pending[done..];
        if !ok { return; }
      }
      EmptyFrames(dir.crc, queue);
      if unsynced {
        ok := SyncActive();
        if !ok { return; }
      }
      ok := true;
    }

    /** Queues one record in memory; an error says why it was refused. */
    method Append(payload: seq<byte>) returns (r: Appended)
      requires Valid()
      modifies this`pending, this`stats, this`accepted, this`queue
      ensures Valid()
      ensures r == Rejected <==> payload == [] || |payload| > MAX_PAYLOAD
      ensures r == BacklogFull <==> r != Rejected && |old(pending)| + RECORD_HEADER + |payload| > cfg.backlogBytes
      ensures r == Queued ==> accepted == old(accepted) + [payload] && queue == old(queue) + [payload]
      ensures r == Queued ==> stats == old(stats)
      ensures r != Queued ==> accepted == old(accepted) && queue == old(queue) && pending == old(pending)
      ensures r == Rejected ==> stats == old(stats).(rejected := old(stats.rejected) + 1)
      ensures r == BacklogFull ==> stats == old(stats).(backlogDrops := old(stats.backlogDrops) + 1)
    {
      hide Content, Frames, Ledger, Batch, Directory.Recorded, Safe, OnDisk, Clean, Total, Small, Frame, Capped;
      if payload == [] || |payload| > MAX_PAYLOAD {
        stats := stats.(rejected := stats.rejected + 1);
        return Rejected;
      }
      if |pending| + RECORD_HEADER + |payload| > cfg.backlogBytes {
        stats := stats.(backlogDrops := stats.backlogDrops + 1);
        return BacklogFull;
      }
      LedgerAccept(accepted, fates, queue, recs, Number(), stats.recordsWritten, stats.overflowDrops, payload);
      QueuedOnDisk(dir.crc, dir.Now(), segments, recs, queue, promised, cfg.segmentBytes, payload);
      FramesSnoc(dir.crc, queue, payload);
      assert forall p | p in accepted :: p in accepted + [payload];
      pending := pending + Frame(dir.crc, payload);
      accepted, queue := accepted + [payload], queue + [payload];
      r := Queued;
    }

    predicate Due(now: int)
      reads this`retryAt, this`lastFlush, this`pending
    {
      if retryAt.Some? then now >= retryAt.value
      else lastFlush.None? || Since(now, lastFlush.value) >= cfg.flushInterval || |pending| >= cfg.backlogBytes / 2
    }

    /** Flushes if it is time to. What an error leaves unwritten stays in the queue. */
    method Tick(now: int) returns (ok: bool)
      requires Valid()
      modifies this`segments, this`stats, this`gaps, this`file, this`unsynced, this`recs, this`rotations,
               this`dropGap, this`queue, this`fates, this`promised, this`pending, this`lastFlush, this`retryAt,
               dir`files, dir`listed, dir`plan, dir`current, dir`history, dir`durable, dir`unread, dir`failures
      ensures Valid() && old(dir.history) <= dir.history && old(fates) <= fates
      ensures NamesStay(old(dir.Gone()), old(stats), dir.Gone(), stats)
      ensures !old(Due(now)) ==> ok && dir.Now() == old(dir.Now()) && queue == old(queue) && stats == old(stats)
      ensures !old(Due(now)) ==> segments == old(segments) && retryAt == old(retryAt) && fates == old(fates)
      ensures !old(Due(now)) ==> dir.history == old(dir.history)
      // The next one is counted from the last that was due.
      ensures lastFlush == if old(Due(now)) then Some(now) else old(lastFlush)
      ensures old(Due(now)) && ok ==> queue == [] && retryAt == None && !unsynced
      ensures old(Due(now)) && ok ==> stats.recoveries == old(stats.recoveries) + if old(retryAt).Some? then 1 else 0
      ensures !ok ==> retryAt == Some(now + cfg.retryInterval) && !file
      ensures !ok ==> stats.writeErrors == old(stats.writeErrors) + 1
      // Without failures the segments and the drops are exactly those of `Flushed`.
      ensures old(Due(now)) && ok && old(queue) != [] && stats.deleteFailures == old(stats.deleteFailures) ==>
                stats.overflowDrops >= old(stats.overflowDrops)
                && Flushed(old(queue), Started(old(segments)), cfg)
                == Some(Outcome(segments, stats.overflowDrops - old(stats.overflowDrops)))
      ensures KeepsRecords(cfg, modest, accepted) ==> stats.overflowDrops == old(stats.overflowDrops)
      // It fails exactly if a call fails, or the segment numbers run out.
      ensures if ok then dir.failures == old(dir.failures) else Excused(dir.failures, old(dir.failures), segments)
      ensures GoesUp(old(segments), segments)
      ensures stats.Refused() == old(stats.Refused())
    {
      hide Content, Frames, Ledger, Batch, Directory.Recorded, Safe, Snug, OnDisk, Clean, Total, Fits, Small, Capped,
           Flushed, Shifted, KeepsRecords, Started, LogWriter.Stored, LogWriter.Opened;
      Basics();
      if retryAt.Some? {
        if now < retryAt.value { return true; }
      } else {
        var due := lastFlush.None? || Since(now, lastFlush.value) >= cfg.flushInterval;
        var crowded := |pending| >= cfg.backlogBytes / 2;
        if !due && !crowded { return true; }
      }
      lastFlush := Some(now);
      ok := FlushNow();
      if ok {
        ShiftedEnd(old(queue), Started(old(segments)), segments, stats.overflowDrops - old(stats.overflowDrops), cfg);
        if retryAt.Some? {
          retryAt := None;
          CountTick(stats.(recoveries := stats.recoveries + 1));
        }
      } else {
        file := false;
        retryAt := Some(now + cfg.retryInterval);
        CountTick(stats.(writeErrors := stats.writeErrors + 1));
      }
    }

    /** Counts an error or a recovery. */
    method CountTick(stats': Stats)
      requires Stored() && (file ==> Opened())
      requires stats' == stats.(recoveries := stats'.recoveries, writeErrors := stats'.writeErrors)
      modifies this`stats
      ensures Stored() && (file ==> Opened()) && stats == stats'
    {
      hide Content, Frames, Ledger, Batch, Directory.Recorded, Safe, Snug, OnDisk, Clean, Total, Fits, Small, Capped;
      stats := stats';
    }

    /** Everything before `cursor` was delivered: its segments can go. `stores`: storing it works. */
    method Ack(cursor: Cursor, stores: bool) returns (r: Acked)
      requires Valid()
      modifies this`acked, this`segments, this`stats, dir`listed, dir`history
      ensures Valid() && old(dir.history) <= dir.history
      ensures r == Ignored <==> old(acked).Some? && !old(acked).value.Before(cursor)
      ensures r == PastNewest <==> r != Ignored && cursor.segment > Number()
      ensures r == StoreFailed <==> r != Ignored && r != PastNewest && !stores
      ensures r != Recorded ==> acked == old(acked) && segments == old(segments) && stats == old(stats)
      ensures r == Recorded ==> acked == Some(cursor) && Active(segments) == old(Active(segments))
      ensures r == Recorded && stats.deleteFailures == old(stats.deleteFailures) ==>
                forall i | 0 <= i < |segments| - 1 :: segments[i].number >= cursor.segment
      ensures forall n | n in old(Numbers(segments)) && n >= cursor.segment :: n in Numbers(segments)
      ensures Numbers(segments) <= old(Numbers(segments))
      ensures GoneBefore(old(dir.Gone()), dir.Gone(), cursor.segment) && stats.Evictions() == old(stats.Evictions())
      ensures stats.Refused() == old(stats.Refused())
    {
      hide Content, Frames, Ledger, Batch, Directory.Recorded, Safe, Snug, OnDisk, Clean, Total, Fits, Small, Capped;
      if acked.Some? && !acked.value.Before(cursor) { return Ignored; }
      if cursor.segment > Number() { return PastNewest; }
      if !stores { return StoreFailed; }
      acked := Some(cursor);
      DeleteBehind(cursor);
      r := Recorded;
    }

    method DeleteBehind(cursor: Cursor)
      requires Valid() && cursor.segment <= Number()
      modifies this`segments, this`stats, dir`listed, dir`history
      ensures Valid() && old(dir.history) <= dir.history
      ensures Active(segments) == old(Active(segments)) && Numbers(segments) <= old(Numbers(segments))
      ensures stats.deleteFailures == old(stats.deleteFailures) ==>
                forall i | 0 <= i < |segments| - 1 :: segments[i].number >= cursor.segment
      ensures forall n | n in old(Numbers(segments)) && n >= cursor.segment :: n in Numbers(segments)
      ensures GoneBefore(old(dir.Gone()), dir.Gone(), cursor.segment) && stats.Evictions() == old(stats.Evictions())
      ensures stats.Refused() == old(stats.Refused())
    {
      hide Content, Frames, Ledger, Batch, Directory.Recorded, Safe, Snug, OnDisk, Clean, Total, Fits, Small, Capped;
      var i := 0;
      while i < |segments| - 1
        invariant i < |segments|
        invariant Valid() && old(dir.history) <= dir.history
        invariant Active(segments) == old(Active(segments)) && Numbers(segments) <= old(Numbers(segments))
        invariant stats.deleteFailures >= old(stats.deleteFailures)
        invariant stats.deleteFailures == old(stats.deleteFailures) ==>
                    forall j | 0 <= j < i :: segments[j].number >= cursor.segment
        invariant forall n | n in old(Numbers(segments)) && n >= cursor.segment :: n in Numbers(segments)
        invariant GoneBefore(old(dir.Gone()), dir.Gone(), cursor.segment)
        invariant stats.Evictions() == old(stats.Evictions())
        invariant stats.Refused() == old(stats.Refused())
        decreases |segments| - i
      {
        if segments[i].number >= cursor.segment {
          i := i + 1;
        } else {
          ghost var before := segments;
          var removed := DeleteSegment(i);
          if removed {
            assert forall j | 0 <= j < i :: segments[j] == before[j];
          } else {
            i := i + 1;
          }
        }
      }
    }

    /** Deletes one segment before the active one, or counts the failure. */
    method DeleteSegment(i: nat) returns (removed: bool)
      requires Valid() && i < |segments| - 1
      modifies this`segments, this`stats, dir`listed, dir`history
      ensures Valid() && old(dir.history) <= dir.history
      ensures Active(segments) == old(Active(segments))
      ensures removed ==> segments == RemoveAt(old(segments), i) && stats == old(stats)
      ensures removed ==> Numbers(segments) == old(Numbers(segments)) - {old(segments[i].number)}
      ensures !removed ==> segments == old(segments)
      ensures !removed ==> stats == old(stats).(deleteFailures := old(stats.deleteFailures) + 1)
      ensures GoneBefore(old(dir.Gone()), dir.Gone(), old(segments[i].number) + 1)
    {
      hide Content, Frames, Ledger, Batch, Directory.Recorded, Safe, Snug, OnDisk, Clean, Total, Fits, Small, Capped;
      ghost var v := dir.Now();
      VictimSealed(dir.crc, v, segments, recs, queue, promised, cfg.segmentBytes, i);
      removed := dir.Remove(segments[i].number);
      if removed {
        Forget(i, v);
      } else {
        CountFailure(v);
      }
    }

    /** Hands out all gaps, the open one last. */
    method TakeGaps() returns (r: seq<Gap>)
      requires Valid()
      modifies this`gaps, this`dropGap
      ensures Valid() && gaps == [] && dropGap == None
      ensures r == old(gaps) + if old(dropGap).Some? then [old(dropGap).value] else []
    {
      hide Frames, Ledger, Directory.Recorded, Safe, Snug, OnDisk, Clean, Total, Small, Fits, Capped;
      r := gaps + if dropGap.Some? then [dropGap.value] else [];
      gaps, dropGap := [], None;
    }
  }

  /** The whole records a read found in a segment; none if it found no segment. */
  function Whole(crc: Checksum, read: Io<seq<byte>>): seq<Payload> {
    if read.Done? && SEGMENT_MAGIC <= read.value then Decode(crc, read.value[SEGMENT_HEADER..]) else []
  }

  /** The report of the records in a file, if there are any. */
  ghost function Told(crc: Checksum, files: map<u64, seq<byte>>, time: RecordTime, n: u64): seq<Gap> {
    var gap := AddAll(NO_GAP, time, if n in files then Whole(crc, Done(files[n])) else []);
    if gap.records > 0 then [gap] else []
  }

  /** The reports of all the segments that the policy deletes. */
  ghost function Reported(segs: seq<Segment>, cfg: Config, crc: Checksum, files: map<u64, seq<byte>>,
                          time: RecordTime): seq<Gap>
    requires segs != []
    decreases |segs|
  {
    var i := First(segs, cfg.overflow);
    if !cfg.Over(segs) || i == |segs| - 1 then []
    else Told(crc, files, time, segs[i].number) + Reported(RemoveAt(segs, i), cfg, crc, files, time)
  }

  lemma ReportedNone(segs: seq<Segment>, cfg: Config, crc: Checksum, files: map<u64, seq<byte>>, time: RecordTime)
    requires segs != [] && (cfg.Over(segs) ==> Exhausted(segs, cfg, {}))
    ensures Reported(segs, cfg, crc, files, time) == []
  {
    hide Total, Pinned, First;
    if cfg.Over(segs) {
      ExhaustedByNone(segs, cfg);
    }
  }

  lemma ReportedNext(segs: seq<Segment>, cfg: Config, skip: set<u64>, i: nat, crc: Checksum,
                     files: map<u64, seq<byte>>, time: RecordTime)
    requires segs != [] && cfg.Over(segs) && First(segs, cfg.overflow) <= i < |segs| - 1
    requires forall j | First(segs, cfg.overflow) <= j < i :: segs[j].number in skip
    ensures skip == {} ==>
              Reported(segs, cfg, crc, files, time)
              == Told(crc, files, time, segs[i].number) + Reported(RemoveAt(segs, i), cfg, crc, files, time)
  {
    hide Total, Pinned, Told;
    var first := First(segs, cfg.overflow);
    if first < i {
      InSkip(segs, skip, first, i, first);
    }
  }

  /** Records in these segments' files. */
  ghost function Holds(segs: seq<Segment>, crc: Checksum, files: map<u64, seq<byte>>): nat {
    if segs == [] then 0
    else Holds(segs[1..], crc, files)
         + if segs[0].number in files then |Whole(crc, Done(files[segs[0].number]))| else 0
  }

  ghost function RecordsIn(gaps: seq<Gap>): nat {
    if gaps == [] then 0 else gaps[0].records + RecordsIn(gaps[1..])
  }

  lemma {:induction false} RecordsInBoth(a: seq<Gap>, b: seq<Gap>)
    ensures RecordsIn(a + b) == RecordsIn(a) + RecordsIn(b)
  {
    if a == [] {
      assert a + b == b;
    } else {
      RecordsInBoth(a[1..], b);
      assert (a + b)[1..] == a[1..] + b;
    }
  }

  lemma {:induction false} HoldsWithout(segs: seq<Segment>, i: nat, crc: Checksum, files: map<u64, seq<byte>>)
    requires i < |segs|
    ensures Holds(segs, crc, files) == Holds(RemoveAt(segs, i), crc, files) + Holds([segs[i]], crc, files)
  {
    hide Decode, Whole;
    assert [segs[i]][1..] == [];
    if i == 0 {
      assert RemoveAt(segs, 0) == segs[1..];
    } else {
      HoldsWithout(segs[1..], i - 1, crc, files);
      assert RemoveAt(segs, i)[1..] == RemoveAt(segs[1..], i - 1);
    }
  }

  /** Every record that goes with a segment is in a report, and no other. */
  lemma {:induction false} EvictedTold(segs: seq<Segment>, cfg: Config, crc: Checksum, files: map<u64, seq<byte>>,
                                       time: RecordTime)
    requires segs != []
    ensures RecordsIn(Reported(segs, cfg, crc, files, time)) + Holds(Fitted(segs, cfg), crc, files)
         == Holds(segs, crc, files)
    decreases |segs|
  {
    hide Total, Pinned, First, Decode, Whole;
    var i := First(segs, cfg.overflow);
    if cfg.Over(segs) && i < |segs| - 1 {
      var rest := RemoveAt(segs, i);
      EvictedTold(rest, cfg, crc, files, time);
      HoldsWithout(segs, i, crc, files);
      var ps := if segs[i].number in files then Whole(crc, Done(files[segs[i].number])) else [];
      GapTells(time, [], ps);
      assert [] + ps == ps;
      var gap := Told(crc, files, time, segs[i].number);
      assert gap != [] ==> gap[1..] == [];
      assert [segs[i]][1..] == [];
      RecordsInBoth(gap, Reported(rest, cfg, crc, files, time));
    }
  }

  lemma NoneAdded(gap: Gap, time: RecordTime)
    ensures AddAll(gap, time, []) == gap
  {
  }

  /** The payload of the framed record that starts at `at`. */
  lemma PayloadOfFrames(crc: Checksum, pending: seq<byte>, at: nat, queue: seq<Payload>)
    requires at <= |pending| && pending[at..] == Frames(crc, queue) && queue != []
    ensures at + RECORD_HEADER + |queue[0]| <= |pending|
    ensures pending[at + RECORD_HEADER..at + RECORD_HEADER + |queue[0]|] == queue[0]
  {
    var f := Frame(crc, queue[0]);
    assert Frames(crc, queue)[..|f|] == f;
    assert pending[at..][RECORD_HEADER..|f|] == f[RECORD_HEADER..];
  }

  /** Every segment the policy may delete is in `failed`. */
  ghost predicate Exhausted(segs: seq<Segment>, cfg: Config, failed: set<u64>)
    requires segs != []
  {
    forall j | First(segs, cfg.overflow) <= j < |segs| - 1 :: segs[j].number in failed
  }

  /** Writing `q` over `segs` is writing `q'` over `segs'`, once `drops` records were dropped. */
  ghost predicate Shifted(q: seq<Payload>, segs: seq<Segment>, q': seq<Payload>, segs': seq<Segment>, drops: int,
                          cfg: Config)
  {
    && segs != [] && segs' != []
    && match Flushed(q', segs', cfg)
       case None => Flushed(q, segs, cfg) == None
       case Some(o) => drops + o.dropped >= 0 && Flushed(q, segs, cfg) == Some(Outcome(o.segments, drops + o.dropped))
  }

  lemma ShiftedSame(q: seq<Payload>, segs: seq<Segment>, cfg: Config)
    requires segs != []
    ensures Shifted(q, segs, q, segs, 0, cfg)
  {
    hide Flushed;
  }

  lemma ShiftedBatch(q: seq<Payload>, segs: seq<Segment>, cfg: Config)
    requires segs != [] && Batch(q, Active(segs).len, cfg.segmentBytes) > 0
    ensures var n := Batch(q, Active(segs).len, cfg.segmentBytes);
            Shifted(q, segs, q[n..], Longer(segs, Size(q[..n])), 0, cfg)
  {
    hide Flushed, Batch;
    FlushedBatch(q, segs, cfg);
  }

  lemma ShiftedMore(q0: seq<Payload>, segs0: seq<Segment>, q: seq<Payload>, segs: seq<Segment>,
                    q': seq<Payload>, segs': seq<Segment>, drops: int, cfg: Config)
    ensures Shifted(q0, segs0, q, segs, 0, cfg) && Shifted(q, segs, q', segs', drops, cfg) ==>
              Shifted(q0, segs0, q', segs', drops, cfg)
  {
    hide Flushed;
  }

  lemma ShiftedEnd(q: seq<Payload>, segs: seq<Segment>, segs': seq<Segment>, drops: int, cfg: Config)
    ensures Shifted(q, segs, [], segs', drops, cfg) ==>
              segs != [] && drops >= 0 && Flushed(q, segs, cfg) == Some(Outcome(segs', drops))
  {
    hide Flushed;
    if segs' != [] {
      FlushedNone(segs', cfg);
    }
  }

  lemma SealedLonger(segs: seq<Segment>, n: nat)
    requires segs != []
    ensures Sealed(Longer(segs, n)) == Sealed(segs) && Active(Longer(segs, n)).number == Active(segs).number
  {
  }

  lemma WrittenLonger(crc: Checksum, v: View, w: View, segs: seq<Segment>, recs: map<u64, seq<Payload>>,
                      queue: seq<Payload>, n: nat, limit: nat)
    requires OnDisk(crc, v, segs, recs, queue, n, limit) && Clean(crc, v, segs, recs) && n <= |queue|
    requires var a := Active(segs).number;
             w == v.(files := v.files[a := v.files[a] + Frames(crc, queue[..n])])
    ensures var recs' := recs[Active(segs).number := recs[Active(segs).number] + queue[..n]];
            var longer := Longer(segs, |Frames(crc, queue[..n])|);
            OnDisk(crc, w, longer, recs', queue[n..], 0, limit) && Clean(crc, w, longer, recs')
  {
    hide Content, Frames, Batch;
    WrittenOnDisk(crc, v, w, segs, Longer(segs, |Frames(crc, queue[..n])|), recs, queue, n, limit);
  }

  lemma StartedNew(left: seq<Segment>, n: u64)
    ensures Started(left + [Segment(n, 0)]) == left + [Segment(n, SEGMENT_HEADER)]
  {
  }

  lemma CappedLonger(segs: seq<Segment>, n: nat, cfg: Config, rotations: nat, deleteFailures: nat)
    requires segs != []
    ensures Capped(segs, cfg, rotations, deleteFailures) ==> Capped(Longer(segs, n), cfg, rotations, deleteFailures)
  {
    SealedLonger(segs, n);
  }

  lemma HeaderCapped(segs: seq<Segment>, cfg: Config, rotations: nat, deleteFailures: nat)
    requires segs != [] && cfg.Valid() && Active(segs).len == 0
    ensures Small(segs, cfg.segmentBytes) ==> Small(Longer(segs, SEGMENT_HEADER), cfg.segmentBytes)
    ensures Capped(segs, cfg, rotations, deleteFailures) ==>
              Capped(Longer(segs, SEGMENT_HEADER), cfg, rotations, deleteFailures)
  {
    CappedLonger(segs, SEGMENT_HEADER, cfg, rotations, deleteFailures);
  }

  lemma FittedAlready(segs: seq<Segment>, cfg: Config)
    requires segs != [] && !cfg.Over(segs)
    ensures Fitted(segs, cfg) == segs
  {
  }

  lemma ExhaustedAll(segs: seq<Segment>, cfg: Config, failed: set<u64>)
    requires segs != [] && forall j | First(segs, cfg.overflow) <= j < |segs| - 1 :: segs[j].number in failed
    ensures Exhausted(segs, cfg, failed)
  {
  }

  lemma ExhaustedByNone(segs: seq<Segment>, cfg: Config)
    requires segs != [] && Exhausted(segs, cfg, {})
    ensures First(segs, cfg.overflow) == |segs| - 1
  {
    hide First;
    var first := First(segs, cfg.overflow);
    if first < |segs| - 1 {
      InSkip(segs, {}, first, |segs| - 1, first);
    }
  }

  lemma InSkip(segs: seq<Segment>, skip: set<u64>, from: nat, to: nat, i: nat)
    requires from <= i < to <= |segs| && forall j | from <= j < to :: segs[j].number in skip
    ensures segs[i].number in skip
  {
  }

  /** The policy may delete nothing: no room. */
  lemma NothingToDelete(segs: seq<Segment>, cfg: Config)
    requires segs != [] && cfg.Over(segs) && Exhausted(segs, cfg, {})
    ensures Fitted(segs, cfg) == segs
    ensures cfg.Valid() && Small(segs, cfg.segmentBytes) ==> cfg.overflow == DropNewest
  {
    hide Total, Pinned;
    ExhaustedByNone(segs, cfg);
    if cfg.Valid() && Small(segs, cfg.segmentBytes) {
      VictimExists(segs, cfg);
    }
  }

  /** The victim found with nothing skipped is the one `Fitted` removes. */
  lemma VictimNext(segs: seq<Segment>, cfg: Config, skip: set<u64>, i: nat)
    requires segs != [] && cfg.Over(segs) && First(segs, cfg.overflow) <= i < |segs| - 1
    requires forall j | First(segs, cfg.overflow) <= j < i :: segs[j].number in skip
    ensures skip == {} ==> Fitted(segs, cfg) == Fitted(RemoveAt(segs, i), cfg)
    ensures segs[i].number in Numbers(segs)
  {
    hide Total, Pinned;
    var first := First(segs, cfg.overflow);
    if first < i {
      InSkip(segs, skip, first, i, first);
    }
  }

  /** Never negative. */
  function Since(now: int, then_: int): (n: nat)
    ensures now >= then_ ==> n == now - then_
    ensures now < then_ ==> n == 0
  {
    if now < then_ then 0 else now - then_
  }

  /** Nothing is ever dropped for lack of room: the policy deletes, and every record fits a segment; under
      `HeadTail` also what was found at the start. */
  ghost predicate KeepsRecords(cfg: Config, modest: bool, accepted: seq<Payload>) {
    && cfg.overflow != DropNewest && Fits(accepted, cfg.segmentBytes)
    && (cfg.overflow == HeadTail ==> modest)
  }

  /** While the policy deletes nothing, no name goes. */
  ghost predicate NamesStay(gone: set<u64>, stats: Stats, gone': set<u64>, stats': Stats) {
    && stats.Evictions() <= stats'.Evictions()
    && (stats'.Evictions() == stats.Evictions() ==> gone' <= gone)
  }

  /** No name went from here on. */
  ghost predicate GoneBefore(gone: set<u64>, gone': set<u64>, n: nat) {
    forall s | s in gone' && s !in gone :: s < n
  }

  /** Settled records stay settled; refusals, errors and recoveries are counted elsewhere. */
  ghost predicate Progress(stats: Stats, fates: seq<bool>, stats': Stats, fates': seq<bool>) {
    && fates <= fates' && stats'.deleteFailures >= stats.deleteFailures
    && stats'.backlogDrops == stats.backlogDrops && stats'.rejected == stats.rejected
    && stats'.writeErrors == stats.writeErrors && stats'.recoveries == stats.recoveries
  }

  lemma BatchOfSome(q: seq<Payload>, len: nat, limit: nat)
    ensures Batch(q, len, limit) <= |q|
    ensures q != [] && len == SEGMENT_HEADER ==> Batch(q, len, limit) > 0
  {
  }

  lemma FramesSnoc(crc: Checksum, q: seq<Payload>, p: Payload)
    ensures Frames(crc, q + [p]) == Frames(crc, q) + Frame(crc, p)
  {
    FramesConcat(crc, q, [p]);
    assert Frames(crc, [p]) == Frame(crc, p) + Frames(crc, []);
  }

  /** Room was made or not: no record is counted either way. */
  ghost predicate Settled(stats: Stats, stats': Stats) {
    && stats'.deleteFailures >= stats.deleteFailures
    && stats' == stats.(deleteFailures := stats'.deleteFailures, retentionEvictions := stats'.retentionEvictions,
                        overflowEvictions := stats'.overflowEvictions)
  }

  lemma EvictedSettles(segs: seq<Segment>, stats: Stats, segs': seq<Segment>, stats': Stats, cfg: Config)
    requires Evicted(segs, stats, segs', stats', cfg)
    ensures Settled(stats, stats')
    ensures segs != [] && segs' != [] && Active(segs') == Active(segs)
  {
  }

  /** What making room may change: sealed segments go, each counted, none under `DropNewest`, and
      not the oldest under `HeadTail`. */
  ghost predicate Evicted(segs: seq<Segment>, stats: Stats, segs': seq<Segment>, stats': Stats, cfg: Config) {
    && segs != [] && segs' != [] && Active(segs') == Active(segs)
    && Numbers(segs') <= Numbers(segs)
    && (cfg.overflow == DropNewest ==> segs' == segs)
    && (Small(segs, cfg.segmentBytes) ==>
          Small(segs', cfg.segmentBytes) && (cfg.overflow == HeadTail ==> segs'[0] == segs[0]))
    && (if cfg.overflow == Retention then
          |segs'| + stats'.retentionEvictions == |segs| + stats.retentionEvictions
          && stats' == stats.(deleteFailures := stats'.deleteFailures, retentionEvictions := stats'.retentionEvictions)
        else
          |segs'| + stats'.overflowEvictions == |segs| + stats.overflowEvictions
          && stats' == stats.(deleteFailures := stats'.deleteFailures, overflowEvictions := stats'.overflowEvictions))
    && stats'.deleteFailures >= stats.deleteFailures
  }

  lemma EvictedSame(segs: seq<Segment>, stats: Stats, cfg: Config)
    requires segs != []
    ensures Evicted(segs, stats, segs, stats, cfg)
  {
  }

  /** Trying one more victim, whether it goes or not. */
  lemma EvictedOne(segs0: seq<Segment>, stats0: Stats, segs: seq<Segment>, stats: Stats, cfg: Config, i: nat)
    requires cfg.Valid() && segs != [] && cfg.Over(segs)
    requires Evicted(segs0, stats0, segs, stats, cfg) && First(segs, cfg.overflow) <= i < |segs| - 1
    ensures Evicted(segs0, stats0, segs, stats.(deleteFailures := stats.deleteFailures + 1), cfg)
    ensures Evicted(segs0, stats0, RemoveAt(segs, i), stats.Evict(cfg.overflow), cfg)
  {
    hide Total, Numbers;
    FirstOfNone(segs, cfg.overflow);
    NumbersFewer(segs, i);
    if Small(segs, cfg.segmentBytes) {
      VictimExists(segs, cfg);
    }
  }

  lemma NumbersFewer(segs: seq<Segment>, i: nat)
    requires i < |segs|
    ensures Numbers(RemoveAt(segs, i)) <= Numbers(segs)
  {
    var rest := RemoveAt(segs, i);
    forall j | 0 <= j < |rest|
      ensures rest[j].number in Numbers(segs)
    {
      assert rest[j] == segs[if j < i then j else j + 1];
    }
  }

  lemma CappedWithout(segs: seq<Segment>, i: nat, cfg: Config, rotations: nat, deleteFailures: nat)
    requires segs != [] && i < |segs| - 1 && Capped(segs, cfg, rotations, deleteFailures)
    ensures RemoveAt(segs, i) != [] && Capped(RemoveAt(segs, i), cfg, rotations, deleteFailures)
  {
    hide Total;
    assert Sealed(RemoveAt(segs, i)) == RemoveAt(Sealed(segs), i);
    TotalWithout(Sealed(segs), i);
  }

  lemma NumbersWithout(segs: seq<Segment>, i: nat)
    requires i < |segs| && Ascending(segs)
    ensures Numbers(RemoveAt(segs, i)) == Numbers(segs) - {segs[i].number}
  {
    var rest := RemoveAt(segs, i);
    forall n | n in Numbers(segs) && n != segs[i].number
      ensures n in Numbers(rest)
    {
      var j :| 0 <= j < |segs| && segs[j].number == n;
      assert rest[if j < i then j else j - 1].number == n;
    }
    forall j | 0 <= j < |rest|
      ensures rest[j].number in Numbers(segs) && rest[j].number != segs[i].number
    {
      assert rest[j] == segs[if j < i then j else j + 1];
    }
  }

  lemma TotalEmpty(segs: seq<Segment>)
    ensures Total(segs[..0]) == 0
  {
  }

  lemma TotalStep(segs: seq<Segment>, n: nat)
    requires n < |segs|
    ensures Total(segs[..n + 1]) == Total(segs[..n]) + segs[n].len
  {
    assert segs[..n + 1][..n] == segs[..n];
  }

  lemma FirstOfNone(segs: seq<Segment>, overflow: Overflow)
    requires segs != []
    ensures overflow == DropNewest ==> First(segs, overflow) == |segs| - 1
    ensures First(segs, overflow) <= |segs| - 1
  {
  }

  lemma VictimSealed(crc: Checksum, v: View, segs: seq<Segment>, recs: map<u64, seq<Payload>>, queue: seq<Payload>,
                     promised: nat, limit: nat, i: nat)
    requires OnDisk(crc, v, segs, recs, queue, promised, limit) && i < |segs| - 1
    ensures segs[i].number < v.current && segs[i].number in v.files && Ascending(segs)
  {
    hide Content, Batch, Ours;
  }

  lemma CurrentActive(crc: Checksum, v: View, segs: seq<Segment>, recs: map<u64, seq<Payload>>, queue: seq<Payload>,
                      promised: nat, limit: nat)
    requires OnDisk(crc, v, segs, recs, queue, promised, limit)
    ensures v.current == Active(segs).number
  {
    hide Content, Batch, Ours;
  }

  /** A name that went or stayed changes nothing in the files. */
  lemma SameOnDisk(crc: Checksum, v: View, w: View, segs: seq<Segment>, recs: map<u64, seq<Payload>>,
                   queue: seq<Payload>, promised: nat, limit: nat)
    requires OnDisk(crc, v, segs, recs, queue, promised, limit)
    requires w.files == v.files && w.plan == v.plan && w.damaged == v.damaged && w.current == v.current
    ensures OnDisk(crc, w, segs, recs, queue, promised, limit)
    ensures Clean(crc, v, segs, recs) ==> Clean(crc, w, segs, recs)
  {
    hide Content, Batch;
  }

  /** An open segment has its header. */
  lemma OpenStarted(crc: Checksum, v: View, segs: seq<Segment>, recs: map<u64, seq<Payload>>)
    ensures Clean(crc, v, segs, recs) ==> segs != [] && Started(segs) == segs
  {
    hide Content;
  }

  lemma FittingStep(q: seq<Payload>, len: nat, limit: nat)
    requires q != []
    ensures Fitting(q, len, limit) == if len + RECORD_HEADER + |q[0]| > limit then 0
              else 1 + Fitting(q[1..], len + RECORD_HEADER + |q[0]|, limit)
  {
  }

  lemma EmptyFrames(crc: Checksum, q: seq<Payload>)
    ensures Frames(crc, q) == [] <==> q == []
  {
  }

  lemma OneFrame(crc: Checksum, pending: seq<byte>, at: nat, next: nat, q: seq<Payload>)
    requires at <= next <= |pending| && q != [] && pending[at..] == Frames(crc, q)
    requires next == at + RECORD_HEADER + |q[0]|
    ensures pending[at..next] == Frames(crc, [q[0]])
  {
    var f := Frame(crc, q[0]);
    assert Frames(crc, [q[0]]) == f + Frames(crc, []);
    assert pending[at..next] == pending[at..][..|f|] == f;
  }

  lemma DecodeFramesOnly(crc: Checksum, ps: seq<Payload>)
    ensures Decode(crc, Frames(crc, ps)) == ps
  {
    hide Frames, Decode;
    DecodeFrames(crc, ps, []);
    DecodeNothing(crc, []);
    assert Frames(crc, ps) + [] == Frames(crc, ps);
  }

  lemma ActiveExists(crc: Checksum, v: View, segs: seq<Segment>, recs: map<u64, seq<Payload>>, queue: seq<Payload>,
                     promised: nat, limit: nat)
    requires OnDisk(crc, v, segs, recs, queue, promised, limit) && Clean(crc, v, segs, recs)
    ensures Active(segs).number in v.files && Active(segs).number in recs
    ensures promised <= Batch(queue, Active(segs).len, limit)
  {
  }

  /** A batch keeps the segments within the segment size, if the records fit one. */
  lemma StaysSmall(crc: Checksum, segs: seq<Segment>, segs': seq<Segment>, accepted: seq<Payload>, fates: seq<bool>,
                   queue: seq<Payload>,
                   recs: map<u64, seq<Payload>>, a: u64, written: nat, dropped: nat, limit: nat)
    requires Ledger(accepted, fates, queue, recs, a, written, dropped) && segs != []
    requires segs' == Longer(segs, |Frames(crc, queue[..Batch(queue, Active(segs).len, limit)])|)
    ensures Fits(accepted, limit) && Small(segs, limit) ==> Small(segs', limit)
    ensures Snug(accepted, Active(segs), limit) ==> Snug(accepted, Active(segs'), limit)
  {
    hide Frames, Batch;
    if Fits(accepted, limit) && Active(segs).len <= limit {
      assert forall p | p in queue :: p in accepted;
      BatchFits(crc, queue, Active(segs).len, limit);
    }
  }

  /** Records that fit a segment keep the active one within the segment size, whatever was found at the
      start. */
  ghost predicate Snug(accepted: seq<Payload>, a: Segment, limit: nat) {
    Fits(accepted, limit) ==> a.len <= limit
  }

  /** What a writer keeps to, whatever happens. */
  ghost predicate Keeps(crc: Checksum, now: View, durable: map<u64, nat>, cfg: Config, segs: seq<Segment>,
                        recs: map<u64, seq<Payload>>, queue: seq<Payload>, promised: nat, accepted: seq<Payload>,
                        fates: seq<bool>, stats: Stats, rotations: nat, unsynced: bool, first: u64, modest: bool)
  {
    && segs != []
    && OnDisk(crc, now, segs, recs, queue, promised, cfg.segmentBytes)
    && Ledger(accepted, fates, queue, recs, Active(segs).number, stats.recordsWritten, stats.overflowDrops)
    && Capped(segs, cfg, rotations, stats.deleteFailures)
    && (modest && Fits(accepted, cfg.segmentBytes) ==> Small(segs, cfg.segmentBytes))
    && Snug(accepted, Active(segs), cfg.segmentBytes)
    && Safe(now.files, durable, now.damaged, Active(segs), unsynced)
    && first in recs && (forall s | s in recs :: first <= s)
    && cfg.Valid()
  }

  lemma BatchKeeps(crc: Checksum, v: View, w: View, durable: map<u64, nat>, cfg: Config, segs: seq<Segment>,
                   recs: map<u64, seq<Payload>>, queue: seq<Payload>, n: nat, accepted: seq<Payload>, fates: seq<bool>,
                   stats: Stats, rotations: nat, unsynced: bool, first: u64, modest: bool, bytes: nat)
    requires Keeps(crc, w, durable, cfg, segs, recs, queue, n, accepted, fates, stats, rotations, unsynced, first,
                   modest)
    requires OnDisk(crc, v, segs, recs, queue, n, cfg.segmentBytes) && Clean(crc, v, segs, recs)
    requires segs != [] && n == Batch(queue, Active(segs).len, cfg.segmentBytes)
    requires n <= |queue| && bytes == |Frames(crc, queue[..n])|
    requires var a := Active(segs).number;
             a in v.files && a in recs && w == v.(files := v.files[a := v.files[a] + Frames(crc, queue[..n])])
    ensures var a := Active(segs).number;
            var recs' := recs[a := recs[a] + queue[..n]];
            && Keeps(crc, w, durable, cfg, Longer(segs, bytes), recs', queue[n..], 0, accepted, fates + Same(n, true),
                     stats.(recordsWritten := stats.recordsWritten + n, bytesWritten := stats.bytesWritten + bytes),
                     rotations, true, first, modest)
            && Clean(crc, w, Longer(segs, bytes), recs')
  {
    hide Content, Frames, Ledger, Batch, Safe, Snug, OnDisk, Clean, Total, Small, Fits, Capped, Sealed, Same, Longer;
    var longer := Longer(segs, bytes);
    CappedLonger(segs, bytes, cfg, rotations, stats.deleteFailures);
    WrittenLonger(crc, v, w, segs, recs, queue, n, cfg.segmentBytes);
    SealedLonger(segs, bytes);
    LedgerWrite(accepted, fates, queue, recs, Active(segs).number, stats.recordsWritten, stats.overflowDrops, n);
    StaysSmall(crc, segs, longer, accepted, fates, queue, recs, Active(segs).number, stats.recordsWritten,
               stats.overflowDrops, cfg.segmentBytes);
    SafeOther(w.files, w.files, durable, durable, w.damaged, Active(segs), Active(longer), unsynced, true);
  }

  /** All earlier files are on the disk for sure; and of the active one what was written, unless a flush is
      still to come. */
  ghost predicate Safe(files: map<u64, seq<byte>>, durable: map<u64, nat>, damaged: bool, a: Segment, unsynced: bool) {
    !damaged ==>
      && (forall s | s in files && s < a.number :: s in durable && durable[s] >= |files[s]|)
      && (!unsynced && a.len > 0 ==> a.number in durable && durable[a.number] >= a.len)
  }

  /** The active file changed, and what is sure of it only where more is written or nothing counts. */
  lemma SafeOther(files: map<u64, seq<byte>>, files': map<u64, seq<byte>>, durable: map<u64, nat>,
                  durable': map<u64, nat>, damaged: bool, a: Segment, a': Segment, unsynced: bool, unsynced': bool)
    requires Safe(files, durable, damaged, a, unsynced) && a'.number == a.number
    requires forall s | s in files' && s < a.number :: s in files && files'[s] == files[s]
    requires forall s | s in durable && s < a.number :: s in durable' && durable'[s] == durable[s]
    requires unsynced' || a'.len == 0 || (unsynced' == unsynced && a'.len == a.len)
    requires a.number in durable ==>
               a.number in durable' && (durable'[a.number] == durable[a.number] || durable'[a.number] >= a.len)
    ensures Safe(files', durable', damaged, a', unsynced')
  {
  }

  lemma SafeSynced(files: map<u64, seq<byte>>, durable: map<u64, nat>, durable': map<u64, nat>, damaged: bool,
                   a: Segment, unsynced: bool, ok: bool)
    requires Safe(files, durable, damaged, a, unsynced) && a.number in files && (damaged || |files[a.number]| >= a.len)
    requires durable' == if ok then durable[a.number := |files[a.number]|] else durable
    ensures Safe(files, durable', damaged, a, unsynced) && (ok ==> Safe(files, durable', damaged, a, false))
  {
  }

  lemma SafeNext(files: map<u64, seq<byte>>, durable: map<u64, nat>, damaged: bool, a: Segment, unsynced: bool)
    requires Safe(files, durable, damaged, a, unsynced) && a.number < U64_MAX
    requires a.number in files && a.number in durable && durable[a.number] == |files[a.number]|
    ensures Safe(files, durable, damaged, Segment(a.number + 1, 0), unsynced)
  {
  }

  /** The writer does not go back to an earlier segment. */
  ghost predicate GoesUp(segs: seq<Segment>, segs': seq<Segment>) {
    segs != [] && segs' != [] && Active(segs).number <= Active(segs').number
  }

  /** A call failed, or there are no more segment numbers. */
  ghost predicate Excused(failures: nat, before: nat, segs: seq<Segment>) {
    failures > before || (failures == before && segs != [] && Active(segs).number == U64_MAX)
  }

  /** There is no room only if records may be dropped. */
  lemma NoRoomFor(segs: seq<Segment>, cfg: Config, modest: bool, accepted: seq<Payload>)
    requires segs != [] && cfg.Valid() && cfg.Over(Fitted(segs, cfg)) && Snug(accepted, Active(segs), cfg.segmentBytes)
    requires modest && Fits(accepted, cfg.segmentBytes) ==> cfg.overflow == DropNewest
    ensures !KeepsRecords(cfg, modest, accepted)
  {
    hide Total, Fits, First, Fitted;
    FullIff(segs, cfg);
  }

  /** The cap, once room was made and nothing failed to be deleted. */
  ghost predicate Capped(segs: seq<Segment>, cfg: Config, rotations: nat, deleteFailures: nat)
    requires segs != []
  {
    rotations > 0 && deleteFailures == 0 ==> Total(Sealed(segs)) + cfg.segmentBytes <= cfg.capBytes
  }
}
