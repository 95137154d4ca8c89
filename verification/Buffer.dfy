/** The event buffer as a whole: the writer and its readers in one run, and from one run to the next. */
module Buffer {
  import opened Options
  import opened Framing
  import opened Disk
  import opened Log
  import opened Segments
  import opened Policy
  import opened Gaps
  import opened Writer
  import opened Reader
  import Recovery

  /** Every accepted record is written, dropped or still queued, in order; the segments in order,
      deleted ones included, are exactly the written ones. */
  lemma NoneLostOrDoubled(w: LogWriter)
    requires w.Valid()
    ensures |w.accepted| == w.stats.recordsWritten + w.stats.overflowDrops + |w.queue|
    ensures Records(w.recs, w.Number() + 1) == Kept(w.accepted, w.fates)
    ensures w.queue == w.accepted[|w.fates|..] && w.pending == Frames(w.dir.crc, w.queue)
    ensures w.stats.overflowDrops == 0 ==> Records(w.recs, w.Number() + 1) + w.queue == w.accepted
  {
    hide Records, Kept, Frames, OnDisk, Directory.Recorded, Clean, Total, Batch;
    LedgerCounts(w.accepted, w.fates, w.queue, w.recs, w.Number(), w.stats.recordsWritten, w.stats.overflowDrops);
  }

  /** On an undamaged disk every segment of the run but the active one is exactly its records; the
      active one is its records followed by a prefix of what is pending. */
  lemma FilesHoldTheLog(w: LogWriter, s: u64)
    requires w.Valid() && !w.dir.damaged && s in w.recs
    ensures s != w.Number() ==> s in w.dir.files && w.dir.files[s] == Content(w.dir.crc, w.recs[s])
    ensures s == w.Number() && Active(w.segments).len > 0 ==>
              && Active(w.segments).len == |Content(w.dir.crc, w.recs[s])|
              && Content(w.dir.crc, w.recs[s]) <= w.dir.files[s] <= Content(w.dir.crc, w.recs[s]) + w.pending
  {
    hide Frames, Content, Batch, Ledger, Total, Small, Fits, Capped, OnDisk, Sound, Clean, Ordered;
    if s != w.Number() {
      SealedFile(w.dir.crc, w.dir.Now(), w.segments, w.recs, w.queue, w.promised, w.cfg.segmentBytes, s);
    } else if Active(w.segments).len > 0 {
      ActiveFile(w.dir.crc, w.dir.Now(), w.segments, w.recs, w.queue, w.promised, w.cfg.segmentBytes);
    }
  }

  /** The cap holds from the first rotation on, while nothing fails to be deleted and records fit
      a segment; whatever was found at the start. */
  lemma CapHolds(w: LogWriter)
    requires w.Valid() && w.rotations > 0 && w.stats.deleteFailures == 0
    requires Fits(w.accepted, w.cfg.segmentBytes)
    ensures Total(w.segments) <= w.cfg.capBytes
  {
    hide Frames, Content, Batch, Ledger, Fits, OnDisk, Directory.Recorded, Clean, Total;
    var n := |w.segments| - 1;
    TotalConcat(Sealed(w.segments), [w.segments[n]]);
    TotalOne(w.segments[n]);
    assert w.segments == Sealed(w.segments) + [w.segments[n]];
  }

  // What a reader has delivered.

  /** The whole log: what earlier runs left, what this one wrote, and what it has queued. */
  ghost function Whole(w: LogWriter): seq<Payload>
    reads w, w.dir
    requires |w.fates| <= |w.accepted|
  {
    Records(w.dir.plan, w.first) + Kept(w.accepted, w.fates) + w.queue
  }

  /** What lies before the reader's start position. */
  ghost function Skipped(w: LogWriter, r: LogReader): seq<Payload>
    reads w, w.dir, r
  {
    Records(w.dir.plan, r.first) + r.before
  }

  /** The segments deleted so far were wholly behind the reader, of those it has left. */
  ghost predicate NoneCutShort(v: View, p: Place) {
    forall s | s in v.files && s !in v.listed && p.first <= s < p.pos.segment :: AllBehind(v, p, s)
  }

  ghost predicate AllBehind(v: View, p: Place, s: u64) {
    s in v.plan && Count(p.read, s) == |v.plan[s]|
  }

  /** And of those ahead of it none is deleted. */
  ghost predicate NoneUnread(v: View, p: Place) {
    forall s | s in v.files && s !in v.listed && p.first <= s :: s < p.pos.segment && AllBehind(v, p, s)
  }

  /** What a reader has behind it, segment by segment: all records of a segment that is still there, the
      first `behind[s]` of a deleted one, and those before the position. */
  ghost predicate AllButDeleted(v: View, first: u64, pos: u64, behind: map<u64, nat>, taken: seq<Payload>) {
    && taken == Parts(v.plan, behind, pos + 1) && (forall s | s in behind :: first <= s <= pos)
    && forall s | s in v.files && s in v.listed && first <= s < pos :: Part(v.plan, behind, s) == Of(v.plan, s)
  }

  /** A reader that nothing is deleted before, or only what it has read, has everything before its position
      behind it. */
  lemma TakenIsWhole(crc: Checksum, v: View, p: Place)
    requires Sound(crc, v) && !v.damaged && Follows(crc, v, p) && NoneCutShort(v, p)
    ensures Records(v.plan, p.first) + p.taken
         == Records(v.plan, p.pos.segment) + Of(v.plan, p.pos.segment)[..p.k]
  {
    hide Content, Frames, FileSound, Parts, Records, AtBoundary;
    forall s: nat | p.first <= s < p.pos.segment
      ensures Part(v.plan, p.read, s) == Of(v.plan, s)
    {
      if s in v.plan {
        assert UsedUp(v, p, s) && (s in v.listed || AllBehind(v, p, s));
      }
    }
    PartsAreRecords(v.plan, p.read, p.first, p.pos.segment);
    HereIs(crc, v, p);
    Associates(Records(v.plan, p.first), Parts(v.plan, p.read, p.pos.segment), Current(v, p));
  }

  /** Whatever was deleted, it has every record before its position behind it but those of deleted
      segments. */
  lemma TakenButDeleted(crc: Checksum, v: View, p: Place)
    requires Sound(crc, v) && !v.damaged && Follows(crc, v, p)
    ensures AllButDeleted(v, p.first, p.pos.segment, p.read[p.pos.segment := p.k], p.taken)
  {
    hide Content, Frames, FileSound, Parts, AtBoundary;
    var behind := p.read[p.pos.segment := p.k];
    PartsAgree(v.plan, p.read, v.plan, behind, p.pos.segment);
    PartsStep(v.plan, behind, p.pos.segment);
    forall s | s in v.files && s in v.listed && p.first <= s < p.pos.segment
      ensures Part(v.plan, behind, s) == Of(v.plan, s)
    {
      assert UsedUp(v, p, s);
    }
  }

  /** What is deleted behind the reader was read, since it has got past it. */
  lemma NoneUnreadStill(crc: Checksum, v: View, w: View, p: Place)
    requires Sound(crc, v) && Evolves(crc, v, w) && !w.damaged && Follows(crc, v, p) && NoneUnread(v, p)
    requires GoneBefore(v.files.Keys - v.listed, w.files.Keys - w.listed, p.pos.segment)
    ensures NoneUnread(w, p)
  {
    hide Content, Sound, Parts, AtBoundary, Evolves;
    EvolvesSound(crc, v, w);
    forall s | s in w.files && s !in w.listed && p.first <= s
      ensures s < p.pos.segment && AllBehind(w, p, s)
    {
      assert s in w.files.Keys - w.listed;
      assert s in v.files && s !in v.listed ==> s < p.pos.segment && AllBehind(v, p, s);
      EarlierStay(crc, v, w, p.pos.segment, s);
      assert s in v.listed ==> UsedUp(v, p, s);
    }
  }

  lemma NoneUnreadOn(v: View, p: Place, q: Place)
    requires NoneUnread(v, p) && StillBehind(p.read, q.read, p.pos.segment)
    requires q.first == p.first && q.pos.segment >= p.pos.segment
    ensures NoneUnread(v, q)
  {
    forall s | s in v.files && s !in v.listed && q.first <= s
      ensures s < q.pos.segment && AllBehind(v, q, s)
    {
      assert AllBehind(v, p, s);
    }
  }

  /** The records of the current segment that are behind the reader. */
  lemma HereIs(crc: Checksum, v: View, p: Place)
    requires Sound(crc, v) && !v.damaged && AtBoundary(crc, v, p)
    ensures p.k <= |Of(v.plan, p.pos.segment)|
    ensures Current(v, p) == Of(v.plan, p.pos.segment)[..p.k]
  {
    hide Content, Frames, FileSound;
  }

  lemma {:induction false} PartsAreRecords(plan: map<u64, seq<Payload>>, read: map<u64, nat>, first: nat, n: nat)
    requires first <= n && (forall s | s in read :: s >= first)
    requires forall s: nat | first <= s < n :: Part(plan, read, s) == Of(plan, s)
    ensures Records(plan, first) + Parts(plan, read, n) == Records(plan, n)
    decreases n
  {
    if n == first {
      NoParts(plan, read, n);
    } else {
      PartsAreRecords(plan, read, first, n - 1);
      Associates(Records(plan, first), Parts(plan, read, n - 1), Part(plan, read, n - 1));
    }
  }

  lemma {:induction false} NoParts(plan: map<u64, seq<Payload>>, read: map<u64, nat>, n: nat)
    requires forall s | s in read :: s >= n
    ensures Parts(plan, read, n) == []
    decreases n
  {
    if n > 0 {
      NoParts(plan, read, n - 1);
    }
  }

  lemma {:induction false} RecordsPrefix(plan: map<u64, seq<Payload>>, s: nat, n: nat)
    requires s < n
    ensures Records(plan, s) + Of(plan, s) <= Records(plan, n)
    decreases n
  {
    if s < n - 1 {
      RecordsPrefix(plan, s, n - 1);
    }
  }

  /** All files together are planned to hold what earlier runs left, what was written and the promised
      part of the queue. */
  lemma PlannedLog(w: LogWriter)
    requires w.Valid() && !w.dir.damaged
    ensures w.promised <= |w.queue| && w.dir.current == w.Number()
    ensures Records(w.dir.plan, w.Number() + 1)
         == Records(w.dir.plan, w.first) + Records(w.recs, w.Number() + 1) + w.queue[..w.promised]
  {
    hide Content, Frames, Batch, Ordered, Records, Capped, Fits, Small, Clean, FileSound, Kept;
    var a, plan := w.Number(), w.dir.plan;
    var recs' := w.recs[a := w.recs[a] + w.queue[..w.promised]];
    RecordsAppend(w.recs, a, w.queue[..w.promised]);
    forall s: nat | w.first <= s < a as nat + 1
      ensures Of(plan, s) == Of(recs', s)
    {
    }
    RecordsJoin(plan, recs', w.first, a as nat + 1);
    Associates(Records(plan, w.first), Records(w.recs, a as nat + 1), w.queue[..w.promised]);
  }

  /** In every state of a run: what lies before a reader's start and what it delivered are together a
      prefix of the log, records dropped for lack of room left out; unless a segment was deleted before
      the reader had read it. */
  lemma DeliversAPrefix(w: LogWriter, r: LogReader)
    requires w.Valid() && r.Valid() && r.dir.log == w.dir && !w.dir.damaged && NoneCutShort(w.dir.Now(), r.Here())
    ensures Skipped(w, r) + r.taken <= Whole(w)
    ensures w.stats.overflowDrops == 0 ==> Skipped(w, r) + r.taken <= Records(w.dir.plan, w.first) + w.accepted
    ensures r.corruptSegments == 0
  {
    hide Frames, Content, Batch, Total, Small, Fits, Capped, OnDisk, Clean, Records, Kept, Evolves, Sound, Parts,
         AtBoundary, UsedUp;
    var v, a, p := w.dir.Now(), w.Number(), r.Here();
    LaterStill(r, w.dir);
    TakenIsWhole(w.dir.crc, v, p);
    HereIs(w.dir.crc, v, p);
    LedgerCounts(w.accepted, w.fates, w.queue, w.recs, a, w.stats.recordsWritten, w.stats.overflowDrops);
    PlannedLog(w);
    RecordsPrefix(v.plan, p.pos.segment, a as nat + 1);
    var log, tail := Records(v.plan, p.pos.segment), Of(v.plan, p.pos.segment);
    assert log + tail[..p.k] <= log + tail <= Records(v.plan, a as nat + 1);
    assert w.queue[..w.promised] <= w.queue;
    Associates(Records(v.plan, r.first), r.before, r.taken);
    Associates(Records(v.plan, w.first), Kept(w.accepted, w.fates), w.queue);
    assert Records(v.plan, w.first) + Kept(w.accepted, w.fates) + w.queue[..w.promised] <= Whole(w);
  }

  /** In every state of a run, whatever was deleted: what a reader delivered is the log in order, without
      the records after some point of each deleted segment. The log is that of the segments in order. */
  lemma DeliversAllButDeleted(w: LogWriter, r: LogReader)
    requires w.Valid() && r.Valid() && r.dir.log == w.dir && !w.dir.damaged
    ensures AllButDeleted(w.dir.Now(), r.first, r.pos.segment, r.read[r.pos.segment := r.k], r.before + r.taken)
    ensures r.pos.segment <= w.Number() && Records(w.dir.plan, w.Number() + 1) <= Whole(w)
    ensures r.corruptSegments == 0
  {
    hide Frames, Content, Batch, Total, Small, Fits, Capped, OnDisk, Clean, Records, Kept, Evolves, Sound, Parts,
         AtBoundary, UsedUp, AllButDeleted;
    LaterStill(r, w.dir);
    TakenButDeleted(w.dir.crc, w.dir.Now(), r.Here());
    LedgerCounts(w.accepted, w.fates, w.queue, w.recs, w.Number(), w.stats.recordsWritten, w.stats.overflowDrops);
    PlannedLog(w);
    Associates(Records(w.dir.plan, w.first), Kept(w.accepted, w.fates), w.queue);
    assert w.queue[..w.promised] <= w.queue;
  }

  /** A reader's place is good for the present instant too, wherever it has got to. */
  lemma LaterStill(r: LogReader, log: Directory)
    requires r.Valid() && r.dir.log == log && log.Recorded()
    ensures Follows(log.crc, log.Now(), r.Here()) && Sound(log.crc, log.Now())
    ensures !log.damaged ==> r.corruptSegments == 0
  {
    hide Follows, Evolves, Sound;
    var n := |log.history| - 1;
    assert Evolves(log.crc, log.history[r.dir.at], log.history[n]);
    assert Evolves(log.crc, log.history[r.dir.at], log.history[r.dir.at]);
    EvolvesSound(log.crc, log.history[r.dir.at], log.history[r.dir.at]);
    EvolvesSound(log.crc, log.history[r.dir.at], log.history[n]);
    Stable(log.crc, log.history[r.dir.at], log.history[n], r.Here());
  }

  /** A reader is valid as long as the instant it is at stays as it was. */
  lemma StillValid(r: LogReader, v: View, p: Place)
    requires r.dir.log.Recorded() && r.dir.at < |r.dir.log.history| && r.dir.Now() == v && r.Here() == p
    requires Follows(r.dir.log.crc, v, p) && (!v.damaged ==> r.corruptSegments == 0)
    ensures r.Valid()
  {
    hide Follows, Evolves, Sound;
  }

  // Whole runs.

  /** What may happen next: a call of the writer or of the reader, or damage to a file. The steps
      inside a call of the reader are spread over any instants of the run (see `Sight`). `AckUpTo`
      acknowledges no more than the reader has got to, as a program does that delivers what it reads. */
  datatype Act =
    | Append(payload: seq<byte>)
    | Tick(now: int)
    | Ack(cursor: Cursor, stores: bool)
    | AckUpTo(cursor: Cursor, stores: bool)
    | Next
    | Damage(segment: u64, data: seq<byte>)

  /** The records that the writer was given. */
  ghost function Tried(w: LogWriter): nat
    reads w
  {
    |w.accepted| + w.stats.Refused()
  }

  function Appends(script: seq<Act>): nat {
    if script == [] then 0
    else Appends(script[..|script| - 1]) + if script[|script| - 1].Append? then 1 else 0
  }

  /** Any run at all of a writer and a reader beside it. */
  method Run(w: LogWriter, r: LogReader, script: seq<Act>)
    requires w.Valid() && r.Valid() && r.dir.log == w.dir
    modifies w, w.dir, r, r.dir
    ensures w.Valid() && r.Valid() && w.stats.Evictions() >= old(w.stats.Evictions())
    ensures old(w.dir.history) <= w.dir.history && (old(w.dir.damaged) ==> w.dir.damaged)
    ensures Tried(w) == old(Tried(w)) + Appends(script)
    ensures !w.dir.damaged ==> r.corruptSegments == 0
    ensures !w.dir.damaged ==>
              AllButDeleted(w.dir.Now(), r.first, r.pos.segment, r.read[r.pos.segment := r.k], r.before + r.taken)
    ensures !w.dir.damaged && NoneCutShort(w.dir.Now(), r.Here()) ==> Skipped(w, r) + r.taken <= Whole(w)
    // Nothing is lost to acknowledgements: while the policy deletes nothing, what was delivered is a prefix
    // of the log, and no segment is gone that was not read to its end.
    ensures !w.dir.damaged && w.stats.Evictions() == old(w.stats.Evictions()) && (forall a | a in script :: !a.Ack?) ==>
              old(NoneUnread(w.dir.Now(), r.Here())) ==>
                NoneUnread(w.dir.Now(), r.Here()) && Skipped(w, r) + r.taken <= Whole(w)
  {
    hide LogWriter.Stored, Directory.Recorded, Follows, Whole, Ordered, Evolves, Frames, LogWriter.Opened, NoneUnread,
         AllButDeleted, NoneCutShort;
    var i := 0;
    assert script[..0] == [];
    while i < |script|
      invariant i <= |script| && Tried(w) == old(Tried(w)) + Appends(script[..i])
      invariant w.Valid() && r.Valid() && r.dir.log == w.dir && w.stats.Evictions() >= old(w.stats.Evictions())
      invariant old(w.dir.history) <= w.dir.history && (old(w.dir.damaged) ==> w.dir.damaged)
      invariant !w.dir.damaged && w.stats.Evictions() == old(w.stats.Evictions()) ==>
                  (forall j | 0 <= j < i :: !script[j].Ack?) && old(NoneUnread(w.dir.Now(), r.Here())) ==>
                    NoneUnread(w.dir.Now(), r.Here())
    {
      Step(w, r, script[i]);
      assert script[..i + 1][..i] == script[..i];
      i := i + 1;
    }
    assert script[..i] == script;
    StoredRecorded(w);
    LaterStill(r, w.dir);
    if !w.dir.damaged {
      DeliversAllButDeleted(w, r);
      NoneUnreadAtAll(w.dir.Now(), r.Here());
      if NoneCutShort(w.dir.Now(), r.Here()) {
        DeliversAPrefix(w, r);
      }
    }
  }

  lemma NoneUnreadAtAll(v: View, p: Place)
    ensures NoneUnread(v, p) ==> NoneCutShort(v, p)
  {
  }

  lemma StoredRecorded(w: LogWriter)
    requires w.Stored()
    ensures w.dir.Recorded() && |w.fates| <= |w.accepted|
  {
    hide Directory.Recorded, OnDisk, Kept, Records, Capped, Fits, Small;
  }

  /** A call of the writer; `read`: the segment the reader is on. */
  method WriterStep(w: LogWriter, act: Act, ghost read: u64)
    requires w.Valid() && (act.AckUpTo? ==> act.cursor.segment <= read)
    modifies w, w.dir
    ensures w.Valid() && old(w.dir.history) <= w.dir.history && w.stats.Evictions() >= old(w.stats.Evictions())
    ensures old(w.dir.damaged) ==> w.dir.damaged
    ensures Tried(w) == old(Tried(w)) + if act.Append? then 1 else 0
    ensures act.Damage? && act.segment in old(w.dir.files) ==>
              act.segment in w.dir.files && w.dir.damaged && w.dir.files[act.segment] == act.data
    ensures act.Tick? && old(w.Due(act.now)) ==> w.lastFlush == Some(act.now)
    ensures (act.Ack? || act.AckUpTo?) && act.stores && act.cursor.segment <= old(w.Number()) ==>
              w.acked.Some? && !w.acked.value.Before(act.cursor)
    ensures !act.Ack? && w.stats.Evictions() == old(w.stats.Evictions()) ==>
              GoneBefore(old(w.dir.Gone()), w.dir.Gone(), read)
  {
    hide LogWriter.Stored, Directory.Recorded, Follows, Ordered, Evolves, Frames, LogWriter.Opened;
    if act.Append? {
      var queued := w.Append(act.payload);
    } else if act.Tick? {
      var ok := w.Tick(act.now);
    } else if act.Ack? || act.AckUpTo? {
      var acked := w.Ack(act.cursor, act.stores);
    } else if act.Damage? {
      DamageStep(w, act.segment, act.data);
    }
  }

  method Step(w: LogWriter, r: LogReader, act: Act)
    requires w.Valid() && r.Valid() && r.dir.log == w.dir
    modifies w, w.dir, r, r.dir
    ensures w.Valid() && r.Valid() && w.stats.Evictions() >= old(w.stats.Evictions())
    ensures old(w.dir.history) <= w.dir.history && (old(w.dir.damaged) ==> w.dir.damaged)
    ensures Tried(w) == old(Tried(w)) + if act.Append? then 1 else 0
    ensures act.Damage? && act.segment in old(w.dir.files) ==>
              act.segment in w.dir.files && w.dir.damaged && w.dir.files[act.segment] == act.data
    ensures act.Tick? && old(w.Due(act.now)) ==> w.lastFlush == Some(act.now)
    ensures !w.dir.damaged && !act.Ack? && w.stats.Evictions() == old(w.stats.Evictions()) ==>
              old(NoneUnread(w.dir.Now(), r.Here())) ==> NoneUnread(w.dir.Now(), r.Here())
  {
    hide LogWriter.Stored, Directory.Recorded, Follows, Ordered, Evolves, Frames, LogWriter.Opened, NoneUnread,
         StillBehind, Sound;
    ghost var p := r.Here();
    if act.Next? {
      var next := r.NextRecord();
      if NoneUnread(w.dir.Now(), p) {
        NoneUnreadOn(w.dir.Now(), p, r.Here());
      }
    } else {
      ghost var v, n := r.dir.Now(), |w.dir.history| - 1;
      ghost var before := w.dir.Now();
      StoredRecorded(w);
      LastIsNow(w.dir);
      LaterStill(r, w.dir);
      var bounded := if act.AckUpTo? && r.pos.Before(act.cursor) then AckUpTo(r.pos, act.stores) else act;
      WriterStep(w, bounded, r.pos.segment);
      StoredRecorded(w);
      StillValid(r, v, p);
      if !w.dir.damaged && NoneUnread(before, p) && !act.Ack? && w.stats.Evictions() == old(w.stats.Evictions()) {
        Happened(w.dir, n, before);
        NoneUnreadStill(w.dir.crc, before, w.dir.Now(), p);
      }
    }
  }

  lemma LastIsNow(log: Directory)
    requires log.Recorded()
    ensures log.history != [] && log.history[|log.history| - 1] == log.Now()
  {
    hide Ordered, Sound;
  }

  /** From an instant of the run to now. */
  lemma Happened(log: Directory, n: nat, v: View)
    requires log.Recorded() && n < |log.history| && log.history[n] == v
    ensures Evolves(log.crc, v, log.Now())
  {
    hide Evolves, Sound;
  }

  /** Damage leaves the writer as it was. */
  method DamageStep(w: LogWriter, s: u64, data: seq<byte>)
    requires w.Valid()
    modifies w.dir
    ensures w.Valid() && old(w.dir.history) <= w.dir.history
    ensures w.dir.Gone() == old(w.dir.Gone()) && (old(w.dir.damaged) ==> w.dir.damaged)
    ensures s in old(w.dir.files) ==> s in w.dir.files && w.dir.damaged && w.dir.files[s] == data
  {
    hide Content, Ledger, Directory.Recorded, Batch, Frames, Capped, Fits, Small;
    if s in w.dir.files {
      w.dir.Damage(s, data);
    }
  }

  // From one run to the next.

  /** A cursor stored by an earlier run: a boundary of its segment, which a power cut may have cut short
      or lost since. `k`: how many records of the segment are before it. */
  ghost predicate Loadable(crc: Checksum, u: View, c: Cursor, k: nat) {
    if c.segment in u.files then AtBoundary(crc, u, Place(c.segment, c, false, k, map[], [])) else k == 0
  }

  /** How many of these records there are after recovery. */
  ghost function Left(v: View, c: Cursor, k: nat): nat {
    if c.segment !in v.plan then 0 else if k <= |v.plan[c.segment]| then k else |v.plan[c.segment]|
  }

  /** Wherever a stored cursor points after recovery, a reader may start there. */
  lemma LoadedCursorStands(crc: Checksum, u: View, v: View, c: Cursor, k: nat)
    requires v.damaged || Loadable(crc, u, c, k)
    requires Sound(crc, v) && v.files.Keys <= u.files.Keys && c.segment < v.current
    requires !v.damaged ==> forall s | s in v.files :: Recovery.Survived(crc, u, v, s)
    ensures Standing(crc, v, c, Left(v, c, k))
  {
    hide Content, Frames, FileSound, Recovery.Survivors;
    if !v.damaged && c.segment in v.files {
      assert Recovery.Survived(crc, u, v, c.segment);
      var ps, left := u.plan[c.segment], v.plan[c.segment];
      assert left <= ps;
      if k <= |left| {
        assert left[..k] == ps[..k];
      } else {
        ContentShorter(crc, ps, |left|, k);
      }
      ContentShorter(crc, ps, |left|, |ps|);
      assert ps[..|ps|] == ps && ps[..|left|] == left;
    }
  }

  lemma ContentShorter(crc: Checksum, ps: seq<Payload>, m: nat, n: nat)
    requires m <= |ps| && n <= |ps|
    ensures m <= n ==> |Content(crc, ps[..m])| <= |Content(crc, ps[..n])|
  {
    hide Frames;
    if m <= n {
      ContentConcat(crc, ps[..m], ps[m..n]);
      assert ps[..n] == ps[..m] + ps[m..n];
    }
  }

  /** Only what was delivered is gone, the rest survived, and the new run comes after all of it. */
  ghost predicate Remains(crc: Checksum, u: View, v: View, first: u64, loaded: Recovery.Loaded) {
    && v.files.Keys <= u.files.Keys && (forall s | s in u.files :: s < first) && v.current == first
    && (forall s | s in u.files && s !in v.files :: loaded.Position? && s < loaded.cursor.segment)
    && (loaded.Position? ==> loaded.cursor.segment < first)
    && (!v.damaged ==> forall s | s in v.files :: Recovery.Survived(crc, u, v, s))
  }

  /** The records of the cursor's segment that are before it. */
  ghost function Behind(v: View, loaded: Recovery.Loaded, k: nat): seq<Payload> {
    match loaded
    case Position(c) => Part(v.plan, map[c.segment := Left(v, c, k)], c.segment)
    case _ => []
  }

  /** Opens the writer, and a reader at the position that was last acknowledged. */
  method Reopen(dir: Directory, cfg: Config, time: RecordTime, loaded: Recovery.Loaded, ghost k: nat)
    returns (w: LogWriter?, r: LogReader?)
    requires Sound(dir.crc, dir.Now()) && dir.listed == dir.files.Keys
    requires loaded.Position? && !dir.damaged ==> Loadable(dir.crc, dir.Now(), loaded.cursor, k)
    modifies dir
    ensures w == null <==>
              || !cfg.Valid() || U64_MAX in old(dir.files)
              || (loaded.Position? && loaded.cursor.segment == U64_MAX)
    ensures w != null ==> w.Valid() && w.dir == dir && w.accepted == [] && w.stats.Refused() == 0
    ensures w != null ==> r != null && r.Valid() && r.dir.log == dir && r.taken == [] && r.first == r.pos.segment
    ensures w != null ==> fresh(w) && fresh(r) && fresh(r.dir)
    ensures w != null ==> r.pos == if loaded.Position? then loaded.cursor else Cursor(0, 0)
    ensures w != null && !dir.damaged ==> r.before == Behind(dir.Now(), loaded, k)
    ensures w != null ==> dir.Gone() == {} && w.stats.Evictions() == 0 && dir.damaged == old(dir.damaged)
    ensures w != null ==> Remains(dir.crc, old(dir.Now()), dir.Now(), w.first, loaded)
  {
    hide Follows, AtBoundary, Evolves, Ordered, Recovery.Survived, Sound, Content, OnDisk, Ledger, Frames, Capped,
         Loadable, Recovery.Listed, Recovery.Reported, Recovery.Undeleted, Clean, Standing, LogWriter.Stored, Behind,
         Directory.Recorded, Part, Remains;
    ghost var u := dir.Now();
    var report;
    w, report := Recovery.Open(dir, cfg, time, loaded);
    r := null;
    if w != null {
      w.IsCurrent();
      RecordedSound(dir);
      assert Remains(dir.crc, u, dir.Now(), w.first, loaded) by {
        assert dir.current == w.first;
        RemainsAll(dir.crc, u, dir.Now(), w.first, loaded);
      }
      var sight := new Sight(dir);
      var from := if loaded.Position? then loaded.cursor else Cursor(0, 0);
      ghost var n := if loaded.Position? then Left(dir.Now(), from, k) else 0;
      BehindIs(dir.Now(), loaded, from, k, n);
      if loaded.Position? {
        LoadedCursorStands(dir.crc, u, dir.Now(), from, k);
      } else {
        StartStands(dir.crc, dir.Now());
      }
      r := new LogReader(sight, from, n);
    }
  }

  lemma RemainsAll(crc: Checksum, u: View, v: View, first: u64, loaded: Recovery.Loaded)
    requires v.files.Keys <= u.files.Keys && v.current == first
    requires forall s | s in u.files :: s < first
    requires forall s | s in u.files && s !in v.files :: loaded.Position? && s < loaded.cursor.segment
    requires loaded.Position? ==> loaded.cursor.segment < first
    requires !v.damaged ==> forall s | s in v.files :: Recovery.Survived(crc, u, v, s)
    ensures Remains(crc, u, v, first, loaded)
  {
    hide Recovery.Survived;
  }

  lemma BehindIs(v: View, loaded: Recovery.Loaded, from: Cursor, k: nat, n: nat)
    requires from == if loaded.Position? then loaded.cursor else Cursor(0, 0)
    requires n == if loaded.Position? then Left(v, from, k) else 0
    ensures Behind(v, loaded, k) == Part(v.plan, map[from.segment := n], from.segment)
  {
  }

  /** So it may at the start of the log. */
  lemma StartStands(crc: Checksum, v: View)
    ensures Standing(crc, v, Cursor(0, 0), 0)
  {
  }

  // Records larger than a segment.

  /** A configuration in which a record of 20 bytes is huge. */
  function Tiny(overflow: Overflow): Config {
    Config(9, 36, overflow, 0, 0, RECORD_HEADER + MAX_PAYLOAD)
  }

  lemma OneHuge(overflow: Overflow, p: Payload, q: Payload)
    requires |p| == 20 && |q| == 1
    ensures Tiny(overflow).Valid() && Tiny(overflow).backlogBytes == RECORD_HEADER + MAX_PAYLOAD
    ensures Flushed([p, q], [Segment(1, SEGMENT_HEADER)], Tiny(overflow)) == Some(Outcome([Segment(1, 36)], 1))
  {
    var cfg, segs, long := Tiny(overflow), [Segment(1, SEGMENT_HEADER)], [Segment(1, 36)];
    assert Batch([p, q], SEGMENT_HEADER, 9) == 1;
    assert [p, q][1..] == [q] && [p, q][..1] == [p] && [p][1..] == [];
    assert Size([p]) == 28;
    FlushedBatch([p, q], segs, cfg);
    assert Longer(segs, 28) == long;
    TotalOne(long[0]);
    assert Fitted(long, cfg) == long;
    FlushedFull([q], long, cfg);
  }

  /** A writer over an empty directory. */
  method StartEmpty(crc: Checksum, cfg: Config) returns (w: LogWriter)
    requires cfg.Valid()
    ensures fresh(w) && fresh(w.dir) && w.Valid() && w.cfg == cfg && w.segments == [Segment(1, 0)] && !w.file
    ensures w.accepted == [] && w.queue == [] && w.pending == [] && w.retryAt == None && w.lastFlush == None
    ensures w.stats.overflowDrops == 0 && w.stats.deleteFailures == 0
  {
    hide Follows, AtBoundary, Evolves, Ordered, Sound, Content, OnDisk, Ledger, Frames, Capped, Clean, Flushed,
         Recovery.Survived, Recovery.Reported, Recovery.Undeleted, Directory.Recorded, LogWriter.Stored;
    var dir := new Directory(crc);
    RecordedSound(dir);
    var made, report := Recovery.Open(dir, cfg, _ => None, Recovery.Missing);
    w := made;
    w.Basics();
    NothingListed(dir.Now(), w.first, Sealed(w.segments));
    assert w.segments == Sealed(w.segments) + [Active(w.segments)];
    NothingUndeleted(dir.Now(), w.first, w.acked);
  }

  lemma NothingListed(v: View, from: nat, segs: seq<Segment>)
    requires v.files == map[] && Recovery.Listed(v, from, segs)
    ensures segs == []
  {
    hide Recovery.Listed;
    if segs != [] {
      ListedThere(v, from, segs, 0);
    }
  }

  lemma ListedThere(v: View, from: nat, segs: seq<Segment>, i: nat)
    requires Recovery.Listed(v, from, segs) && i < |segs|
    ensures segs[i].number in v.files
  {
  }

  /** Under every policy a second record is dropped after one that leaves no room for a segment beside
      its own, when nothing fails: also under those that are there to delete old records instead. */
  method DropsAfterHuge(overflow: Overflow, now: int) returns (w: LogWriter, ok: bool)
    ensures fresh(w) && w.Valid() && w.cfg == Tiny(overflow) && |w.accepted| == 2
    ensures ok && w.stats.deleteFailures == 0 ==> w.stats.overflowDrops == 1 && w.stats.recordsWritten == 1
  {
    hide Ordered, Content, OnDisk, Ledger, Frames, Capped, Clean, Flushed, Directory.Recorded, LogWriter.Stored, Tiny,
         KeepsRecords, Records, Kept, Total, Small, Fits, LogWriter.Opened, Evolves, Sound;
    var p, q: Payload := seq(20, _ => 1), [1];
    OneHuge(overflow, p, q);
    w := StartEmpty(_ => 0, Tiny(overflow));
    var first := w.Append(p);
    OneFramed(w.dir.crc, p);
    var second := w.Append(q);
    assert w.queue == [p, q];
    assert Started(w.segments) == [Segment(1, SEGMENT_HEADER)];
    ok := w.Tick(now);
    NoneLostOrDoubled(w);
  }

  lemma OneFramed(crc: Checksum, p: Payload)
    ensures |Frames(crc, [] + [p])| == RECORD_HEADER + |p|
  {
    assert [] + [p] == [p] && [p][1..] == [];
    FramesSize(crc, [p]);
  }

  lemma RecordedSound(dir: Directory)
    requires dir.Recorded()
    ensures Sound(dir.crc, dir.Now())
  {
    hide Sound, Ordered;
  }

  lemma NothingUndeleted(v: View, from: nat, cursor: Option<Cursor>)
    requires v.files == map[]
    ensures |Recovery.Undeleted(v, from, cursor)| == 0
  {
    assert Recovery.Undeleted(v, from, cursor) == {};
  }
}
