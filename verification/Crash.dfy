/** A crash at any moment of a run, and the run after it: what both deliver together. */
module Crash {
  import opened Options
  import opened Framing
  import opened Disk
  import opened Log
  import opened Segments
  import opened Policy
  import opened Gaps
  import opened Writer
  import opened Reader
  import opened Buffer
  import Recovery

  /** What a crash may leave of the directory: of each file some part of its beginning, at least what a
      flush has made sure of. Names that were deleted may be back. */
  ghost predicate Leaves(v: View, durable: map<u64, nat>, u: View) {
    && u.files.Keys <= v.files.Keys && u.listed == u.files.Keys
    && u.damaged == v.damaged && u.current == v.current
    && (forall s | s in v.listed && s in durable && durable[s] > 0 :: s in u.files)
    && (forall s | s in u.files :: Beginning(v, durable, u, s))
    && (forall s | s in u.plan :: s in u.files && s in v.plan && u.plan[s] == v.plan[s])
    && (forall s | s in u.files && s in v.plan :: s in u.plan)
  }

  ghost predicate Beginning(v: View, durable: map<u64, nat>, u: View, s: u64)
    requires s in u.files
  {
    && s in v.files && u.files[s] <= v.files[s]
    && (s in durable && durable[s] > |u.files[s]| ==> u.files[s] == v.files[s])
  }

  /** Only the newest segment lost anything. */
  ghost predicate LosesNewest(v: View, u: View) {
    && v.listed - {v.current} <= u.files.Keys <= v.files.Keys && u.listed == u.files.Keys
    && u.damaged == v.damaged && u.current == v.current
    && (forall s | s in u.files :: u.files[s] == v.files[s] || (s == v.current && u.files[s] <= v.files[s]))
    && (forall s | s in u.plan :: s in u.files && s in v.plan && u.plan[s] == v.plan[s])
    && (forall s | s in u.files && s in v.plan :: s in u.plan)
  }

  /** As every segment was flushed before the next was made. */
  lemma OnlyNewest(crc: Checksum, v: View, durable: map<u64, nat>, u: View, a: Segment, unsynced: bool)
    requires Sound(crc, v) && !v.damaged && Leaves(v, durable, u)
    requires Safe(v.files, durable, v.damaged, a, unsynced) && a.number == v.current
    ensures LosesNewest(v, u)
  {
    hide Frames;
    forall s | s in u.files
      ensures u.files[s] == v.files[s] || (s == v.current && u.files[s] <= v.files[s])
    {
      assert FileSound(crc, v, s) && Beginning(v, durable, u, s);
    }
    forall s | s in v.listed && s != v.current
      ensures s in u.files
    {
      assert FileSound(crc, v, s);
    }
  }

  /** So of a running writer. */
  lemma WriterLosesNewest(w: LogWriter, u: View)
    requires w.Valid() && !w.dir.damaged && Leaves(w.dir.Now(), w.dir.durable, u)
    ensures LosesNewest(w.dir.Now(), u) && Sound(w.dir.crc, w.dir.Now())
  {
    hide Leaves, Sound, Ordered, OnDisk, Ledger, Capped, Frames, Safe, Snug, Fits, Small;
    w.IsCurrent();
    OnlyNewest(w.dir.crc, w.dir.Now(), w.dir.durable, u, Active(w.segments), w.unsynced);
  }

  /** Whatever it leaves is a directory that a new run can start from. */
  lemma LeavesSound(crc: Checksum, v: View, durable: map<u64, nat>, u: View)
    requires Sound(crc, v) && Leaves(v, durable, u) && (!v.damaged ==> LosesNewest(v, u))
    ensures Sound(crc, u)
  {
    hide Content, Leaves;
    LeavesKeys(v, durable, u);
    if !v.damaged {
      forall s | s in u.files
        ensures FileSound(crc, u, s)
      {
        assert FileSound(crc, v, s);
      }
    }
  }

  /** How many records of its segment were before a cursor, if the segment is still there. */
  ghost function CountLeft(u: View, p: Place): nat {
    if p.pos.segment in u.files then p.k else 0
  }

  /** Any cursor that a reader was at, at any time of the run, is one that the next run can start from. */
  lemma CursorsLoad(log: Directory, i: nat, p: Place, u: View)
    requires log.Recorded() && i < |log.history| && Follows(log.crc, log.history[i], p)
    requires !log.damaged ==> LosesNewest(log.Now(), u)
    ensures Sound(log.crc, log.Now()) && Follows(log.crc, log.Now(), p)
    ensures !log.damaged ==> Loadable(log.crc, u, p.pos, CountLeft(u, p))
  {
    hide Follows, Evolves, Sound, LosesNewest, Loadable;
    var n := |log.history| - 1;
    assert Evolves(log.crc, log.history[i], log.history[n]);
    assert Evolves(log.crc, log.history[i], log.history[i]);
    EvolvesSound(log.crc, log.history[i], log.history[i]);
    EvolvesSound(log.crc, log.history[i], log.history[n]);
    Stable(log.crc, log.history[i], log.history[n], p);
    if !log.damaged {
      PlaceLoads(log.crc, log.Now(), u, p);
    }
  }

  lemma PlaceLoads(crc: Checksum, v: View, u: View, p: Place)
    requires Sound(crc, v) && !v.damaged && Follows(crc, v, p) && LosesNewest(v, u)
    ensures Loadable(crc, u, p.pos, CountLeft(u, p))
  {
    hide Content, Frames, Parts, UsedUp;
    EveryFilePlanned(crc, v);
  }

  /** The segments after the crash and the recovery: those before the newest as they were, of the newest
      the records that survived; and what is gone was delivered, or is the newest. */
  ghost predicate Survives(v: View, w: View, next: u64, pos: u64) {
    && pos < next
    && (forall s | s in w.plan && s < next :: SurvivesAt(v, w, s))
    && (forall s | s in v.listed && s !in w.plan :: s < pos || s == v.current)
  }

  ghost predicate SurvivesAt(v: View, w: View, s: u64)
    requires s in w.plan
  {
    s in v.plan && w.plan[s] <= v.plan[s] && (s < v.current ==> w.plan[s] == v.plan[s])
  }

  lemma RecoverySurvives(crc: Checksum, v: View, u: View, w: View, next: u64, c: Cursor)
    requires Sound(crc, v) && LosesNewest(v, u) && Sound(crc, w) && !v.damaged && !w.damaged
    requires Remains(crc, u, w, next, Recovery.Position(c))
    ensures Survives(v, w, next, c.segment)
  {
    hide Recovery.Survived, Sound;
    EveryFilePlanned(crc, w);
    SoundFiles(crc, v);
    forall s | s in w.plan
      ensures SurvivesAt(v, w, s)
    {
      SegmentSurvives(crc, v, u, w, s);
    }
    assert v.listed <= v.files.Keys;
  }

  lemma SoundFiles(crc: Checksum, v: View)
    requires Sound(crc, v)
    ensures v.listed <= v.files.Keys && (!v.damaged ==> forall s | s in v.files :: FileSound(crc, v, s))
  {
    hide FileSound;
  }

  lemma SegmentSurvives(crc: Checksum, v: View, u: View, w: View, s: u64)
    requires LosesNewest(v, u) && s in v.files && FileSound(crc, v, s)
    requires Recovery.Survived(crc, u, w, s)
    ensures SurvivesAt(v, w, s)
  {
    hide Content, Frames, View.Sealed, Recovery.Survivors;
    if s < v.current {
      AllSurvive(crc, v.plan[s]);
    }
  }

  /** A whole segment loses nothing. */
  lemma AllSurvive(crc: Checksum, ps: seq<Payload>)
    ensures Recovery.Survivors(ps, |Content(crc, ps)|) == |ps|
  {
    hide Content, Frames;
    var n := |Content(crc, ps)|;
    assert Content(crc, ps)[..n] == Content(crc, ps);
    Recovery.RecoversWhatSurvived(crc, ps, n);
    var k := Recovery.Survivors(ps, n);
    assert ps[..|ps|] == ps;
    if k < |ps| {
      ContentShorter(crc, ps, k + 1, |ps|);
    }
  }

  /** What a flush has made sure of survives: once the writer has nothing left to flush, every record it has
      written is still there after a crash and recovery, unless its segment was delivered or deleted. */
  lemma FlushedSurvives(w: LogWriter, u: View, v: View, next: u64, loaded: Recovery.Loaded, s: u64)
    requires w.Valid() && !w.unsynced && !w.dir.damaged && Leaves(w.dir.Now(), w.dir.durable, u)
    requires Remains(w.dir.crc, u, v, next, loaded) && !v.damaged
    requires s in w.recs && w.recs[s] != [] && s in w.dir.listed
    requires loaded.Position? ==> s >= loaded.cursor.segment
    ensures s in v.plan && w.recs[s] <= v.plan[s]
  {
    hide Leaves, Sound, Ordered, OnDisk, Ledger, Capped, Frames, Content, Safe, Snug, Fits, Small, LosesNewest, Clean,
         Recovery.Survived;
    RecordsPlanned(w, s);
    RecordsSafe(w.dir.crc, w.dir.Now(), w.dir.durable, u, s, w.recs[s]);
    RecordsLeft(w.dir.crc, u, v, s, w.recs[s]);
  }

  /** Written records are planned, and on the disk for sure. */
  lemma RecordsPlanned(w: LogWriter, s: u64)
    requires w.Valid() && !w.unsynced && !w.dir.damaged && s in w.recs && w.recs[s] != []
    ensures s in w.dir.files && s in w.dir.plan && w.recs[s] <= w.dir.plan[s]
    ensures Content(w.dir.crc, w.recs[s]) <= w.dir.files[s] <= Content(w.dir.crc, w.dir.plan[s])
    ensures s in w.dir.durable && w.dir.durable[s] >= |Content(w.dir.crc, w.recs[s])|
  {
    hide Content, Ordered, Ledger, Capped, Frames, Batch, Snug, Fits, Small;
    assert s in w.dir.files ==> FileSound(w.dir.crc, w.dir.Now(), s);
  }

  /** So they are at the beginning of what the crash leaves. */
  lemma RecordsSafe(crc: Checksum, v: View, durable: map<u64, nat>, u: View, s: u64, ps: seq<Payload>)
    requires Leaves(v, durable, u) && s in v.files && s in v.plan && s in v.listed && ps <= v.plan[s]
    requires Content(crc, ps) <= v.files[s] <= Content(crc, v.plan[s])
    requires s in durable && durable[s] >= |Content(crc, ps)|
    ensures s in u.files && s in u.plan && ps <= u.plan[s]
    ensures Content(crc, ps) <= u.files[s] <= Content(crc, u.plan[s])
  {
    hide Frames;
    assert s in u.files && Beginning(v, durable, u, s);
  }

  /** And recovery keeps them. */
  lemma RecordsLeft(crc: Checksum, u: View, w: View, s: u64, ps: seq<Payload>)
    requires s in u.files && s in u.plan && s in w.files && Recovery.Survived(crc, u, w, s) && ps <= u.plan[s]
    requires Content(crc, ps) <= u.files[s] <= Content(crc, u.plan[s])
    ensures s in w.plan && ps <= w.plan[s]
  {
    hide Content, Frames, View.Sealed, Recovery.Survivors;
    var all, n := u.plan[s], |u.files[s]|;
    Recovery.RecoversWhatSurvived(crc, all, n);
    var k := Recovery.Survivors(all, n);
    assert all[..|ps|] == ps && all[..|all|] == all;
    if k < |ps| {
      HeaderFirst(crc, ps);
      ContentShorter(crc, all, k + 1, |ps|);
    }
    assert k >= |ps| ==> ps <= all[..k];
  }

  lemma HeaderFirst(crc: Checksum, ps: seq<Payload>)
    ensures |Content(crc, ps)| >= SEGMENT_HEADER
  {
  }

  // What two runs deliver together.

  /** The records of the segments from `m` on, before `n`. */
  ghost function From(plan: map<u64, seq<Payload>>, m: nat, n: nat): seq<Payload>
    decreases n
  {
    if n <= m then [] else From(plan, m, n - 1) + Of(plan, n - 1)
  }

  lemma {:induction false} RecordsFrom(plan: map<u64, seq<Payload>>, m: nat, n: nat)
    requires m <= n
    ensures Records(plan, n) == Records(plan, m) + From(plan, m, n)
    decreases n
  {
    if m < n {
      RecordsFrom(plan, m, n - 1);
      Associates(Records(plan, m), From(plan, m, n - 1), Of(plan, n - 1));
    }
  }

  lemma {:induction false} FromFirst(plan: map<u64, seq<Payload>>, m: nat, n: nat)
    requires m < n
    ensures From(plan, m, n) == Of(plan, m) + From(plan, m + 1, n)
    decreases n
  {
    if m + 1 < n {
      FromFirst(plan, m, n - 1);
      Associates(Of(plan, m), From(plan, m + 1, n - 1), Of(plan, n - 1));
    } else {
      assert From(plan, m, n) == From(plan, m, m) + Of(plan, m);
    }
  }

  function Longest(a: seq<Payload>, b: seq<Payload>): seq<Payload> {
    if |a| <= |b| then b else a
  }

  /** The log over a crash: what lay before the position `p` where the first run's reader was; of that
      segment what survived, or what was delivered if that is more; what survived of later segments; and
      what the second run has written and queued. */
  ghost function Joined(v: View, p: Place, w: LogWriter): seq<Payload>
    reads w, w.dir
    requires |w.fates| <= |w.accepted|
  {
    Records(v.plan, p.pos.segment) + Longest(Current(v, p), Of(w.dir.plan, p.pos.segment))
    + Rest(p, w)
  }

  ghost function Rest(p: Place, w: LogWriter): seq<Payload>
    reads w, w.dir
    requires |w.fates| <= |w.accepted|
  {
    From(w.dir.plan, p.pos.segment + 1, w.first) + Kept(w.accepted, w.fates) + w.queue
  }

  function AtMost(ps: seq<Payload>, k: nat): seq<Payload> {
    if k <= |ps| then ps[..k] else ps
  }

  /** What the two runs delivered together is a prefix of the log over the crash: nothing twice, nothing
      out of order, nothing left out but what the crash took. Unless one of them deleted a segment before
      its reader had read it. */
  lemma DeliversAcross(v: View, p: Place, w: LogWriter, r: LogReader)
    requires Sound(w.dir.crc, v) && !v.damaged && Follows(w.dir.crc, v, p) && NoneCutShort(v, p)
    requires w.Valid() && r.Valid() && r.dir.log == w.dir && !w.dir.damaged
    requires NoneCutShort(w.dir.Now(), r.Here())
    requires Survives(v, w.dir.Now(), w.first, p.pos.segment) && r.first == p.pos.segment
    requires r.before == AtMost(Of(w.dir.plan, r.first), p.k)
    ensures |w.fates| <= |w.accepted|
    ensures Records(v.plan, p.first) + p.taken + r.taken <= Joined(v, p, w)
  {
    hide LogWriter.Stored, Follows, Records, Kept, From, Sound, NoneCutShort, Directory.Recorded, Frames, Evolves,
         Ordered;
    var plan, s, next := w.dir.plan, p.pos.segment, w.first;
    StoredRecorded(w);
    TakenIsWhole(w.dir.crc, v, p);
    CurrentIs(w.dir.crc, v, p);
    DeliversAPrefix(w, r);
    RecordsFrom(plan, s, next);
    FromFirst(plan, s, next);
    Spliced(Records(v.plan, s), Of(v.plan, s), Records(plan, s), Of(plan, s), p.k, r.taken,
            From(plan, s as nat + 1, next), Kept(w.accepted, w.fates), w.queue);
    assert Records(v.plan, p.first) + p.taken + r.taken == (Records(v.plan, p.first) + p.taken) + r.taken;
  }

  /** What survived stays as it is while the second run goes on. */
  lemma SurvivesOn(crc: Checksum, v: View, w: View, w': View, next: u64, pos: u64)
    requires Survives(v, w, next, pos) && w.current == next && Sound(crc, w) && Evolves(crc, w, w') && !w'.damaged
    ensures Survives(v, w', next, pos) && Of(w'.plan, pos) == Of(w.plan, pos)
  {
    hide Sound, FileKept;
    EvolvesSound(crc, w, w');
    EveryFilePlanned(crc, w);
    EveryFilePlanned(crc, w');
    forall s: u64 | s < next
      ensures (s in w'.plan <==> s in w.plan) && (s in w.plan ==> w'.plan[s] == w.plan[s])
    {
      EarlierStay(crc, w, w', next, s);
    }
    forall s | s in w'.plan && s < next
      ensures SurvivesAt(v, w', s)
    {
      assert SurvivesAt(v, w, s);
    }
    assert w.files.Keys <= w'.files.Keys;
  }

  /** Where the second reader starts, what is before it is what was before the first, if it survived. */
  lemma BeforeIs(u: View, w: View, p: Place)
    requires w.plan.Keys <= u.files.Keys
    ensures Behind(w, Recovery.Position(p.pos), CountLeft(u, p)) == AtMost(Of(w.plan, p.pos.segment), p.k)
  {
  }

  /** A crash at any moment of any run, and any run after it. Its reader goes on from the stored cursor:
      where a reader of the first run was at some instant `i`, at the place `p`. */
  method AfterCrash(w: LogWriter, ghost i: nat, ghost p: Place, stored: Cursor, files: map<u64, seq<byte>>,
                    ghost u: View, cfg: Config, time: RecordTime, script: seq<Act>)
    returns (w2: LogWriter?, r2: LogReader?)
    requires w.Valid() && i < |w.dir.history| && Follows(w.dir.crc, w.dir.history[i], p) && stored == p.pos
    requires Leaves(w.dir.Now(), w.dir.durable, u) && files == u.files
    ensures w2 == null <==> !cfg.Valid() || U64_MAX in files || stored.segment == U64_MAX
    ensures w2 != null ==> r2 != null && w2.Valid() && r2.Valid() && r2.dir.log == w2.dir && r2.first == stored.segment
    ensures w2 != null ==> Tried(w2) == Appends(script)
    ensures w2 != null && !w.dir.damaged && !w2.dir.damaged ==>
              Survives(w.dir.Now(), w2.dir.Now(), w2.first, stored.segment) && |w2.fates| <= |w2.accepted|
    // While only what was read is deleted, what was delivered up to the cursor and what the second run
    // delivers are together a prefix of the log.
    ensures w2 != null && !w.dir.damaged && !w2.dir.damaged ==>
              NoneCutShort(w.dir.Now(), p) && NoneCutShort(w2.dir.Now(), r2.Here()) ==>
                Records(w.dir.plan, p.first) + p.taken + r2.taken <= Joined(w.dir.Now(), p, w2)
    ensures w2 != null && !w2.dir.damaged && w2.stats.Evictions() == 0 && (forall a | a in script :: !a.Ack?) ==>
              NoneCutShort(w2.dir.Now(), r2.Here())
  {
    hide LogWriter.Stored, Follows, Records, Kept, From, Sound, NoneCutShort, Directory.Recorded, Frames, Evolves,
         Ordered, Leaves, LosesNewest, Loadable, Remains, Survives, Joined, Behind, NoneUnread, Parts, AllButDeleted;
    ghost var v := w.dir.Now();
    StoredRecorded(w);
    LeavesKeys(v, w.dir.durable, u);
    if !w.dir.damaged {
      WriterLosesNewest(w, u);
    }
    CursorsLoad(w.dir, i, p, u);
    LeavesSound(w.dir.crc, v, w.dir.durable, u);
    var dir := new Directory.Found(w.dir.crc, files, u.plan, u.current, u.damaged);
    w2, r2 := Reopen(dir, cfg, time, Recovery.Position(stored), CountLeft(u, p));
    if w2 == null { return; }
    ghost var start, n, next := dir.Now(), |dir.history| - 1, w2.first;
    StoredRecorded(w2);
    LastIsNow(dir);
    RecordedSound(dir);
    if !w.dir.damaged {
      RecoverySurvives(w.dir.crc, v, u, start, next, stored);
      RemainsPlanned(w.dir.crc, u, start, next, stored);
      BeforeIs(u, start, p);
    }
    NoneGone(start, r2.Here());
    Run(w2, r2, script);
    StoredRecorded(w2);
    NoneUnreadAtAll(dir.Now(), r2.Here());
    if !w.dir.damaged && !dir.damaged {
      Happened(dir, n, start);
      SurvivesOn(dir.crc, v, start, dir.Now(), next, stored.segment);
      if NoneCutShort(v, p) && NoneCutShort(dir.Now(), r2.Here()) {
        DeliversAcross(v, p, w2, r2);
      }
    }
  }

  lemma LeavesKeys(v: View, durable: map<u64, nat>, u: View)
    requires Leaves(v, durable, u)
    ensures u.listed == u.files.Keys && u.damaged == v.damaged
    ensures u == View(u.files, u.files.Keys, u.plan, u.current, u.damaged)
  {
  }

  lemma RemainsPlanned(crc: Checksum, u: View, w: View, next: u64, c: Cursor)
    requires Sound(crc, w) && !w.damaged && Remains(crc, u, w, next, Recovery.Position(c))
    ensures w.plan.Keys <= u.files.Keys && w.current == next
  {
    hide Recovery.Survived;
  }

  lemma NoneGone(v: View, p: Place)
    requires v.files.Keys - v.listed == {}
    ensures NoneUnread(v, p)
  {
    assert forall s | s in v.files && s !in v.listed :: s in v.files.Keys - v.listed;
  }

  lemma CurrentIs(crc: Checksum, v: View, p: Place)
    requires Sound(crc, v) && !v.damaged && Follows(crc, v, p)
    ensures p.k <= |Of(v.plan, p.pos.segment)| && Current(v, p) == Of(v.plan, p.pos.segment)[..p.k]
  {
    hide AtBoundary, Sound, UsedUp, Parts;
    HereIs(crc, v, p);
  }

  lemma Spliced(x: seq<Payload>, all: seq<Payload>, y: seq<Payload>, left: seq<Payload>, k: nat, taken: seq<Payload>,
                later: seq<Payload>, new_: seq<Payload>, queue: seq<Payload>)
    requires k <= |all| && left <= all
    requires y + AtMost(left, k) + taken <= y + (left + later) + new_ + queue
    ensures x + all[..k] + taken <= x + Longest(all[..k], left) + (later + new_ + queue)
  {
    var rest := later + new_ + queue;
    assert y + (left + later) + new_ + queue == y + (left + rest);
    assert y + AtMost(left, k) + taken == y + (AtMost(left, k) + taken);
    CancelFront(y, AtMost(left, k) + taken, left + rest);
    if k <= |left| {
      assert left[..k] == all[..k];
      assert x + all[..k] + taken == x + (all[..k] + taken) && x + left + rest == x + (left + rest);
      AddFront(x, all[..k] + taken, left + rest);
    } else {
      CancelFront(left, taken, rest);
      AddFront(x + all[..k], taken, rest);
    }
  }

  lemma CancelFront<T>(a: seq<T>, b: seq<T>, c: seq<T>)
    requires a + b <= a + c
    ensures b <= c
  {
    assert b == (a + b)[|a|..] && c == (a + c)[|a|..];
    assert (a + c)[..|a + b|] == a + b;
    assert c[..|b|] == (a + c)[|a|..|a + b|];
  }

  lemma AddFront<T>(a: seq<T>, b: seq<T>, c: seq<T>)
    requires b <= c
    ensures a + b <= a + c
  {
    assert c == b + c[|b|..];
    assert a + c == (a + b) + c[|b|..];
  }
}
