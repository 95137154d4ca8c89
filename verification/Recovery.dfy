/** Opening the buffer after a crash: what is kept of the newest segment, and where writing goes on. */
module Recovery {
  import opened Options
  import opened Framing
  import opened Disk
  import opened Log
  import opened Segments
  import opened Policy
  import opened Gaps
  import opened Writer

  function Zeros(n: nat): (z: seq<byte>)
    ensures |z| == n
  {
    seq(n, _ => 0)
  }

  predicate AllZero(data: seq<byte>) {
    forall i | 0 <= i < |data| :: data[i] == 0
  }

  /** The length up to the last byte that is not zero. */
  function WrittenLen(head: seq<byte>): (n: nat)
    ensures n <= |head| && AllZero(head[n..])
    ensures n > 0 ==> head[n - 1] != 0
  {
    if head == [] then 0
    else if head[|head| - 1] != 0 then |head|
    else WrittenLen(head[..|head| - 1])
  }

  /** What a crash can leave of a header: some of its bytes, the rest missing or zero. */
  predicate TornHeader(data: seq<byte>) {
    var head := if |data| < SEGMENT_HEADER then data else data[..SEGMENT_HEADER];
    head[..WrittenLen(head)] <= SEGMENT_MAGIC && AllZero(data[|head|..])
  }

  lemma TornHeaderIff(data: seq<byte>)
    ensures TornHeader(data) <==> exists k: nat :: k <= SEGMENT_HEADER && k <= |data| && data == TornAt(k, |data|)
  {
    if TornHeader(data) {
      TornHeaderShape(data);
    }
    forall k: nat | k <= SEGMENT_HEADER && k <= |data| && data == TornAt(k, |data|)
      ensures TornHeader(data)
    {
      TornHeaderSeen(data, k);
    }
  }

  /** A file of `n` bytes of which only the first `k` of the header were written. */
  function TornAt(k: nat, n: nat): seq<byte>
    requires k <= SEGMENT_HEADER && k <= n
  {
    SEGMENT_MAGIC[..k] + Zeros(n - k)
  }

  lemma TornHeaderShape(data: seq<byte>)
    requires TornHeader(data)
    ensures exists k: nat :: k <= SEGMENT_HEADER && k <= |data| && data == TornAt(k, |data|)
  {
    var head := if |data| < SEGMENT_HEADER then data else data[..SEGMENT_HEADER];
    var n := WrittenLen(head);
    assert data == head + data[|head|..];
    assert data == TornAt(n, |data|);
  }

  lemma TornHeaderSeen(data: seq<byte>, k: nat)
    requires k <= SEGMENT_HEADER && k <= |data| && data == TornAt(k, |data|)
    ensures TornHeader(data)
  {
    var head := if |data| < SEGMENT_HEADER then data else data[..SEGMENT_HEADER];
    assert forall i | k <= i < |data| :: data[i] == 0;
    assert head[..k] == SEGMENT_MAGIC[..k];
    assert WrittenLen(head) <= k;
  }

  /** What recovery leaves of the newest segment; `None`: not one of ours, left as it is. */
  function Recovered(crc: Checksum, data: seq<byte>): Option<seq<byte>> {
    if SEGMENT_MAGIC <= data then Some(Content(crc, Decode(crc, data[SEGMENT_HEADER..])))
    else if TornHeader(data) then Some(SEGMENT_MAGIC)
    else None
  }

  /** How many records of a segment lie wholly in its first `n` bytes. */
  function Survivors(ps: seq<Payload>, n: nat): (k: nat)
    ensures k <= |ps|
  {
    if n < SEGMENT_HEADER then 0 else WholeRecords(ps, n - SEGMENT_HEADER)
  }

  /** After a crash that left any prefix of the newest segment, exactly the records wholly inside it
      are kept, and it is never taken for a foreign file. */
  lemma RecoversWhatSurvived(crc: Checksum, ps: seq<Payload>, n: nat)
    requires n <= |Content(crc, ps)|
    ensures Recovered(crc, Content(crc, ps)[..n]) == Some(Content(crc, ps[..Survivors(ps, n)]))
    ensures n >= SEGMENT_HEADER ==> Decode(crc, Content(crc, ps)[..n][SEGMENT_HEADER..]) == ps[..Survivors(ps, n)]
    ensures n >= SEGMENT_HEADER ==>
              var k := Survivors(ps, n);
              |Content(crc, ps[..k])| <= n && (k < |ps| ==> |Content(crc, ps[..k + 1])| > n)
  {
    hide Frames, Decode, TornHeader;
    var data := Content(crc, ps)[..n];
    if n < SEGMENT_HEADER {
      assert data == TornAt(n, n);
      TornHeaderIff(data);
      FramesOfNone(crc);
      assert ps[..0] == [] && Content(crc, []) == SEGMENT_MAGIC;
    } else {
      assert data[SEGMENT_HEADER..] == Frames(crc, ps)[..n - SEGMENT_HEADER];
      DecodeCut(crc, ps, n - SEGMENT_HEADER);
      WholeRecordsFit(crc, ps, n - SEGMENT_HEADER);
    }
  }

  /** A file whose size survived a power cut while its last bytes read as zeros is not foreign. */
  lemma ZeroTailIsNotForeign(crc: Checksum, ps: seq<Payload>, n: nat, zeros: nat)
    requires n <= |Content(crc, ps)|
    ensures Recovered(crc, Content(crc, ps)[..n] + Zeros(zeros)).Some?
  {
    hide Frames;
    var data := Content(crc, ps)[..n] + Zeros(zeros);
    if n < SEGMENT_HEADER {
      assert data == TornAt(n, |data|);
      TornHeaderIff(data);
    } else {
      assert data[..SEGMENT_HEADER] == SEGMENT_MAGIC;
    }
  }

  /** Recovering again changes nothing, whatever the file held. */
  lemma RecoveryIsIdempotent(crc: Checksum, data: seq<byte>)
    requires Recovered(crc, data).Some?
    ensures Recovered(crc, Recovered(crc, data).value) == Recovered(crc, data)
  {
    hide Frames, Decode, TornHeader;
    var ps := if SEGMENT_MAGIC <= data then Decode(crc, data[SEGMENT_HEADER..]) else [];
    FramesOfNone(crc);
    assert SEGMENT_MAGIC + [] == SEGMENT_MAGIC;
    var kept := Content(crc, ps);
    assert kept[SEGMENT_HEADER..] == Frames(crc, ps);
    DecodeFramesOnly(crc, ps);
  }

  /** How many bytes recovery takes off the newest segment. */
  function Cut(crc: Checksum, data: seq<byte>): (n: nat)
    ensures n <= |data|
  {
    if SEGMENT_MAGIC <= data then DecodeSound(crc, data[SEGMENT_HEADER..]); |data| - |Recovered(crc, data).value|
    else if TornHeader(data) then |data|
    else 0
  }

  /** Leaves of the newest segment what `Recovered` says. `None`: not one of ours. */
  method RecoverNewest(dir: Directory, s: u64) returns (len: Option<nat>, cut: nat)
    requires Sound(dir.crc, dir.Now()) && s in dir.files
    modifies dir`files, dir`plan
    ensures Sound(dir.crc, dir.Now())
    ensures var r := Recovered(dir.crc, old(dir.files[s]));
            if r.Some? then dir.files == old(dir.files)[s := r.value] && len == Some(|r.value|)
            else dir.files == old(dir.files) && len == None
    ensures cut == Cut(dir.crc, old(dir.files[s]))
    ensures dir.plan == old(dir.plan) || (s in dir.plan && dir.plan == old(dir.plan)[s := dir.plan[s]])
    ensures !dir.damaged ==>
              && len.Some? && dir.plan == old(dir.plan)[s := Kept(old(dir.Now()), s)]
              && dir.files[s] == Content(dir.crc, dir.plan[s])
  {
    hide Content, Frames, Decode, TornHeader, WholeRecords, Sound, FileSound;
    var data := dir.files[s];
    if !dir.damaged {
      PrefixRecovers(dir.crc, dir.Now(), s);
    }
    if |data| >= SEGMENT_HEADER && data[..SEGMENT_HEADER] == SEGMENT_MAGIC {
      var validEnd, found := Scan(dir.crc, data, SEGMENT_HEADER);
      ghost var ps := Decode(dir.crc, data[SEGMENT_HEADER..]);
      assert data[..validEnd] == data[..SEGMENT_HEADER] + data[SEGMENT_HEADER..validEnd];
      ContentOf(dir.crc, ps);
      dir.Rewrite(s, data[..validEnd], ps);
      return Some(validEnd), |data| - validEnd;
    }
    if !TornHeader(data) { return None, 0; }
    assert !(SEGMENT_MAGIC <= data);
    ContentOf(dir.crc, []);
    FramesOfNone(dir.crc);
    dir.Rewrite(s, SEGMENT_MAGIC, []);
    len, cut := Some(SEGMENT_HEADER), |data|;
  }

  /** A file that is a prefix of its plan recovers to what survives of it. */
  lemma PrefixRecovers(crc: Checksum, v: View, s: u64)
    requires Sound(crc, v) && !v.damaged && s in v.files
    ensures Recovered(crc, v.files[s]) == Some(Content(crc, Kept(v, s)))
    ensures SEGMENT_MAGIC <= v.files[s] ==> Decode(crc, v.files[s][SEGMENT_HEADER..]) == Kept(v, s)
    ensures !(SEGMENT_MAGIC <= v.files[s]) ==> Kept(v, s) == []
  {
    hide Frames, Decode, TornHeader, WholeRecords;
    var data := v.files[s];
    assert FileSound(crc, v, s);
    RecoversWhatSurvived(crc, v.plan[s], |data|);
    assert data == Content(crc, v.plan[s])[..|data|];
    assert |data| >= SEGMENT_HEADER ==> data[..SEGMENT_HEADER] == SEGMENT_MAGIC;
    assert v.plan[s][..0] == [];
  }

  /** The records of `s` that survive. */
  ghost function Kept(v: View, s: u64): seq<Payload>
    requires s in v.files
  {
    if s in v.plan then v.plan[s][..Survivors(v.plan[s], |v.files[s]|)] else []
  }

  lemma ContentOf(crc: Checksum, ps: seq<Payload>)
    ensures Content(crc, ps) == SEGMENT_MAGIC + Frames(crc, ps)
  {
  }

  /** The cursor file's content. */
  datatype Loaded = Missing | Position(cursor: Cursor) | Corrupt

  /** What `Open` found and repaired. */
  datatype Report = Report(truncatedBytes: nat, cursorReset: bool, foreign: Option<u64>)

  predicate Delivered(cursor: Option<Cursor>, s: u64) {
    cursor.Some? && s < cursor.value.segment
  }

  /** A surviving segment is complete: a sealed one as it was, the newest with its whole records. */
  ghost predicate Survived(crc: Checksum, u: View, v: View, s: u64) {
    && s in u.files && s in u.plan && s in v.files && s in v.plan
    && v.plan[s] == (if u.Sealed(s) then u.plan[s] else Kept(u, s))
    && v.files[s] == Content(crc, v.plan[s])
  }

  /** The state of `Open` once it has dealt with the segments before `from`: those left are in the
      list, the others were delivered; the rest is untouched. */
  ghost predicate Opening(crc: Checksum, u: View, v: View, from: nat, segs: seq<Segment>, cursor: Option<Cursor>) {
    && v.files.Keys <= u.files.Keys && v.damaged == u.damaged
    && Listed(v, from, segs)
    && (forall s | s in u.files :: Dealt(crc, u, v, from, cursor, s))
  }

  ghost predicate Listed(v: View, from: nat, segs: seq<Segment>) {
    && Ascending(segs)
    && (forall i | 0 <= i < |segs| ::
          segs[i].number in v.files && segs[i].number < from && segs[i].len == |v.files[segs[i].number]|)
    && (forall s | s in v.files && s < from :: s in Numbers(segs))
  }

  ghost predicate Dealt(crc: Checksum, u: View, v: View, from: nat, cursor: Option<Cursor>, s: u64)
    requires s in u.files
  {
    if s >= from then
      s in v.files && v.files[s] == u.files[s] && (!v.damaged ==> s in u.plan && s in v.plan && v.plan[s] == u.plan[s])
    else if s in v.files then
      !v.damaged ==> Survived(crc, u, v, s)
    else
      Delivered(cursor, s)
  }

  /** One segment found: deleted if it was delivered, else kept, the newest after recovery. */
  method OpenSegment(dir: Directory, ghost u: View, s: u64, newest: bool, segs: seq<Segment>, cursor: Option<Cursor>)
    returns (segs': seq<Segment>, cut: nat, foreign: bool, failures: nat)
    requires Sound(dir.crc, u) && Sound(dir.crc, dir.Now()) && dir.listed == dir.files.Keys
    requires s in u.files && (newest <==> !u.Sealed(s)) && Opening(dir.crc, u, dir.Now(), s, segs, cursor)
    modifies dir`files, dir`plan, dir`listed
    ensures Sound(dir.crc, dir.Now()) && dir.listed == dir.files.Keys
    ensures Opening(dir.crc, u, dir.Now(), s + 1, segs', cursor)
    ensures dir.files.Keys <= old(dir.files.Keys) && dir.files.Keys - {s} == old(dir.files.Keys) - {s}
    ensures cut == if newest && s in dir.files then Cut(dir.crc, u.files[s]) else 0
    ensures foreign <==> newest && s in dir.files && Recovered(dir.crc, u.files[s]) == None
    ensures failures == if s in dir.files && Delivered(cursor, s) then 1 else 0
    ensures !dir.damaged ==> !foreign
  {
    hide Content, Recovered, View.Sealed, Sound, Survived, Listed, FileSound, Kept, Cut;
    ghost var v := dir.Now();
    segs', cut, foreign, failures := segs, 0, false, 0;
    assert Dealt(dir.crc, u, v, s, cursor, s);
    if cursor.Some? && s < cursor.value.segment {
      var ok := dir.Erase(s);
      if ok {
        ErasedOpening(dir.crc, u, v, dir.Now(), s, segs, cursor);
        return;
      }
      failures := 1;
    }
    if newest {
      var len;
      len, cut := RecoverNewest(dir, s);
      foreign := len.None?;
    }
    segs' := segs + [Segment(s, |dir.files[s]|)];
    KeptOpening(dir.crc, u, v, dir.Now(), s, segs, cursor, newest);
  }

  /** A segment with a newer one after it is final. */
  lemma SealedFinal(crc: Checksum, v: View, s: u64)
    requires Sound(crc, v) && !v.damaged && v.Sealed(s)
    ensures s < v.current
  {
    hide Content;
    var t :| t in v.files && t > s;
    assert FileSound(crc, v, t);
  }

  lemma ErasedOpening(crc: Checksum, u: View, v: View, w: View, s: u64, segs: seq<Segment>, cursor: Option<Cursor>)
    requires s in u.files && Opening(crc, u, v, s, segs, cursor) && Delivered(cursor, s)
    requires w.files == v.files - {s} && w.plan == v.plan - {s} && w.damaged == v.damaged
    ensures Opening(crc, u, w, s + 1, segs, cursor)
  {
    hide Dealt, Listed;
    forall t | t in u.files
      ensures Dealt(crc, u, w, s + 1, cursor, t)
    {
      assert Dealt(crc, u, v, s, cursor, t);
      ErasedDealt(crc, u, v, w, s, cursor, t);
    }
    ErasedListed(v, w, s, segs);
  }

  lemma ErasedDealt(crc: Checksum, u: View, v: View, w: View, s: u64, cursor: Option<Cursor>, t: u64)
    requires t in u.files && Dealt(crc, u, v, s, cursor, t) && Delivered(cursor, s)
    requires w.files == v.files - {s} && w.plan == v.plan - {s} && w.damaged == v.damaged
    ensures Dealt(crc, u, w, s + 1, cursor, t)
  {
    hide Content, Kept, View.Sealed;
  }

  lemma ErasedListed(v: View, w: View, s: u64, segs: seq<Segment>)
    requires Listed(v, s, segs) && w.files == v.files - {s}
    ensures Listed(w, s + 1, segs)
  {
    hide Numbers;
  }

  lemma KeptOpening(crc: Checksum, u: View, v: View, w: View, s: u64, segs: seq<Segment>, cursor: Option<Cursor>,
                    newest: bool)
    requires Sound(crc, u) && s in u.files && (newest <==> !u.Sealed(s)) && Opening(crc, u, v, s, segs, cursor)
    requires s in w.files && s in v.files && w.files == v.files[s := w.files[s]] && w.damaged == v.damaged
    requires w.plan == v.plan || (s in w.plan && w.plan == v.plan[s := w.plan[s]])
    requires !newest ==> w.files == v.files && w.plan == v.plan
    requires !w.damaged && newest ==> w.plan == v.plan[s := Kept(v, s)] && w.files[s] == Content(crc, w.plan[s])
    ensures Opening(crc, u, w, s + 1, segs + [Segment(s, |w.files[s]|)], cursor)
  {
    hide Content, Survivors, Sound, View.Sealed, FileSound, Numbers, Listed;
    ListedMore(v, w, s, segs);
    KeptSurvives(crc, u, v, w, s, cursor, newest);
    forall t | t in u.files && t != s
      ensures Dealt(crc, u, w, s + 1, cursor, t)
    {
      assert Dealt(crc, u, v, s, cursor, t);
    }
  }

  lemma KeptSurvives(crc: Checksum, u: View, v: View, w: View, s: u64, cursor: Option<Cursor>, newest: bool)
    requires Sound(crc, u) && s in u.files && (newest <==> !u.Sealed(s)) && Dealt(crc, u, v, s, cursor, s)
    requires s in w.files && s in v.files && w.damaged == v.damaged == u.damaged
    requires !newest ==> w.files == v.files && w.plan == v.plan
    requires !w.damaged && newest ==> w.plan == v.plan[s := Kept(v, s)] && w.files[s] == Content(crc, w.plan[s])
    ensures Dealt(crc, u, w, s + 1, cursor, s)
  {
    hide Content, Survivors, View.Sealed;
    if !u.damaged {
      assert FileSound(crc, u, s);
      if u.Sealed(s) {
        SealedFinal(crc, u, s);
      }
    }
  }

  lemma ListedMore(v: View, w: View, s: u64, segs: seq<Segment>)
    requires Listed(v, s, segs) && s in w.files && s in v.files && w.files == v.files[s := w.files[s]]
    ensures Listed(w, s + 1, segs + [Segment(s, |w.files[s]|)])
  {
    var segs' := segs + [Segment(s, |w.files[s]|)];
    assert segs'[|segs|].number == s;
    forall n | n in Numbers(segs)
      ensures n in Numbers(segs')
    {
      var j :| 0 <= j < |segs| && segs[j].number == n;
      assert segs'[j].number == n;
    }
  }

  /** No segment lies between. */
  lemma OpeningSkips(crc: Checksum, u: View, v: View, from: nat, to: nat, segs: seq<Segment>, cursor: Option<Cursor>)
    requires from <= to && Opening(crc, u, v, from, segs, cursor)
    requires forall s | s in u.files :: s < from || s >= to
    ensures Opening(crc, u, v, to, segs, cursor)
  {
    hide Content, Survived, Numbers;
    forall s | s in u.files
      ensures Dealt(crc, u, v, to, cursor, s)
    {
      assert Dealt(crc, u, v, from, cursor, s);
    }
  }

  /** What the report tells of the newest segment found, once it has been dealt with. */
  ghost predicate Reported(crc: Checksum, u: View, v: View, from: nat, report: Report) {
    && (u.files == map[] ==> report.truncatedBytes == 0 && report.foreign == None)
    && forall n | n in u.files && !u.Sealed(n) ::
         if n < from && n in v.files then
           && report.truncatedBytes == Cut(crc, u.files[n])
           && report.foreign == if Recovered(crc, u.files[n]) == None then Some(n) else None
         else report.truncatedBytes == 0 && report.foreign == None
  }

  /** The delivered segments that are still there. */
  ghost function Undeleted(v: View, from: nat, cursor: Option<Cursor>): set<u64> {
    set s | s in v.files && s < from && Delivered(cursor, s)
  }

  /** Nothing happened yet but the deletions that failed. */
  function NewStats(failures: nat): Stats {
    Stats(0, 0, 0, 0, 0, failures, 0, 0, 0, 0)
  }

  /** Opens the buffer of an earlier run: deletes what was delivered, recovers the newest segment,
      and starts a new one that sorts after every segment found and after the cursor. */
  method Open(dir: Directory, cfg: Config, time: RecordTime, loaded: Loaded) returns (w: LogWriter?, report: Report)
    requires Sound(dir.crc, dir.Now()) && dir.listed == dir.files.Keys
    modifies dir`files, dir`plan, dir`listed, dir`current, dir`history, dir`durable
    ensures w == null <==>
              || cfg.segmentBytes <= SEGMENT_HEADER || cfg.capBytes < 4 * cfg.segmentBytes
              || cfg.backlogBytes < RECORD_HEADER + MAX_PAYLOAD || U64_MAX in old(dir.files)
              || (loaded.Position? && loaded.cursor.segment == U64_MAX)
    ensures w != null ==> cfg.Valid() && fresh(w) && w.Valid() && w.dir == dir && w.cfg == cfg
    ensures w != null ==> w.accepted == [] && w.queue == [] && w.pending == [] && w.retryAt == None && !w.file
    ensures w != null ==> w.lastFlush == None && w.acked == if loaded.Position? then Some(loaded.cursor) else None
    // Everything written from now on comes after every survivor and after the cursor.
    ensures w != null ==> Active(w.segments) == Segment(w.first, 0) && w.recs == map[w.first := []]
    ensures w != null ==> forall s | s in old(dir.files) :: s < w.first
    ensures w != null && loaded.Position? ==> loaded.cursor.segment < w.first
    ensures w != null ==>
              || w.first == 1 || w.first - 1 in old(dir.files)
              || (loaded.Position? && loaded.cursor.segment == w.first - 1)
    // Only delivered segments go; what stays is complete and in the list.
    ensures w != null ==> dir.files.Keys <= old(dir.files.Keys) && dir.listed == dir.files.Keys
    ensures w != null ==> Listed(dir.Now(), w.first, Sealed(w.segments))
    ensures w != null ==>
              forall s | s in old(dir.files) && s !in dir.files :: loaded.Position? && s < loaded.cursor.segment
    ensures w != null && !dir.damaged ==> forall s | s in dir.files :: Survived(dir.crc, old(dir.Now()), dir.Now(), s)
    ensures dir.damaged == old(dir.damaged)
    // The report: the bytes cut off, a foreign newest segment, the delivered segments not deleted.
    ensures w != null ==> Reported(dir.crc, old(dir.Now()), dir.Now(), w.first, report)
    ensures w != null && !dir.damaged ==> report.foreign == None
    ensures w != null ==> report.cursorReset == loaded.Corrupt?
    ensures w != null ==> w.stats == NewStats(|Undeleted(dir.Now(), w.first, w.acked)|)
  {
    hide Content, Recovered, View.Sealed, Sound, Survived, Ledger, Batch, OnDisk, Listed, Dealt, Directory.Recorded,
         Reported, Undeleted, Small, Fits, Total, Evolves, Ordered, LogWriter.Valid;
    report := Report(0, loaded.Corrupt?, None);
    if !cfg.Valid() { return null, report; }
    var cursor := if loaded.Position? then Some(loaded.cursor) else None;
    var seqs := Sorted(dir.listed);
    var last: u64 := if seqs == [] then 0 else seqs[|seqs| - 1];
    var highest := if cursor.Some? && cursor.value.segment > last then cursor.value.segment else last;
    LastIsHighest(seqs, last);
    if highest == U64_MAX { return null, report; }
    w, report := Restart(dir, cfg, time, seqs, cursor, report, highest + 1);
  }

  /** Deals with the segments found, and begins the new run in segment `next`. */
  method Restart(dir: Directory, cfg: Config, time: RecordTime, seqs: seq<u64>, cursor: Option<Cursor>,
                 report: Report, next: u64)
    returns (w: LogWriter, report': Report)
    requires Sound(dir.crc, dir.Now()) && dir.listed == dir.files.Keys && cfg.Valid()
    requires forall s :: s in seqs <==> s in dir.files
    requires forall i, j | 0 <= i < j < |seqs| :: seqs[i] < seqs[j]
    requires (forall s | s in seqs :: s < next) && report.foreign == None && report.truncatedBytes == 0
    modifies dir`files, dir`plan, dir`listed, dir`current, dir`history, dir`durable
    ensures fresh(w) && w.Valid() && w.dir == dir && w.cfg == cfg && !w.file
    ensures w.accepted == [] && w.queue == [] && w.pending == [] && w.retryAt == None && w.lastFlush == None
    ensures w.acked == cursor && w.first == next && w.recs == map[next := []]
    ensures w.segments != [] && Active(w.segments) == Segment(next, 0)
    ensures dir.files.Keys <= old(dir.files.Keys) && dir.listed == dir.files.Keys
    ensures Listed(dir.Now(), next, Sealed(w.segments))
    ensures forall s | s in old(dir.files) && s !in dir.files :: Delivered(cursor, s)
    ensures !dir.damaged ==> forall s | s in dir.files :: Survived(dir.crc, old(dir.Now()), dir.Now(), s)
    ensures Reported(dir.crc, old(dir.Now()), dir.Now(), next, report')
    ensures (!dir.damaged ==> report'.foreign == None) && report'.cursorReset == report.cursorReset
    ensures w.stats == NewStats(|Undeleted(dir.Now(), next, cursor)|)
  {
    hide Content, Recovered, View.Sealed, Sound, Survived, Ledger, Batch, OnDisk, Listed, Dealt, Directory.Recorded,
         Reported, Undeleted, Small, Fits, Total, Evolves, Ordered, LogWriter.Valid, Delivered;
    ghost var u := dir.Now();
    var segs, failures;
    segs, report', failures := OpenSegments(dir, seqs, cursor, report, next);
    ghost var v := dir.Now();
    AllSurvive(dir.crc, u, v, segs, cursor, next);
    dir.Begin(next);
    OpenedLog(dir.crc, u, v, dir.Now(), segs, cursor, next, cfg.segmentBytes);
    ReportedSame(dir.crc, u, v, dir.Now(), next, report');
    w := NewWriter(dir, cfg, time, segs, next, cursor, failures);
  }

  method NewWriter(dir: Directory, cfg: Config, time: RecordTime, segs: seq<Segment>, next: u64,
                   cursor: Option<Cursor>, failures: nat)
    returns (w: LogWriter)
    requires cfg.Valid() && dir.Recorded()
    requires OnDisk(dir.crc, dir.Now(), segs + [Segment(next, 0)], map[next := []], [], 0, cfg.segmentBytes)
    requires forall s | s in dir.files :: s in dir.durable && dir.durable[s] >= |dir.files[s]|
    ensures fresh(w) && w.Valid() && w.dir == dir && w.cfg == cfg && !w.file
    ensures w.accepted == [] && w.queue == [] && w.pending == [] && w.retryAt == None && w.lastFlush == None
    ensures w.segments == segs + [Segment(next, 0)] && Sealed(w.segments) == segs && w.acked == cursor
    ensures w.first == next && w.recs == map[next := []]
    ensures w.stats == NewStats(failures)
  {
    hide OnDisk, Directory.Recorded, Ledger, Capped, Frames, Clean, LogWriter.Stored;
    w := new LogWriter(dir, cfg, time, segs + [Segment(next, 0)], cursor, failures);
  }

  method OpenSegments(dir: Directory, seqs: seq<u64>, cursor: Option<Cursor>, report: Report, next: u64)
    returns (segs: seq<Segment>, report': Report, failures: nat)
    requires Sound(dir.crc, dir.Now()) && dir.listed == dir.files.Keys
    requires forall s :: s in seqs <==> s in dir.files
    requires forall i, j | 0 <= i < j < |seqs| :: seqs[i] < seqs[j]
    requires (forall s | s in seqs :: s < next) && report.foreign == None && report.truncatedBytes == 0
    modifies dir`files, dir`plan, dir`listed
    ensures Sound(dir.crc, dir.Now()) && Opening(dir.crc, old(dir.Now()), dir.Now(), next, segs, cursor)
    ensures dir.listed == dir.files.Keys
    ensures (!dir.damaged ==> report'.foreign == None) && report'.cursorReset == report.cursorReset
    ensures Reported(dir.crc, old(dir.Now()), dir.Now(), next, report')
    ensures failures == |Undeleted(dir.Now(), next, cursor)|
  {
    hide Content, Recovered, View.Sealed, Sound, Survived, Opening, Reported, Undeleted, Cut;
    ghost var u := dir.Now();
    segs, report', failures := [], report, 0;
    var i := 0;
    ghost var from: nat := 0;
    OpeningStart(dir.crc, u, cursor);
    ReportedStart(dir.crc, u, cursor, report);
    while i < |seqs|
      invariant i <= |seqs| && Sound(dir.crc, dir.Now()) && dir.listed == dir.files.Keys && dir.damaged == u.damaged
      invariant Opening(dir.crc, u, dir.Now(), from, segs, cursor)
      invariant (forall k | 0 <= k < i :: seqs[k] < from) && (forall k | i <= k < |seqs| :: from <= seqs[k])
      invariant from <= next && dir.files.Keys <= u.files.Keys
      invariant (!dir.damaged ==> report'.foreign == None) && report'.cursorReset == report.cursorReset
      invariant Reported(dir.crc, u, dir.Now(), from, report')
      invariant i < |seqs| ==> report'.truncatedBytes == 0 && report'.foreign == None
      invariant failures == |Undeleted(dir.Now(), from, cursor)|
    {
      var s := seqs[i];
      Between(u, seqs, i, from);
      OpeningSkips(dir.crc, u, dir.Now(), from, s, segs, cursor);
      UndeletedSkips(dir.crc, u, dir.Now(), from, s, segs, cursor);
      ghost var v := dir.Now();
      var cut, foreign, failed;
      segs, cut, foreign, failed := OpenSegment(dir, u, s, i + 1 == |seqs|, segs, cursor);
      report' := report'.(truncatedBytes := report'.truncatedBytes + cut,
                          foreign := if foreign then Some(s) else report'.foreign);
      ReportedMore(dir.crc, u, dir.Now(), s, report');
      UndeletedMore(v, dir.Now(), s, cursor);
      failures, i, from := failures + failed, i + 1, s + 1;
    }
    Past(u, seqs, from);
    OpeningSkips(dir.crc, u, dir.Now(), from, next, segs, cursor);
    UndeletedSkips(dir.crc, u, dir.Now(), from, next, segs, cursor);
    ReportedSkips(dir.crc, u, dir.Now(), from, next, report');
  }

  lemma ReportedStart(crc: Checksum, u: View, cursor: Option<Cursor>, report: Report)
    requires report.foreign == None && report.truncatedBytes == 0
    ensures Reported(crc, u, u, 0, report) && |Undeleted(u, 0, cursor)| == 0
  {
    hide Recovered, Cut, View.Sealed;
    assert Undeleted(u, 0, cursor) == {};
  }

  /** Only the newest segment is reported on. */
  lemma ReportedMore(crc: Checksum, u: View, v: View, s: u64, report: Report)
    requires s in u.files
    requires u.Sealed(s) ==> report.truncatedBytes == 0 && report.foreign == None
    requires !u.Sealed(s) ==>
               && report.truncatedBytes == (if s in v.files then Cut(crc, u.files[s]) else 0)
               && report.foreign == if s in v.files && Recovered(crc, u.files[s]) == None then Some(s) else None
    ensures Reported(crc, u, v, s + 1, report)
  {
    hide Recovered, Cut;
    forall n | n in u.files && !u.Sealed(n)
      ensures u.Sealed(s) ==> n > s
      ensures !u.Sealed(s) ==> n == s
    {
    }
  }

  lemma ReportedSkips(crc: Checksum, u: View, v: View, from: nat, to: nat, report: Report)
    requires Reported(crc, u, v, from, report) && from <= to && forall s | s in u.files :: s < from || s >= to
    ensures Reported(crc, u, v, to, report)
  {
    hide Recovered, Cut, View.Sealed;
  }

  lemma ReportedSame(crc: Checksum, u: View, v: View, w: View, from: nat, report: Report)
    requires Reported(crc, u, v, from, report) && w.files == v.files
    ensures Reported(crc, u, w, from, report)
    ensures forall cursor :: Undeleted(w, from, cursor) == Undeleted(v, from, cursor)
  {
    hide Recovered, Cut, View.Sealed;
  }

  lemma UndeletedMore(v: View, w: View, s: u64, cursor: Option<Cursor>)
    requires w.files.Keys - {s} == v.files.Keys - {s}
    ensures |Undeleted(w, s + 1, cursor)|
         == |Undeleted(v, s, cursor)| + if s in w.files && Delivered(cursor, s) then 1 else 0
  {
    hide Delivered;
    var more, kept := Undeleted(w, s + 1, cursor), Undeleted(v, s, cursor);
    forall t: u64
      ensures t in more <==> t in kept || (t == s && s in w.files && Delivered(cursor, s))
    {
      if t != s {
        assert t in w.files.Keys - {s} <==> t in v.files.Keys - {s};
      }
    }
    if s in w.files && Delivered(cursor, s) {
      assert more == kept + {s};
    } else {
      assert more == kept;
    }
  }

  lemma UndeletedSkips(crc: Checksum, u: View, v: View, from: nat, to: nat, segs: seq<Segment>, cursor: Option<Cursor>)
    requires from <= to && v.files.Keys <= u.files.Keys && forall s | s in u.files :: s < from || s >= to
    ensures Undeleted(v, to, cursor) == Undeleted(v, from, cursor)
  {
  }

  lemma Between(u: View, seqs: seq<u64>, i: nat, from: nat)
    requires i < |seqs| && (forall s :: s in seqs <==> s in u.files)
    requires forall j, k | 0 <= j < k < |seqs| :: seqs[j] < seqs[k]
    requires (forall k | 0 <= k < i :: seqs[k] < from) && forall k | i <= k < |seqs| :: from <= seqs[k]
    ensures forall s | s in u.files :: s < from || s >= seqs[i]
    ensures i + 1 == |seqs| <==> !u.Sealed(seqs[i])
  {
    forall s | s in u.files
      ensures s < from || s >= seqs[i]
      ensures i + 1 == |seqs| ==> s <= seqs[i]
    {
      var k :| 0 <= k < |seqs| && seqs[k] == s;
    }
    assert i + 1 < |seqs| ==> seqs[i + 1] in u.files;
  }

  lemma Past(u: View, seqs: seq<u64>, from: nat)
    requires (forall s :: s in seqs <==> s in u.files) && forall k | 0 <= k < |seqs| :: seqs[k] < from
    ensures forall s | s in u.files :: s < from
  {
    assert forall s | s in u.files :: s in seqs;
  }

  lemma LastIsHighest(seqs: seq<u64>, last: u64)
    requires forall i, j | 0 <= i < j < |seqs| :: seqs[i] < seqs[j]
    requires seqs != [] ==> last == seqs[|seqs| - 1]
    ensures forall s | s in seqs :: s <= last
    ensures seqs != [] ==> last in seqs
  {
  }

  lemma OpeningStart(crc: Checksum, u: View, cursor: Option<Cursor>)
    requires Sound(crc, u)
    ensures Opening(crc, u, u, 0, [], cursor)
  {
    hide Content, FileSound, Survived;
  }

  lemma AllSurvive(crc: Checksum, u: View, v: View, segs: seq<Segment>, cursor: Option<Cursor>, next: u64)
    requires Opening(crc, u, v, next, segs, cursor) && forall s | s in u.files :: s < next
    ensures v.files.Keys <= u.files.Keys && v.damaged == u.damaged && Listed(v, next, segs)
    ensures !v.damaged ==> forall s | s in v.files :: Survived(crc, u, v, s)
    ensures v.damaged || forall s | s in v.files :: s < next && s in v.plan && v.files[s] == Content(crc, v.plan[s])
    ensures forall s | s in u.files && s !in v.files :: Delivered(cursor, s)
  {
    hide Content, Kept, View.Sealed, Listed;
    assert forall s | s in u.files :: Dealt(crc, u, v, next, cursor, s);
  }

  lemma OpenedLog(crc: Checksum, u: View, v: View, w: View, segs: seq<Segment>, cursor: Option<Cursor>, next: u64,
                  limit: nat)
    requires v.files.Keys <= u.files.Keys && Listed(v, next, segs) && forall s | s in u.files :: s < next
    requires !v.damaged ==> forall s | s in v.files :: Survived(crc, u, v, s)
    requires w == v.(current := next)
    ensures OnDisk(crc, w, segs + [Segment(next, 0)], map[next := []], [], 0, limit)
    ensures Listed(w, next, segs)
    ensures !w.damaged ==> forall s | s in w.files :: Survived(crc, u, w, s)
  {
    hide Content, Batch, Kept, View.Sealed, Numbers;
    SurvivedSame(crc, u, v, w);
  }

  lemma SurvivedSame(crc: Checksum, u: View, v: View, w: View)
    requires w.files == v.files && w.plan == v.plan
    ensures forall s :: Survived(crc, u, v, s) ==> Survived(crc, u, w, s)
  {
    hide Content, Kept, View.Sealed;
  }
}
