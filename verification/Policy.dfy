/** What the writer makes of its segments: the overflow policy, and the batches and rotations a queue
    goes through. Pure functions of the segment list, which the writer's loops are proved against. */
module Policy {
  import opened Collections
  import opened Options
  import opened Framing
  import opened Disk
  import opened Log
  import opened Segments

  datatype Overflow = Retention | HeadTail | DropOldest | DropNewest

  datatype Config = Config(segmentBytes: nat, capBytes: nat, overflow: Overflow,
                           flushInterval: nat, retryInterval: nat, backlogBytes: nat)
  {
    predicate Valid() {
      && segmentBytes > SEGMENT_HEADER
      && capBytes >= 4 * segmentBytes
      && backlogBytes >= RECORD_HEADER + MAX_PAYLOAD
    }

    /** Another full segment would go over the cap. */
    predicate Over(segs: seq<Segment>) {
      Total(segs) + segmentBytes > capBytes
    }
  }

  function Pinned(segs: seq<Segment>, target: nat, from: nat): (n: nat)
    requires segs != [] && from <= |segs| - 1
    ensures from <= n <= |segs| - 1
    ensures n < |segs| - 1 ==> Total(segs[..n]) >= target
    ensures forall k | from <= k < n :: Total(segs[..k]) < target
    decreases |segs| - from
  {
    if from < |segs| - 1 && Total(segs[..from]) < target then Pinned(segs, target, from + 1) else from
  }

  /** The first segment the policy may delete: after the oldest ones holding a quarter of the
      bytes (`HeadTail`), or the oldest of all. */
  function First(segs: seq<Segment>, overflow: Overflow): (n: nat)
    requires segs != []
    ensures n <= |segs| - 1
    ensures overflow == Retention || overflow == DropOldest ==> n == 0
    ensures overflow == DropNewest ==> n == |segs| - 1
    ensures overflow == HeadTail ==> forall k | 0 <= k < n :: Total(segs[..k]) < Total(segs) / 4
    ensures overflow == HeadTail && n < |segs| - 1 ==> Total(segs[..n]) >= Total(segs) / 4
  {
    match overflow
    case HeadTail => Pinned(segs, Total(segs) / 4, 0)
    case DropNewest => |segs| - 1
    case _ => 0
  }

  /** At the cap there is always a segment to delete, unless the policy deletes none; and it is
      never the oldest under `HeadTail`. */
  lemma VictimExists(segs: seq<Segment>, cfg: Config)
    requires cfg.Valid() && segs != [] && Small(segs, cfg.segmentBytes) && cfg.Over(segs)
    ensures cfg.overflow != DropNewest ==> First(segs, cfg.overflow) < |segs| - 1
    ensures cfg.overflow == HeadTail ==> First(segs, cfg.overflow) > 0
  {
    var limit := cfg.segmentBytes;
    TotalSmall(segs, limit);
    var n := |segs| - 1;
    assert n == 0 ==> Total(segs) <= limit;
    if cfg.overflow == HeadTail {
      var target := Total(segs) / 4;
      assert segs[..0] == [];
      // If only the newest sealed segment were left, the others would hold a quarter of the bytes.
      assert segs[..n][..n - 1] == segs[..n - 1];
      assert Total(segs) == Total(segs[..n - 1]) + segs[n - 1].len + segs[n].len;
      assert Total(segs[..n - 1]) >= target;
    }
  }

  /** Exactly when there is none: the policy deletes none, nothing is sealed, or under `HeadTail` the
      sealed segments but the newest hold less than a quarter of the bytes. */
  lemma NoVictimIff(segs: seq<Segment>, overflow: Overflow)
    requires segs != []
    ensures First(segs, overflow) == |segs| - 1 <==>
              || overflow == DropNewest || |segs| == 1
              || (overflow == HeadTail && Total(segs[..|segs| - 2]) < Total(segs) / 4)
  {
    hide Total;
    if overflow == HeadTail && |segs| > 1 {
      var n, target := |segs| - 1, Total(segs) / 4;
      var p := First(segs, overflow);
      assert p == n ==> Total(segs[..n - 1]) < target;
      if p < n {
        TotalPrefix(segs, p, n - 1);
      }
    }
  }

  lemma TotalPrefix(segs: seq<Segment>, p: nat, n: nat)
    requires p <= n <= |segs|
    ensures Total(segs[..p]) <= Total(segs[..n])
  {
    hide Total;
    TotalConcat(segs[..p], segs[p..n]);
    assert segs[..n] == segs[..p] + segs[p..n];
  }

  /** The segments left once the policy has deleted what it may for another full segment, when every
      deletion succeeds. */
  function Fitted(segs: seq<Segment>, cfg: Config): (left: seq<Segment>)
    requires segs != []
    ensures left != [] && Active(left) == Active(segs)
    decreases |segs|
  {
    var i := First(segs, cfg.overflow);
    if !cfg.Over(segs) || i == |segs| - 1 then segs else Fitted(RemoveAt(segs, i), cfg)
  }

  /** Without failures `Retention` and `DropOldest` delete the oldest, one after the other, and no more of
      them than it takes. */
  lemma {:induction false} OldestGo(segs: seq<Segment>, cfg: Config) returns (n: nat)
    requires segs != [] && (cfg.overflow == Retention || cfg.overflow == DropOldest)
    ensures n <= |segs| - 1 && Fitted(segs, cfg) == segs[n..]
    ensures forall m | 0 <= m < n :: TooMuch(segs, cfg, m)
    ensures n < |segs| - 1 ==> !TooMuch(segs, cfg, n)
    decreases |segs|
  {
    hide Total, TooMuch, Fitted;
    OldestOne(segs, cfg);
    assert segs[0..] == segs;
    n := 0;
    if cfg.Over(segs) && |segs| > 1 {
      var rest := segs[1..];
      var k := OldestGo(rest, cfg);
      n := k + 1;
      assert rest[k..] == segs[n..];
      forall m | 0 <= m <= n && m < |segs|
        ensures m > 0 ==> (TooMuch(segs, cfg, m) <==> TooMuch(rest, cfg, m - 1))
      {
        OneOn(segs, cfg, m);
      }
    }
  }

  /** Without the oldest `m` there would still be no room for another segment. */
  predicate TooMuch(segs: seq<Segment>, cfg: Config, m: nat)
    requires m < |segs|
  {
    Total(segs[m..]) + cfg.segmentBytes > cfg.capBytes
  }

  lemma OldestOne(segs: seq<Segment>, cfg: Config)
    requires segs != [] && (cfg.overflow == Retention || cfg.overflow == DropOldest)
    ensures Fitted(segs, cfg) == if cfg.Over(segs) && |segs| > 1 then Fitted(segs[1..], cfg) else segs
    ensures cfg.Over(segs) <==> TooMuch(segs, cfg, 0)
  {
    hide Total, First;
    assert RemoveAt(segs, 0) == segs[1..] && segs[0..] == segs;
  }

  lemma OneOn(segs: seq<Segment>, cfg: Config, m: nat)
    requires m < |segs|
    ensures m > 0 ==> (TooMuch(segs, cfg, m) <==> TooMuch(segs[1..], cfg, m - 1))
  {
    hide Total;
    assert m > 0 ==> segs[1..][m - 1..] == segs[m..];
  }

  /** `HeadTail` never deletes the oldest `q` segments: without the last of them they hold less than a
      quarter of what they and the active segment hold. */
  predicate HeadKept(segs: seq<Segment>, q: nat)
    requires segs != []
  {
    q <= |segs| - 1 && (q == 0 || Total(segs[..q - 1]) < (Total(segs[..q]) + Active(segs).len) / 4)
  }

  /** What `HeadTail` keeps goes over the cap all by itself. */
  predicate Stuck(segs: seq<Segment>, cfg: Config, q: nat)
    requires segs != []
  {
    HeadKept(segs, q) && Total(segs[..q]) + Active(segs).len + cfg.segmentBytes > cfg.capBytes
  }

  /** Exactly when there is no room however much is deleted, so that new records are dropped. */
  lemma FullIff(segs: seq<Segment>, cfg: Config)
    requires segs != []
    ensures cfg.Over(Fitted(segs, cfg)) <==>
              match cfg.overflow
              case DropNewest => cfg.Over(segs)
              case HeadTail => exists q :: Stuck(segs, cfg, q)
              case _ => Active(segs).len + cfg.segmentBytes > cfg.capBytes
  {
    if cfg.overflow == HeadTail {
      if cfg.Over(Fitted(segs, cfg)) {
        var q := FullStuck(segs, cfg);
      }
      forall q | Stuck(segs, cfg, q)
        ensures cfg.Over(Fitted(segs, cfg))
      {
        StuckFull(segs, cfg, q);
      }
    } else if cfg.overflow != DropNewest {
      OldestFull(segs, cfg);
    }
  }

  lemma {:induction false} OldestFull(segs: seq<Segment>, cfg: Config)
    requires segs != [] && (cfg.overflow == Retention || cfg.overflow == DropOldest)
    ensures cfg.Over(Fitted(segs, cfg)) <==> Active(segs).len + cfg.segmentBytes > cfg.capBytes
    decreases |segs|
  {
    ActiveWithin(segs, 0);
    assert segs[..0] == [];
    if |segs| == 1 {
      assert segs == [Active(segs)];
      TotalOne(Active(segs));
    } else if cfg.Over(segs) {
      OldestFull(RemoveAt(segs, 0), cfg);
    }
  }

  /** Any head and the active segment hold no more than all segments. */
  lemma ActiveWithin(segs: seq<Segment>, q: nat)
    requires segs != [] && q <= |segs| - 1
    ensures Total(segs[..q]) + Active(segs).len <= Total(segs)
    ensures q == |segs| - 1 ==> Total(segs[..q]) + Active(segs).len == Total(segs)
  {
    var n := |segs| - 1;
    TotalPrefix(segs, q, n);
  }

  lemma {:induction false} StuckFull(segs: seq<Segment>, cfg: Config, q: nat)
    requires segs != [] && cfg.overflow == HeadTail && Stuck(segs, cfg, q)
    ensures cfg.Over(Fitted(segs, cfg))
    decreases |segs|
  {
    hide Total;
    var i := First(segs, cfg.overflow);
    ActiveWithin(segs, q);
    if i < |segs| - 1 {
      PinnedAtLeast(segs, Total(segs) / 4, q);
      assert RemoveAt(segs, i)[..q] == segs[..q];
      assert q > 0 ==> RemoveAt(segs, i)[..q - 1] == segs[..q - 1];
      StuckFull(RemoveAt(segs, i), cfg, q);
    }
  }

  lemma PinnedAtLeast(segs: seq<Segment>, target: nat, q: nat)
    requires segs != [] && q <= |segs| - 1 && (q == 0 || Total(segs[..q - 1]) < target)
    ensures Pinned(segs, target, 0) >= q
  {
    hide Total;
    var p := Pinned(segs, target, 0);
    if p < q {
      TotalPrefix(segs, p, q - 1);
    }
  }

  lemma {:induction false} FullStuck(segs: seq<Segment>, cfg: Config) returns (q: nat)
    requires segs != [] && cfg.overflow == HeadTail && cfg.Over(Fitted(segs, cfg))
    ensures Stuck(segs, cfg, q) && HeadKept(Fitted(segs, cfg), q)
    decreases |segs|
  {
    hide Total;
    var i := First(segs, cfg.overflow);
    if i == |segs| - 1 {
      q := i;
      ActiveWithin(segs, q);
      assert q > 0 ==> Total(segs[..q - 1]) < Total(segs) / 4;
    } else {
      var rest := RemoveAt(segs, i);
      q := FullStuck(rest, cfg);
      HeadStays(segs, i, q);
      assert rest[..q] == segs[..q];
      assert q > 0 ==> rest[..q - 1] == segs[..q - 1];
    }
  }

  /** What is kept without segment `i` is before it. */
  lemma HeadStays(segs: seq<Segment>, i: nat, q: nat)
    requires segs != [] && i == First(segs, HeadTail) < |segs| - 1 && HeadKept(RemoveAt(segs, i), q)
    ensures q <= i
  {
    hide Total;
    var rest := RemoveAt(segs, i);
    assert rest[..i] == segs[..i];
    TotalWithout(segs, i);
    ActiveWithin(rest, q);
    if q > i {
      TotalPrefix(rest, i, q - 1);
    }
  }

  // What becomes of a queue.

  /** Bytes of the framed records. */
  function Size(q: seq<Payload>): nat {
    if q == [] then 0 else RECORD_HEADER + |q[0]| + Size(q[1..])
  }

  /** A batch is all that fits, or a single record that starts a segment. */
  lemma BatchIsMost(q: seq<Payload>, len: nat, limit: nat)
    ensures var n := Batch(q, len, limit);
            || (n == 1 && len == SEGMENT_HEADER && len + Size(q[..1]) > limit)
            || ((n > 0 ==> len + Size(q[..n]) <= limit) && (n < |q| ==> len + Size(q[..n + 1]) > limit))
  {
    FittingIsMost(q, len, limit);
  }

  lemma {:induction false} FittingIsMost(q: seq<Payload>, len: nat, limit: nat)
    ensures var n := Fitting(q, len, limit);
            (n > 0 ==> len + Size(q[..n]) <= limit) && (n < |q| ==> len + Size(q[..n + 1]) > limit)
    decreases |q|
  {
    var n := Fitting(q, len, limit);
    if n > 0 {
      FittingIsMost(q[1..], len + RECORD_HEADER + |q[0]|, limit);
      assert q[..n][1..] == q[1..][..n - 1];
      assert n < |q| ==> q[..n + 1][1..] == q[1..][..n];
      assert n == 1 ==> q[1..][..0] == [];
    } else if q != [] {
      assert q[..1][1..] == [];
    }
  }

  lemma {:induction false} FramesSize(crc: Checksum, q: seq<Payload>)
    ensures |Frames(crc, q)| == Size(q)
  {
    if q != [] {
      FramesSize(crc, q[1..]);
    }
  }

  /** The active segment with `n` more bytes. */
  function Longer(segs: seq<Segment>, n: nat): (r: seq<Segment>)
    requires segs != []
    ensures |r| == |segs|
  {
    segs[|segs| - 1 := Segment(Active(segs).number, Active(segs).len + n)]
  }

  /** The active segment with its header. */
  function Started(segs: seq<Segment>): (r: seq<Segment>)
    requires segs != []
  {
    if Active(segs).len == 0 then Longer(segs, SEGMENT_HEADER) else segs
  }

  /** A segment list and how many records were dropped on the way to it. */
  datatype Outcome = Outcome(segments: seq<Segment>, dropped: nat)

  /** What writing the whole queue makes of the segments, when neither a write nor a deletion fails:
      batches of what fits, a new segment when nothing fits, and no room drops the rest. `None`: the
      segment numbers ran out. */
  function Flushed(q: seq<Payload>, segs: seq<Segment>, cfg: Config): (r: Option<Outcome>)
    requires segs != []
    decreases |q|, if Batch(q, Active(segs).len, cfg.segmentBytes) == 0 then 1 else 0
  {
    var n := Batch(q, Active(segs).len, cfg.segmentBytes);
    if q == [] then Some(Outcome(segs, 0))
    else if n > 0 then Flushed(q[n..], Longer(segs, Size(q[..n])), cfg)
    else
      var left := Fitted(segs, cfg);
      if cfg.Over(left) then Some(Outcome(left, |q|))
      else if Active(left).number == U64_MAX then None
      else Flushed(q, left + [Segment(Active(left).number + 1, SEGMENT_HEADER)], cfg)
  }

  lemma FlushedBatch(q: seq<Payload>, segs: seq<Segment>, cfg: Config)
    requires segs != [] && Batch(q, Active(segs).len, cfg.segmentBytes) > 0
    ensures var n := Batch(q, Active(segs).len, cfg.segmentBytes);
            Flushed(q, segs, cfg) == Flushed(q[n..], Longer(segs, Size(q[..n])), cfg)
  {
    hide Total, Pinned;
  }

  lemma FlushedNone(segs: seq<Segment>, cfg: Config)
    requires segs != []
    ensures Flushed([], segs, cfg) == Some(Outcome(segs, 0))
  {
    hide Total, Pinned;
  }

  lemma FlushedFull(q: seq<Payload>, segs: seq<Segment>, cfg: Config)
    requires segs != [] && q != [] && Batch(q, Active(segs).len, cfg.segmentBytes) == 0
    requires cfg.Over(Fitted(segs, cfg))
    ensures Flushed(q, segs, cfg) == Some(Outcome(Fitted(segs, cfg), |q|))
  {
    hide Total, Pinned;
  }

  lemma FlushedRotated(q: seq<Payload>, segs: seq<Segment>, cfg: Config)
    requires segs != [] && q != [] && Batch(q, Active(segs).len, cfg.segmentBytes) == 0
    requires !cfg.Over(Fitted(segs, cfg)) && Active(segs).number < U64_MAX
    ensures Flushed(q, segs, cfg)
         == Flushed(q, Fitted(segs, cfg) + [Segment(Active(segs).number + 1, SEGMENT_HEADER)], cfg)
  {
    hide Total, Pinned, Fitted, Batch, Config.Over, First;
  }

  /** No room for a new segment while this record's segment is the active one. */
  predicate Huge(p: Payload, cfg: Config) {
    SEGMENT_HEADER + RECORD_HEADER + |p| + cfg.segmentBytes > cfg.capBytes
  }

  /** The records after the first huge one. */
  function AfterHuge(q: seq<Payload>, cfg: Config): (n: nat)
    ensures n > 0 <==> exists i :: 0 <= i < |q| - 1 && Huge(q[i], cfg)
  {
    if q == [] then 0
    else if Huge(q[0], cfg) then |q| - 1
    else
      var n := AfterHuge(q[1..], cfg);
      assert forall i | 0 < i < |q| :: q[i] == q[1..][i - 1];
      n
  }

  /** Under the policies that delete the oldest, exactly the records are dropped that come while the
      active segment by itself leaves no room for another: at once, or after a huge record. */
  lemma {:induction false} DropsExactly(q: seq<Payload>, segs: seq<Segment>, cfg: Config)
    requires cfg.Valid() && segs != [] && Active(segs).len >= SEGMENT_HEADER
    requires (cfg.overflow == Retention || cfg.overflow == DropOldest) && Flushed(q, segs, cfg).Some?
    ensures Flushed(q, segs, cfg).value.dropped
         == if Active(segs).len + cfg.segmentBytes > cfg.capBytes then |q| else AfterHuge(q, cfg)
    decreases |q|, if Batch(q, Active(segs).len, cfg.segmentBytes) == 0 then 1 else 0
  {
    hide Total, First, Fitted;
    var len, limit := Active(segs).len, cfg.segmentBytes;
    var n := Batch(q, len, limit);
    if q == [] {
    } else if n > 0 {
      BatchHuge(q, len, cfg);
      DropsExactly(q[n..], Longer(segs, Size(q[..n])), cfg);
    } else {
      FullIff(segs, cfg);
      if len + limit <= cfg.capBytes {
        DropsExactly(q, Fitted(segs, cfg) + [Segment(Active(Fitted(segs, cfg)).number + 1, SEGMENT_HEADER)], cfg);
      }
    }
  }

  /** The segments at each point where the next record needs a new segment, as long as there is room. */
  function Rotations(q: seq<Payload>, segs: seq<Segment>, cfg: Config): (points: seq<seq<Segment>>)
    requires segs != []
    ensures forall i | 0 <= i < |points| :: points[i] != []
    decreases |q|, if Batch(q, Active(segs).len, cfg.segmentBytes) == 0 then 1 else 0
  {
    var n := Batch(q, Active(segs).len, cfg.segmentBytes);
    if q == [] then []
    else if n > 0 then Rotations(q[n..], Longer(segs, Size(q[..n])), cfg)
    else
      var left := Fitted(segs, cfg);
      [segs] + if Active(left).number == U64_MAX then []
               else Rotations(q, left + [Segment(Active(left).number + 1, SEGMENT_HEADER)], cfg)
  }

  /** At one of these points `HeadTail` keeps a head that goes over the cap with the active segment. */
  ghost predicate EverStuck(points: seq<seq<Segment>>, cfg: Config)
    requires forall i | 0 <= i < |points| :: points[i] != []
  {
    exists i, kept :: 0 <= i < |points| && Stuck(points[i], cfg, kept)
  }

  /** Under `HeadTail` a flush drops records exactly if at one of these points what is kept leaves no room;
      and it drops no fewer than the policies that delete the oldest. */
  lemma {:induction false} HeadTailDrops(q: seq<Payload>, segs: seq<Segment>, cfg: Config)
    requires cfg.Valid() && segs != [] && Active(segs).len >= SEGMENT_HEADER
    requires cfg.overflow == HeadTail && Flushed(q, segs, cfg).Some?
    ensures Flushed(q, segs, cfg).value.dropped > 0 <==> EverStuck(Rotations(q, segs, cfg), cfg)
    ensures Flushed(q, segs, cfg).value.dropped
         >= if Active(segs).len + cfg.segmentBytes > cfg.capBytes then |q| else AfterHuge(q, cfg)
    decreases |q|, if Batch(q, Active(segs).len, cfg.segmentBytes) == 0 then 1 else 0
  {
    hide Total, First, Fitted, Stuck;
    var len, limit := Active(segs).len, cfg.segmentBytes;
    var n := Batch(q, len, limit);
    if q == [] {
    } else if n > 0 {
      BatchHuge(q, len, cfg);
      HeadTailDrops(q[n..], Longer(segs, Size(q[..n])), cfg);
    } else {
      FullIff(segs, cfg);
      StuckAlone(segs, cfg);
      HeadTailRotates(q, segs, cfg);
      AfterHugeFew(q, cfg);
      if !cfg.Over(Fitted(segs, cfg)) {
        HeadTailDrops(q, Fitted(segs, cfg) + [Segment(Active(segs).number + 1, SEGMENT_HEADER)], cfg);
      }
    }
  }

  lemma AfterHugeFew(q: seq<Payload>, cfg: Config)
    ensures AfterHuge(q, cfg) <= |q|
  {
  }

  /** A huge active segment alone leaves no room. */
  lemma StuckAlone(segs: seq<Segment>, cfg: Config)
    requires segs != []
    ensures Active(segs).len + cfg.segmentBytes > cfg.capBytes ==> Stuck(segs, cfg, 0)
  {
    assert segs[..0] == [];
  }

  /** The first point, and those after it. */
  lemma HeadTailRotates(q: seq<Payload>, segs: seq<Segment>, cfg: Config)
    requires segs != [] && q != [] && Batch(q, Active(segs).len, cfg.segmentBytes) == 0
    ensures (exists kept :: Stuck(segs, cfg, kept)) ==> EverStuck(Rotations(q, segs, cfg), cfg)
    ensures !(exists kept :: Stuck(segs, cfg, kept)) && Active(segs).number < U64_MAX ==>
              var next := Fitted(segs, cfg) + [Segment(Active(segs).number + 1, SEGMENT_HEADER)];
              EverStuck(Rotations(q, segs, cfg), cfg) <==> EverStuck(Rotations(q, next, cfg), cfg)
  {
    hide Stuck, Fitted, Total;
    var points := Rotations(q, segs, cfg);
    assert points[0] == segs;
    if Active(segs).number < U64_MAX {
      var later := Rotations(q, Fitted(segs, cfg) + [Segment(Active(segs).number + 1, SEGMENT_HEADER)], cfg);
      assert points == [segs] + later;
      assert forall i | 0 <= i < |later| :: points[i + 1] == later[i];
    }
  }

  /** A batch leaves room for a segment after it unless it is one huge record. */
  lemma BatchHuge(q: seq<Payload>, len: nat, cfg: Config)
    requires cfg.Valid() && len >= SEGMENT_HEADER && Batch(q, len, cfg.segmentBytes) > 0
    ensures var n := Batch(q, len, cfg.segmentBytes);
            && len + cfg.segmentBytes <= cfg.capBytes
            && AfterHuge(q, cfg)
            == if len + Size(q[..n]) + cfg.segmentBytes > cfg.capBytes then |q| - n else AfterHuge(q[n..], cfg)
  {
    var limit, n := cfg.segmentBytes, Batch(q, len, cfg.segmentBytes);
    if Fitting(q, len, limit) == 0 {
      assert q[..1][1..] == [] && Size(q[..1]) == RECORD_HEADER + |q[0]|;
    } else {
      FittingHuge(q, len, cfg);
    }
  }

  lemma {:induction false} FittingHuge(q: seq<Payload>, len: nat, cfg: Config)
    requires cfg.Valid() && len >= SEGMENT_HEADER && Fitting(q, len, cfg.segmentBytes) > 0
    ensures var n := Fitting(q, len, cfg.segmentBytes);
            len + Size(q[..n]) <= cfg.segmentBytes && AfterHuge(q, cfg) == AfterHuge(q[n..], cfg)
    decreases |q|
  {
    var limit := cfg.segmentBytes;
    var n, next := Fitting(q, len, limit), len + RECORD_HEADER + |q[0]|;
    assert q[..n][1..] == q[1..][..n - 1] && q[n..] == q[1..][n - 1..];
    if n > 1 {
      FittingHuge(q[1..], next, cfg);
    } else {
      assert q[1..][..0] == [];
    }
  }
}
