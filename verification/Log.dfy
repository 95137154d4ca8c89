/** What the writer accepted, and what became of it.

    The log is the records of all segments, in segment order. Every accepted record is first
    queued; it is then either written to the newest segment or dropped, in order. */
module Log {
  import opened Framing
  import opened Disk

  /** The records of the segments before `n`, in order. */
  function Records(recs: map<u64, seq<Payload>>, n: nat): seq<Payload> {
    if n == 0 then [] else Records(recs, n - 1) + Of(recs, n - 1)
  }

  function Of(recs: map<u64, seq<Payload>>, s: nat): seq<Payload> {
    if s in recs then recs[s] else []
  }

  lemma {:induction false} RecordsAgree(recs: map<u64, seq<Payload>>, recs': map<u64, seq<Payload>>, n: nat)
    requires forall s :: 0 <= s < n ==> Of(recs, s) == Of(recs', s)
    ensures Records(recs, n) == Records(recs', n)
  {
    if n > 0 {
      RecordsAgree(recs, recs', n - 1);
    }
  }

  /** The log before `first` and the log from there on, of two maps that hold one part each. */
  lemma {:induction false} RecordsJoin(all: map<u64, seq<Payload>>, recs: map<u64, seq<Payload>>, first: nat, n: nat)
    requires first <= n && (forall s | s in recs :: s >= first)
    requires forall s: nat | first <= s < n :: Of(all, s) == Of(recs, s)
    ensures Records(all, n) == Records(all, first) + Records(recs, n)
    decreases n
  {
    if n == first {
      RecordsAgree(recs, map[], n);
      RecordsSkip(map[], 0, n);
    } else {
      RecordsJoin(all, recs, first, n - 1);
      Associates(Records(all, first), Records(recs, n - 1), Of(recs, n - 1));
    }
  }

  /** Adding to the newest segment adds to the end of the log. */
  lemma RecordsAppend(recs: map<u64, seq<Payload>>, a: u64, more: seq<Payload>)
    requires a in recs
    ensures Records(recs[a := recs[a] + more], a + 1) == Records(recs, a + 1) + more
  {
    hide Records;
    var recs' := recs[a := recs[a] + more];
    RecordsAgree(recs, recs', a);
    RecordsLast(recs, a);
    RecordsLast(recs', a);
    Associates(Records(recs, a), recs[a], more);
  }

  lemma Associates<T>(a: seq<T>, b: seq<T>, c: seq<T>)
    ensures (a + b) + c == a + (b + c)
  {
  }

  lemma RecordsLast(recs: map<u64, seq<Payload>>, a: u64)
    requires a in recs
    ensures Records(recs, a + 1) == Records(recs, a) + recs[a]
  {
  }

  /** A new empty segment after all others leaves the log as it was. */
  lemma RecordsNewSegment(recs: map<u64, seq<Payload>>, a: u64, b: u64)
    requires a < b && forall s | s in recs :: s <= a
    ensures Records(recs[b := []], b + 1) == Records(recs, a + 1)
  {
    RecordsAgree(recs, recs[b := []], b);
    RecordsSkip(recs, a + 1, b);
  }

  lemma {:induction false} RecordsSkip(recs: map<u64, seq<Payload>>, m: nat, n: nat)
    requires m <= n && forall s | s in recs :: s < m
    ensures Records(recs, n) == Records(recs, m)
    decreases n
  {
    if m < n {
      RecordsSkip(recs, m, n - 1);
    }
  }

  /** The settled records that were written: `fates[i]` tells whether `accepted[i]` was written
      (or dropped). */
  function Kept(accepted: seq<Payload>, fates: seq<bool>): seq<Payload>
    requires |fates| <= |accepted|
  {
    if fates == [] then []
    else
      var i := |fates| - 1;
      Kept(accepted, fates[..i]) + if fates[i] then [accepted[i]] else []
  }

  function Written(fates: seq<bool>): (n: nat)
    ensures n <= |fates|
  {
    if fates == [] then 0 else Written(fates[..|fates| - 1]) + if fates[|fates| - 1] then 1 else 0
  }

  function Same(n: nat, written: bool): (fates: seq<bool>)
    ensures |fates| == n
  {
    seq(n, _ => written)
  }

  lemma {:induction false} SettleMore(accepted: seq<Payload>, fates: seq<bool>, n: nat, written: bool)
    requires |fates| + n <= |accepted|
    ensures Kept(accepted, fates + Same(n, written))
         == Kept(accepted, fates) + if written then accepted[|fates|..|fates| + n] else []
    ensures Written(fates + Same(n, written)) == Written(fates) + if written then n else 0
    decreases n
  {
    var all := fates + Same(n, written);
    if n == 0 {
      assert all == fates;
    } else {
      assert all[..|all| - 1] == fates + Same(n - 1, written);
      SettleMore(accepted, fates, n - 1, written);
      if written {
        assert accepted[|fates|..|fates| + n] == accepted[|fates|..|fates| + n - 1] + [accepted[|fates| + n - 1]];
      }
    }
  }

  lemma {:induction false} KeptGrows(accepted: seq<Payload>, more: seq<Payload>, fates: seq<bool>)
    requires |fates| <= |accepted|
    ensures Kept(accepted + more, fates) == Kept(accepted, fates)
    decreases |fates|
  {
    if fates != [] {
      KeptGrows(accepted, more, fates[..|fates| - 1]);
    }
  }

  /** The accepted records split in order: settled ones, then the queue. The written ones are the
      log, in order, and the counts add up. */
  ghost predicate Ledger(accepted: seq<Payload>, fates: seq<bool>, queue: seq<Payload>, recs: map<u64, seq<Payload>>,
                         a: u64,
                         written: nat, dropped: nat)
  {
    && |fates| <= |accepted|
    && queue == accepted[|fates|..]
    && a in recs && (forall s | s in recs :: s <= a)
    && Kept(accepted, fates) == Records(recs, a + 1)
    && written == Written(fates)
    && dropped == |fates| - Written(fates)
  }

  lemma LedgerStart(a: u64)
    ensures Ledger([], [], [], map[a := []], a, 0, 0)
  {
    RecordsAgree(map[a := []], map[], a + 1);
    RecordsSkip(map[], 0, a + 1);
  }

  /** None lost, none doubled. */
  lemma LedgerCounts(accepted: seq<Payload>, fates: seq<bool>, queue: seq<Payload>, recs: map<u64, seq<Payload>>,
                     a: u64,
                     written: nat, dropped: nat)
    requires Ledger(accepted, fates, queue, recs, a, written, dropped)
    ensures |accepted| == written + dropped + |queue|
    ensures dropped == 0 ==> Records(recs, a + 1) + queue == accepted
  {
    if dropped == 0 {
      AllKept(accepted, fates);
    }
  }

  lemma {:induction false} AllKept(accepted: seq<Payload>, fates: seq<bool>)
    requires |fates| <= |accepted| && Written(fates) == |fates|
    ensures Kept(accepted, fates) == accepted[..|fates|]
    decreases |fates|
  {
    if fates != [] {
      var i := |fates| - 1;
      AllKept(accepted, fates[..i]);
      assert accepted[..|fates|] == accepted[..i] + [accepted[i]];
    }
  }

  lemma LedgerAccept(accepted: seq<Payload>, fates: seq<bool>, queue: seq<Payload>, recs: map<u64, seq<Payload>>,
                     a: u64,
                     written: nat, dropped: nat, p: Payload)
    requires Ledger(accepted, fates, queue, recs, a, written, dropped)
    ensures Ledger(accepted + [p], fates, queue + [p], recs, a, written, dropped)
  {
    KeptGrows(accepted, [p], fates);
  }

  lemma LedgerWrite(accepted: seq<Payload>, fates: seq<bool>, queue: seq<Payload>, recs: map<u64, seq<Payload>>, a: u64,
                    written: nat, dropped: nat, n: nat)
    requires Ledger(accepted, fates, queue, recs, a, written, dropped) && n <= |queue|
    ensures Ledger(accepted, fates + Same(n, true), queue[n..], recs[a := recs[a] + queue[..n]], a, written + n,
              dropped)
  {
    hide Records, Kept;
    SettleMore(accepted, fates, n, true);
    RecordsAppend(recs, a, queue[..n]);
    assert accepted[|fates|..|fates| + n] == queue[..n];
  }

  lemma LedgerDrop(accepted: seq<Payload>, fates: seq<bool>, queue: seq<Payload>, recs: map<u64, seq<Payload>>, a: u64,
                   written: nat, dropped: nat)
    requires Ledger(accepted, fates, queue, recs, a, written, dropped)
    ensures Ledger(accepted, fates + Same(|queue|, false), [], recs, a, written, dropped + |queue|)
  {
    hide Records, Kept;
    SettleMore(accepted, fates, |queue|, false);
  }

  lemma LedgerRotate(accepted: seq<Payload>, fates: seq<bool>, queue: seq<Payload>, recs: map<u64, seq<Payload>>,
                     a: u64,
                     written: nat, dropped: nat, b: u64)
    requires Ledger(accepted, fates, queue, recs, a, written, dropped) && a < b
    ensures Ledger(accepted, fates, queue, recs[b := []], b, written, dropped)
  {
    hide Records, Kept;
    RecordsNewSegment(recs, a, b);
  }

  /** How many of the records `q` fit a segment that holds `len` bytes already. */
  function Fitting(q: seq<Payload>, len: nat, limit: nat): (n: nat)
    ensures n <= |q|
  {
    if q == [] || len + RECORD_HEADER + |q[0]| > limit then 0
    else 1 + Fitting(q[1..], len + RECORD_HEADER + |q[0]|, limit)
  }

  /** The next batch: as many records as fit, or a single one in an empty segment. */
  function Batch(q: seq<Payload>, len: nat, limit: nat): (n: nat)
    ensures n <= |q|
    ensures q != [] && n == 0 ==> len != SEGMENT_HEADER && len + RECORD_HEADER + |q[0]| > limit
  {
    var n := Fitting(q, len, limit);
    if n == 0 && q != [] && len == SEGMENT_HEADER then 1 else n
  }

  lemma {:induction false} FittingGrows(q: seq<Payload>, more: seq<Payload>, len: nat, limit: nat)
    ensures Fitting(q, len, limit) <= Fitting(q + more, len, limit)
    decreases |q|
  {
    if q != [] {
      assert (q + more)[1..] == q[1..] + more;
      FittingGrows(q[1..], more, len + RECORD_HEADER + |q[0]|, limit);
    }
  }

  /** A longer queue only makes the next batch longer: a retry writes at least what it tore. */
  lemma BatchGrows(q: seq<Payload>, more: seq<Payload>, len: nat, limit: nat)
    ensures Batch(q, len, limit) <= Batch(q + more, len, limit)
  {
    FittingGrows(q, more, len, limit);
  }

  /** A batch keeps the segment within the limit, unless it is a single record that exceeds it. */
  lemma {:induction false} FittingFits(crc: Checksum, q: seq<Payload>, len: nat, limit: nat)
    requires len <= limit
    ensures len + |Frames(crc, q[..Fitting(q, len, limit)])| <= limit
    decreases |q|
  {
    var n := Fitting(q, len, limit);
    if n > 0 {
      FittingFits(crc, q[1..], len + RECORD_HEADER + |q[0]|, limit);
      assert q[..n][1..] == q[1..][..n - 1];
    }
  }

  predicate Fits(ps: seq<Payload>, limit: nat) {
    forall p | p in ps :: SEGMENT_HEADER + RECORD_HEADER + |p| <= limit
  }

  lemma BatchFits(crc: Checksum, q: seq<Payload>, len: nat, limit: nat)
    requires Fits(q, limit) && len <= limit
    ensures len + |Frames(crc, q[..Batch(q, len, limit)])| <= limit
  {
    FittingFits(crc, q, len, limit);
    assert q != [] ==> q[0] in q;
  }
}
