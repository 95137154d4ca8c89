/** How long a record waits in memory. */
module Flushing {
  import opened Options
  import opened Framing
  import opened Log
  import opened Segments
  import opened Disk
  import opened Writer

  datatype Act = Append(payload: seq<byte>) | Tick(now: int)

  /** The times of the ticks do not go back, nor behind the last flush before. */
  ghost predicate Timely(acts: seq<Act>, last: Option<int>) {
    && (forall i, j | 0 <= i < j < |acts| && acts[i].Tick? && acts[j].Tick? :: acts[i].now <= acts[j].now)
    && (forall i | 0 <= i < |acts| && acts[i].Tick? && last.Some? :: last.value <= acts[i].now)
  }

  /** The records that were accepted and settled after each number of acts. */
  datatype Count = Count(accepted: nat, settled: nat)

  /** A record accepted before a tick is settled after any tick an interval or more later. */
  ghost predicate Prompt(acts: seq<Act>, counts: seq<Count>, interval: int)
    requires |counts| == |acts| + 1
  {
    forall i, j | 0 <= i < j < |acts| && acts[i].Tick? && acts[j].Tick? && acts[j].now - acts[i].now >= interval ::
      counts[j + 1].settled >= counts[i].accepted
  }

  /** What was accepted before a tick and is not settled yet: the last flush was at that tick's time at the
      latest. */
  ghost predicate Pending(acts: seq<Act>, counts: seq<Count>, last: Option<int>)
    requires |counts| == |acts| + 1
  {
    forall i | 0 <= i < |acts| && acts[i].Tick? && counts[|acts|].settled < counts[i].accepted ::
      last.Some? && last.value <= acts[i].now
  }

  ghost predicate Growing(counts: seq<Count>) {
    forall i, j | 0 <= i <= j < |counts| ::
      counts[i].accepted <= counts[j].accepted && counts[i].settled <= counts[j].settled
  }

  /** Any run of appends and ticks. While no flush fails, no record waits longer than an interval from the
      first tick after it to the next tick. */
  method Run(w: LogWriter, acts: seq<Act>) returns (good: bool, ghost counts: seq<Count>)
    requires w.Valid() && w.retryAt == None && Timely(acts, w.lastFlush)
    modifies w, w.dir
    ensures w.Valid() && |counts| == |acts| + 1 && counts[|acts|] == Count(|w.accepted|, |w.fates|)
    ensures !good ==> Excused(w.dir.failures, old(w.dir.failures), w.segments)
    ensures good ==> w.retryAt == None && Prompt(acts, counts, w.cfg.flushInterval) && Growing(counts)
  {
    hide LogWriter.Stored, Directory.Recorded, Frames, LogWriter.Opened, Prompt, Pending, Growing, Timely;
    good := true;
    SettledAll(w);
    counts := [Count(|w.accepted|, |w.fates|)];
    StartPrompt(acts, counts, w.cfg.flushInterval, w.lastFlush);
    for i := 0 to |acts|
      invariant w.Valid() && |counts| == i + 1 && counts[i] == Count(|w.accepted|, |w.fates|)
      invariant w.dir.failures >= old(w.dir.failures) && GoesUp(old(w.segments), w.segments)
      invariant !good ==> Excused(w.dir.failures, old(w.dir.failures), w.segments)
      invariant good ==> w.retryAt == None && Prompt(acts[..i], counts, w.cfg.flushInterval) && Growing(counts)
                         && Pending(acts[..i], counts, w.lastFlush) && LastBy(acts, i, w.lastFlush)
    {
      ghost var last, before := w.lastFlush, counts;
      match acts[i] {
        case Append(payload) =>
          var r := w.Append(payload);
        case Tick(now) =>
          SettledAll(w);
          var ok := w.Tick(now);
          good := good && ok;
      }
      SettledAll(w);
      counts := counts + [Count(|w.accepted|, |w.fates|)];
      if good {
        OneMore(acts, i, before, counts, w.cfg.flushInterval, last, w.lastFlush);
      }
    }
    assert acts[..|acts|] == acts;
  }

  /** The last flush was before what is still to come. */
  ghost predicate LastBy(acts: seq<Act>, i: nat, last: Option<int>) {
    last.Some? ==> forall j | i <= j < |acts| && acts[j].Tick? :: last.value <= acts[j].now
  }

  lemma StartPrompt(acts: seq<Act>, counts: seq<Count>, interval: int, last: Option<int>)
    requires |counts| == 1 && Timely(acts, last)
    ensures Prompt(acts[..0], counts, interval) && Growing(counts) && Pending(acts[..0], counts, last)
    ensures LastBy(acts, 0, last)
  {
  }

  /** One more act. A tick settles all, or it came before the interval was over. */
  lemma OneMore(acts: seq<Act>, i: nat, before: seq<Count>, counts: seq<Count>, interval: int, last: Option<int>,
                last': Option<int>)
    requires i < |acts| && |before| == i + 1 && |counts| == i + 2 && counts[..i + 1] == before
    requires (exists l :: Timely(acts, l)) && LastBy(acts, i, last)
    requires Prompt(acts[..i], before, interval) && Growing(before) && Pending(acts[..i], before, last)
    requires counts[i].accepted <= counts[i + 1].accepted && counts[i].settled <= counts[i + 1].settled
    requires acts[i].Append? ==> last' == last
    requires acts[i].Tick? ==>
               || (last' == Some(acts[i].now) && counts[i + 1].settled == counts[i + 1].accepted)
               || (last' == last && last.Some? && acts[i].now - last.value < interval)
    ensures Prompt(acts[..i + 1], counts, interval) && Growing(counts) && Pending(acts[..i + 1], counts, last')
    ensures LastBy(acts, i + 1, last')
  {
    assert forall k | 0 <= k <= i :: counts[k] == before[k];
    assert forall k | 0 <= k < i :: acts[..i + 1][k] == acts[..i][k] == acts[k];
  }

  /** What is not settled is queued. */
  lemma SettledAll(w: LogWriter)
    requires w.Valid()
    ensures |w.accepted| == |w.fates| + |w.queue| && GoesUp(w.segments, w.segments)
  {
    hide Frames, OnDisk, Directory.Recorded, Clean, Kept, Records, Written;
  }
}
