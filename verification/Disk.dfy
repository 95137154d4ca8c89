/** The buffer directory as the writer and its readers share it: numbered segment files, each a
    header followed by framed records.

    A `View` is the directory at one instant. Besides names and bytes it tells, for the proofs only,
    which records each file holds or is going to hold (`plan`) and which segment the writer is on
    (`current`). `Evolves` is what the writer guarantees between an instant and any later one, and
    all that a reader relies on. The directory remembers every instant of the run, and a reader
    (`Sight`) is at some instant, never before one it has seen. */
module Disk {
  import opened Framing

  type u64 = x: int | 0 <= x < 0x1_0000_0000_0000_0000
  const U64_MAX: u64 := 0xffff_ffff_ffff_ffff

  /** "ATLSEG01". */
  const SEGMENT_MAGIC: seq<byte> := [0x41, 0x54, 0x4c, 0x53, 0x45, 0x47, 0x30, 0x31]
  const SEGMENT_HEADER: nat := 8

  /** A place in the log, between two records. */
  datatype Cursor = Cursor(segment: u64, offset: nat) {
    predicate Before(other: Cursor) {
      segment < other.segment || (segment == other.segment && offset < other.offset)
    }
  }

  /** A whole segment holding `ps`. */
  function Content(crc: Checksum, ps: seq<Payload>): (data: seq<byte>)
    ensures |data| == SEGMENT_HEADER + |Frames(crc, ps)|
  {
    SEGMENT_MAGIC + Frames(crc, ps)
  }

  lemma ContentConcat(crc: Checksum, a: seq<Payload>, b: seq<Payload>)
    ensures Content(crc, a + b) == Content(crc, a) + Frames(crc, b)
  {
    FramesConcat(crc, a, b);
  }

  datatype View = View(
    // Contents by segment number. A deleted file is still read through handles already open.
    files: map<u64, seq<byte>>,
    // The names in the directory.
    listed: set<u64>,
    // The records each file holds or is going to hold.
    ghost plan: map<u64, seq<Payload>>,
    // The segment the writer is on. It does not come back to an earlier one.
    ghost current: u64,
    // Something other than the writer changed a file.
    ghost damaged: bool)
  {
    /** A file with a larger number exists. */
    ghost predicate Sealed(s: u64) {
      exists t | t in files :: t > s
    }
  }

  /** A file is a prefix of what is planned for it: all of it once the writer has moved on. The
      current file is never deleted. */
  ghost predicate FileSound(crc: Checksum, v: View, s: u64) {
    && s in v.files && s in v.plan && s <= v.current
    && v.files[s] <= Content(crc, v.plan[s])
    && (if s < v.current then v.files[s] == Content(crc, v.plan[s]) else s in v.listed)
  }

  ghost predicate Sound(crc: Checksum, v: View) {
    && v.listed <= v.files.Keys
    && (!v.damaged ==> v.plan.Keys == v.files.Keys && forall s | s in v.files :: FileSound(crc, v, s))
  }

  /** Plans only grow, and only that of the current file; a deleted name stays deleted. */
  ghost predicate FileKept(v: View, w: View, s: u64) {
    && s in v.plan && s in w.plan
    && v.plan[s] <= w.plan[s]
    && (s < v.current ==> w.plan[s] == v.plan[s])
    && (s in w.listed ==> s in v.listed)
  }

  /** What may happen between two instants: files are kept, and none appears behind the writer. */
  ghost predicate Evolves(crc: Checksum, v: View, w: View) {
    && Sound(crc, w)
    && v.files.Keys <= w.files.Keys
    && (v.damaged ==> w.damaged)
    && (!w.damaged ==>
          && v.current <= w.current
          && (forall s | s in v.files :: FileKept(v, w, s))
          && (forall s | s in w.files && s !in v.files :: s >= v.current))
  }

  lemma EvolvesSame(crc: Checksum, v: View)
    requires Sound(crc, v)
    ensures Evolves(crc, v, v)
  {
  }

  lemma EvolvesTransitive(crc: Checksum, u: View, v: View, w: View)
    requires Evolves(crc, u, v) && Evolves(crc, v, w)
    ensures Evolves(crc, u, w)
  {
    hide FileSound;
    if !w.damaged {
      forall s | s in u.files
        ensures FileKept(u, w, s)
      {
        assert FileKept(u, v, s) && FileKept(v, w, s);
      }
    }
  }

  /** Every instant to every later one, of a whole run. */
  ghost predicate Ordered(crc: Checksum, run: seq<View>) {
    forall i, j | 0 <= i <= j < |run| :: Evolves(crc, run[i], run[j])
  }

  lemma OrderedMore(crc: Checksum, run: seq<View>, w: View)
    requires run != [] && Ordered(crc, run) && Evolves(crc, run[|run| - 1], w)
    ensures Ordered(crc, run + [w])
  {
    hide Evolves, Sound;
    var more, n := run + [w], |run|;
    EvolvesSound(crc, run[n - 1], w);
    EvolvesSame(crc, w);
    forall i, j | 0 <= i <= j < |more|
      ensures Evolves(crc, more[i], more[j])
    {
      if j == n && i < n {
        EvolvesTransitive(crc, run[i], run[n - 1], w);
      }
    }
  }

  lemma EvolvesSound(crc: Checksum, v: View, w: View)
    requires Evolves(crc, v, w)
    ensures Sound(crc, w) && v.files.Keys <= w.files.Keys && (v.damaged ==> w.damaged)
  {
  }

  lemma OrderedOne(crc: Checksum, v: View)
    requires Sound(crc, v)
    ensures Ordered(crc, [v])
  {
    hide Evolves, Sound;
    EvolvesSame(crc, v);
  }

  /** The bytes a read of up to `n` bytes at `offset` gives. */
  function Slice(data: seq<byte>, offset: nat, n: nat): (r: seq<byte>)
    ensures |r| <= n
  {
    if offset >= |data| then [] else if offset + n <= |data| then data[offset..offset + n] else data[offset..]
  }

  function Resized(data: seq<byte>, n: nat): (r: seq<byte>)
    ensures |r| == n
  {
    if n <= |data| then data[..n] else data + seq(n - |data|, _ => 0)
  }

  /** `Denied`: the name is still shown, but its file is being deleted. */
  datatype Io<T> = Done(value: T) | NotFound | Denied | Failed

  /** The directory, and every instant of the run that it is in. */
  class Directory {
    const crc: Checksum
    var files: map<u64, seq<byte>>
    var listed: set<u64>
    ghost var plan: map<u64, seq<Payload>>
    ghost var current: u64
    ghost var damaged: bool
    var history: seq<View>
    /** How many bytes of each file a flush has made sure of. */
    ghost var durable: map<u64, nat>
    /** The files that could not be read whole, so far. */
    ghost var unread: nat
    /** The calls of the writer that failed, so far, deletions and those reads aside. */
    ghost var failures: nat

    function Now(): View
      reads this`files, this`listed, this`plan, this`current, this`damaged
    {
      View(files, listed, plan, current, damaged)
    }

    /** The files whose names were removed. */
    ghost function Gone(): set<u64>
      reads this`files, this`listed
    {
      files.Keys - listed
    }

    /** The run so far is one the writer's guarantee allows, up to now. */
    ghost predicate Recorded()
      reads `files, `listed, `plan, `current, `damaged, `history
    {
      && history != [] && history[|history| - 1] == Now()
      && Ordered(crc, history) && Sound(crc, Now())
    }

    constructor (crc: Checksum)
      ensures this.crc == crc && Now() == View(map[], {}, map[], 0, false) && Recorded()
    {
      this.crc := crc;
      files, listed, plan, current, damaged := map[], {}, map[], 0, false;
      history, durable, unread, failures := [], map[], 0, 0;
      new;
      OrderedOne(crc, Now());
      history := [Now()];
    }

    /** The directory as a new run finds it. */
    constructor Found(crc: Checksum, files: map<u64, seq<byte>>, ghost plan: map<u64, seq<Payload>>,
                      ghost current: u64, ghost damaged: bool)
      requires Sound(crc, View(files, files.Keys, plan, current, damaged))
      ensures this.crc == crc && Now() == View(files, files.Keys, plan, current, damaged)
    {
      this.crc, this.files, this.listed := crc, files, files.Keys;
      this.plan, this.current, this.damaged := plan, current, damaged;
      history, durable, unread, failures := [], map[], 0, 0;
    }

    /** Remembers this instant. */
    method Note()
      requires history != [] && Ordered(crc, history) && Evolves(crc, history[|history| - 1], Now())
      modifies this`history
      ensures Recorded() && history == old(history) + [Now()]
    {
      hide Evolves, Ordered, Sound;
      OrderedMore(crc, history, Now());
      EvolvesSound(crc, history[|history| - 1], Now());
      history := history + [Now()];
    }

    /** A new run begins, in segment `next`: what the last one left is final, and on the disk. */
    method Begin(ghost next: u64)
      requires Sound(crc, Now()) && listed == files.Keys
      requires damaged || forall s | s in files :: s < next && s in plan && files[s] == Content(crc, plan[s])
      modifies this`current, this`history, this`durable
      ensures Recorded() && Now() == old(Now()).(current := next)
      ensures durable == map s | s in files :: |files[s]|
    {
      hide Content;
      current, durable := next, map s | s in files :: |files[s]|;
      OrderedOne(crc, Now());
      history := [Now()];
    }

    /** Opens the current segment for writing, creating it empty if it is new. */
    method OpenRw(s: u64) returns (ok: bool)
      requires Recorded() && (damaged || s == current)
      modifies this`files, this`listed, this`plan, this`history, this`failures
      ensures Recorded() && old(history) <= history
      ensures ok ==> s in files
      ensures files == old(files) || (s !in old(files) && files == old(files)[s := []])
      ensures plan == if files == old(files) then old(plan) else old(plan)[s := []]
      ensures listed == old(listed) || listed == old(listed) + {s}
      ensures Gone() <= old(Gone()) && failures == old(failures) + if ok then 0 else 1
    {
      hide Ordered, Sound, Evolves;
      if * {
        failures := failures + 1;
        return false;
      }
      ghost var v := Now();
      if s !in files {
        files, plan := files[s := []], plan[s := []];
      }
      listed := listed + {s};
      CreateEvolves(crc, v, Now(), s);
      Note();
      ok := *;
      if !ok { failures := failures + 1; }
    }

    /** Sets the length of the current segment, cutting what was written past `n`. */
    method SetLen(s: u64, n: nat) returns (ok: bool)
      requires Recorded() && s in files && (damaged || (s == current && n <= |files[s]|))
      modifies this`files, this`history, this`durable, this`failures
      ensures Recorded() && old(history) <= history && failures == old(failures) + if ok then 0 else 1
      ensures files == if ok then old(files)[s := Resized(old(files)[s], n)] else old(files)
      ensures durable == if ok && s in old(durable) && old(durable)[s] > n then old(durable)[s := n] else old(durable)
    {
      hide Ordered, Sound, Evolves;
      if * {
        failures := failures + 1;
        return false;
      }
      ghost var v := Now();
      files := files[s := Resized(files[s], n)];
      if s in durable && durable[s] > n { durable := durable[s := n]; }
      CutEvolves(crc, v, Now(), s, n);
      Note();
      ok := true;
    }

    /** Writes at the end of the current segment, in any number of pieces. An error leaves some
        prefix of the data written; readers may see any prefix on the way. */
    method WriteAll(s: u64, data: seq<byte>) returns (ok: bool, ghost n: nat)
      requires Recorded() && s in files
      requires damaged || (s == current && s in plan && files[s] + data <= Content(crc, plan[s]))
      modifies this`files, this`history, this`failures
      ensures Recorded() && old(history) <= history && failures == old(failures) + if ok then 0 else 1
      ensures n <= |data| && (ok ==> n == |data|)
      ensures files == old(files)[s := old(files)[s] + data[..n]]
    {
      hide Content, Sound, Ordered, Evolves;
      ghost var u := Now();
      var done := 0;
      ok := true;
      assert data[..0] == [] && files[s] + [] == files[s];
      while done < |data| && ok
        invariant done <= |data|
        invariant Recorded() && old(history) <= history && failures == old(failures)
        invariant files == u.files[s := u.files[s] + data[..done]]
        decreases |data| - done, if ok then 1 else 0
      {
        ok := *;
        if ok {
          var piece: nat :| 1 <= piece <= |data| - done;
          ghost var v := Now();
          files := files[s := files[s] + data[done..done + piece]];
          assert data[..done + piece] == data[..done] + data[done..done + piece];
          assert data[done..][..piece] == data[done..done + piece] && data[..done] + data[done..] == data;
          assert files[s] == u.files[s] + data[..done + piece];
          assert v.files[s] + data[done..] == u.files[s] + data;
          PieceEvolves(crc, v, Now(), s, data[done..], piece);
          Note();
          done := done + piece;
        }
      }
      if !ok { failures := failures + 1; }
      n := done;
    }

    /** Removes a segment's name. It may fail: another process can hold it open. */
    method Remove(s: u64) returns (ok: bool)
      requires Recorded() && (damaged || s < current)
      modifies this`listed, this`history
      ensures Recorded() && old(history) <= history
      ensures listed == if ok then old(listed) - {s} else old(listed)
    {
      hide Ordered, Sound, Evolves;
      if * { return false; }
      ghost var v := Now();
      listed := listed - {s};
      RemoveEvolves(crc, v, Now(), s);
      Note();
      ok := true;
    }

    /** From here on `ps` is going to be written to the current segment next. */
    method Commit(s: u64, ghost ps: seq<Payload>)
      requires Recorded() && (damaged || s == current)
      modifies this`plan, this`history
      ensures Recorded() && old(history) <= history
      ensures plan == Committed(old(plan), s, ps)
    {
      hide Ordered, Sound, Evolves;
      ghost var v := Now();
      plan := Committed(plan, s, ps);
      CommitEvolves(crc, v, Now(), s, ps);
      Note();
    }

    /** The writer moves on to segment `b`: the one it was on holds all that was planned for it. */
    method Seal(ghost b: u64)
      requires Recorded()
      requires damaged || current < b
      requires !damaged && current in files ==> current in plan && files[current] == Content(crc, plan[current])
      modifies this`current, this`history
      ensures Recorded() && old(history) <= history && current == b
    {
      hide Ordered, Sound, Evolves;
      ghost var v := Now();
      current := b;
      SealEvolves(crc, v, Now(), b);
      Note();
    }

    /** Something other than the writer changes a file. */
    method Damage(s: u64, data: seq<byte>)
      requires Recorded() && s in files
      modifies this`files, this`damaged, this`history
      ensures Recorded() && old(history) <= history && damaged && files == old(files)[s := data]
    {
      hide Ordered, Sound, Evolves;
      ghost var v := Now();
      files, damaged := files[s := data], true;
      DamageEvolves(crc, v, Now(), s);
      Note();
    }

    /** Between two runs: the newest segment is cut or rewritten to hold just `ps`. */
    method Rewrite(s: u64, data: seq<byte>, ghost ps: seq<Payload>)
      requires Sound(crc, Now()) && s in files
      requires damaged || data == Content(crc, ps)
      modifies this`files, this`plan
      ensures Sound(crc, Now())
      ensures files == old(files)[s := data] && plan == old(plan)[s := ps]
    {
      hide Content, Sound;
      RewriteSound(crc, Now(), s, data, ps);
      files, plan := files[s := data], plan[s := ps];
    }

    /** Between two runs: a segment wholly behind the cursor is deleted. */
    method Erase(s: u64) returns (ok: bool)
      requires Sound(crc, Now()) && listed == files.Keys
      modifies this`files, this`plan, this`listed
      ensures Sound(crc, Now()) && listed == files.Keys
      ensures ok ==> files == old(files) - {s} && plan == old(plan) - {s}
      ensures !ok ==> files == old(files) && plan == old(plan)
    {
      hide Content;
      if * { return false; }
      ghost var v := Now();
      files, plan, listed := files - {s}, plan - {s}, listed - {s};
      ok := true;
      assert !damaged ==> forall t | t in files :: FileSound(crc, v, t);
    }

    /** Flushes what was written to a file: it is sure to be there after a crash. */
    method Sync(s: u64) returns (ok: bool)
      requires s in files
      modifies this`durable, this`failures
      ensures failures == old(failures) + if ok then 0 else 1
      ensures durable == if ok then old(durable)[s := |files[s]|] else old(durable)
    {
      ok := *;
      if ok {
        durable := durable[s := |files[s]|];
      } else {
        failures := failures + 1;
      }
    }

    /** Reads a whole file, if it can be read. */
    method ReadAll(s: u64) returns (r: Io<seq<byte>>)
      requires s in files
      modifies this`unread
      ensures r == Done(files[s]) || r.Failed?
      ensures unread == old(unread) + if r.Failed? then 1 else 0
    {
      if * {
        unread := unread + 1;
        return Failed;
      }
      r := Done(files[s]);
    }
  }

  /** A reader's view of the directory. Each operation first lets the writer go on for any while:
      what it finds is some instant of the run, no earlier than what was found before. */
  class Sight {
    const log: Directory
    var at: nat
    /** The calls so far that failed, a refused open of the newest segment listed included. */
    ghost var failures: nat
    /** The largest number that the last listing showed, or -1. */
    ghost var top: int

    ghost predicate Valid()
      reads `at, log`history
    {
      at < |log.history| && Ordered(log.crc, log.history)
    }

    function Now(): View
      requires at < |log.history|
      reads `at, log`history
    {
      log.history[at]
    }

    constructor (log: Directory)
      requires log.Recorded()
      ensures Valid() && this.log == log && Now() == log.Now()
    {
      hide Ordered, Sound;
      this.log, this.at, failures, top := log, |log.history| - 1, 0, -1;
    }

    /** What holds of any two instants this reader was at. */
    lemma Since(i: nat)
      requires Valid() && i <= at
      ensures Evolves(log.crc, log.history[i], Now()) && Sound(log.crc, Now()) && Sound(log.crc, log.history[i])
      ensures log.history[i].damaged ==> Now().damaged
    {
      hide Evolves, Sound;
      assert Evolves(log.crc, log.history[i], log.history[i]) && Evolves(log.crc, log.history[i], log.history[at]);
      EvolvesSound(log.crc, log.history[i], log.history[i]);
      EvolvesSound(log.crc, log.history[i], log.history[at]);
    }

    /** The writer goes on for any while. */
    method Wait()
      requires Valid()
      modifies `at
      ensures Valid() && old(at) <= at
    {
      var next: nat := *;
      if at <= next < |log.history| {
        at := next;
      }
    }

    /** The segment numbers in the directory, ascending. A file that is being deleted may show. */
    method List() returns (r: Io<seq<u64>>)
      requires Valid()
      modifies this
      ensures Valid() && old(at) <= at
      ensures !r.NotFound? && !r.Denied?
      ensures failures == old(failures) + (if r.Failed? then 1 else 0)
      ensures r.Done? ==> top == if r.value == [] then -1 else r.value[|r.value| - 1]
      ensures r.Done? ==>
                (forall s | s in Now().listed :: s in r.value) && (forall s | s in r.value :: s in Now().files)
      ensures r.Done? ==> forall i, j :: 0 <= i < j < |r.value| ==> r.value[i] < r.value[j]
    {
      hide Evolves;
      Wait();
      if * {
        failures := failures + 1;
        return Failed;
      }
      Since(at);
      var shown: set<u64> := *;
      if !(Now().listed <= shown <= Now().files.Keys) {
        shown := Now().listed;
      }
      var seqs := Sorted(shown);
      top := if seqs == [] then -1 else seqs[|seqs| - 1];
      r := Done(seqs);
    }

    /** Opens a segment for reading, if the directory still has it. */
    method OpenRead(s: u64) returns (r: Io<()>)
      requires Valid()
      modifies `at, `failures
      ensures Valid() && old(at) <= at
      ensures failures == old(failures) + if r.Failed? || (!r.Done? && s >= top) then 1 else 0
      ensures r.Done? ==> s in Now().files
      ensures r.NotFound? || r.Denied? ==> s !in Now().listed
    {
      hide Evolves;
      Wait();
      if * {
        failures := failures + 1;
        return Failed;
      }
      Since(at);
      if s in Now().listed { return Done(()); }
      if s >= top { failures := failures + 1; }
      var deleting := *;
      r := if deleting then Denied else NotFound;
    }

    /** One read through an open handle: some of the next `n` bytes, and none only at the end of the file. */
    method Read(s: u64, offset: nat, n: nat) returns (r: Io<seq<byte>>)
      requires Valid() && s in Now().files
      modifies `at, `failures
      ensures Valid() && old(at) <= at
      ensures !r.NotFound? && !r.Denied?
      ensures failures == old(failures) + if r.Failed? then 1 else 0
      ensures s in Now().files && (r.Done? ==> r.value <= Slice(Now().files[s], offset, n))
      ensures r == Done([]) ==> Slice(Now().files[s], offset, n) == []
    {
      hide Evolves;
      ghost var i := at;
      Wait();
      Since(i);
      EvolvesSound(log.crc, log.history[i], Now());
      if * {
        failures := failures + 1;
        return Failed;
      }
      var there := Slice(Now().files[s], offset, n);
      if there == [] { return Done([]); }
      var some: nat :| 1 <= some <= |there|;
      r := Done(there[..some]);
    }

    /** Reads until there are `n` bytes or the file ends, each piece at an instant of its own. Pieces of an
        undamaged file fit together, whatever was cut off and written again in between. */
    method ReadUpTo(s: u64, offset: nat, n: nat) returns (r: Io<seq<byte>>)
      requires Valid() && s in Now().files
      modifies `at, `failures
      ensures Valid() && old(at) <= at
      ensures !r.NotFound? && !r.Denied?
      ensures failures == old(failures) + if r.Failed? then 1 else 0
      ensures s in Now().files && (r.Done? ==> WasRead(log.crc, Now(), s, offset, n, r.value))
    {
      hide Evolves, Sound, Content, ReadSoFar;
      var got: seq<byte> := [];
      Since(at);
      NothingRead(log.crc, Now(), s, offset);
      while |got| < n
        invariant Valid() && old(at) <= at && s in Now().files && failures == old(failures)
        invariant |got| <= n && ReadSoFar(log.crc, Now(), s, offset, got)
        decreases n - |got|
      {
        ghost var i := at;
        var piece := Read(s, offset + |got|, n - |got|);
        if piece.Failed? { return Failed; }
        Since(i);
        SoFarLater(log.crc, log.history[i], Now(), s, offset, got);
        if piece.value == [] { return Done(got); }
        SoFarMore(log.crc, Now(), s, offset, got, piece.value, n - |got|);
        got := got + piece.value;
      }
      r := Done(got);
    }
  }

  /** Bytes read so far: what is planned for that place. */
  ghost predicate ReadSoFar(crc: Checksum, v: View, s: u64, offset: nat, got: seq<byte>) {
    !v.damaged ==> s in v.plan && got == Slice(Content(crc, v.plan[s]), offset, |got|)
  }

  /** What reading up to `n` bytes gave, the last of them at this instant: all of them, or the file ends. */
  ghost predicate WasRead(crc: Checksum, v: View, s: u64, offset: nat, n: nat, got: seq<byte>)
    requires s in v.files
  {
    |got| <= n && ReadSoFar(crc, v, s, offset, got) && (|got| < n ==> |v.files[s]| <= offset + |got|)
  }

  lemma NothingRead(crc: Checksum, v: View, s: u64, offset: nat)
    requires Sound(crc, v) && s in v.files
    ensures ReadSoFar(crc, v, s, offset, [])
  {
    hide Content;
    assert !v.damaged ==> FileSound(crc, v, s);
  }

  /** Plans only grow, so what was read stays right. */
  lemma SoFarLater(crc: Checksum, v: View, w: View, s: u64, offset: nat, got: seq<byte>)
    requires Evolves(crc, v, w) && s in v.files && ReadSoFar(crc, v, s, offset, got)
    ensures ReadSoFar(crc, w, s, offset, got)
  {
    hide Content, Sound;
    if !w.damaged {
      assert FileKept(v, w, s);
      var ps, more := v.plan[s], w.plan[s];
      assert more == ps + more[|ps|..];
      ContentConcat(crc, ps, more[|ps|..]);
      SliceGrows(Content(crc, ps), Content(crc, more), offset, got);
    }
  }

  lemma SliceGrows(data: seq<byte>, more: seq<byte>, offset: nat, got: seq<byte>)
    requires data <= more && got == Slice(data, offset, |got|)
    ensures got == Slice(more, offset, |got|)
  {
    if offset + |got| <= |data| {
      assert data == more[..|data|];
      assert got != [] ==> more[offset..offset + |got|] == data[offset..offset + |got|];
    }
  }

  lemma SoFarMore(crc: Checksum, v: View, s: u64, offset: nat, got: seq<byte>, piece: seq<byte>, n: nat)
    requires Sound(crc, v) && s in v.files && ReadSoFar(crc, v, s, offset, got)
    requires piece != [] && piece <= Slice(v.files[s], offset + |got|, n)
    ensures ReadSoFar(crc, v, s, offset, got + piece)
  {
    hide Content;
    if !v.damaged {
      assert FileSound(crc, v, s);
      SliceMore(v.files[s], Content(crc, v.plan[s]), offset, got, piece, n);
    }
  }

  lemma SliceMore(data: seq<byte>, all: seq<byte>, offset: nat, got: seq<byte>, piece: seq<byte>, n: nat)
    requires data <= all && got == Slice(all, offset, |got|)
    requires piece != [] && piece <= Slice(data, offset + |got|, n)
    ensures got + piece == Slice(all, offset, |got + piece|)
  {
    var at := offset + |got|;
    assert piece == data[at..at + |piece|] == all[at..at + |piece|];
    assert got == all[offset..at];
    assert all[offset..at + |piece|] == all[offset..at] + all[at..at + |piece|];
  }

  method Sorted(numbers: set<u64>) returns (out: seq<u64>)
    ensures forall s :: s in out <==> s in numbers
    ensures forall i, j :: 0 <= i < j < |out| ==> out[i] < out[j]
  {
    var left := numbers;
    out := [];
    while left != {}
      invariant left <= numbers
      invariant forall s :: s in numbers <==> s in left || s in out
      invariant forall i, j :: 0 <= i < j < |out| ==> out[i] < out[j]
      invariant forall i, s :: 0 <= i < |out| && s in left ==> out[i] < s
    {
      var least := Least(left);
      out, left := out + [least], left - {least};
    }
  }

  method Least(numbers: set<u64>) returns (least: u64)
    requires numbers != {}
    ensures least in numbers && forall s :: s in numbers ==> least <= s
  {
    least :| least in numbers;
    var rest := numbers - {least};
    while rest != {}
      invariant rest <= numbers && least in numbers
      invariant forall s :: s in numbers && s !in rest ==> least <= s
    {
      var s :| s in rest;
      least, rest := if s < least then s else least, rest - {s};
    }
  }

  function Committed(plan: map<u64, seq<Payload>>, s: u64, ps: seq<Payload>): map<u64, seq<Payload>> {
    if s in plan then plan[s := plan[s] + ps] else plan
  }

  lemma DamageEvolves(crc: Checksum, v: View, w: View, s: u64)
    requires Sound(crc, v) && s in v.files && s in w.files
    requires w == v.(files := v.files[s := w.files[s]], damaged := true)
    ensures Evolves(crc, v, w)
  {
    hide FileSound;
  }

  lemma CreateEvolves(crc: Checksum, v: View, w: View, s: u64)
    requires Sound(crc, v) && (v.damaged || s == v.current)
    requires w.damaged == v.damaged && w.current == v.current && w.listed == v.listed + {s}
    requires if s in v.files then w.files == v.files && w.plan == v.plan
             else w.files == v.files[s := []] && w.plan == v.plan[s := []]
    ensures Evolves(crc, v, w)
  {
    hide Content, FileSound, FileKept;
    if !v.damaged {
      assert s in v.files ==> s in v.listed by { CurrentListed(crc, v); }
      forall t | t in w.files
        ensures FileSound(crc, w, t) && (t in v.files ==> FileKept(v, w, t))
      {
        CreatedFile(crc, v, w, s, t);
      }
    }
  }

  lemma CurrentListed(crc: Checksum, v: View)
    requires Sound(crc, v) && !v.damaged
    ensures v.current in v.files ==> v.current in v.listed
  {
    hide Content;
    assert v.current in v.files ==> FileSound(crc, v, v.current);
  }

  lemma CreatedFile(crc: Checksum, v: View, w: View, s: u64, t: u64)
    requires t in v.files ==> FileSound(crc, v, t)
    requires t !in v.files ==> t == s
    requires s == v.current == w.current && w.listed == v.listed + {s} && (s in v.files ==> s in v.listed)
    requires if s in v.files then w.files == v.files && w.plan == v.plan
             else w.files == v.files[s := []] && w.plan == v.plan[s := []]
    ensures FileSound(crc, w, t) && (t in v.files ==> FileKept(v, w, t))
  {
    hide Content;
  }

  /** The current file changed, within what is planned for it. */
  lemma ChangeEvolves(crc: Checksum, v: View, w: View, s: u64)
    requires Sound(crc, v) && s in v.files && s in w.files && w == v.(files := v.files[s := w.files[s]])
    requires v.damaged || (s == v.current && w.files[s] <= Content(crc, v.plan[s]))
    ensures Evolves(crc, v, w)
  {
    hide Content;
    if !v.damaged {
      assert forall t | t in v.files :: FileSound(crc, v, t);
    }
  }

  lemma CutEvolves(crc: Checksum, v: View, w: View, s: u64, n: nat)
    requires Sound(crc, v) && s in v.files && w == v.(files := v.files[s := Resized(v.files[s], n)])
    requires v.damaged || (s == v.current && n <= |v.files[s]|)
    ensures Evolves(crc, v, w)
  {
    hide Content, Evolves;
    if !v.damaged {
      assert FileSound(crc, v, s);
      assert v.files[s][..n] <= v.files[s];
    }
    ChangeEvolves(crc, v, w, s);
  }

  lemma PieceEvolves(crc: Checksum, v: View, w: View, s: u64, data: seq<byte>, n: nat)
    requires Sound(crc, v) && s in v.files && n <= |data|
    requires w == v.(files := v.files[s := v.files[s] + data[..n]])
    requires v.damaged || (s == v.current && s in v.plan && v.files[s] + data <= Content(crc, v.plan[s]))
    ensures Evolves(crc, v, w)
  {
    hide Content, FileSound, Evolves;
    if !v.damaged {
      assert v.files[s] + data[..n] <= v.files[s] + data;
    }
    ChangeEvolves(crc, v, w, s);
  }

  lemma RemoveEvolves(crc: Checksum, v: View, w: View, s: u64)
    requires Sound(crc, v) && (v.damaged || s < v.current) && w == v.(listed := v.listed - {s})
    ensures Evolves(crc, v, w)
  {
    hide Content;
    if !v.damaged {
      assert forall t | t in v.files :: FileSound(crc, v, t);
    }
  }

  lemma CommitEvolves(crc: Checksum, v: View, w: View, s: u64, ps: seq<Payload>)
    requires Sound(crc, v) && (v.damaged || s == v.current)
    requires w == v.(plan := Committed(v.plan, s, ps))
    ensures Evolves(crc, v, w)
  {
    hide Content, FileSound;
    if !v.damaged {
      forall t | t in v.files
        ensures FileSound(crc, w, t) && FileKept(v, w, t)
      {
        CommittedFile(crc, v, w, s, ps, t);
      }
    }
  }

  lemma CommittedFile(crc: Checksum, v: View, w: View, s: u64, ps: seq<Payload>, t: u64)
    requires FileSound(crc, v, t) && s == v.current && w == v.(plan := Committed(v.plan, s, ps))
    ensures FileSound(crc, w, t) && FileKept(v, w, t)
  {
    hide Content;
    if t == s {
      ContentConcat(crc, v.plan[s], ps);
    }
  }

  lemma SealEvolves(crc: Checksum, v: View, w: View, b: u64)
    requires Sound(crc, v) && w == v.(current := b)
    requires v.damaged || v.current < b
    requires !v.damaged && v.current in v.files ==>
               v.current in v.plan && v.files[v.current] == Content(crc, v.plan[v.current])
    ensures Evolves(crc, v, w)
  {
    hide Content, FileSound, FileKept;
    if !v.damaged {
      forall t | t in v.files
        ensures FileSound(crc, w, t) && FileKept(v, w, t)
      {
        assert FileSound(crc, v, t);
        SealedFileSound(crc, v, w, t);
      }
    }
  }

  lemma SealedFileSound(crc: Checksum, v: View, w: View, t: u64)
    requires FileSound(crc, v, t) && w == v.(current := w.current) && v.current < w.current
    requires t == v.current ==> t in v.plan && v.files[t] == Content(crc, v.plan[t])
    ensures FileSound(crc, w, t) && FileKept(v, w, t)
  {
    hide Content;
  }

  lemma RewriteSound(crc: Checksum, v: View, s: u64, data: seq<byte>, ps: seq<Payload>)
    requires Sound(crc, v) && s in v.files && (v.damaged || data == Content(crc, ps))
    ensures Sound(crc, v.(files := v.files[s := data], plan := v.plan[s := ps]))
  {
    hide Content;
    if !v.damaged {
      assert forall t | t in v.files :: FileSound(crc, v, t);
    }
  }
}
