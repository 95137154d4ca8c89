/** Record framing of the on-disk log: `[u32 LE length][u32 LE checksum of payload][payload]`.

    The checksum (CRC32C in the program) is an arbitrary function of the payload, so every
    statement below holds for every checksum. */
module Framing {

  type byte = x: int | 0 <= x < 0x100
  type u32 = x: int | 0 <= x < 0x1_0000_0000

  /** The checksum written in front of each payload. */
  type Checksum = seq<byte> -> u32

  const RECORD_HEADER: nat := 8
  const MAX_PAYLOAD: nat := 256 * 1024

  /** What `append` accepts: neither empty nor over the limit. */
  type Payload = p: seq<byte> | 1 <= |p| <= MAX_PAYLOAD witness [0]

  function FromLe32(b: seq<byte>): u32
    requires |b| == 4
  {
    b[0] as int + 0x100 * (b[1] as int + 0x100 * (b[2] as int + 0x100 * b[3] as int))
  }

  function ToLe32(x: u32): (b: seq<byte>)
    ensures |b| == 4 && FromLe32(b) == x
  {
    var y := x as int / 0x100;
    var z := y / 0x100;
    [x % 0x100, y % 0x100, z % 0x100, z / 0x100]
  }

  /** Every four bytes are the encoding of the number they decode to. */
  lemma ToLe32FromLe32(b: seq<byte>)
    requires |b| == 4
    ensures ToLe32(FromLe32(b)) == b
  {
    var z := b[2] as int + 0x100 * b[3] as int;
    var y := b[1] as int + 0x100 * z;
    assert FromLe32(b) as int / 0x100 == y && y / 0x100 == z;
  }

  /** One framed record. */
  function Frame(crc: Checksum, p: Payload): (f: seq<byte>)
    ensures |f| == RECORD_HEADER + |p|
  {
    ToLe32(|p|) + ToLe32(crc(p)) + p
  }

  /** Framed records, one after the other. */
  function Frames(crc: Checksum, ps: seq<Payload>): seq<byte>
  {
    if ps == [] then [] else Frame(crc, ps[0]) + Frames(crc, ps[1..])
  }

  lemma FramesOfNone(crc: Checksum)
    ensures Frames(crc, []) == []
  {
  }

  lemma {:induction false} FramesConcat(crc: Checksum, a: seq<Payload>, b: seq<Payload>)
    ensures Frames(crc, a + b) == Frames(crc, a) + Frames(crc, b)
  {
    if a == [] {
      assert a + b == b;
    } else {
      assert (a + b)[1..] == a[1..] + b;
      FramesConcat(crc, a[1..], b);
    }
  }

  /** What sits at an offset of a segment. */
  datatype FrameAt =
    | Record(payloadStart: nat, next: nat)
    | Incomplete
    | Invalid

  function Parse(crc: Checksum, data: seq<byte>, at: nat): FrameAt
  {
    if |data| < at + RECORD_HEADER then Incomplete
    else
      var len := FromLe32(data[at..at + 4]);
      var sum := FromLe32(data[at + 4..at + 8]);
      var payloadStart := at + RECORD_HEADER;
      if len == 0 || len > MAX_PAYLOAD then Invalid
      else if |data| < payloadStart + len then Incomplete
      else if crc(data[payloadStart..payloadStart + len]) != sum then Invalid
      else Record(payloadStart, payloadStart + len)
  }

  /** More data changes an answer only if it was `Incomplete`; and that is so only while the header or a
      payload of a length that is allowed is cut off. */
  lemma ParseStays(crc: Checksum, data: seq<byte>, at: nat, more: seq<byte>)
    ensures Parse(crc, data, at) != Incomplete ==> Parse(crc, data + more, at) == Parse(crc, data, at)
    ensures Parse(crc, data, at) == Incomplete ==>
              || |data| < at + RECORD_HEADER
              || (var len := FromLe32(data[at..at + 4]); 1 <= len <= MAX_PAYLOAD && |data| < at + RECORD_HEADER + len)
  {
    if |data| >= at + RECORD_HEADER {
      assert (data + more)[at..at + 4] == data[at..at + 4] && (data + more)[at + 4..at + 8] == data[at + 4..at + 8];
      var end := at + RECORD_HEADER + FromLe32(data[at..at + 4]);
      assert |data| >= end ==> (data + more)[at + RECORD_HEADER..end] == data[at + RECORD_HEADER..end];
    }
  }

  /** A frame is parsed as the record it frames, whatever follows it. */
  lemma ParseAccepts(crc: Checksum, data: seq<byte>, at: nat, p: Payload)
    requires at <= |data| && Frame(crc, p) <= data[at..]
    ensures Parse(crc, data, at) == Record(at + RECORD_HEADER, at + RECORD_HEADER + |p|)
    ensures data[at + RECORD_HEADER..at + RECORD_HEADER + |p|] == p
  {
    var f := Frame(crc, p);
    assert data[at..at + |f|] == f;
    assert data[at..at + 4] == f[..4] == ToLe32(|p|);
    assert data[at + 4..at + 8] == f[4..8] == ToLe32(crc(p));
    assert data[at + 8..at + 8 + |p|] == f[8..] == p;
  }

  /** Whatever is parsed as a record is the frame of its payload. */
  lemma ParseSound(crc: Checksum, data: seq<byte>, at: nat)
    requires Parse(crc, data, at).Record?
    ensures var r := Parse(crc, data, at);
            && r.payloadStart == at + RECORD_HEADER < r.next <= |data|
            && r.next - r.payloadStart <= MAX_PAYLOAD
            && data[at..r.next] == Frame(crc, data[r.payloadStart..r.next])
  {
    var r := Parse(crc, data, at);
    ToLe32FromLe32(data[at..at + 4]);
    ToLe32FromLe32(data[at + 4..at + 8]);
    assert data[at..r.next] == data[at..at + 4] + data[at + 4..at + 8] + data[r.payloadStart..r.next];
  }

  /** A frame cut anywhere is neither a record nor invalid: it reads as not written yet. */
  lemma ParseTorn(crc: Checksum, data: seq<byte>, at: nat, p: Payload, cut: nat)
    requires cut < |Frame(crc, p)|
    requires at <= |data| && data[at..] == Frame(crc, p)[..cut]
    ensures Parse(crc, data, at) == Incomplete
  {
    if |data| >= at + RECORD_HEADER {
      assert data[at..at + 4] == data[at..][..4] == Frame(crc, p)[..4] == ToLe32(|p|);
    }
  }

  /** Parsing looks only at the bytes from `at` on. */
  lemma ParseShift(crc: Checksum, data: seq<byte>, at: nat)
    requires at <= |data|
    ensures var r, s := Parse(crc, data, at), Parse(crc, data[at..], 0);
            match s
            case Record(start, next) => r == Record(at + start, at + next)
                && data[at + start..at + next] == data[at..][start..next]
            case Incomplete => r == Incomplete
            case Invalid => r == Invalid
  {
    if |data| >= at + RECORD_HEADER {
      var tail := data[at..];
      assert tail[0..4] == data[at..at + 4];
      assert tail[4..8] == data[at + 4..at + 8];
      var len := FromLe32(tail[0..4]);
      if len <= |tail| - RECORD_HEADER {
        assert tail[8..8 + len] == data[at + 8..at + 8 + len];
      }
    }
  }

  /** The records that lie one after the other from the front of `data`. */
  function Decode(crc: Checksum, data: seq<byte>): seq<Payload>
    decreases |data|
  {
    match Parse(crc, data, 0)
    case Record(start, next) => ParseSound(crc, data, 0); [data[start..next]] + Decode(crc, data[next..])
    case _ => []
  }

  lemma DecodeNothing(crc: Checksum, data: seq<byte>)
    requires !Parse(crc, data, 0).Record? || |data| < RECORD_HEADER
    ensures Decode(crc, data) == []
  {
  }

  lemma DecodeCons(crc: Checksum, p: Payload, rest: seq<byte>)
    ensures Decode(crc, Frame(crc, p) + rest) == [p] + Decode(crc, rest)
  {
    var data := Frame(crc, p) + rest;
    assert data[0..] == data;
    ParseAccepts(crc, data, 0, p);
    assert data[|Frame(crc, p)|..] == rest;
  }

  /** Reading back what was framed gives the same records, whatever follows them. */
  lemma {:induction false} DecodeFrames(crc: Checksum, ps: seq<Payload>, tail: seq<byte>)
    ensures Decode(crc, Frames(crc, ps) + tail) == ps + Decode(crc, tail)
  {
    hide Decode, Parse, Frame;
    if ps == [] {
      assert Frames(crc, ps) + tail == tail;
    } else {
      var rest := Frames(crc, ps[1..]) + tail;
      assert Frames(crc, ps) + tail == Frame(crc, ps[0]) + rest;
      DecodeCons(crc, ps[0], rest);
      DecodeFrames(crc, ps[1..], tail);
    }
  }

  /** How many leading records lie wholly inside the first `n` framed bytes. */
  function WholeRecords(ps: seq<Payload>, n: nat): (k: nat)
    ensures k <= |ps|
  {
    if ps == [] || n < RECORD_HEADER + |ps[0]| then 0
    else 1 + WholeRecords(ps[1..], n - RECORD_HEADER - |ps[0]|)
  }

  /** They are all those that fit, and no more. */
  lemma {:induction false} WholeRecordsFit(crc: Checksum, ps: seq<Payload>, n: nat)
    ensures var k := WholeRecords(ps, n);
            && |Frames(crc, ps[..k])| <= n
            && (k < |ps| ==> |Frames(crc, ps[..k + 1])| > n)
    decreases |ps|
  {
    hide Frame;
    var k := WholeRecords(ps, n);
    if ps != [] {
      assert ps[..1] == [ps[0]] && Frames(crc, [ps[0]]) == Frame(crc, ps[0]) + Frames(crc, []);
      if n >= RECORD_HEADER + |ps[0]| {
        WholeRecordsFit(crc, ps[1..], n - RECORD_HEADER - |ps[0]|);
        assert ps[..k][1..] == ps[1..][..k - 1];
        assert k < |ps| ==> ps[..k + 1][1..] == ps[1..][..k];
      }
    }
  }

  /** Cut at any byte, the framed records read back as exactly those wholly before the cut. */
  lemma {:induction false} DecodeCut(crc: Checksum, ps: seq<Payload>, n: nat)
    requires n <= |Frames(crc, ps)|
    ensures Decode(crc, Frames(crc, ps)[..n]) == ps[..WholeRecords(ps, n)]
    ensures Frames(crc, ps[..WholeRecords(ps, n)]) <= Frames(crc, ps)[..n]
    decreases |ps|
  {
    hide Parse, Frame;
    var data := Frames(crc, ps)[..n];
    assert data[0..] == data;
    if ps == [] {
      DecodeNothing(crc, data);
    } else if n < |Frame(crc, ps[0])| {
      assert data == Frame(crc, ps[0])[..n];
      ParseTorn(crc, data, 0, ps[0], n);
    } else {
      var f := Frame(crc, ps[0]);
      var rest := Frames(crc, ps[1..])[..n - |f|];
      assert data == f + rest;
      DecodeCons(crc, ps[0], rest);
      DecodeCut(crc, ps[1..], n - |f|);
      var k := WholeRecords(ps[1..], n - |f|);
      assert ps[..k + 1] == [ps[0]] + ps[1..][..k];
      assert ps[..k + 1][1..] == ps[1..][..k];
    }
  }

  /** The frames of the decoded records are a prefix of the data: nothing is made up. */
  lemma {:induction false} DecodeSound(crc: Checksum, data: seq<byte>)
    ensures Frames(crc, Decode(crc, data)) <= data
    decreases |data|
  {
    if Parse(crc, data, 0).Record? {
      var r := Parse(crc, data, 0);
      ParseSound(crc, data, 0);
      DecodeSound(crc, data[r.next..]);
      var ps := Decode(crc, data);
      assert ps[1..] == Decode(crc, data[r.next..]);
      assert data == data[0..r.next] + data[r.next..];
    }
  }

  /** The payloads at the given places. */
  function At(data: seq<byte>, places: seq<(nat, nat)>): (ps: seq<seq<byte>>)
    requires forall i :: 0 <= i < |places| ==> places[i].0 <= places[i].1 <= |data|
    ensures |ps| == |places|
    ensures forall i :: 0 <= i < |places| ==> ps[i] == data[places[i].0..places[i].1]
  {
    seq(|places|, i requires 0 <= i < |places| => data[places[i].0..places[i].1])
  }

  /** Finds the records from `start` on, and where they end. */
  method Scan(crc: Checksum, data: seq<byte>, start: nat) returns (validEnd: nat, records: seq<(nat, nat)>)
    ensures forall i :: 0 <= i < |records| ==> records[i].0 <= records[i].1 <= |data|
    ensures var from := if start < |data| then start else |data|;
            && from <= validEnd <= |data|
            && At(data, records) == Decode(crc, data[from..])
            && data[from..validEnd] == Frames(crc, Decode(crc, data[from..]))
    ensures !Parse(crc, data, validEnd).Record?
  {
    hide Parse, Decode, Frames;
    var at := if start < |data| then start else |data|;
    ghost var from := at;
    records := [];
    FramesOfNone(crc);
    while Parse(crc, data, at).Record?
      invariant from <= at <= |data|
      invariant forall i :: 0 <= i < |records| ==> records[i].0 <= records[i].1 <= |data|
      invariant forall i :: 0 <= i < |records| ==> 1 <= records[i].1 - records[i].0 <= MAX_PAYLOAD
      invariant At(data, records) + Decode(crc, data[at..]) == Decode(crc, data[from..])
      invariant data[from..at] == Frames(crc, At(data, records))
      decreases |data| - at
    {
      var frame := Parse(crc, data, at);
      ParseSound(crc, data, at);
      ghost var before := At(data, records);
      records := records + [(frame.payloadStart, frame.next)];
      ScanStep(crc, data, from, at, before);
      assert At(data, records) == before + [data[frame.payloadStart..frame.next]];
      at := frame.next;
    }
    ParseShift(crc, data, at);
    DecodeNothing(crc, data[at..]);
    validEnd := at;
  }

  /** One more record moves from what is left to what was found. */
  lemma ScanStep(crc: Checksum, data: seq<byte>, from: nat, at: nat, found: seq<Payload>)
    requires from <= at <= |data| && Parse(crc, data, at).Record?
    requires data[from..at] == Frames(crc, found)
    ensures var r := Parse(crc, data, at);
            && at < r.next <= |data| && at < r.payloadStart < r.next && r.next - r.payloadStart <= MAX_PAYLOAD
            && Decode(crc, data[at..]) == [data[r.payloadStart..r.next]] + Decode(crc, data[r.next..])
            && data[from..r.next] == Frames(crc, found + [data[r.payloadStart..r.next]])
  {
    hide Parse, Frame, Decode;
    var r := Parse(crc, data, at);
    ParseSound(crc, data, at);
    var p: Payload := data[r.payloadStart..r.next];
    assert data[at..] == Frame(crc, p) + data[r.next..];
    DecodeCons(crc, p, data[r.next..]);
    FramesConcat(crc, found, [p]);
    assert Frames(crc, [p]) == Frame(crc, p) + Frames(crc, []);
    assert data[from..r.next] == data[from..at] + data[at..r.next];
  }
}
