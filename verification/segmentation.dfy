/** In-place header passes, timestamp shifting and re-segmentation (src/modify/algorithms/common.*). */
module Segmentation {
  import opened Base
  import opened Serial
  import opened Packets
  import opened Checksum
  import opened Reassembly
  import opened Splitting

  // ----- scanning TCP options -----

  datatype Scan = Found(at: nat) | Absent | Malformed | Stuck

  /** The walk both option parsers make: single-byte no-ops are skipped, other options name
      their own length. A zero length never advances. */
  function ScanOption(o: seq<byte>, kind: byte, at: nat): (scan: Scan)
    requires at <= |o|
    ensures scan.Found? ==> at <= scan.at && scan.at + 2 <= |o| && o[scan.at] == kind
    decreases |o| - at
  {
    if at == |o| then Absent
    else if |o| - at < 2 then Malformed
    else if o[at] == 1 then ScanOption(o, kind, at + 1)
    else if o[at] == kind then Found(at)
    else if |o| - at < o[at + 1] then Malformed
    else if o[at + 1] == 0 then Stuck
    else ScanOption(o, kind, at + o[at + 1])
  }

  const TS_OPT_KIND: byte := 8
  const TS_OPT_SIZE: byte := 10

  function Splice(o: seq<byte>, at: nat, w: seq<byte>): (r: seq<byte>)
    requires at + |w| <= |o|
    ensures |r| == |o|
  {
    o[..at] + w + o[at + |w|..]
  }

  /** The last n bytes of a number, most significant first. */
  function BigEndian(v: nat, n: nat): (w: seq<byte>)
    ensures |w| == n
  {
    if n == 0 then [] else BigEndian(v / 0x100, n - 1) + [v % 0x100]
  }

  /** The four bytes of a 32-bit field. */
  function FieldOf(v: u32): (w: seq<byte>)
    ensures |w| == 4
  {
    BigEndian(v, 4)
  }

  /** The 32-bit field at `at`, moved by `offset` modulo 2^32. */
  function ShiftField(o: seq<byte>, at: nat, offset: int): (r: seq<byte>)
    requires at + 4 <= |o|
    ensures |r| == |o|
  {
    Splice(o, at, FieldOf(Wrap(ReadBe32(o, at) + offset)))
  }

  /** `timestamp_val_offset`: moves both halves of the timestamp option, if there is one. */
  function ShiftTimestamp(o: Options, offset: int): Outcome<Options> {
    match ScanOption(o, TS_OPT_KIND, 0)
    case Absent => Done(o)
    case Malformed => Done(o)
    case Stuck => Fault
    case Found(at) =>
      if o[at + 1] != TS_OPT_SIZE then Done(o)
      else if |o| < at + 10 then Fault
      else Done(ShiftField(ShiftField(o, at + 2, offset), at + 6, offset))
  }

  method TimestampValOffset(o: Options, offset: int) returns (r: Options)
    requires ShiftTimestamp(o, offset).Done?
    ensures r == ShiftTimestamp(o, offset).value
  {
    hide ShiftField;
    var at := 0;
    while at < |o|
      invariant at <= |o|
      invariant ScanOption(o, TS_OPT_KIND, 0) == ScanOption(o, TS_OPT_KIND, at)
    {
      if |o| - at < 2 {
        return o;
      }
      var kind := o[at];
      if kind == 1 {
        at := at + 1;
        continue;
      }
      var size := o[at + 1];
      if kind != TS_OPT_KIND {
        if |o| - at < size {
          return o;
        }
        at := at + size;
        continue;
      }
      if size != TS_OPT_SIZE {
        return o;
      }
      var moved := ShiftField(o, at + 2, offset);
      return ShiftField(moved, at + 6, offset);
    }
    return o;
  }

  lemma {:induction false} FourBytes(v: nat)
    ensures BigEndian(v, 4) == [v / 0x100 / 0x100 / 0x100 % 0x100, v / 0x100 / 0x100 % 0x100, v / 0x100 % 0x100, v % 0x100]
  {
    var a, b, c := v / 0x100, v / 0x100 / 0x100, v / 0x100 / 0x100 / 0x100;
    assert BigEndian(c, 1) == [c % 0x100];
    assert BigEndian(b, 2) == BigEndian(c, 1) + [b % 0x100];
    assert BigEndian(a, 3) == BigEndian(b, 2) + [a % 0x100];
  }

  lemma {:induction false} DigitsOf(v: u32)
    ensures Quad(Word(v / 0x100 / 0x100 / 0x100 % 0x100, v / 0x100 / 0x100 % 0x100), Word(v / 0x100 % 0x100, v % 0x100)) == v
  {
  }

  lemma {:induction false} FieldValue(v: u32)
    ensures ReadBe32(FieldOf(v), 0) == v
  {
    FourBytes(v);
    DigitsOf(v);
    hide BigEndian; hide Quad; hide Word;
  }

  lemma {:induction false} LastDigit(a: nat, b: byte)
    ensures (a * 0x100 + b) / 0x100 == a && (a * 0x100 + b) % 0x100 == b
  {
  }

  /** A number is the only one with its bytes. */
  lemma {:induction false} DigitsBack(b3: byte, b2: byte, b1: byte, b0: byte)
    ensures var v := Quad(Word(b3, b2), Word(b1, b0));
      v / 0x100 / 0x100 / 0x100 % 0x100 == b3 && v / 0x100 / 0x100 % 0x100 == b2 && v / 0x100 % 0x100 == b1 && v % 0x100 == b0
  {
    LastDigit((b3 * 0x100 + b2) * 0x100 + b1, b0);
    LastDigit(b3 * 0x100 + b2, b1);
    LastDigit(b3, b2);
    assert Quad(Word(b3, b2), Word(b1, b0)) == ((b3 * 0x100 + b2) * 0x100 + b1) * 0x100 + b0;
  }

  lemma {:induction false} ReadField(o: seq<byte>, at: nat, v: u32)
    requires at + 4 <= |o|
    ensures ReadBe32(Splice(o, at, FieldOf(v)), at) == v
  {
    hide FieldOf; hide ReadBe32;
    FieldValue(v);
    SameField(Splice(o, at, FieldOf(v)), at, FieldOf(v), 0);
  }

  lemma {:induction false} FieldBytes(o: seq<byte>, at: nat)
    requires at + 4 <= |o|
    ensures FieldOf(ReadBe32(o, at)) == o[at..at + 4]
  {
    FourBytes(ReadBe32(o, at));
    DigitsBack(o[at], o[at + 1], o[at + 2], o[at + 3]);
    hide BigEndian; hide Quad; hide Word;
  }

  lemma {:induction false} SameField(a: seq<byte>, i: nat, b: seq<byte>, j: nat)
    requires i + 4 <= |a| && j + 4 <= |b| && a[i..i + 4] == b[j..j + 4]
    ensures ReadBe32(a, i) == ReadBe32(b, j)
  {
    assert a[i] == a[i..i + 4][0] && a[i + 1] == a[i..i + 4][1] && a[i + 2] == a[i..i + 4][2] && a[i + 3] == a[i..i + 4][3];
    assert b[j] == b[j..j + 4][0] && b[j + 1] == b[j..j + 4][1] && b[j + 2] == b[j..j + 4][2] && b[j + 3] == b[j..j + 4][3];
  }

  lemma {:induction false} SpliceBack(o: seq<byte>, at: nat, w: seq<byte>)
    requires at + |w| <= |o|
    ensures Splice(Splice(o, at, w), at, o[at..at + |w|]) == o
  {
  }

  lemma {:induction false} SplicesCommute(o: seq<byte>, a: nat, b: nat, wa: seq<byte>, wb: seq<byte>)
    requires a + |wa| <= b && b + |wb| <= |o|
    ensures Splice(Splice(o, a, wa), b, wb) == Splice(Splice(o, b, wb), a, wa)
  {
    assert Splice(Splice(o, a, wa), b, wb) == o[..a] + wa + o[a + |wa|..b] + wb + o[b + |wb|..];
  }

  /** Fields outside the spliced range read as before. */
  lemma {:induction false} SpliceElsewhere(o: seq<byte>, at: nat, w: seq<byte>, i: nat)
    requires at + |w| <= |o| && i + 4 <= |o| && (i + 4 <= at || at + |w| <= i)
    ensures ReadBe32(Splice(o, at, w), i) == ReadBe32(o, i)
  {
    assert Splice(o, at, w)[i..i + 4] == o[i..i + 4];
    SameField(Splice(o, at, w), i, o, i);
  }

  lemma {:induction false} WrapBack(v: u32, offset: int)
    ensures Wrap(Wrap(v + offset) + -offset) == v
  {
    WrapSum(v + offset, -offset);
  }

  /** Moving a field there and back restores every byte. */
  lemma {:induction false} ShiftFieldUndo(o: seq<byte>, at: nat, offset: int)
    requires at + 4 <= |o|
    ensures ShiftField(ShiftField(o, at, offset), at, -offset) == o
  {
    hide FieldOf;
    hide ReadBe32;
    hide Splice;
    hide Wrap;
    var v := ReadBe32(o, at);
    ReadField(o, at, Wrap(v + offset));
    WrapBack(v, offset);
    FieldBytes(o, at);
    SpliceBack(o, at, FieldOf(Wrap(v + offset)));
  }

  lemma {:induction false} ShiftFieldsCommute(o: seq<byte>, a: nat, b: nat, da: int, db: int)
    requires a + 4 <= b && b + 4 <= |o|
    ensures ShiftField(ShiftField(o, a, da), b, db) == ShiftField(ShiftField(o, b, db), a, da)
  {
    hide FieldOf;
    hide ReadBe32;
    hide Splice;
    hide Wrap;
    var wa, wb := FieldOf(Wrap(ReadBe32(o, a) + da)), FieldOf(Wrap(ReadBe32(o, b) + db));
    SpliceElsewhere(o, a, wa, b);
    SpliceElsewhere(o, b, wb, a);
    SplicesCommute(o, a, b, wa, wb);
  }

  /** The scan reads no byte of the value it finds. */
  lemma {:induction false} ScanStable(o: seq<byte>, r: seq<byte>, kind: byte, at: nat, q: nat)
    requires |r| == |o| && at <= |o| && ScanOption(o, kind, at) == Found(q)
    requires q + 2 <= |o| && r[..q + 2] == o[..q + 2]
    ensures ScanOption(r, kind, at) == Found(q)
    decreases |o| - at
  {
    assert forall i :: 0 <= i < q + 2 ==> r[i] == r[..q + 2][i] == o[..q + 2][i] == o[i];
    if o[at] == 1 {
      ScanStable(o, r, kind, at + 1, q);
    } else if o[at] != kind {
      ScanStable(o, r, kind, at + o[at + 1], q);
    }
  }

  /** Only the eight value bytes of the option at `at` differ, and they are moved by `offset`. */
  ghost predicate MovedAt(o: seq<byte>, r: seq<byte>, at: nat, offset: int) {
    && |r| == |o| && at + 10 <= |o|
    && r[..at + 2] == o[..at + 2] && r[at + 10..] == o[at + 10..]
    && ReadBe32(r, at + 2) == Wrap(ReadBe32(o, at + 2) + offset)
    && ReadBe32(r, at + 6) == Wrap(ReadBe32(o, at + 6) + offset)
  }

  lemma {:induction false} SpliceTwo(o: seq<byte>, at: nat, v: seq<byte>, w: seq<byte>)
    requires at + |v| + |w| <= |o|
    ensures var r := Splice(Splice(o, at, v), at + |v|, w);
      r[..at] == o[..at] && r[at + |v| + |w|..] == o[at + |v| + |w|..]
  {
  }

  lemma {:induction false} ShiftTwoFields(o: seq<byte>, at: nat, offset: int)
    requires at + 10 <= |o|
    ensures MovedAt(o, ShiftField(ShiftField(o, at + 2, offset), at + 6, offset), at, offset)
  {
    hide FieldOf;
    hide ReadBe32;
    hide Splice;
    hide Wrap;
    var v, w := Wrap(ReadBe32(o, at + 2) + offset), Wrap(ReadBe32(o, at + 6) + offset);
    var m := Splice(o, at + 2, FieldOf(v));
    ReadField(o, at + 2, v);
    SpliceElsewhere(o, at + 2, FieldOf(v), at + 6);
    ReadField(m, at + 6, w);
    SpliceElsewhere(m, at + 6, FieldOf(w), at + 2);
    SpliceTwo(o, at + 2, FieldOf(v), FieldOf(w));
  }

  /** What one shift changes: nothing, or exactly the eight value bytes of the timestamp option. */
  lemma {:induction false} ShiftTimestampChanges(o: Options, offset: int)
    requires ShiftTimestamp(o, offset).Done?
    ensures var r, scan := ShiftTimestamp(o, offset).value, ScanOption(o, TS_OPT_KIND, 0);
      if scan.Found? && o[scan.at + 1] == TS_OPT_SIZE then MovedAt(o, r, scan.at, offset) else r == o
  {
    hide MovedAt;
    hide ShiftField;
    var scan := ScanOption(o, TS_OPT_KIND, 0);
    if scan.Found? && o[scan.at + 1] == TS_OPT_SIZE {
      ShiftTwoFields(o, scan.at, offset);
    }
  }

  lemma {:induction false} ShiftFieldsUndo(o: seq<byte>, a: nat, b: nat, offset: int)
    requires a + 4 <= b && b + 4 <= |o|
    ensures ShiftField(ShiftField(ShiftField(ShiftField(o, a, offset), b, offset), a, -offset), b, -offset) == o
  {
    hide ShiftField;
    var m := ShiftField(o, a, offset);
    ShiftFieldsCommute(ShiftField(m, b, offset), a, b, -offset, -offset);
    ShiftFieldUndo(m, b, offset);
    ShiftFieldUndo(o, a, offset);
  }

  lemma {:induction false} MovedPrefix(o: seq<byte>, r: seq<byte>, at: nat, offset: int)
    requires MovedAt(o, r, at, offset)
    ensures |r| == |o| && r[..at + 2] == o[..at + 2] && r[at + 1] == o[at + 1]
  {
    hide ReadBe32; hide Wrap;
    assert r[at + 1] == r[..at + 2][at + 1] == o[..at + 2][at + 1];
  }

  /** Shifting by d and then by -d restores every option byte. */
  lemma {:induction false} ShiftTimestampUndo(o: Options, offset: int)
    requires ShiftTimestamp(o, offset).Done?
    ensures ShiftTimestamp(ShiftTimestamp(o, offset).value, -offset) == Done(o)
  {
    hide ShiftField; hide MovedAt; hide ScanOption;
    var scan, r := ScanOption(o, TS_OPT_KIND, 0), ShiftTimestamp(o, offset).value;
    if scan.Found? && o[scan.at + 1] == TS_OPT_SIZE {
      ShiftTwoFields(o, scan.at, offset);
      MovedPrefix(o, r, scan.at, offset);
      ScanStable(o, r, TS_OPT_KIND, 0, scan.at);
      ShiftFieldsUndo(o, scan.at + 2, scan.at + 6, offset);
    }
  }

  // ----- passes over one packet -----

  function SetTtl(p: Packet, ttl: byte): Packet {
    p.(ip := p.ip.(ttl := ttl))
  }

  function Resequence(p: Packet, offset: int): Packet {
    Checksummed(WithSeq(p, Wrap(p.tcp.seqNo + offset)))
  }

  /** `badchecksum`: on a little-endian host `htonl` moves the random byte out of the
      16 bits that the field keeps, so the stored checksum is zero. */
  function Spoil(p: Packet): Packet {
    WithCheck(p, 0)
  }

  function WithOptions(p: Packet, o: Options): Packet {
    p.(tcp := p.tcp.(options := o))
  }

  function Restamp(p: Packet, offset: int): Outcome<Packet> {
    match ShiftTimestamp(p.tcp.options, offset)
    case Fault => Fault
    case Done(o) => Done(Checksummed(WithOptions(p, o)))
  }

  /** Timestamp shifts undo each other on correctly checksummed packets. */
  lemma {:induction false} RestampUndo(p: Packet, offset: int)
    requires Restamp(p, offset).Done? && p == Checksummed(p)
    ensures Restamp(Restamp(p, offset).value, -offset) == Done(p)
  {
    ShiftTimestampUndo(p.tcp.options, offset);
    var q := Restamp(p, offset).value;
    assert WithCheck(WithOptions(q, p.tcp.options), 0) == WithCheck(p, 0);
  }

  /** A spoiled packet passes the receiver's test exactly when its right checksum is a zero. */
  lemma {:induction false} SpoiledVerifiesExactly(p: Packet)
    requires p.Size() <= 0xFFFF
    ensures Verifies(WireBytes(Spoil(p))) <==> TcpChecksum(WithCheck(p, 0)) % 0xFFFF == 0
  {
    hide Verifies; hide WireBytes; hide TcpChecksum;
    VerifiesExactly(p, 0);
  }

  // ----- re-segmentation -----

  /** A chunk carries the headers of the original packet and no verdict duty. */
  function Chunk(orig: Packet, data: seq<byte>, seqNo: u32): Packet {
    var q := CreatePacketFrom(ViewOf(orig), data).(isFake := orig.isFake, action := Send, id := 0);
    Checksummed(WithSeq(q, seqNo))
  }

  function Min(a: nat, b: nat): nat {
    if a < b then a else b
  }

  function Chunks(payload: seq<byte>, mss: nat, orig: Packet, startSeq: u32): seq<Packet>
    requires mss > 0
    decreases |payload|
  {
    if payload == [] then []
    else
      var n := Min(|payload|, mss);
      [Chunk(orig, payload[..n], startSeq)] + Chunks(payload[n..], mss, orig, Wrap(startSeq + n))
  }

  /** The first chunk takes over the verdict duty of the packet it replaces. */
  function TakeOver(chunk: Packet, orig: Packet): Packet {
    if orig.action == Send then chunk.(action := Send) else chunk.(action := DropAndSend, id := orig.id)
  }

  function Segmentize(payload: seq<byte>, mss: nat, orig: Packet, startSeq: u32): seq<Packet>
    requires mss > 0 && payload != []
  {
    var chunks := Chunks(payload, mss, orig, startSeq);
    chunks[0 := TakeOver(chunks[0], orig)]
  }

  method MakeChunk(orig: Packet, data: seq<byte>, seqNo: u32) returns (packet: Packet)
    ensures packet == Chunk(orig, data, seqNo)
  {
    packet := CreatePacketFrom(ViewOf(orig), data);
    packet := packet.(isFake := orig.isFake, action := Send, id := 0);
    packet := CalcPacketChecksum(WithSeq(packet, seqNo));
  }

  method SegmentizePayload(fullPayload: seq<byte>, mss: nat, orig: Packet, startSeq: u32) returns (splitted: seq<Packet>)
    requires mss > 0 && fullPayload != []
    ensures splitted == Segmentize(fullPayload, mss, orig, startSeq)
  {
    hide Chunk; hide Wrap;
    var payload, seqNo := fullPayload, startSeq;
    splitted := [];
    while payload != []
      invariant splitted + Chunks(payload, mss, orig, seqNo) == Chunks(fullPayload, mss, orig, startSeq)
      decreases |payload|
    {
      var chunkSize := if |payload| < mss then |payload| else mss;
      var packet := MakeChunk(orig, payload[..chunkSize], seqNo);
      ghost var rest := Chunks(payload[chunkSize..], mss, orig, Wrap(seqNo + chunkSize));
      assert Chunks(payload, mss, orig, seqNo) == [packet] + rest;
      assert splitted + ([packet] + rest) == splitted + [packet] + rest;
      splitted := splitted + [packet];
      payload := payload[chunkSize..];
      seqNo := Wrap(seqNo + chunkSize);
    }
    if orig.action == Send {
      splitted := splitted[0 := splitted[0].(action := Send)];
    } else {
      splitted := splitted[0 := splitted[0].(action := DropAndSend, id := orig.id)];
    }
  }

  /** The chunk at i: its size, its place in the stream, the headers it shares with the original. */
  ghost predicate ChunkAt(chunks: seq<Packet>, i: nat, mss: nat, orig: Packet, startSeq: u32)
    requires i < |chunks|
  {
    && 0 < |chunks[i].payload| <= mss
    && (i + 1 < |chunks| ==> |chunks[i].payload| == mss)
    && chunks[i].tcp.seqNo == Wrap(startSeq + |Payloads(chunks[..i])|)
    && chunks[i].HeaderLength() == orig.HeaderLength()
    && chunks[i].isFake == orig.isFake
  }

  lemma {:induction false} ChunkFields(orig: Packet, data: seq<byte>, seqNo: u32)
    ensures var c := Chunk(orig, data, seqNo);
      && c.payload == data && c.tcp.seqNo == seqNo && c.isFake == orig.isFake
      && c.action == Send && c.id == 0 && c.HeaderLength() == orig.HeaderLength()
  {
  }

  lemma {:induction false} ChunkAtTail(c: Packet, rest: seq<Packet>, i: nat, mss: nat, orig: Packet, startSeq: u32)
    requires i < |rest| && ChunkAt(rest, i, mss, orig, Wrap(startSeq + |c.payload|))
    ensures ChunkAt([c] + rest, i + 1, mss, orig, startSeq)
  {
    var n := |Payloads(rest[..i])|;
    assert ([c] + rest)[..i + 1] == [c] + rest[..i];
    assert ([c] + rest[..i])[1..] == rest[..i];
    WrapSum(startSeq + |c.payload|, n);
  }

  lemma {:induction false} ChunkAtHead(c: Packet, rest: seq<Packet>, mss: nat, orig: Packet)
    requires 0 < |c.payload| <= mss && (rest != [] ==> |c.payload| == mss)
    requires c.HeaderLength() == orig.HeaderLength() && c.isFake == orig.isFake
    ensures ChunkAt([c] + rest, 0, mss, orig, c.tcp.seqNo)
  {
    assert ([c] + rest)[..0] == [];
    WrapSmall(c.tcp.seqNo);
  }

  ghost predicate NoDuty(c: Packet) {
    c.action == Send && c.id == 0
  }

  lemma {:induction false} ChunksCons(payload: seq<byte>, mss: nat, orig: Packet, startSeq: u32)
    requires mss > 0
    ensures Chunks([], mss, orig, startSeq) == []
    ensures payload != [] ==>
      var n := Min(|payload|, mss);
      Chunks(payload, mss, orig, startSeq) == [Chunk(orig, payload[..n], startSeq)] + Chunks(payload[n..], mss, orig, Wrap(startSeq + n))
  {
    hide Chunk; hide Wrap;
  }

  /** The chunks concatenate to the payload, follow one another, and carry no duty. */
  lemma {:induction false} ChunksPartition(payload: seq<byte>, mss: nat, orig: Packet, startSeq: u32)
    requires mss > 0
    ensures var chunks := Chunks(payload, mss, orig, startSeq);
      && Payloads(chunks) == payload
      && (chunks == [] <==> payload == [])
      && (forall i :: 0 <= i < |chunks| ==> ChunkAt(chunks, i, mss, orig, startSeq))
      && forall i :: 0 <= i < |chunks| ==> NoDuty(chunks[i])
    decreases |payload|
  {
    hide Chunk; hide Wrap; hide Chunks; hide ChunkAt;
    ChunksCons(payload, mss, orig, startSeq);
    if payload == [] {
    } else {
      var n := Min(|payload|, mss);
      var c, rest := Chunk(orig, payload[..n], startSeq), Chunks(payload[n..], mss, orig, Wrap(startSeq + n));
      var chunks := [c] + rest;
      ChunksPartition(payload[n..], mss, orig, Wrap(startSeq + n));
      ChunkFields(orig, payload[..n], startSeq);
      assert Payloads(chunks) == payload by {
        assert payload == payload[..n] + payload[n..];
        assert chunks[1..] == rest;
      }
      hide Payloads;
      assert rest != [] ==> n == mss;
      ChunkAtHead(c, rest, mss, orig);
      forall i | 0 < i < |chunks| ensures ChunkAt(chunks, i, mss, orig, startSeq) {
        ChunkAtTail(c, rest, i - 1, mss, orig, startSeq);
      }
    }
  }

  /** The number of chunks is the length over the maximum size, rounded up. */
  lemma {:induction false} ChunkCount(payload: seq<byte>, mss: nat, orig: Packet, startSeq: u32)
    requires mss > 0
    ensures RoundsUp(|payload|, mss, |Chunks(payload, mss, orig, startSeq)|)
    decreases |payload|
  {
    hide Chunk;
    hide RoundsUp;
    if payload == [] {
      RoundsUpZero(mss);
    } else {
      var n := Min(|payload|, mss);
      ChunkCount(payload[n..], mss, orig, Wrap(startSeq + n));
      RoundsUpStep(|payload|, mss, |Chunks(payload[n..], mss, orig, Wrap(startSeq + n))|);
    }
  }

  ghost predicate RoundsUp(length: nat, mss: nat, count: nat) {
    (count - 1) * mss < length <= count * mss || length == count == 0
  }

  lemma {:induction false} RoundsUpZero(mss: nat)
    ensures RoundsUp(0, mss, 0)
  {
  }

  lemma {:induction false} RoundsUpStep(length: nat, mss: nat, count: nat)
    requires 0 < length && 0 < mss && RoundsUp(length - Min(length, mss), mss, count)
    ensures RoundsUp(length, mss, count + 1)
  {
    assert (count + 1) * mss == count * mss + mss && (count - 1) * mss == count * mss - mss;
  }

  lemma {:induction false} TakeOverFields(chunks: seq<Packet>, orig: Packet)
    requires chunks != []
    ensures var out := chunks[0 := TakeOver(chunks[0], orig)];
      && Payloads(out) == Payloads(chunks)
      && forall i :: 0 <= i < |out| ==> Payloads(out[..i]) == Payloads(chunks[..i])
  {
    var out := chunks[0 := TakeOver(chunks[0], orig)];
    forall i | 0 <= i <= |out| ensures Payloads(out[..i]) == Payloads(chunks[..i]) {
      if i > 0 {
        assert out[..i][1..] == chunks[..i][1..];
      }
    }
    assert out[..|out|] == out && chunks[..|out|] == chunks;
  }

  /** Re-segmentation partitions the payload: chunks of the maximum size but for the last, as many
      as the rounded-up quotient, each starting where the earlier ones end modulo 2^32; only the
      first takes over the id, and only from a packet that owes a verdict. */
  lemma {:induction false} SegmentizePartitions(payload: seq<byte>, mss: nat, orig: Packet, startSeq: u32)
    requires mss > 0 && payload != []
    ensures var out := Segmentize(payload, mss, orig, startSeq);
      && Payloads(out) == payload
      && out != [] && RoundsUp(|payload|, mss, |out|)
      && (forall i :: 0 <= i < |out| ==> ChunkAt(out, i, mss, orig, startSeq))
      && out[0].id == (if orig.action == Send then 0 else orig.id)
      && forall i :: 0 < i < |out| ==> NoDuty(out[i])
  {
    hide Chunks; hide RoundsUp; hide Wrap;
    var chunks := Chunks(payload, mss, orig, startSeq);
    ChunksPartition(payload, mss, orig, startSeq);
    ChunkCount(payload, mss, orig, startSeq);
    TakeOverFields(chunks, orig);
    assert NoDuty(chunks[0]);
    var out := Segmentize(payload, mss, orig, startSeq);
    forall i | 0 <= i < |out| ensures ChunkAt(out, i, mss, orig, startSeq) {
      assert ChunkAt(chunks, i, mss, orig, startSeq);
    }
  }
}
