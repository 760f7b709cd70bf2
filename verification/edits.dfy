/** What the passes of one modifier do to a packet, field by field. */
module PacketEdits {
  import opened Base
  import opened Serial
  import opened Packets
  import opened Checksum
  import opened Splitting
  import opened Segmentation
  import opened Modifiers

  /** The packet with the asked edits and no others: TTL, sequence number, timestamp option, and a
      checksum that is zero where it is to be spoiled, right where a number or the option moved, and
      untouched otherwise. */
  ghost predicate Edited(p: Packet, q: Packet, args: Args) {
    && q.(ip := p.ip, tcp := p.tcp) == p
    && q.ip == p.ip.(ttl := if args.ipv4Ttl.Some? then args.ipv4Ttl.value else p.ip.ttl)
    && q.tcp.(options := p.tcp.options, check := p.tcp.check)
       == p.tcp.(seqNo := if args.seqOffset.Some? then Wrap(p.tcp.seqNo + args.seqOffset.value) else p.tcp.seqNo)
    && (if args.tsOffset.Some? then Done(q.tcp.options) == ShiftTimestamp(p.tcp.options, args.tsOffset.value)
        else q.tcp.options == p.tcp.options)
    && (if args.badcksum then q.tcp.check == 0
        else if args.seqOffset.Some? || args.tsOffset.Some? then Checksummed(q) == q
        else q.tcp.check == p.tcp.check)
  }

  /** The selected packets are edited, the others and the order are kept. */
  ghost predicate AllEdited(ps: seq<Packet>, out: seq<Packet>, fakes: bool, args: Args) {
    |out| == |ps| && forall i :: 0 <= i < |ps| ==> if ps[i].isFake == fakes then Edited(ps[i], out[i], args) else out[i] == ps[i]
  }

  const NO_EDITS := Args([], None, false, None, None, None, None, None)

  lemma {:induction false} TtlEdits(ps: seq<Packet>, fakes: bool, ttl: Option<byte>)
    ensures AllEdited(ps, TtlPass(ps, fakes, ttl), fakes, NO_EDITS.(ipv4Ttl := ttl))
  {
    if ttl.Some? {
      PassAt(ps, fakes, TtlSetter(ttl.value));
    }
  }

  lemma {:induction false} SeqEdits(ps: seq<Packet>, fakes: bool, offset: Option<int>)
    ensures AllEdited(ps, SeqPass(ps, fakes, offset), fakes, NO_EDITS.(seqOffset := offset))
  {
    hide TcpChecksum; hide Wrap;
    if offset.Some? {
      PassAt(ps, fakes, Resequencer(offset.value));
      forall i | 0 <= i < |ps| ensures Checksummed(Resequence(ps[i], offset.value)) == Resequence(ps[i], offset.value) {
        ChecksummedTwice(WithSeq(ps[i], Wrap(ps[i].tcp.seqNo + offset.value)));
      }
    }
  }

  lemma {:induction false} ChecksummedTwice(p: Packet)
    ensures Checksummed(Checksummed(p)) == Checksummed(p)
  {
    hide TcpChecksum;
    ChecksummedIdempotent(p, TcpChecksum(WithCheck(p, 0)));
  }

  lemma {:induction false} TsEdits(ps: seq<Packet>, fakes: bool, offset: Option<int>)
    requires TsPass(ps, fakes, offset).Done?
    ensures AllEdited(ps, TsPass(ps, fakes, offset).value, fakes, NO_EDITS.(tsOffset := offset))
  {
    hide TcpChecksum; hide ShiftTimestamp; hide StampPass;
    if offset.Some? {
      var out := TsPass(ps, fakes, offset).value;
      StampPassAt(ps, fakes, offset.value);
      forall i | 0 <= i < |ps|
        ensures if ps[i].isFake == fakes then Edited(ps[i], out[i], NO_EDITS.(tsOffset := offset)) else out[i] == ps[i]
      {
        assert Stamped(ps, out, i, fakes, offset.value);
        if ps[i].isFake == fakes {
          ChecksummedTwice(WithOptions(ps[i], ShiftTimestamp(ps[i].tcp.options, offset.value).value));
        }
      }
    }
  }

  lemma {:induction false} BadEdits(ps: seq<Packet>, fakes: bool, badcksum: bool)
    ensures AllEdited(ps, BadPass(ps, fakes, badcksum), fakes, NO_EDITS.(badcksum := badcksum))
  {
    if badcksum {
      PassAt(ps, fakes, Spoiler());
    }
  }

  // ----- one after the other -----

  lemma {:induction false} SplitterOrder(a: Packet, b: Packet, c: Packet, d: Packet, e: Packet, args: Args)
    requires Edited(a, b, NO_EDITS.(ipv4Ttl := args.ipv4Ttl)) && Edited(b, c, NO_EDITS.(tsOffset := args.tsOffset))
    requires Edited(c, d, NO_EDITS.(seqOffset := args.seqOffset)) && Edited(d, e, NO_EDITS.(badcksum := args.badcksum))
    ensures Edited(a, e, args)
  {
    hide Checksummed; hide ShiftTimestamp; hide Wrap;
  }

  lemma {:induction false} TtlOutside(p: Packet, q: Packet)
    requires Checksummed(p) == p && q == p.(ip := p.ip.(ttl := q.ip.ttl))
    ensures Checksummed(q) == q
  {
    assert PseudoHeaderOf(WithCheck(q, 0)) == PseudoHeaderOf(WithCheck(p, 0));
  }

  lemma {:induction false} DisorderOrder(a: Packet, b: Packet, c: Packet, d: Packet, e: Packet, f: Packet, args: Args)
    requires Edited(a, b, NO_EDITS.(seqOffset := args.seqOffset)) && Edited(b, c, NO_EDITS.(tsOffset := args.tsOffset))
    requires Edited(c, d, NO_EDITS.(ipv4Ttl := args.ipv4Ttl)) && Edited(d, e, NO_EDITS.(badcksum := args.badcksum))
    requires Edited(e, f, NO_EDITS.(badcksum := args.badcksum))
    ensures Edited(a, f, args)
  {
    hide Checksummed; hide ShiftTimestamp; hide Wrap;
    if Checksummed(c) == c {
      TtlOutside(c, d);
    }
  }

  lemma {:induction false} SplitterEdits(ps: seq<Packet>, fakes: bool, args: Args)
    requires TsPass(TtlPass(ps, fakes, args.ipv4Ttl), fakes, args.tsOffset).Done?
    ensures var timed := TsPass(TtlPass(ps, fakes, args.ipv4Ttl), fakes, args.tsOffset).value;
      AllEdited(ps, BadPass(SeqPass(timed, fakes, args.seqOffset), fakes, args.badcksum), fakes, args)
  {
    hide Edited; hide TtlPass; hide TsPass; hide SeqPass; hide BadPass;
    var lived := TtlPass(ps, fakes, args.ipv4Ttl);
    var timed := TsPass(lived, fakes, args.tsOffset).value;
    var moved := SeqPass(timed, fakes, args.seqOffset);
    var out := BadPass(moved, fakes, args.badcksum);
    TtlEdits(ps, fakes, args.ipv4Ttl);
    TsEdits(lived, fakes, args.tsOffset);
    SeqEdits(timed, fakes, args.seqOffset);
    BadEdits(moved, fakes, args.badcksum);
    forall i | 0 <= i < |ps| ensures if ps[i].isFake == fakes then Edited(ps[i], out[i], args) else out[i] == ps[i] {
      if ps[i].isFake == fakes {
        SameKind(ps[i], lived[i], NO_EDITS.(ipv4Ttl := args.ipv4Ttl));
        SameKind(lived[i], timed[i], NO_EDITS.(tsOffset := args.tsOffset));
        SameKind(timed[i], moved[i], NO_EDITS.(seqOffset := args.seqOffset));
        SplitterOrder(ps[i], lived[i], timed[i], moved[i], out[i], args);
      }
    }
  }

  lemma {:induction false} SameKind(p: Packet, q: Packet, args: Args)
    requires Edited(p, q, args)
    ensures q.isFake == p.isFake
  {
    hide Checksummed; hide ShiftTimestamp; hide Wrap;
  }

  lemma {:induction false} DisorderEdits(ps: seq<Packet>, fakes: bool, args: Args)
    requires TsPass(SeqPass(ps, fakes, args.seqOffset), fakes, args.tsOffset).Done?
    ensures var timed := TsPass(SeqPass(ps, fakes, args.seqOffset), fakes, args.tsOffset).value;
      var spoiled := BadPass(TtlPass(timed, fakes, args.ipv4Ttl), fakes, args.badcksum);
      AllEdited(ps, spoiled, fakes, args) && AllEdited(ps, BadPass(spoiled, fakes, args.badcksum), fakes, args)
  {
    hide Edited; hide TtlPass; hide TsPass; hide SeqPass; hide BadPass;
    var moved := SeqPass(ps, fakes, args.seqOffset);
    var timed := TsPass(moved, fakes, args.tsOffset).value;
    var lived := TtlPass(timed, fakes, args.ipv4Ttl);
    var once := BadPass(lived, fakes, args.badcksum);
    var out := BadPass(once, fakes, args.badcksum);
    SeqEdits(ps, fakes, args.seqOffset);
    TsEdits(moved, fakes, args.tsOffset);
    TtlEdits(timed, fakes, args.ipv4Ttl);
    BadEdits(lived, fakes, args.badcksum);
    BadEdits(once, fakes, args.badcksum);
    forall i | 0 <= i < |ps|
      ensures if ps[i].isFake == fakes then Edited(ps[i], once[i], args) && Edited(ps[i], out[i], args) else once[i] == out[i] == ps[i]
    {
      if ps[i].isFake == fakes {
        SameKind(ps[i], moved[i], NO_EDITS.(seqOffset := args.seqOffset));
        SameKind(moved[i], timed[i], NO_EDITS.(tsOffset := args.tsOffset));
        SameKind(timed[i], lived[i], NO_EDITS.(ipv4Ttl := args.ipv4Ttl));
        SameKind(lived[i], once[i], NO_EDITS.(badcksum := args.badcksum));
        DisorderOrder(ps[i], moved[i], timed[i], lived[i], once[i], out[i], args);
        OnceIsEnough(lived[i], once[i], args.badcksum);
        DisorderOrder(ps[i], moved[i], timed[i], lived[i], lived[i].(tcp := once[i].tcp), once[i], args);
      }
    }
  }

  lemma {:induction false} OnceIsEnough(p: Packet, q: Packet, badcksum: bool)
    requires Edited(p, q, NO_EDITS.(badcksum := badcksum))
    ensures p.(tcp := q.tcp) == q && Edited(q, q, NO_EDITS.(badcksum := badcksum))
  {
    hide Checksummed; hide ShiftTimestamp; hide Wrap;
  }

  /** The originals of a modifier without overlap: cut, then edited as asked; the fakes stay. */
  lemma {:induction false} OriginalsEdited(m: Mod, ps: seq<Packet>, ctx: Context)
    requires if m.Splitter? then SplitterOriginals(ps, m.args, None, ctx).Done? else DisorderOriginals(ps, m.args, None, ctx).Done?
    ensures SplitAll(ps, m.args.splits, ctx).Done?
    ensures var cut := SplitAll(ps, m.args.splits, ctx).value;
      && (m.Splitter? ==> AllEdited(cut, SplitterOriginals(ps, m.args, None, ctx).value, false, m.args))
      && (m.Disorder? ==> AllEdited(cut, DisorderOriginals(ps, m.args, None, ctx).value, false, m.args))
  {
    hide AllEdited; hide SplitAll; hide TtlPass; hide TsPass; hide SeqPass; hide BadPass;
    var cut := SplitAll(ps, m.args.splits, ctx).value;
    if m.Splitter? {
      SplitterEdits(cut, false, m.args);
    } else {
      DisorderEdits(cut, false, m.args);
    }
  }

  /** A decoy: the blob behind the front packet's headers, edited as asked, sent without an id. */
  lemma {:induction false} DecoyEdited(m: Mod, front: Packet, blob: seq<byte>)
    requires if m.Splitter? then SplitterFakes([FakePacket(front, blob)], m.args).Done? else DisorderFakes([FakePacket(front, blob)], m.args).Done?
    ensures var decoys := if m.Splitter? then SplitterFakes([FakePacket(front, blob)], m.args).value else DisorderFakes([FakePacket(front, blob)], m.args).value;
      |decoys| == 1 && Edited(FakePacket(front, blob), decoys[0], m.args)
    ensures var d := FakePacket(front, blob);
      d.payload == blob && d.isFake && d.action == Send && d.id == 0 && d.tcp.seqNo == front.tcp.seqNo && Checksummed(d) == d
  {
    FreshDecoy(front, blob);
    hide FakePacket; hide Edited; hide TtlPass; hide TsPass; hide SeqPass; hide BadPass; hide Checksummed;
    var fakes := [FakePacket(front, blob)];
    if m.Splitter? {
      SplitterEdits(fakes, true, m.args);
    } else {
      DisorderEdits(fakes, true, m.args);
    }
  }

  lemma {:induction false} FreshDecoy(front: Packet, blob: seq<byte>)
    ensures var d := FakePacket(front, blob);
      d.payload == blob && d.isFake && d.action == Send && d.id == 0 && d.tcp.seqNo == front.tcp.seqNo && Checksummed(d) == d
  {
    hide TcpChecksum; hide Narrow;
    ChecksummedTwice(CreatePacketFrom(ViewOf(front), blob).(action := Send, id := 0, isFake := true));
  }
}
