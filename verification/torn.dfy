/** A short run after which what leaves the host is no longer the stream. */
module Torn {
  import opened Base
  import opened Serial
  import opened Packets
  import opened Reassembly
  import opened Splitting
  import opened Segmentation
  import opened Markers
  import opened Modifiers
  import opened StreamKept
  import opened Verdicts
  import opened Delivery
  import opened Samples
  import Tiling

  const TWO_PACKETS: seq<Packet> := [Captive(1, 0, [97, 98]), Captive(2, 2, [99])]

  const SHIFTING := Args([Position(Other, NoOperation, 1)], None, false, Some(5), None, None, None, None)

  const SHIFTING_CONFIG := Config([Splitter(SHIFTING, None)], None, None)

  /** The first packet split after one byte. */
  lemma {:induction false} FirstIsSplit(ctx: Context)
    requires ctx.proto == L7Proto.Unknown
    ensures SplitAll(TWO_PACKETS, SHIFTING.splits, ctx) == Done(SplitAt(TWO_PACKETS, Place(0, 1)))
  {
    hide SplitAt; hide FindPacketByOffset;
    FindsFirst(TWO_PACKETS);
    assert SplitTarget(SHIFTING.splits[0], ctx) == Some(1);
    assert SHIFTING.splits[1..] == [];
  }

  lemma {:induction false} FindsFirst(ps: seq<Packet>)
    requires |ps| == 2 && ps[0].tcp.seqNo == 0 && |ps[0].payload| == 2 && ps[1].tcp.seqNo == 2 && |ps[1].payload| == 1
    ensures FindPacketByOffset(ps, 1) == Some(Place(0, 1))
  {
    var stream := ps[0].payload + ps[1].payload;
    forall i | 0 <= i < 2 ensures SliceOf(SegmentOf(ps[i]), stream, 0) {
    }
    forall k | 0 <= k < |stream| ensures Tiling.Occupied(ps, k, 0) {
      assert Tiling.Holds(ps, if k < 2 then 0 else 1, k, 0);
    }
    Tiling.FindIsHolder(ps, 1, stream, 0);
  }

  lemma {:induction false} ResequenceFields(p: Packet, offset: int)
    ensures var q := Resequence(p, offset);
      q.action == p.action && q.id == p.id && q.isFake == p.isFake && SegmentOf(q) == Segment(Wrap(p.tcp.seqNo + offset), p.payload)
  {
    hide Resequence; hide Wrap;
    ResequenceMoves(p, offset);
  }

  /** The first packet in two halves, the second as it was. */
  lemma {:induction false} SplitPair() returns (a: Packet, b: Packet)
    ensures SplitAt(TWO_PACKETS, Place(0, 1)) == [a, b, TWO_PACKETS[1]]
    ensures !a.isFake && !b.isFake && a.action != Accept && b.action != Accept && a.action != Drop && b.action != Drop
    ensures SegmentOf(a) == Segment(0, [97]) && SegmentOf(b) == Segment(1, [98])
  {
    hide FirstPart; hide SecondPart;
    var p := TWO_PACKETS[0];
    a, b := FirstPart(p, 1), SecondPart(p, 1);
    SplitSegment(p, 1);
    HalvesStand(p, 1);
    assert [a, b][0] == a && [a, b][1] == b;
    assert p.payload[..1] == [97] && p.payload[1..] == [98];
    assert TWO_PACKETS[..0] == [] && TWO_PACKETS[1..] == [TWO_PACKETS[1]];
  }

  /** On the wire the second packet keeps the number 2 while the first starts at 5: the stream that
      arrives ends after one byte. */
  lemma {:induction false} MovedNumbersTearTheStream()
    ensures Modify(SHIFTING_CONFIG, TWO_PACKETS, L7Proto.Unknown, 536).Done?
    ensures Reassemble(OriginalSegments(OnWire(TWO_PACKETS, Modify(SHIFTING_CONFIG, TWO_PACKETS, L7Proto.Unknown, 536).value)))
         != Reassemble(OriginalSegments(TWO_PACKETS))
  {
    hide Modify; hide Resequence; hide Reassemble; hide OriginalSegments;
    var a, b := SplitPair();
    hide SplitAt;
    var c := TWO_PACKETS[1];
    ShiftingRuns(a, b, c);
    ResequenceFields(a, 5);
    ResequenceFields(b, 5);
    ResequenceFields(c, 5);
    assert Wrap(0 + 5) == 5 && Wrap(1 + 5) == 6;
    assert Captured(TWO_PACKETS, 2) == Some(c);
    hide Captured; hide Wrap;
    var out := [Resequence(a, 5), Resequence(b, 5), Resequence(c, 5)];
    ThreeLeave(TWO_PACKETS, out[0], out[1], out[2], c);
    TornShort(OnWire(TWO_PACKETS, out));
    WholeThree();
  }

  lemma {:induction false} ThreeLeave(ps: seq<Packet>, a: Packet, b: Packet, c: Packet, was: Packet)
    requires a.action != Accept && a.action != Drop && b.action != Accept && b.action != Drop
    requires c.action == Accept && Captured(ps, c.id) == Some(was)
    ensures OnWire(ps, [a, b, c]) == [a, b, was]
  {
    hide Captured;
    assert [a, b, c][1..] == [b, c] && [b, c][1..] == [c] && [c][1..] == [];
    assert OnWire(ps, [c]) == [was];
    assert OnWire(ps, [b, c]) == [b, was];
  }

  lemma {:induction false} ShiftingRuns(a: Packet, b: Packet, c: Packet)
    requires SplitAt(TWO_PACKETS, Place(0, 1)) == [a, b, c] && !a.isFake && !b.isFake && !c.isFake
    ensures Modify(SHIFTING_CONFIG, TWO_PACKETS, L7Proto.Unknown, 536)
         == Done([Resequence(a, 5), Resequence(b, 5), Resequence(c, 5)])
  {
    hide Reassemble; hide OriginalSegments; hide SplitAt; hide Resequence; hide SplitAll;
    var ctx, out := Context(NO_MARKS, L7Proto.Unknown, 536), [Resequence(a, 5), Resequence(b, 5), Resequence(c, 5)];
    FirstIsSplit(ctx);
    assert SplitterOriginals(TWO_PACKETS, SHIFTING, None, ctx) == Done(out) by {
      PassAt([a, b, c], false, Resequencer(5));
      assert Pass([a, b, c], false, Resequencer(5)) == out;
    }
    hide SplitterOriginals; hide Pass;
    assert ModifyOne(Splitter(SHIFTING, None), TWO_PACKETS, ctx) == Done(out);
    hide ModifyOne;
    assert ModifyAll([], out, ctx) == Done(out);
    assert SHIFTING_CONFIG.mods == [Splitter(SHIFTING, None)] && SHIFTING_CONFIG.mods[1..] == [];
    assert ModifyAll(SHIFTING_CONFIG.mods, TWO_PACKETS, ctx) == Done(out);
  }

  lemma {:induction false} TornShort(wire: seq<Packet>)
    requires |wire| == 3 && forall i :: 0 <= i < 3 ==> !wire[i].isFake
    requires SegmentOf(wire[0]) == Segment(5, [97]) && SegmentOf(wire[1]) == Segment(6, [98]) && SegmentOf(wire[2]) == Segment(2, [99])
    ensures |Reassemble(OriginalSegments(wire))| <= 1
  {
    var segs := [Segment(5, [97]), Segment(6, [98]), Segment(2, [99])];
    assert OriginalSegments(wire) == segs by {
      ThreeOriginals(wire);
    }
    hide OriginalSegments; hide Reassemble;
    assert segs[2] in segs;
    LowestUnique(segs, 2, 0, segs[2]);
    ReassembleReach(segs, 2);
    assert !Covered(segs, 1, 2);
  }

  lemma {:induction false} ThreeOriginals(wire: seq<Packet>)
    requires |wire| == 3 && forall i :: 0 <= i < 3 ==> !wire[i].isFake
    ensures OriginalSegments(wire) == [SegmentOf(wire[0]), SegmentOf(wire[1]), SegmentOf(wire[2])]
  {
    assert wire == [wire[0]] + ([wire[1]] + [wire[2]]);
    OriginalSegmentsCons(wire[0], [wire[1]] + [wire[2]]);
    OriginalSegmentsCons(wire[1], [wire[2]]);
    OriginalsOfTwo(wire[2], wire[2]);
  }

  lemma {:induction false} WholeThree()
    ensures |Reassemble(OriginalSegments(TWO_PACKETS))| == 3
  {
    var p, q := TWO_PACKETS[0], TWO_PACKETS[1];
    assert TWO_PACKETS == [p, q] && [p, q][1..] == [q] && [q][1..] == [];
    OriginalsOfTwo(p, q);
    assert Originals(TWO_PACKETS) == TWO_PACKETS by {
      assert Originals([q]) == [q];
    }
    assert Payloads(TWO_PACKETS) == p.payload + q.payload;
    ContiguousReassembles(TWO_PACKETS);
  }
}
