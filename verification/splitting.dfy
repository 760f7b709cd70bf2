/** Locating a stream offset and splitting the packet that holds it (src/modify/algorithms/split.hpp). */
module Splitting {
  import opened Base
  import opened Serial
  import opened Sorting
  import opened Packets
  import opened Checksum
  import opened Reassembly

  /** An iterator and the offset inside its packet. */
  datatype Place = Place(index: nat, offset: nat)

  function Indices(n: nat): seq<nat> {
    seq(n, i => i)
  }

  function BySequence(ps: seq<Packet>): (nat, nat) -> bool {
    (i: nat, j: nat) => i < |ps| && j < |ps| && Before(ps[i].tcp.seqNo, ps[j].tcp.seqNo)
  }

  /** The iterators in the order of their sequence numbers. */
  function SequenceOrder(ps: seq<Packet>): (order: seq<nat>)
    ensures ValidOrder(ps, order)
  {
    SortMembers(Indices(|ps|), BySequence(ps));
    var order := StableSort(Indices(|ps|), BySequence(ps));
    assert forall k :: 0 <= k < |order| ==> order[k] in order;
    order
  }

  ghost predicate ValidOrder(ps: seq<Packet>, order: seq<nat>) {
    forall k :: 0 <= k < |order| ==> order[k] < |ps|
  }

  /** Walks the order, counting payload bytes, to the packet in which the count passes `pos`. */
  function Locate(ps: seq<Packet>, order: seq<nat>, pos: nat, acc: nat): (found: Option<Place>)
    requires acc <= pos && ValidOrder(ps, order)
    ensures found.Some? ==> found.value.index < |ps| && found.value.offset < |ps[found.value.index].payload|
  {
    if order == [] then None
    else
      var i := order[0];
      var size := |ps[i].payload|;
      if pos < acc + size then Some(Place(i, pos - acc))
      else Locate(ps, order[1..], pos, acc + size)
  }

  function FindPacketByOffset(ps: seq<Packet>, pos: nat): (found: Option<Place>)
    ensures found.Some? ==> found.value.index < |ps| && found.value.offset < |ps[found.value.index].payload|
  {
    Locate(ps, SequenceOrder(ps), pos, 0)
  }

  method FindPacket(ps: seq<Packet>, pos: nat) returns (found: Option<Place>)
    ensures found == FindPacketByOffset(ps, pos)
  {
    var order := SequenceOrder(ps);
    var acc := 0;
    for n := 0 to |order|
      invariant 0 <= acc <= pos
      invariant FindPacketByOffset(ps, pos) == Locate(ps, order[n..], pos, acc)
    {
      var size := |ps[order[n]].payload|;
      if pos < acc + size {
        return Some(Place(order[n], pos - acc));
      }
      acc := acc + size;
    }
    return None;
  }

  // ----- splitting one packet -----

  function WithSeq(p: Packet, seqNo: u32): Packet {
    p.(tcp := p.tcp.(seqNo := seqNo))
  }

  /** The part before the cut keeps the verdict duty; an accepted packet becomes drop-and-send. */
  function FirstPart(p: Packet, at: nat): Packet
    requires at <= |p.payload|
  {
    Checksummed(p.(payload := p.payload[..at],
                   action := if p.action == Accept then DropAndSend else p.action,
                   ip := p.ip.(totLen := Narrow(p.HeaderLength() + Narrow(at)))))
  }

  function SecondPart(p: Packet, at: nat): Packet
    requires at <= |p.payload|
  {
    var q := CreatePacketFrom(ViewOf(p), p.payload[at..]).(isFake := p.isFake, action := Send, id := 0);
    Checksummed(WithSeq(q, Wrap(q.tcp.seqNo + Wrap(at))))
  }

  function SplitAt(ps: seq<Packet>, at: Place): seq<Packet>
    requires at.index < |ps| && at.offset <= |ps[at.index].payload|
  {
    ps[..at.index] + [FirstPart(ps[at.index], at.offset), SecondPart(ps[at.index], at.offset)] + ps[at.index + 1..]
  }

  method MakeSecond(pkt: Packet, at: nat) returns (second: Packet)
    requires at <= |pkt.payload|
    ensures second == SecondPart(pkt, at)
  {
    second := CreatePacketFrom(ViewOf(pkt), pkt.payload[at..]);
    second := second.(isFake := pkt.isFake, action := Send, id := 0);
    second := WithSeq(second, Wrap(second.tcp.seqNo + Wrap(at)));
    second := CalcPacketChecksum(second);
  }

  method ShrinkFirst(pkt: Packet, at: nat) returns (first: Packet)
    requires at <= |pkt.payload|
    ensures first == FirstPart(pkt, at)
  {
    first := pkt.(payload := pkt.payload[..at]);
    if first.action == Accept {
      first := first.(action := DropAndSend);
    }
    first := first.(ip := first.ip.(totLen := Narrow(first.HeaderLength() + Narrow(|first.payload|))));
    first := CalcPacketChecksum(first);
  }

  /** `split_and_insert_packets_tcp`: shrinks the packet in place and inserts the rest after it. */
  method SplitAndInsert(packets: PacketVector, at: Place)
    requires at.index < |packets.items| && at.offset <= |packets.items[at.index].payload|
    modifies packets
    ensures packets.items == SplitAt(old(packets.items), at)
  {
    var pkt := packets.items[at.index];
    var second := MakeSecond(pkt, at.offset);
    pkt := ShrinkFirst(pkt, at.offset);
    packets.items := packets.items[at.index := pkt];
    packets.items := packets.items[..at.index + 1] + [second] + packets.items[at.index + 1..];
  }

  // ----- a split keeps the stream -----

  lemma {:induction false} SplitSegment(p: Packet, at: nat)
    requires at <= |p.payload|
    ensures SegmentOf(FirstPart(p, at)) == Segment(p.tcp.seqNo, p.payload[..at])
    ensures SegmentOf(SecondPart(p, at)) == Segment(Wrap(p.tcp.seqNo + at), p.payload[at..])
    ensures FirstPart(p, at).isFake == SecondPart(p, at).isFake == p.isFake
  {
    hide TcpChecksum;
    WrapAdd(p.tcp.seqNo, at);
  }

  /** Cutting one slice in two gives two slices that show the same bytes. */
  lemma {:induction false} CutSlice(g: Segment, at: nat, stream: seq<byte>, origin: u32)
    requires at < |g.data| && |stream| <= 0x8000_0000 && SliceOf(g, stream, origin)
    ensures var h := Segment(Wrap(g.seqNo + at), g.data[at..]);
      && SliceOf(Segment(g.seqNo, g.data[..at]), stream, origin)
      && SliceOf(h, stream, origin) && Dist(h.seqNo, origin) == Dist(g.seqNo, origin) + at
      && forall k: int :: Covers(g, k, origin)
           <==> Covers(Segment(g.seqNo, g.data[..at]), k, origin) || Covers(h, k, origin)
  {
    DistAdd(g.seqNo, origin, at);
    var d := Dist(g.seqNo, origin);
    assert stream[d..d + at] == stream[d..d + |g.data|][..at];
    assert stream[d + at..d + |g.data|] == stream[d..d + |g.data|][at..];
  }

  /** Replacing one segment by two that cover the same positions. */
  lemma {:induction false} CutExtent(pre: seq<Segment>, g: Segment, g1: Segment, g2: Segment, post: seq<Segment>, origin: u32)
    requires g1.seqNo == g.seqNo && Dist(g.seqNo, origin) <= Dist(g2.seqNo, origin)
    requires forall k: int :: Covers(g, k, origin) <==> Covers(g1, k, origin) || Covers(g2, k, origin)
    ensures SameExtent(pre + [g] + post, origin, pre + [g1, g2] + post, origin)
  {
    var a, b := pre + [g] + post, pre + [g1, g2] + post;
    assert forall h :: h in a <==> h in pre || h == g || h in post;
    assert forall h :: h in b <==> h in pre || h == g1 || h == g2 || h in post;
    LowestIsMinimum(a, origin);
    LowestIsMinimum(b, origin);
  }

  lemma {:induction false} CutConsistent(pre: seq<Segment>, g: Segment, at: nat, post: seq<Segment>, stream: seq<byte>, origin: u32)
    requires Consistent(pre + [g] + post, stream, origin) && at < |g.data|
    ensures var cut := [Segment(g.seqNo, g.data[..at]), Segment(Wrap(g.seqNo + at), g.data[at..])];
      && Consistent(pre + cut + post, stream, origin)
      && SameExtent(pre + [g] + post, origin, pre + cut + post, origin)
  {
    var g1, g2 := Segment(g.seqNo, g.data[..at]), Segment(Wrap(g.seqNo + at), g.data[at..]);
    assert g in pre + [g] + post;
    CutSlice(g, at, stream, origin);
    CutExtent(pre, g, g1, g2, post, origin);
  }

  /** The segments of the originals around the packet at `i`. */
  lemma {:induction false} OriginalsAround(ps: seq<Packet>, i: nat, mid: seq<Packet>)
    requires i < |ps|
    ensures OriginalSegments(ps)
         == OriginalSegments(ps[..i]) + OriginalSegments([ps[i]]) + OriginalSegments(ps[i + 1..])
    ensures OriginalSegments(ps[..i] + mid + ps[i + 1..])
         == OriginalSegments(ps[..i]) + OriginalSegments(mid) + OriginalSegments(ps[i + 1..])
  {
    assert ps == ps[..i] + [ps[i]] + ps[i + 1..];
    SegmentsConcat(ps[..i] + [ps[i]], ps[i + 1..]);
    SegmentsConcat(ps[..i], [ps[i]]);
    SegmentsConcat(ps[..i] + mid, ps[i + 1..]);
    SegmentsConcat(ps[..i], mid);
  }

  lemma {:induction false} OriginalsOfTwo(a: Packet, b: Packet)
    requires a.isFake == b.isFake
    ensures OriginalSegments([a]) == if a.isFake then [] else [SegmentOf(a)]
    ensures OriginalSegments([a, b]) == if a.isFake then [] else [SegmentOf(a), SegmentOf(b)]
  {
    assert [a][1..] == [] && [a, b][1..] == [b];
    assert Originals([b]) == if b.isFake then [] else [b];
  }

  /** Replacing an original by two halves, or a fake by two fakes. */
  lemma {:induction false} HalvesKeepExtent(ps: seq<Packet>, at: Place, first: Packet, second: Packet,
                                            stream: seq<byte>, origin: u32)
    requires at.index < |ps| && at.offset < |ps[at.index].payload|
    requires var p := ps[at.index];
      && first.isFake == second.isFake == p.isFake
      && SegmentOf(first) == Segment(p.tcp.seqNo, p.payload[..at.offset])
      && SegmentOf(second) == Segment(Wrap(p.tcp.seqNo + at.offset), p.payload[at.offset..])
    requires Consistent(OriginalSegments(ps), stream, origin)
    ensures var out := ps[..at.index] + [first, second] + ps[at.index + 1..];
      && Consistent(OriginalSegments(out), stream, origin)
      && SameExtent(OriginalSegments(ps), origin, OriginalSegments(out), origin)
  {
    hide Consistent; hide SameExtent; hide OriginalSegments; hide Wrap;
    var p := ps[at.index];
    var pre, post := OriginalSegments(ps[..at.index]), OriginalSegments(ps[at.index + 1..]);
    OriginalsAround(ps, at.index, [first, second]);
    OriginalsOfTwo(p, p);
    OriginalsOfTwo(first, second);
    if p.isFake {
      SameMembersSameExtent(OriginalSegments(ps), OriginalSegments(ps), origin);
    } else {
      CutConsistent(pre, SegmentOf(p), at.offset, post, stream, origin);
    }
  }

  /** A split anywhere, fakes present or not, keeps what the originals reassemble to. */
  lemma {:induction false} SplitKeepsExtent(ps: seq<Packet>, at: Place, stream: seq<byte>, origin: u32)
    requires at.index < |ps| && at.offset < |ps[at.index].payload|
    requires Consistent(OriginalSegments(ps), stream, origin)
    ensures Consistent(OriginalSegments(SplitAt(ps, at)), stream, origin)
    ensures SameExtent(OriginalSegments(ps), origin, OriginalSegments(SplitAt(ps, at)), origin)
  {
    hide FirstPart;
    hide SecondPart;
    var p := ps[at.index];
    SplitSegment(p, at.offset);
    HalvesKeepExtent(ps, at, FirstPart(p, at.offset), SecondPart(p, at.offset), stream, origin);
  }
}
