/** The modifiers as the program runs them: methods that edit the packet vector in place. */
module Rewriter {
  import opened Base
  import opened Packets
  import opened Checksum
  import opened Reassembly
  import opened Markers
  import opened Modifiers

  method RunSplits(packets: PacketVector, splits: seq<Position>, ctx: Context)
    requires SplitAll(packets.items, splits, ctx).Done?
    modifies packets
    ensures Done(packets.items) == SplitAll(old(packets.items), splits, ctx)
  {
    hide Split;
    for i := 0 to |splits|
      invariant SplitAll(old(packets.items), splits, ctx) == SplitAll(packets.items, splits[i..], ctx)
    {
      SplitPackets(packets, splits[i], ctx);
    }
  }

  method RunTtl(packets: PacketVector, fakes: bool, ttl: Option<byte>)
    modifies packets
    ensures packets.items == TtlPass(old(packets.items), fakes, ttl)
  {
    if ttl.Some? {
      Ipv4Ttl(packets, fakes, ttl.value);
    }
  }

  method RunSeq(packets: PacketVector, fakes: bool, offset: Option<int>)
    modifies packets
    ensures packets.items == SeqPass(old(packets.items), fakes, offset)
  {
    if offset.Some? {
      SequenceOffset(packets, fakes, offset.value);
    }
  }

  method RunTs(packets: PacketVector, fakes: bool, offset: Option<int>)
    requires TsPass(packets.items, fakes, offset).Done?
    modifies packets
    ensures Done(packets.items) == TsPass(old(packets.items), fakes, offset)
  {
    if offset.Some? {
      TimestampOffset(packets, fakes, offset.value);
    }
  }

  method RunBad(packets: PacketVector, fakes: bool, badcksum: bool)
    modifies packets
    ensures packets.items == BadPass(old(packets.items), fakes, badcksum)
  {
    if badcksum {
      BadChecksum(packets, fakes);
    }
  }

  /** The decoy in a vector of its own. */
  method MakeBlobPackets(front: Packet, blob: seq<byte>) returns (blobs: PacketVector)
    ensures fresh(blobs) && blobs.items == [FakePacket(front, blob)]
  {
    var packet := CreatePacketFrom(ViewOf(front), blob);
    packet := packet.(action := Send, id := 0, isFake := true);
    packet := CalcPacketChecksum(packet);
    blobs := new PacketVector([packet]);
  }

  lemma {:induction false} MarkFakeAt(ps: seq<Packet>)
    ensures |MarkFake(ps)| == |ps| && forall i :: 0 <= i < |ps| ==> MarkFake(ps)[i] == ps[i].(isFake := true)
  {
    if ps == [] {
    } else {
      MarkFakeAt(ps[1..]);
    }
  }

  method InsertFront(packets: PacketVector, blobs: PacketVector)
    requires packets != blobs
    modifies packets, blobs
    ensures packets.items == MarkFake(old(blobs.items)) + old(packets.items)
  {
    ghost var was := blobs.items;
    MarkFakeAt(was);
    for i := 0 to |blobs.items|
      invariant |blobs.items| == |was| && packets.items == old(packets.items)
      invariant forall k :: 0 <= k < i ==> blobs.items[k] == MarkFake(was)[k]
      invariant forall k :: i <= k < |was| ==> blobs.items[k] == was[k]
    {
      blobs.items := blobs.items[i := blobs.items[i].(isFake := true)];
    }
    assert blobs.items == MarkFake(was);
    packets.items := blobs.items + packets.items;
  }

  // ----- Splitter -----

  method SplitterSeqovl(packets: PacketVector, length: nat, args: Args, ctx: Context)
    requires SplitterOverlap(packets.items, length, args, ctx).Done?
    modifies packets
    ensures Done(packets.items) == SplitterOverlap(old(packets.items), length, args, ctx)
  {
    var i := FirstOriginal(packets.items);
    if i == |packets.items| {
      return;
    }
    OverlapPacket(packets, i, length, args.seqovlPattern, PayloadRoom(ctx.mss, packets.items[i], SPLITTER_TCP_BASE));
  }

  method SplitterProcessFake(packets: PacketVector, args: Args)
    requires SplitterFakes(packets.items, args).Done?
    modifies packets
    ensures Done(packets.items) == SplitterFakes(old(packets.items), args)
  {
    hide TtlPass; hide TsPass; hide SeqPass; hide BadPass;
    RunTtl(packets, true, args.ipv4Ttl);
    RunTs(packets, true, args.tsOffset);
    RunSeq(packets, true, args.seqOffset);
    RunBad(packets, true, args.badcksum);
  }

  method SplitterProcessOrig(packets: PacketVector, args: Args, overlap: Option<nat>, ctx: Context)
    requires SplitterOriginals(packets.items, args, overlap, ctx).Done?
    modifies packets
    ensures Done(packets.items) == SplitterOriginals(old(packets.items), args, overlap, ctx)
  {
    hide SplitAll; hide TtlPass; hide TsPass; hide SeqPass; hide BadPass; hide SplitterOverlap;
    RunSplits(packets, args.splits, ctx);
    RunTtl(packets, false, args.ipv4Ttl);
    RunTs(packets, false, args.tsOffset);
    if overlap.Some? {
      SplitterSeqovl(packets, overlap.value, args, ctx);
    }
    RunSeq(packets, false, args.seqOffset);
    RunBad(packets, false, args.badcksum);
  }

  method SplitterModify(packets: PacketVector, args: Args, overlap: Option<nat>, ctx: Context)
    requires ModifySplitter(packets.items, args, overlap, ctx).Done?
    modifies packets
    ensures Done(packets.items) == ModifySplitter(old(packets.items), args, overlap, ctx)
  {
    hide SplitterOriginals; hide SplitterFakes; hide FakePacket;
    if args.fakeBlob.Some? {
      var blobs := MakeBlobPackets(packets.items[0], args.fakeBlob.value);
      SplitterProcessFake(blobs, args);
      InsertFront(packets, blobs);
    } else {
      SplitterProcessOrig(packets, args, overlap, ctx);
    }
  }

  // ----- Disorder -----

  method DisorderSeqovl(packets: PacketVector, pos: Position, args: Args, ctx: Context)
    requires DisorderOverlap(packets.items, pos, args, ctx).Done?
    modifies packets
    ensures Done(packets.items) == DisorderOverlap(old(packets.items), pos, args, ctx)
  {
    var length := OverlapLength(pos, ctx.marks).value;
    if length.None? {
      return;
    }
    var i := FirstOriginal(packets.items);
    if i == |packets.items| || length.value >= |packets.items[0].payload| {
      return;
    }
    i := i + 1;
    OverlapPacket(packets, i, length.value, args.seqovlPattern, PayloadRoom(ctx.mss, packets.items[i], DISORDER_TCP_BASE));
  }

  method DisorderProcessFake(packets: PacketVector, args: Args)
    requires DisorderFakes(packets.items, args).Done?
    modifies packets
    ensures Done(packets.items) == DisorderFakes(old(packets.items), args)
  {
    hide TtlPass; hide TsPass; hide SeqPass; hide BadPass;
    RunSeq(packets, true, args.seqOffset);
    RunTs(packets, true, args.tsOffset);
    RunTtl(packets, true, args.ipv4Ttl);
    RunBad(packets, true, args.badcksum);
  }

  method DisorderProcessOrig(packets: PacketVector, args: Args, overlap: Option<Position>, ctx: Context)
    requires DisorderOriginals(packets.items, args, overlap, ctx).Done?
    modifies packets
    ensures Done(packets.items) == DisorderOriginals(old(packets.items), args, overlap, ctx)
  {
    hide SplitAll; hide TtlPass; hide TsPass; hide SeqPass; hide BadPass; hide DisorderOverlap;
    RunSplits(packets, args.splits, ctx);
    RunSeq(packets, false, args.seqOffset);
    RunTs(packets, false, args.tsOffset);
    RunTtl(packets, false, args.ipv4Ttl);
    if overlap.Some? {
      DisorderSeqovl(packets, overlap.value, args, ctx);
    }
    RunBad(packets, false, args.badcksum);
    RunBad(packets, false, args.badcksum);
  }

  method DisorderModify(packets: PacketVector, args: Args, overlap: Option<Position>, ctx: Context)
    requires ModifyDisorder(packets.items, args, overlap, ctx).Done?
    modifies packets
    ensures Done(packets.items) == ModifyDisorder(old(packets.items), args, overlap, ctx)
  {
    hide DisorderOriginals; hide DisorderFakes; hide FakePacket; hide FilteredReverse;
    if args.fakeBlob.Some? {
      var blobs := MakeBlobPackets(packets.items[0], args.fakeBlob.value);
      DisorderProcessFake(blobs, args);
      InsertFront(packets, blobs);
    } else {
      DisorderProcessOrig(packets, args, overlap, ctx);
    }
    packets.items := FilteredReverse(packets.items);
  }

  // ----- the pipeline -----

  class Modifier {
    const config: Config

    constructor (config: Config)
      ensures this.config == config
    {
      this.config := config;
    }

    method RunAll(packets: PacketVector, ctx: Context)
      requires ModifyAll(config.mods, packets.items, ctx).Done?
      modifies packets
      ensures Done(packets.items) == ModifyAll(config.mods, old(packets.items), ctx)
    {
      hide ModifySplitter; hide ModifyDisorder;
      for i := 0 to |config.mods|
        invariant ModifyAll(config.mods, old(packets.items), ctx) == ModifyAll(config.mods[i..], packets.items, ctx)
      {
        if !Matches(config.mods[i], ctx.proto) {
          continue;
        }
        match config.mods[i]
        case Splitter(args, overlap) => SplitterModify(packets, args, overlap, ctx);
        case Disorder(args, overlapAt) => DisorderModify(packets, args, overlapAt, ctx);
      }
    }

    method ModifyPackets(packets: PacketVector, proto: L7Proto, mss: nat)
      requires Modify(config, packets.items, proto, mss).Done?
      modifies packets
      ensures Done(packets.items) == Modify(config, old(packets.items), proto, mss)
    {
      hide ModifyAll; hide FindMarkers; hide Reassemble;
      var fullPayload := Concat(Originals(packets.items));
      var markers := FindMarkers(fullPayload, proto).value;
      if markers.None? {
        return;
      }
      var allowed := Allowed(config, packets.items, fullPayload, markers.value).value;
      if !allowed {
        return;
      }
      RunAll(packets, Context(markers.value, proto, mss));
    }
  }
}
