/** Headers through the pipeline: whatever the modifiers make of a captured packet keeps its headers. */
module Headers {
  import opened Base
  import opened Serial
  import opened Packets
  import opened Checksum
  import opened Reassembly
  import opened Splitting
  import opened Segmentation
  import opened Modifiers
  import opened PacketEdits
  import Markers
  import StreamKept
  import Health

  /** The headers are the same but for the total length, the sequence number and the checksum. */
  ghost predicate SameHeaders(p: Packet, q: Packet) {
    q.ip.(totLen := p.ip.totLen) == p.ip && q.tcp.(seqNo := p.tcp.seqNo, check := p.tcp.check) == p.tcp
  }

  /** Every packet the program makes out of another one has its headers. */
  lemma {:induction false} CopiesKeepHeaders(p: Packet, at: nat, payload: seq<byte>, start: u32)
    requires at <= |p.payload|
    ensures SameHeaders(p, FirstPart(p, at)) && SameHeaders(p, SecondPart(p, at))
    ensures SameHeaders(p, Chunk(p, payload, start)) && SameHeaders(p, Overlapped(p, payload, start))
    ensures SameHeaders(p, FakePacket(p, payload))
  {
    hide TcpChecksum; hide Narrow; hide Wrap;
  }

  /** What passes were asked for: TTLs to set, and whether timestamps are moved. */
  datatype Edits = Edits(ttls: set<byte>, stamps: bool)

  /** The headers are the same but for these three fields and the edits asked for. */
  ghost predicate Inherits(p: Packet, q: Packet, edits: Edits) {
    && q.ip.(totLen := p.ip.totLen, ttl := p.ip.ttl) == p.ip
    && (q.ip.ttl == p.ip.ttl || q.ip.ttl in edits.ttls)
    && q.tcp.(seqNo := p.tcp.seqNo, check := p.tcp.check, options := p.tcp.options) == p.tcp
    && |q.tcp.options| == |p.tcp.options| && (q.tcp.options == p.tcp.options || edits.stamps)
  }

  ghost predicate HasSource(src: seq<Packet>, q: Packet, edits: Edits) {
    exists p :: p in src && Inherits(p, q, edits)
  }

  ghost predicate AllFrom(src: seq<Packet>, ps: seq<Packet>, edits: Edits) {
    forall q :: q in ps ==> HasSource(src, q, edits)
  }

  lemma {:induction false} PassedOn(src: seq<Packet>, p: Packet, q: Packet, edits: Edits)
    requires HasSource(src, p, edits) && Inherits(p, q, edits)
    ensures HasSource(src, q, edits)
  {
    var o :| o in src && Inherits(o, p, edits);
    assert Inherits(o, q, edits);
  }

  lemma {:induction false} CopyPassedOn(src: seq<Packet>, p: Packet, q: Packet, edits: Edits)
    requires HasSource(src, p, edits) && SameHeaders(p, q)
    ensures HasSource(src, q, edits)
  {
    hide HasSource;
    assert Inherits(p, q, edits);
    PassedOn(src, p, q, edits);
  }

  lemma {:induction false} FromOne(src: seq<Packet>, q: Packet, edits: Edits)
    requires HasSource(src, q, edits)
    ensures AllFrom(src, [q], edits)
  {
    hide HasSource;
  }

  lemma {:induction false} FromJoin(src: seq<Packet>, a: seq<Packet>, b: seq<Packet>, edits: Edits)
    ensures AllFrom(src, a + b, edits) <==> AllFrom(src, a, edits) && AllFrom(src, b, edits)
  {
    hide HasSource;
    assert AllFrom(src, a + b, edits) ==> forall q :: q in a || q in b ==> q in a + b;
  }

  lemma {:induction false} FromReplaced(src: seq<Packet>, ps: seq<Packet>, i: nat, mid: seq<Packet>, edits: Edits)
    requires i < |ps| && AllFrom(src, ps, edits) && AllFrom(src, mid, edits)
    ensures AllFrom(src, ps[..i] + mid + ps[i + 1..], edits)
  {
    hide HasSource;
  }

  // ----- splits and overlaps -----

  lemma {:induction false} SplitAtFrom(src: seq<Packet>, ps: seq<Packet>, at: Place, edits: Edits)
    requires at.index < |ps| && at.offset <= |ps[at.index].payload| && AllFrom(src, ps, edits)
    ensures AllFrom(src, SplitAt(ps, at), edits)
  {
    hide FirstPart; hide SecondPart; hide HasSource; hide SameHeaders;
    var p := ps[at.index];
    assert p in ps;
    CopiesKeepHeaders(p, at.offset, [], 0);
    CopyPassedOn(src, p, FirstPart(p, at.offset), edits);
    CopyPassedOn(src, p, SecondPart(p, at.offset), edits);
    FromReplaced(src, ps, at.index, [FirstPart(p, at.offset), SecondPart(p, at.offset)], edits);
  }

  lemma {:induction false} SplitAllFrom(src: seq<Packet>, ps: seq<Packet>, splits: seq<Position>, ctx: Context, edits: Edits)
    requires SplitAll(ps, splits, ctx).Done? && AllFrom(src, ps, edits)
    ensures AllFrom(src, SplitAll(ps, splits, ctx).value, edits)
    decreases |splits|
  {
    hide SplitAt; hide FindPacketByOffset; hide SplitTarget; hide AllFrom;
    if splits == [] {
    } else {
      var target := SplitTarget(splits[0], ctx);
      if target.Some? && FindPacketByOffset(ps, target.value).Some? {
        SplitAtFrom(src, ps, FindPacketByOffset(ps, target.value).value, edits);
      }
      SplitAllFrom(src, Split(ps, splits[0], ctx).value, splits[1..], ctx, edits);
    }
  }

  lemma {:induction false} ChunksFrom(src: seq<Packet>, payload: seq<byte>, room: nat, p: Packet, start: u32, edits: Edits)
    requires room > 0 && HasSource(src, p, edits)
    ensures AllFrom(src, Chunks(payload, room, p, start), edits)
    decreases |payload|
  {
    hide Chunk; hide Wrap; hide Chunks; hide HasSource; hide SameHeaders;
    ChunksCons(payload, room, p, start);
    if payload == [] {
    } else {
      hide AllFrom;
      var n := Min(|payload|, room);
      var first, rest := Chunk(p, payload[..n], start), Chunks(payload[n..], room, p, Wrap(start + n));
      CopiesKeepHeaders(p, 0, payload[..n], start);
      CopyPassedOn(src, p, first, edits);
      FromOne(src, first, edits);
      ChunksFrom(src, payload[n..], room, p, Wrap(start + n), edits);
      FromJoin(src, [first], rest, edits);
    }
  }

  lemma {:induction false} TakenOver(src: seq<Packet>, chunks: seq<Packet>, p: Packet, edits: Edits)
    requires chunks != [] && AllFrom(src, chunks, edits)
    ensures AllFrom(src, chunks[0 := TakeOver(chunks[0], p)], edits)
  {
    hide HasSource; hide TakeOver;
    var first := TakeOver(chunks[0], p);
    assert chunks[0] in chunks;
    assert SameHeaders(chunks[0], first) by {
      TakenOverHeaders(chunks[0], p);
    }
    hide SameHeaders;
    CopyPassedOn(src, chunks[0], first, edits);
    forall q | q in chunks[0 := first] ensures HasSource(src, q, edits) {
      assert q == first || q in chunks;
    }
  }

  lemma {:induction false} TakenOverHeaders(chunk: Packet, p: Packet)
    ensures SameHeaders(chunk, TakeOver(chunk, p))
  {
  }

  lemma {:induction false} WidenedFrom(src: seq<Packet>, p: Packet, pad: seq<byte>, room: u64, edits: Edits)
    requires HasRoom(p, |pad|, room) && HasSource(src, p, edits)
    ensures AllFrom(src, Widened(p, pad, room).value, edits)
  {
    hide Chunks; hide Overlapped; hide Wrap; hide HasSource; hide AllFrom; hide TakeOver; hide SameHeaders;
    var payload, start := pad + p.payload, Wrap(p.tcp.seqNo - Wrap(|pad|));
    if |payload| <= room {
      CopiesKeepHeaders(p, 0, payload, start);
      CopyPassedOn(src, p, Overlapped(p, payload, start), edits);
      FromOne(src, Overlapped(p, payload, start), edits);
    } else {
      ChunksFrom(src, payload, room, p, start, edits);
      ChunksPartition(payload, room, p, start);
      TakenOver(src, Chunks(payload, room, p, start), p, edits);
    }
  }

  lemma {:induction false} OverlapFrom(src: seq<Packet>, ps: seq<Packet>, i: nat, length: nat, pattern: Option<seq<byte>>,
                                       room: u64, edits: Edits)
    requires i < |ps| && Widenable(ps[i], length, pattern, room) && AllFrom(src, ps, edits)
    ensures AllFrom(src, Overlap(ps, i, length, pattern, room).value, edits)
  {
    hide HasSource; hide Widened;
    assert ps[i] in ps;
    var pad := if length == 0 then [] else Padding(length, pattern);
    WidenedFrom(src, ps[i], pad, room, edits);
    FromReplaced(src, ps, i, Widened(ps[i], pad, room).value, edits);
  }

  // ----- passes -----

  /** The edits cover what these arguments ask for. */
  ghost predicate Grants(edits: Edits, args: Args) {
    && (args.ipv4Ttl.Some? ==> args.ipv4Ttl.value in edits.ttls)
    && (args.tsOffset.Some? ==> edits.stamps)
  }

  lemma {:induction false} EditedInherits(p: Packet, q: Packet, args: Args, edits: Edits)
    requires Edited(p, q, args) && Grants(edits, args)
    ensures Inherits(p, q, edits)
  {
    hide Checksummed; hide ShiftTimestamp; hide Wrap;
    if args.tsOffset.Some? {
      ShiftedSize(p.tcp.options, args.tsOffset.value);
    }
  }

  lemma {:induction false} ShiftedSize(o: Options, offset: int)
    requires ShiftTimestamp(o, offset).Done?
    ensures |ShiftTimestamp(o, offset).value| == |o|
  {
    hide ScanOption;
  }

  lemma {:induction false} EditedFrom(src: seq<Packet>, ps: seq<Packet>, out: seq<Packet>, fakes: bool, args: Args, edits: Edits)
    requires AllFrom(src, ps, edits) && AllEdited(ps, out, fakes, args) && Grants(edits, args)
    ensures AllFrom(src, out, edits)
  {
    hide HasSource; hide Inherits; hide Edited; hide Grants;
    forall q | q in out ensures HasSource(src, q, edits) {
      var i :| 0 <= i < |out| && out[i] == q;
      assert ps[i] in ps;
      if ps[i].isFake == fakes {
        EditedInherits(ps[i], q, args, edits);
        PassedOn(src, ps[i], q, edits);
      }
    }
  }

  lemma {:induction false} TtlFrom(src: seq<Packet>, ps: seq<Packet>, fakes: bool, args: Args, edits: Edits)
    requires AllFrom(src, ps, edits) && Grants(edits, args)
    ensures AllFrom(src, TtlPass(ps, fakes, args.ipv4Ttl), edits)
  {
    hide AllFrom; hide TtlPass; hide AllEdited;
    TtlEdits(ps, fakes, args.ipv4Ttl);
    EditedFrom(src, ps, TtlPass(ps, fakes, args.ipv4Ttl), fakes, NO_EDITS.(ipv4Ttl := args.ipv4Ttl), edits);
  }

  lemma {:induction false} SeqFrom(src: seq<Packet>, ps: seq<Packet>, fakes: bool, args: Args, edits: Edits)
    requires AllFrom(src, ps, edits)
    ensures AllFrom(src, SeqPass(ps, fakes, args.seqOffset), edits)
  {
    hide AllFrom; hide SeqPass; hide AllEdited;
    SeqEdits(ps, fakes, args.seqOffset);
    EditedFrom(src, ps, SeqPass(ps, fakes, args.seqOffset), fakes, NO_EDITS.(seqOffset := args.seqOffset), edits);
  }

  lemma {:induction false} BadFrom(src: seq<Packet>, ps: seq<Packet>, fakes: bool, args: Args, edits: Edits)
    requires AllFrom(src, ps, edits)
    ensures AllFrom(src, BadPass(ps, fakes, args.badcksum), edits)
  {
    hide AllFrom; hide BadPass; hide AllEdited;
    BadEdits(ps, fakes, args.badcksum);
    EditedFrom(src, ps, BadPass(ps, fakes, args.badcksum), fakes, NO_EDITS.(badcksum := args.badcksum), edits);
  }

  lemma {:induction false} TsFrom(src: seq<Packet>, ps: seq<Packet>, fakes: bool, args: Args, edits: Edits)
    requires AllFrom(src, ps, edits) && Grants(edits, args) && TsPass(ps, fakes, args.tsOffset).Done?
    ensures AllFrom(src, TsPass(ps, fakes, args.tsOffset).value, edits)
  {
    hide AllFrom; hide TsPass; hide AllEdited;
    TsEdits(ps, fakes, args.tsOffset);
    EditedFrom(src, ps, TsPass(ps, fakes, args.tsOffset).value, fakes, NO_EDITS.(tsOffset := args.tsOffset), edits);
  }

  // ----- reversal and decoys -----

  lemma {:induction false} ReverseFrom(src: seq<Packet>, ps: seq<Packet>, edits: Edits)
    requires AllFrom(src, ps, edits)
    ensures AllFrom(src, FilteredReverse(ps), edits)
  {
    hide HasSource;
    var out := FilteredReverse(ps);
    StreamKept.FilteredReverseParts(ps);
    StreamKept.ReverseMembers(Originals(ps));
    hide FilteredReverse;
    forall q | q in out ensures q in ps {
      Health.MembersByKind(ps, q);
      Health.MembersByKind(out, q);
    }
  }

  lemma {:induction false} MarkFrom(src: seq<Packet>, ps: seq<Packet>, edits: Edits)
    requires AllFrom(src, ps, edits)
    ensures AllFrom(src, MarkFake(ps), edits)
  {
    hide HasSource;
    if ps == [] {
    } else {
      assert ps[0] in ps && AllFrom(src, ps[1..], edits);
      MarkFrom(src, ps[1..], edits);
      CopyPassedOn(src, ps[0], ps[0].(isFake := true), edits);
    }
  }

  lemma {:induction false} DecoysFrom(src: seq<Packet>, front: Packet, args: Args, edits: Edits)
    requires args.fakeBlob.Some? && HasSource(src, front, edits) && Grants(edits, args)
    ensures var fakes := [FakePacket(front, args.fakeBlob.value)];
      && (SplitterFakes(fakes, args).Done? ==> AllFrom(src, MarkFake(SplitterFakes(fakes, args).value), edits))
      && (DisorderFakes(fakes, args).Done? ==> AllFrom(src, MarkFake(DisorderFakes(fakes, args).value), edits))
  {
    hide FakePacket; hide HasSource; hide AllFrom; hide TtlPass; hide SeqPass; hide BadPass; hide TsPass; hide Grants; hide SameHeaders;
    var fake := FakePacket(front, args.fakeBlob.value);
    var fakes := [fake];
    CopiesKeepHeaders(front, 0, args.fakeBlob.value, 0);
    CopyPassedOn(src, front, fake, edits);
    FromOne(src, fake, edits);
    if SplitterFakes(fakes, args).Done? {
      var lived := TtlPass(fakes, true, args.ipv4Ttl);
      TtlFrom(src, fakes, true, args, edits);
      TsFrom(src, lived, true, args, edits);
      var timed := TsPass(lived, true, args.tsOffset).value;
      SeqFrom(src, timed, true, args, edits);
      BadFrom(src, SeqPass(timed, true, args.seqOffset), true, args, edits);
      MarkFrom(src, SplitterFakes(fakes, args).value, edits);
    }
    if DisorderFakes(fakes, args).Done? {
      var moved := SeqPass(fakes, true, args.seqOffset);
      SeqFrom(src, fakes, true, args, edits);
      TsFrom(src, moved, true, args, edits);
      var timed := TsPass(moved, true, args.tsOffset).value;
      TtlFrom(src, timed, true, args, edits);
      BadFrom(src, TtlPass(timed, true, args.ipv4Ttl), true, args, edits);
      MarkFrom(src, DisorderFakes(fakes, args).value, edits);
    }
  }

  // ----- the modifiers -----

  lemma {:induction false} SplitterFrom(src: seq<Packet>, ps: seq<Packet>, args: Args, overlap: Option<nat>, ctx: Context, edits: Edits)
    requires AllFrom(src, ps, edits) && Grants(edits, args) && SplitterOriginals(ps, args, overlap, ctx).Done?
    ensures AllFrom(src, SplitterOriginals(ps, args, overlap, ctx).value, edits)
  {
    hide AllFrom; hide SplitAll; hide TtlPass; hide SeqPass; hide BadPass; hide TsPass; hide Overlap; hide Grants;
    var cut := SplitAll(ps, args.splits, ctx).value;
    SplitAllFrom(src, ps, args.splits, ctx, edits);
    TtlFrom(src, cut, false, args, edits);
    var lived := TtlPass(cut, false, args.ipv4Ttl);
    TsFrom(src, lived, false, args, edits);
    var timed := TsPass(lived, false, args.tsOffset).value;
    var wide := if overlap.None? then timed else SplitterOverlap(timed, overlap.value, args, ctx).value;
    if overlap.Some? {
      var i := FirstOriginal(timed);
      if i < |timed| {
        OverlapFrom(src, timed, i, overlap.value, args.seqovlPattern, PayloadRoom(ctx.mss, timed[i], SPLITTER_TCP_BASE), edits);
      }
    }
    SeqFrom(src, wide, false, args, edits);
    BadFrom(src, SeqPass(wide, false, args.seqOffset), false, args, edits);
  }

  lemma {:induction false} DisorderFrom(src: seq<Packet>, ps: seq<Packet>, args: Args, overlap: Option<Position>, ctx: Context, edits: Edits)
    requires AllFrom(src, ps, edits) && Grants(edits, args) && DisorderOriginals(ps, args, overlap, ctx).Done?
    ensures AllFrom(src, DisorderOriginals(ps, args, overlap, ctx).value, edits)
  {
    hide AllFrom; hide SplitAll; hide TtlPass; hide SeqPass; hide BadPass; hide TsPass; hide DisorderOverlap; hide Grants;
    var cut := SplitAll(ps, args.splits, ctx).value;
    SplitAllFrom(src, ps, args.splits, ctx, edits);
    SeqFrom(src, cut, false, args, edits);
    var moved := SeqPass(cut, false, args.seqOffset);
    TsFrom(src, moved, false, args, edits);
    var timed := TsPass(moved, false, args.tsOffset).value;
    TtlFrom(src, timed, false, args, edits);
    var lived := TtlPass(timed, false, args.ipv4Ttl);
    var wide := if overlap.None? then lived else DisorderOverlap(lived, overlap.value, args, ctx).value;
    if overlap.Some? {
      DisorderOverlapFrom(src, lived, overlap.value, args, ctx, edits);
    }
    BadFrom(src, wide, false, args, edits);
    BadFrom(src, BadPass(wide, false, args.badcksum), false, args, edits);
  }

  lemma {:induction false} DisorderOverlapFrom(src: seq<Packet>, ps: seq<Packet>, pos: Position, args: Args, ctx: Context, edits: Edits)
    requires AllFrom(src, ps, edits) && DisorderOverlap(ps, pos, args, ctx).Done?
    ensures AllFrom(src, DisorderOverlap(ps, pos, args, ctx).value, edits)
  {
    hide AllFrom; hide Overlap; hide OverlapLength;
    var i, length := FirstOriginal(ps), OverlapLength(pos, ctx.marks).value;
    if i + 1 < |ps| && length.Some? {
      if length.value < |ps[0].payload| {
        OverlapFrom(src, ps, i + 1, length.value, args.seqovlPattern, PayloadRoom(ctx.mss, ps[i + 1], DISORDER_TCP_BASE), edits);
      }
    }
  }

  lemma {:induction false} ModifyOneFrom(src: seq<Packet>, m: Mod, ps: seq<Packet>, ctx: Context, edits: Edits)
    requires AllFrom(src, ps, edits) && Grants(edits, m.args) && ModifyOne(m, ps, ctx).Done?
    ensures AllFrom(src, ModifyOne(m, ps, ctx).value, edits)
  {
    hide SplitterOriginals; hide DisorderOriginals; hide SplitterFakes; hide DisorderFakes; hide FilteredReverse;
    hide FakePacket; hide HasSource; hide Grants; hide MarkFake;
    var args := m.args;
    if args.fakeBlob.Some? {
      assert ps[0] in ps;
      DecoysFrom(src, ps[0], args, edits);
      hide AllFrom;
      var fakes := [FakePacket(ps[0], args.fakeBlob.value)];
      if m.Splitter? {
        FromJoin(src, MarkFake(SplitterFakes(fakes, args).value), ps, edits);
      } else {
        FromJoin(src, MarkFake(DisorderFakes(fakes, args).value), ps, edits);
        ReverseFrom(src, MarkFake(DisorderFakes(fakes, args).value) + ps, edits);
      }
    } else if m.Splitter? {
      SplitterFrom(src, ps, args, m.overlap, ctx, edits);
    } else {
      DisorderFrom(src, ps, args, m.overlapAt, ctx, edits);
      ReverseFrom(src, DisorderOriginals(ps, args, m.overlapAt, ctx).value, edits);
    }
  }

  /** The modifier is for any protocol or for this one. */
  ghost predicate Applies(m: Mod, proto: Markers.L7Proto) {
    m.args.l7Payload == None || m.args.l7Payload == Some(proto)
  }

  lemma {:induction false} ModifyAllFrom(src: seq<Packet>, mods: seq<Mod>, ps: seq<Packet>, ctx: Context, edits: Edits)
    requires AllFrom(src, ps, edits) && ModifyAll(mods, ps, ctx).Done?
    requires forall i :: 0 <= i < |mods| && Applies(mods[i], ctx.proto) ==> Grants(edits, mods[i].args)
    ensures AllFrom(src, ModifyAll(mods, ps, ctx).value, edits)
    decreases |mods|
  {
    hide AllFrom; hide ModifyOne; hide Grants;
    if mods == [] {
    } else {
      assert forall i :: 0 <= i < |mods[1..]| ==> mods[1..][i] == mods[i + 1];
      if !Matches(mods[0], ctx.proto) {
        ModifyAllFrom(src, mods[1..], ps, ctx, edits);
      } else {
        assert Applies(mods[0], ctx.proto);
        ModifyOneFrom(src, mods[0], ps, ctx, edits);
        ModifyAllFrom(src, mods[1..], ModifyOne(mods[0], ps, ctx).value, ctx, edits);
      }
    }
  }

  lemma {:induction false} OwnSource(ps: seq<Packet>, edits: Edits)
    ensures AllFrom(ps, ps, edits)
  {
    forall q | q in ps ensures HasSource(ps, q, edits) {
      assert Inherits(q, q, edits);
    }
  }

  /** Whatever the pipeline hands to the kernel or to the wire, halves, chunks, widened packets and
      decoys included, has the headers of a captured packet: all fields but total length, sequence
      number and checksum, the TTL and the timestamp option aside where a modifier for this protocol
      asks for it. */
  lemma {:induction false} PipelineKeepsHeaders(config: Config, ps: seq<Packet>, proto: Markers.L7Proto, mss: nat, edits: Edits, q: Packet)
    requires Modify(config, ps, proto, mss).Done? && q in Modify(config, ps, proto, mss).value
    requires forall i :: 0 <= i < |config.mods| && Applies(config.mods[i], proto) ==> Grants(edits, config.mods[i].args)
    ensures exists p :: p in ps && Inherits(p, q, edits)
  {
    hide ModifyAll; hide Modify; hide Inherits; hide RunContext; hide Grants;
    ModifyRuns(config, ps, proto, mss);
    OwnSource(ps, edits);
    RunsListed(config, ps, proto, mss);
    hide Running;
    ModifyAllFrom(ps, Running(config, ps, proto), ps, RunContext(ps, proto, mss), edits);
    assert HasSource(ps, q, edits);
  }

  lemma {:induction false} RunsListed(config: Config, ps: seq<Packet>, proto: Markers.L7Proto, mss: nat)
    ensures Running(config, ps, proto) == config.mods || Running(config, ps, proto) == []
    ensures RunContext(ps, proto, mss).proto == proto
  {
    hide Reassemble; hide OriginalSegments; hide Markers.FindMarkers; hide Allowed;
  }

  /** In particular it stays in the connection. */
  lemma {:induction false} PipelineKeepsFlow(config: Config, ps: seq<Packet>, proto: Markers.L7Proto, mss: nat, q: Packet)
    requires Modify(config, ps, proto, mss).Done? && q in Modify(config, ps, proto, mss).value
    ensures exists p :: p in ps && p.ip.saddr == q.ip.saddr && p.tcp.source == q.tcp.source && p.ip.daddr == q.ip.daddr && p.tcp.dest == q.tcp.dest
  {
    hide Modify;
    var asked := set i | 0 <= i < |config.mods| && config.mods[i].args.ipv4Ttl.Some? :: config.mods[i].args.ipv4Ttl.value;
    var edits := Edits(asked, true);
    PipelineKeepsHeaders(config, ps, proto, mss, edits, q);
    var p :| p in ps && Inherits(p, q, edits);
    assert p.tcp.dest == q.tcp.dest;
  }
}
