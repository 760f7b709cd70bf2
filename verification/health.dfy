/** What the pipeline keeps about every packet: verdict duties are conserved, added packets carry
    none, and whatever the program sends itself is well formed. */
module Health {
  import opened Base
  import opened Serial
  import opened Packets
  import opened Checksum
  import opened Reassembly
  import opened Splitting
  import opened Segmentation
  import opened Markers
  import opened Modifiers
  import StreamKept

  /** The kernel ids that the packets owe a verdict for. */
  function Duties(ps: seq<Packet>): multiset<u32> {
    if ps == [] then multiset{}
    else (if ps[0].action == Send then multiset{} else multiset{ps[0].id}) + Duties(ps[1..])
  }

  /** The length field and the checksum match the packet. */
  ghost predicate Sealed(p: Packet) {
    p.ip.totLen == Narrow(p.Size()) && Checksummed(p) == p
  }

  /** A packet without duty has no id; one the program sends is sealed, unless checksums are
      spoiled on purpose. */
  ghost predicate Good(p: Packet, strict: bool) {
    && (p.action == Send ==> p.id == 0)
    && (strict && (p.action == Send || p.action == DropAndSend) ==> Sealed(p))
  }

  ghost predicate AllGood(ps: seq<Packet>, strict: bool) {
    forall i :: 0 <= i < |ps| ==> Good(ps[i], strict)
  }

  /** What every step of the pipeline keeps. */
  ghost predicate Keeps(before: seq<Packet>, after: seq<Packet>, strict: bool) {
    Duties(after) == Duties(before) && |after| >= |before| && (AllGood(before, strict) ==> AllGood(after, strict))
  }

  lemma {:induction false} DutiesConcat(a: seq<Packet>, b: seq<Packet>)
    ensures Duties(a + b) == Duties(a) + Duties(b)
  {
    if a == [] {
      assert a + b == b;
    } else {
      assert (a + b)[1..] == a[1..] + b;
      DutiesConcat(a[1..], b);
    }
  }

  lemma {:induction false} DutiesOfOne(p: Packet)
    ensures Duties([p]) == if p.action == Send then multiset{} else multiset{p.id}
  {
    assert [p][1..] == [];
  }

  lemma {:induction false} KeepsTrans(a: seq<Packet>, b: seq<Packet>, c: seq<Packet>, strict: bool)
    requires Keeps(a, b, strict) && Keeps(b, c, strict)
    ensures Keeps(a, c, strict)
  {
  }

  lemma {:induction false} DutiesAround(ps: seq<Packet>, i: nat, mid: seq<Packet>)
    requires i < |ps|
    ensures Duties(ps) == Duties(ps[..i]) + Duties([ps[i]]) + Duties(ps[i + 1..])
    ensures Duties(ps[..i] + mid + ps[i + 1..]) == Duties(ps[..i]) + Duties(mid) + Duties(ps[i + 1..])
  {
    assert ps == ps[..i] + [ps[i]] + ps[i + 1..];
    DutiesConcat(ps[..i] + [ps[i]], ps[i + 1..]);
    DutiesConcat(ps[..i], [ps[i]]);
    DutiesConcat(ps[..i] + mid, ps[i + 1..]);
    DutiesConcat(ps[..i], mid);
  }

  lemma {:induction false} GoodAround(ps: seq<Packet>, i: nat, mid: seq<Packet>, strict: bool)
    requires i < |ps| && AllGood(ps, strict) && AllGood(mid, strict)
    ensures AllGood(ps[..i] + mid + ps[i + 1..], strict)
  {
    hide Good;
    var out := ps[..i] + mid + ps[i + 1..];
    forall j | 0 <= j < |out| ensures Good(out[j], strict) {
      assert out[j] == if j < i then ps[j] else if j < i + |mid| then mid[j - i] else ps[j - |mid| + 1];
    }
  }

  /** Replacing one packet by packets that together carry its duty. */
  lemma {:induction false} ReplaceKeeps(ps: seq<Packet>, i: nat, mid: seq<Packet>, strict: bool)
    requires i < |ps| && mid != [] && Duties(mid) == Duties([ps[i]])
    requires Good(ps[i], strict) ==> AllGood(mid, strict)
    ensures Keeps(ps, ps[..i] + mid + ps[i + 1..], strict)
  {
    hide Good; hide Duties;
    DutiesAround(ps, i, mid);
    if AllGood(ps, strict) {
      GoodAround(ps, i, mid, strict);
    }
  }

  // ----- single packets -----

  lemma {:induction false} SealedIs(p: Packet)
    requires p.ip.totLen == Narrow(p.Size())
    ensures Sealed(Checksummed(p))
  {
    hide TcpChecksum;
    ChecksummedIdempotent(p, TcpChecksum(WithCheck(p, 0)));
  }

  lemma {:induction false} FirstPartGood(p: Packet, at: nat, strict: bool)
    requires at <= |p.payload| && Good(p, strict)
    ensures Good(FirstPart(p, at), strict)
  {
    var q := p.(payload := p.payload[..at],
                action := if p.action == Accept then DropAndSend else p.action,
                ip := p.ip.(totLen := Narrow(p.HeaderLength() + Narrow(at))));
    NarrowAdd(p.HeaderLength(), at);
    SealedIs(q);
  }

  lemma {:induction false} NarrowAdd(a: nat, b: nat)
    ensures Narrow(a + Narrow(b)) == Narrow(a + b)
  {
    var q := b / 0x1_0000;
    assert a + b == a + Narrow(b) + q * 0x1_0000;
  }

  lemma {:induction false} SecondPartGood(p: Packet, at: nat, strict: bool)
    requires at <= |p.payload|
    ensures Good(SecondPart(p, at), strict)
  {
    var q := CreatePacketFrom(ViewOf(p), p.payload[at..]).(isFake := p.isFake, action := Send, id := 0);
    SealedIs(WithSeq(q, Wrap(q.tcp.seqNo + Wrap(at))));
  }

  lemma {:induction false} ChunkGood(orig: Packet, data: seq<byte>, seqNo: u32, strict: bool)
    ensures Good(Chunk(orig, data, seqNo), strict) && Sealed(Chunk(orig, data, seqNo))
  {
    var q := CreatePacketFrom(ViewOf(orig), data).(isFake := orig.isFake, action := Send, id := 0);
    SealedIs(WithSeq(q, seqNo));
  }

  lemma {:induction false} ChecksumOfContents(p: Packet, q: Packet)
    requires p.ip == q.ip && p.tcp == q.tcp && p.payload == q.payload
    ensures TcpChecksum(p) == TcpChecksum(q)
  {
    hide WordSum; hide Fold; hide Bytes; hide TcpBytes; hide Narrow; hide Word; hide Wrap;
  }

  /** The verdict fields take no part in the checksum. */
  lemma {:induction false} SealedRelabelled(p: Packet, action: Action, id: u32, isFake: bool)
    requires Sealed(p)
    ensures Sealed(p.(action := action, id := id, isFake := isFake))
  {
    hide TcpChecksum; hide Narrow;
    var q := p.(action := action, id := id, isFake := isFake);
    ChecksumOfContents(WithCheck(p, 0), WithCheck(q, 0));
  }

  lemma {:induction false} TakeOverGood(chunk: Packet, orig: Packet, strict: bool)
    requires Sealed(chunk) && Good(orig, strict) && NoDuty(chunk)
    ensures Good(TakeOver(chunk, orig), strict)
  {
    SealedRelabelled(chunk, Send, 0, chunk.isFake);
    SealedRelabelled(chunk, DropAndSend, orig.id, chunk.isFake);
  }

  lemma {:induction false} OverlappedGood(p: Packet, payload: seq<byte>, startSeq: u32, strict: bool)
    requires Good(p, strict)
    ensures Good(Overlapped(p, payload, startSeq), strict)
  {
    var q := CreatePacketFrom(ViewOf(p), payload).(isFake := p.isFake,
      action := if p.action == Send then Send else DropAndSend, id := p.id);
    SealedIs(WithSeq(q, startSeq));
  }

  lemma {:induction false} FakeGood(front: Packet, blob: seq<byte>, strict: bool)
    ensures Good(FakePacket(front, blob), strict)
  {
    SealedIs(CreatePacketFrom(ViewOf(front), blob).(action := Send, id := 0, isFake := true));
  }

  // ----- splits and overlaps -----

  lemma {:induction false} PartLabels(p: Packet, at: nat)
    requires at <= |p.payload|
    ensures (FirstPart(p, at).action == Send <==> p.action == Send) && FirstPart(p, at).id == p.id
    ensures SecondPart(p, at).action == Send
  {
    hide TcpChecksum; hide Narrow; hide Wrap;
  }

  lemma {:induction false} SplitAtKeeps(ps: seq<Packet>, at: Place, strict: bool)
    requires at.index < |ps| && at.offset <= |ps[at.index].payload|
    ensures Keeps(ps, SplitAt(ps, at), strict)
  {
    hide FirstPart; hide SecondPart; hide Good; hide Duties;
    var p := ps[at.index];
    var first, second := FirstPart(p, at.offset), SecondPart(p, at.offset);
    if Good(p, strict) {
      FirstPartGood(p, at.offset, strict);
      SecondPartGood(p, at.offset, strict);
    }
    PartLabels(p, at.offset);
    assert [first, second] == [first] + [second];
    DutiesConcat([first], [second]);
    DutiesOfOne(first);
    DutiesOfOne(second);
    DutiesOfOne(p);
    ReplaceKeeps(ps, at.index, [first, second], strict);
  }

  lemma {:induction false} SplitKeeps(ps: seq<Packet>, pos: Position, ctx: Context, strict: bool)
    requires Split(ps, pos, ctx).Done?
    ensures Keeps(ps, Split(ps, pos, ctx).value, strict)
  {
    hide SplitAt; hide FindPacketByOffset;
    var target := SplitTarget(pos, ctx);
    if target.Some? && FindPacketByOffset(ps, target.value).Some? {
      SplitAtKeeps(ps, FindPacketByOffset(ps, target.value).value, strict);
    }
  }

  lemma {:induction false} SplitAllKeeps(ps: seq<Packet>, splits: seq<Position>, ctx: Context, strict: bool)
    requires SplitAll(ps, splits, ctx).Done?
    ensures Keeps(ps, SplitAll(ps, splits, ctx).value, strict)
    decreases |splits|
  {
    hide Split; hide Keeps;
    if splits == [] {
      KeepsSelf(ps, strict);
    } else {
      var next := Split(ps, splits[0], ctx).value;
      SplitKeeps(ps, splits[0], ctx, strict);
      SplitAllKeeps(next, splits[1..], ctx, strict);
      KeepsTrans(ps, next, SplitAll(next, splits[1..], ctx).value, strict);
    }
  }

  lemma {:induction false} KeepsSelf(ps: seq<Packet>, strict: bool)
    ensures Keeps(ps, ps, strict)
  {
  }

  lemma {:induction false} NoDutyFields(p: Packet)
    ensures NoDuty(p) ==> p.action == Send
  {
  }

  lemma {:induction false} ChunksGood(payload: seq<byte>, mss: nat, orig: Packet, startSeq: u32, strict: bool)
    requires mss > 0
    ensures var chunks := Chunks(payload, mss, orig, startSeq);
      && Duties(chunks) == multiset{} && (payload != [] ==> chunks != [])
      && forall i :: 0 <= i < |chunks| ==> Good(chunks[i], strict) && Sealed(chunks[i]) && NoDuty(chunks[i])
    decreases |payload|
  {
    hide Good; hide Sealed; hide Chunk; hide Wrap;
    if payload == [] {
    } else {
      var n := Min(|payload|, mss);
      var c, rest := Chunk(orig, payload[..n], startSeq), Chunks(payload[n..], mss, orig, Wrap(startSeq + n));
      ChunkGood(orig, payload[..n], startSeq, strict);
      ChunkFields(orig, payload[..n], startSeq);
      ChunksGood(payload[n..], mss, orig, Wrap(startSeq + n), strict);
      assert Chunks(payload, mss, orig, startSeq) == [c] + rest;
      hide Chunks; hide Duties;
      DutiesConcat([c], rest);
      DutiesOfOne(c);
      NoDutyFields(c);
    }
  }

  lemma {:induction false} SegmentizeKeeps(payload: seq<byte>, mss: nat, orig: Packet, startSeq: u32, strict: bool)
    requires mss > 0 && payload != []
    ensures var out := Segmentize(payload, mss, orig, startSeq);
      out != [] && Duties(out) == Duties([orig]) && (Good(orig, strict) ==> AllGood(out, strict))
  {
    hide Good; hide Sealed; hide Chunks; hide Duties; hide NoDuty;
    var chunks := Chunks(payload, mss, orig, startSeq);
    ChunksGood(payload, mss, orig, startSeq, strict);
    NoDutyFields(chunks[0]);
    var first := TakeOver(chunks[0], orig);
    var out := Segmentize(payload, mss, orig, startSeq);
    assert chunks == [chunks[0]] + chunks[1..] && out == [first] + chunks[1..];
    DutiesConcat([chunks[0]], chunks[1..]);
    DutiesConcat([first], chunks[1..]);
    DutiesOfOne(chunks[0]);
    DutiesOfOne(first);
    DutiesOfOne(orig);
    if Good(orig, strict) {
      TakeOverGood(chunks[0], orig, strict);
    }
  }

  lemma {:induction false} OverlapKeeps(ps: seq<Packet>, i: nat, length: nat, pattern: Option<seq<byte>>, room: u64, strict: bool)
    requires i < |ps| && Widenable(ps[i], length, pattern, room)
    ensures Keeps(ps, Overlap(ps, i, length, pattern, room).value, strict)
  {
    var pad := if length == 0 then [] else Padding(length, pattern);
    WidenedKeeps(ps[i], pad, room, strict);
    hide Widened; hide Good;
    ReplaceKeeps(ps, i, Widened(ps[i], pad, room).value, strict);
  }

  lemma {:induction false} OverlappedLabels(p: Packet, payload: seq<byte>, startSeq: u32)
    ensures var q := Overlapped(p, payload, startSeq); (q.action == Send <==> p.action == Send) && q.id == p.id
  {
    hide TcpChecksum; hide Narrow;
  }

  lemma {:induction false} WidenedKeeps(p: Packet, pad: seq<byte>, room: u64, strict: bool)
    requires HasRoom(p, |pad|, room)
    ensures var mid := Widened(p, pad, room).value;
      mid != [] && Duties(mid) == Duties([p]) && (Good(p, strict) ==> AllGood(mid, strict))
  {
    hide Good; hide Segmentize; hide Overlapped; hide Duties; hide Wrap;
    var payload, startSeq := pad + p.payload, Wrap(p.tcp.seqNo - Wrap(|pad|));
    if |payload| <= room {
      var q := Overlapped(p, payload, startSeq);
      OverlappedLabels(p, payload, startSeq);
      DutiesOfOne(p);
      DutiesOfOne(q);
      if Good(p, strict) {
        OverlappedGood(p, payload, startSeq, strict);
      }
    } else {
      SegmentizeKeeps(payload, room, p, startSeq, strict);
    }
  }

  // ----- passes -----

  /** The pass keeps the verdict fields and the quality of every packet. */
  ghost predicate Harmless(f: Packet -> Packet, strict: bool) {
    forall p :: f(p).action == p.action && f(p).id == p.id && (Good(p, strict) ==> Good(f(p), strict))
  }

  lemma {:induction false} DutiesPointwise(a: seq<Packet>, b: seq<Packet>)
    requires |a| == |b| && forall i :: 0 <= i < |a| ==> b[i].action == a[i].action && b[i].id == a[i].id
    ensures Duties(a) == Duties(b)
  {
    if a == [] {
    } else {
      DutiesPointwise(a[1..], b[1..]);
    }
  }

  lemma {:induction false} PassKeeps(ps: seq<Packet>, fakes: bool, f: Packet -> Packet, strict: bool)
    requires Harmless(f, strict)
    ensures Keeps(ps, Pass(ps, fakes, f), strict)
  {
    hide Good;
    PassAt(ps, fakes, f);
    DutiesPointwise(ps, Pass(ps, fakes, f));
  }

  lemma {:induction false} SetTtlGood(p: Packet, ttl: byte, strict: bool)
    requires Good(p, strict)
    ensures Good(SetTtl(p, ttl), strict)
  {
    var q := SetTtl(p, ttl);
    assert PseudoHeaderOf(WithCheck(q, 0)) == PseudoHeaderOf(WithCheck(p, 0));
  }

  lemma {:induction false} ResequenceGood(p: Packet, offset: int, strict: bool)
    requires Good(p, strict)
    ensures Good(Resequence(p, offset), strict)
  {
    hide TcpChecksum;
    var q := WithSeq(p, Wrap(p.tcp.seqNo + offset));
    if q.ip.totLen == Narrow(q.Size()) {
      SealedIs(q);
    }
  }

  lemma {:induction false} RestampGood(p: Packet, offset: int, strict: bool)
    requires Good(p, strict) && Restamp(p, offset).Done?
    ensures var q := Restamp(p, offset).value; q.action == p.action && q.id == p.id && Good(q, strict)
  {
    ShiftTimestampChanges(p.tcp.options, offset);
    var q := WithOptions(p, ShiftTimestamp(p.tcp.options, offset).value);
    assert |q.tcp.options| == |p.tcp.options|;
    if q.ip.totLen == Narrow(q.Size()) {
      SealedIs(q);
    }
  }

  lemma {:induction false} TtlKeeps(ps: seq<Packet>, fakes: bool, ttl: Option<byte>, strict: bool)
    ensures Keeps(ps, TtlPass(ps, fakes, ttl), strict)
  {
    hide Good;
    if ttl.Some? {
      forall p | Good(p, strict) ensures Good(TtlSetter(ttl.value)(p), strict) {
        SetTtlGood(p, ttl.value, strict);
      }
      PassKeeps(ps, fakes, TtlSetter(ttl.value), strict);
    } else {
      KeepsSelf(ps, strict);
    }
  }

  lemma {:induction false} SeqKeeps(ps: seq<Packet>, fakes: bool, offset: Option<int>, strict: bool)
    ensures Keeps(ps, SeqPass(ps, fakes, offset), strict)
  {
    hide Good;
    if offset.Some? {
      forall p | Good(p, strict) ensures Good(Resequencer(offset.value)(p), strict) {
        ResequenceGood(p, offset.value, strict);
      }
      PassKeeps(ps, fakes, Resequencer(offset.value), strict);
    } else {
      KeepsSelf(ps, strict);
    }
  }

  lemma {:induction false} BadKeeps(ps: seq<Packet>, fakes: bool, badcksum: bool, strict: bool)
    requires badcksum ==> !strict
    ensures Keeps(ps, BadPass(ps, fakes, badcksum), strict)
  {
    if badcksum {
      PassKeeps(ps, fakes, Spoiler(), strict);
    } else {
      KeepsSelf(ps, strict);
    }
  }

  lemma {:induction false} StampKeeps(ps: seq<Packet>, fakes: bool, offset: int, strict: bool)
    requires StampPass(ps, fakes, offset).Done?
    ensures Keeps(ps, StampPass(ps, fakes, offset).value, strict)
  {
    hide Good; hide Restamp;
    var to := StampPass(ps, fakes, offset).value;
    StampPassAt(ps, fakes, offset);
    forall i | 0 <= i < |ps|
      ensures to[i].action == ps[i].action && to[i].id == ps[i].id && (Good(ps[i], strict) ==> Good(to[i], strict))
    {
      assert Stamped(ps, to, i, fakes, offset);
      RestampLabels(ps[i], offset);
      if ps[i].isFake == fakes && Good(ps[i], strict) {
        RestampGood(ps[i], offset, strict);
      }
    }
    DutiesPointwise(ps, to);
  }

  lemma {:induction false} RestampLabels(p: Packet, offset: int)
    ensures Restamp(p, offset).Done? ==> Restamp(p, offset).value.action == p.action && Restamp(p, offset).value.id == p.id
  {
  }

  lemma {:induction false} TsKeeps(ps: seq<Packet>, fakes: bool, offset: Option<int>, strict: bool)
    requires TsPass(ps, fakes, offset).Done?
    ensures Keeps(ps, TsPass(ps, fakes, offset).value, strict)
  {
    if offset.Some? {
      StampKeeps(ps, fakes, offset.value, strict);
    } else {
      KeepsSelf(ps, strict);
    }
  }

  // ----- reversal and decoys -----

  lemma {:induction false} DutiesByKind(ps: seq<Packet>)
    ensures Duties(ps) == Duties(Fakes(ps)) + Duties(Originals(ps))
  {
    if ps == [] {
    } else {
      DutiesByKind(ps[1..]);
      DutiesConcat(if ps[0].isFake then [ps[0]] else [], Fakes(ps[1..]));
      DutiesConcat(if ps[0].isFake then [] else [ps[0]], Originals(ps[1..]));
      DutiesOfOne(ps[0]);
    }
  }

  lemma {:induction false} DutiesReverse(s: seq<Packet>)
    ensures Duties(Reverse(s)) == Duties(s)
  {
    if s == [] {
    } else {
      DutiesReverse(s[1..]);
      DutiesConcat(Reverse(s[1..]), [s[0]]);
      DutiesOfOne(s[0]);
    }
  }

  lemma {:induction false} MembersByKind(ps: seq<Packet>, p: Packet)
    ensures p in ps <==> p in Fakes(ps) || p in Originals(ps)
  {
    if ps == [] {
    } else {
      MembersByKind(ps[1..], p);
      assert ps == [ps[0]] + ps[1..];
    }
  }

  lemma {:induction false} ReverseKeeps(ps: seq<Packet>, strict: bool)
    ensures Keeps(ps, FilteredReverse(ps), strict)
  {
    hide Good;
    StreamKept.FilteredReverseParts(ps);
    hide FilteredReverse;
    var out := FilteredReverse(ps);
    DutiesByKind(ps);
    DutiesByKind(out);
    DutiesReverse(Originals(ps));
    forall i | 0 <= i < |out| && AllGood(ps, strict) ensures Good(out[i], strict) {
      MembersByKind(out, out[i]);
      StreamKept.ReverseMembers(Originals(ps));
      MembersByKind(ps, out[i]);
    }
  }

  lemma {:induction false} FakesOnly(fakes: seq<Packet>, blob: seq<byte>, front: Packet, strict: bool)
    requires Keeps([FakePacket(front, blob)], fakes, strict)
    ensures Duties(MarkFake(fakes)) == multiset{} && AllGood(MarkFake(fakes), strict)
  {
    var fake := FakePacket(front, blob);
    FakeGood(front, blob, strict);
    assert fake.action == Send;
    hide FakePacket;
    DutiesOfOne(fake);
    MarkFakeKeeps(fakes, strict);
  }

  lemma {:induction false} MarkedGood(p: Packet, strict: bool)
    requires Good(p, strict)
    ensures Good(p.(isFake := true), strict)
  {
    hide Sealed;
    if Sealed(p) {
      SealedRelabelled(p, p.action, p.id, true);
    }
  }

  lemma {:induction false} AllGoodCons(p: Packet, rest: seq<Packet>, strict: bool)
    requires Good(p, strict) && AllGood(rest, strict)
    ensures AllGood([p] + rest, strict)
  {
    hide Good;
  }

  lemma {:induction false} MarkFakeKeeps(ps: seq<Packet>, strict: bool)
    ensures Duties(MarkFake(ps)) == Duties(ps)
    ensures AllGood(ps, strict) ==> AllGood(MarkFake(ps), strict)
  {
    hide Good;
    if ps == [] {
    } else {
      var q, rest := ps[0].(isFake := true), MarkFake(ps[1..]);
      MarkFakeKeeps(ps[1..], strict);
      if Good(ps[0], strict) {
        MarkedGood(ps[0], strict);
      }
      assert MarkFake(ps) == [q] + rest && rest == ([q] + rest)[1..];
      hide MarkFake;
      if AllGood(ps, strict) {
        AllGoodCons(q, rest, strict);
      }
    }
  }

  lemma {:induction false} DecoysKeep(fakes: seq<Packet>, blob: seq<byte>, ps: seq<Packet>, strict: bool)
    requires ps != [] && Keeps([FakePacket(ps[0], blob)], fakes, strict)
    ensures Keeps(ps, MarkFake(fakes) + ps, strict)
  {
    hide FakePacket; hide Good;
    FakesOnly(fakes, blob, ps[0], strict);
    DutiesConcat(MarkFake(fakes), ps);
  }

  // ----- the modifiers -----

  lemma {:induction false} SplitterOriginalsKeep(ps: seq<Packet>, args: Args, overlap: Option<nat>, ctx: Context, strict: bool)
    requires SplitterOriginals(ps, args, overlap, ctx).Done? && (args.badcksum ==> !strict)
    ensures Keeps(ps, SplitterOriginals(ps, args, overlap, ctx).value, strict)
  {
    hide SplitAll; hide TtlPass; hide TsPass; hide SeqPass; hide BadPass; hide Keeps; hide SplitterOverlap;
    var cut := SplitAll(ps, args.splits, ctx).value;
    SplitAllKeeps(ps, args.splits, ctx, strict);
    var lived := TtlPass(cut, false, args.ipv4Ttl);
    TtlKeeps(cut, false, args.ipv4Ttl, strict);
    KeepsTrans(ps, cut, lived, strict);
    var timed := TsPass(lived, false, args.tsOffset).value;
    TsKeeps(lived, false, args.tsOffset, strict);
    KeepsTrans(ps, lived, timed, strict);
    var wide := if overlap.None? then timed else SplitterOverlap(timed, overlap.value, args, ctx).value;
    if overlap.Some? {
      SplitterOverlapKeeps(timed, overlap.value, args, ctx, strict);
      KeepsTrans(ps, timed, wide, strict);
    }
    var moved := SeqPass(wide, false, args.seqOffset);
    SeqKeeps(wide, false, args.seqOffset, strict);
    KeepsTrans(ps, wide, moved, strict);
    BadKeeps(moved, false, args.badcksum, strict);
    KeepsTrans(ps, moved, BadPass(moved, false, args.badcksum), strict);
  }

  lemma {:induction false} SplitterOverlapKeeps(ps: seq<Packet>, length: nat, args: Args, ctx: Context, strict: bool)
    requires SplitterOverlap(ps, length, args, ctx).Done?
    ensures Keeps(ps, SplitterOverlap(ps, length, args, ctx).value, strict)
  {
    hide Keeps; hide Overlap;
    var i := FirstOriginal(ps);
    if i < |ps| {
      OverlapKeeps(ps, i, length, args.seqovlPattern, PayloadRoom(ctx.mss, ps[i], SPLITTER_TCP_BASE), strict);
    } else {
      KeepsSelf(ps, strict);
    }
  }

  lemma {:induction false} DisorderOverlapKeeps(ps: seq<Packet>, pos: Position, args: Args, ctx: Context, strict: bool)
    requires DisorderOverlap(ps, pos, args, ctx).Done?
    ensures Keeps(ps, DisorderOverlap(ps, pos, args, ctx).value, strict)
  {
    hide Keeps; hide Overlap;
    var i, length := FirstOriginal(ps), OverlapLength(pos, ctx.marks).value;
    KeepsSelf(ps, strict);
    if i + 1 < |ps| && length.Some? {
      if length.value < |ps[0].payload| {
        OverlapKeeps(ps, i + 1, length.value, args.seqovlPattern, PayloadRoom(ctx.mss, ps[i + 1], DISORDER_TCP_BASE), strict);
      }
    }
  }

  lemma {:induction false} DisorderOriginalsKeep(ps: seq<Packet>, args: Args, overlap: Option<Position>, ctx: Context, strict: bool)
    requires DisorderOriginals(ps, args, overlap, ctx).Done? && (args.badcksum ==> !strict)
    ensures Keeps(ps, DisorderOriginals(ps, args, overlap, ctx).value, strict)
  {
    hide SplitAll; hide TtlPass; hide TsPass; hide SeqPass; hide BadPass; hide Keeps; hide DisorderOverlap;
    var cut := SplitAll(ps, args.splits, ctx).value;
    SplitAllKeeps(ps, args.splits, ctx, strict);
    var moved := SeqPass(cut, false, args.seqOffset);
    SeqKeeps(cut, false, args.seqOffset, strict);
    KeepsTrans(ps, cut, moved, strict);
    var timed := TsPass(moved, false, args.tsOffset).value;
    TsKeeps(moved, false, args.tsOffset, strict);
    KeepsTrans(ps, moved, timed, strict);
    var lived := TtlPass(timed, false, args.ipv4Ttl);
    TtlKeeps(timed, false, args.ipv4Ttl, strict);
    KeepsTrans(ps, timed, lived, strict);
    var wide := if overlap.None? then lived else DisorderOverlap(lived, overlap.value, args, ctx).value;
    if overlap.Some? {
      DisorderOverlapKeeps(lived, overlap.value, args, ctx, strict);
      KeepsTrans(ps, lived, wide, strict);
    }
    var bad := BadPass(wide, false, args.badcksum);
    BadKeeps(wide, false, args.badcksum, strict);
    KeepsTrans(ps, wide, bad, strict);
    BadKeeps(bad, false, args.badcksum, strict);
    KeepsTrans(ps, bad, BadPass(bad, false, args.badcksum), strict);
  }

  lemma {:induction false} SplitterFakesKeep(ps: seq<Packet>, args: Args, strict: bool)
    requires SplitterFakes(ps, args).Done? && (args.badcksum ==> !strict)
    ensures Keeps(ps, SplitterFakes(ps, args).value, strict)
  {
    hide TtlPass; hide TsPass; hide SeqPass; hide BadPass; hide Keeps;
    var lived := TtlPass(ps, true, args.ipv4Ttl);
    TtlKeeps(ps, true, args.ipv4Ttl, strict);
    var timed := TsPass(lived, true, args.tsOffset).value;
    TsKeeps(lived, true, args.tsOffset, strict);
    KeepsTrans(ps, lived, timed, strict);
    var moved := SeqPass(timed, true, args.seqOffset);
    SeqKeeps(timed, true, args.seqOffset, strict);
    KeepsTrans(ps, timed, moved, strict);
    BadKeeps(moved, true, args.badcksum, strict);
    KeepsTrans(ps, moved, BadPass(moved, true, args.badcksum), strict);
  }

  lemma {:induction false} DisorderFakesKeep(ps: seq<Packet>, args: Args, strict: bool)
    requires DisorderFakes(ps, args).Done? && (args.badcksum ==> !strict)
    ensures Keeps(ps, DisorderFakes(ps, args).value, strict)
  {
    hide TtlPass; hide TsPass; hide SeqPass; hide BadPass; hide Keeps;
    var moved := SeqPass(ps, true, args.seqOffset);
    SeqKeeps(ps, true, args.seqOffset, strict);
    var timed := TsPass(moved, true, args.tsOffset).value;
    TsKeeps(moved, true, args.tsOffset, strict);
    KeepsTrans(ps, moved, timed, strict);
    var lived := TtlPass(timed, true, args.ipv4Ttl);
    TtlKeeps(timed, true, args.ipv4Ttl, strict);
    KeepsTrans(ps, timed, lived, strict);
    BadKeeps(lived, true, args.badcksum, strict);
    KeepsTrans(ps, lived, BadPass(lived, true, args.badcksum), strict);
  }

  lemma {:induction false} ModifyOneKeeps(m: Mod, ps: seq<Packet>, ctx: Context, strict: bool)
    requires ModifyOne(m, ps, ctx).Done? && (m.args.badcksum ==> !strict)
    ensures Keeps(ps, ModifyOne(m, ps, ctx).value, strict)
  {
    hide Keeps; hide FakePacket; hide SplitterOriginals; hide DisorderOriginals; hide SplitterFakes; hide DisorderFakes;
    hide FilteredReverse;
    var args := m.args;
    match m {
      case Splitter(_, overlap) =>
        if args.fakeBlob.None? {
          SplitterOriginalsKeep(ps, args, overlap, ctx, strict);
        } else {
          var fake := FakePacket(ps[0], args.fakeBlob.value);
          SplitterFakesKeep([fake], args, strict);
          DecoysKeep(SplitterFakes([fake], args).value, args.fakeBlob.value, ps, strict);
        }
      case Disorder(_, overlapAt) =>
        if args.fakeBlob.None? {
          var out := DisorderOriginals(ps, args, overlapAt, ctx).value;
          DisorderOriginalsKeep(ps, args, overlapAt, ctx, strict);
          ReverseKeeps(out, strict);
          KeepsTrans(ps, out, FilteredReverse(out), strict);
        } else {
          var fake := FakePacket(ps[0], args.fakeBlob.value);
          var fakes := DisorderFakes([fake], args).value;
          DisorderFakesKeep([fake], args, strict);
          DecoysKeep(fakes, args.fakeBlob.value, ps, strict);
          ReverseKeeps(MarkFake(fakes) + ps, strict);
          KeepsTrans(ps, MarkFake(fakes) + ps, FilteredReverse(MarkFake(fakes) + ps), strict);
        }
    }
  }

  lemma {:induction false} ModifyAllKeeps(mods: seq<Mod>, ps: seq<Packet>, ctx: Context, strict: bool)
    requires ModifyAll(mods, ps, ctx).Done?
    requires forall i :: 0 <= i < |mods| ==> mods[i].args.badcksum ==> !strict
    ensures Keeps(ps, ModifyAll(mods, ps, ctx).value, strict)
    decreases |mods|
  {
    hide Keeps; hide ModifyOne;
    if mods == [] {
      KeepsSelf(ps, strict);
    } else if !Matches(mods[0], ctx.proto) {
      ModifyAllKeeps(mods[1..], ps, ctx, strict);
    } else {
      var next := ModifyOne(mods[0], ps, ctx).value;
      ModifyOneKeeps(mods[0], ps, ctx, strict);
      ModifyAllKeeps(mods[1..], next, ctx, strict);
      KeepsTrans(ps, next, ModifyAll(mods[1..], next, ctx).value, strict);
    }
  }

  lemma {:induction false} ModifyKeeps(config: Config, ps: seq<Packet>, proto: L7Proto, mss: nat, strict: bool)
    requires Modify(config, ps, proto, mss).Done?
    requires forall i :: 0 <= i < |config.mods| ==> config.mods[i].args.badcksum ==> !strict
    ensures Keeps(ps, Modify(config, ps, proto, mss).value, strict)
  {
    hide ModifyAll; hide Reassemble; hide Allowed; hide FindMarkers; hide Keeps;
    KeepsSelf(ps, strict);
    var out := Modify(config, ps, proto, mss).value;
    if out != ps {
      var marks := FindMarkers(Reassemble(OriginalSegments(ps)), proto).value.value;
      ModifyAllKeeps(config.mods, ps, Context(marks, proto, mss), strict);
    }
  }

  /** Verdict duties are conserved: whatever the modifiers do (splits, overlaps, re-segmentation,
      decoys, reversal), the ids that owe a verdict are the same afterwards, each as often as
      before; and if packets that the program only sends have id zero, so do all it adds. */
  lemma {:induction false} DutiesConserved(config: Config, ps: seq<Packet>, proto: L7Proto, mss: nat)
    requires Modify(config, ps, proto, mss).Done?
    ensures var out := Modify(config, ps, proto, mss).value;
      && Duties(out) == Duties(ps)
      && ((forall i :: 0 <= i < |ps| ==> ps[i].action == Send ==> ps[i].id == 0)
          ==> forall i :: 0 <= i < |out| ==> out[i].action == Send ==> out[i].id == 0)
  {
    hide Modify;
    ModifyKeeps(config, ps, proto, mss, false);
  }

  /** Every packet that the program itself puts on the wire has the right length field and, up to
      65535 bytes, passes the receiver's checksum test, provided no modifier spoils checksums.
      Freshly captured packets are only accepted, so nothing is assumed of them. */
  lemma {:induction false} SentPacketsWellFormed(config: Config, ps: seq<Packet>, proto: L7Proto, mss: nat, i: nat)
    requires Modify(config, ps, proto, mss).Done?
    requires forall k :: 0 <= k < |config.mods| ==> !config.mods[k].args.badcksum
    requires forall k :: 0 <= k < |ps| ==> ps[k].action == Accept
    requires var out := Modify(config, ps, proto, mss).value;
      i < |out| && (out[i].action == Send || out[i].action == DropAndSend) && out[i].Size() <= 0xFFFF
    ensures var p := Modify(config, ps, proto, mss).value[i];
      p.ip.totLen == |WireBytes(p)| == p.Size() && Verifies(WireBytes(p))
  {
    hide Modify;
    ModifyKeeps(config, ps, proto, mss, true);
    var p := Modify(config, ps, proto, mss).value[i];
    assert Good(p, true);
    SealedVerifies(p);
  }

  lemma {:induction false} SealedVerifies(p: Packet)
    requires Sealed(p) && p.Size() <= 0xFFFF
    ensures p.ip.totLen == |WireBytes(p)| == p.Size() && Verifies(WireBytes(p))
  {
    hide Narrow; hide Checksummed; hide Verifies; hide WireBytes;
    ChecksummedVerifies(p);
    WireParts(p);
    NarrowSmall(p.Size());
  }
}
