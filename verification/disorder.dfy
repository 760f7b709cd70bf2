/** Sequence overlap in the disorder modifier, up to and including the reversal that follows it. */
module DisorderHidden {
  import opened Base
  import opened Serial
  import opened Packets
  import opened Checksum
  import opened Reassembly
  import opened Splitting
  import opened Segmentation
  import opened Markers
  import opened Modifiers
  import opened StreamKept
  import opened OverlapHidden
  import opened Samples

  // ----- reversal -----

  lemma {:induction false} ReverseConcat<T(!new)>(a: seq<T>, b: seq<T>)
    ensures Reverse(a + b) == Reverse(b) + Reverse(a)
  {
    if a == [] {
      assert a + b == b;
    } else {
      assert (a + b)[1..] == a[1..] + b;
      ReverseConcat(a[1..], b);
    }
  }

  lemma {:induction false} ReversedSegments(ps: seq<Packet>)
    ensures OriginalSegments(FilteredReverse(ps)) == Reverse(OriginalSegments(ps))
  {
    FilteredReverseParts(ps);
    hide FilteredReverse;
    ReverseAt(Originals(ps));
    ReverseAt(OriginalSegments(ps));
  }

  lemma {:induction false} ReverseThree(x: seq<Segment>, y: seq<Segment>, z: seq<Segment>)
    ensures Reverse(x + y + z) == Reverse(z) + Reverse(y) + Reverse(x)
  {
    hide Reverse;
    ReverseConcat(x + y, z);
    ReverseConcat(x, y);
  }

  lemma {:induction false} ReversedOrder(a: Segment, mid: seq<Segment>, post: seq<Segment>)
    ensures Reverse([a] + mid + post) == Reverse(post) + Reverse(mid) + [a]
    ensures Permuted(Reverse([a] + mid + post), [a] + mid + post)
  {
    ReverseOne(a);
    hide Reverse;
    ReverseThree([a], mid, post);
    ReverseMembers([a] + mid + post);
  }

  lemma {:induction false} ReverseOne(a: Segment)
    ensures Reverse([a]) == [a]
  {
    assert [a][1..] == [];
  }

  // ----- what shows after the reversal -----

  /** In the reversed list the padding shows at k: it reaches back to the first segment's start, a
      replacement from there covers k, and no later segment that starts there does. */
  ghost predicate PaddingShows(a: Segment, mid: seq<Segment>, post: seq<Segment>, pad: seq<byte>, k: nat) {
    k < |a.data| && |pad| == |a.data| && !Shows(post, a.seqNo, k) && Shows(mid, a.seqNo, k)
  }

  lemma {:induction false} ShowsReversed(segs: seq<Segment>, base: u32, k: nat)
    ensures Shows(Reverse(segs), base, k) <==> Shows(segs, base, k)
  {
    ReverseMembers(segs);
  }

  lemma {:induction false} PostShowsTruth(a: Segment, b: Segment, mid: seq<Segment>, post: seq<Segment>,
                                          pad: seq<byte>, stream: seq<byte>, k: nat)
    requires Widens(a, b, mid, post, pad, stream) && k < |a.data| && Shows(post, a.seqNo, k)
    ensures Showing(Reverse(post), a.seqNo, k) == Some(a.data[k])
  {
    ShowsReversed(post, a.seqNo, k);
    ShowingIsMember(Reverse(post), a.seqNo, k);
    ReverseMembers(post);
    WidensSlices(a, b, mid, post, pad, stream);
    var g :| g in Reverse(post) && g.seqNo == a.seqNo && k < |g.data| && Showing(Reverse(post), a.seqNo, k) == Some(g.data[k]);
    hide Showing; hide Reverse; hide Widens; hide Shows;
    AtBase(a.seqNo, a.seqNo);
    assert SliceOf(a, stream, a.seqNo) && SliceOf(g, stream, a.seqNo);
    assert stream[0..|g.data|][k] == g.data[k] && stream[0..|a.data|][k] == a.data[k];
  }

  lemma {:induction false} ShownBy(segs: seq<Segment>, base: u32, k: nat) returns (g: Segment)
    requires Shows(segs, base, k)
    ensures g in segs && g.seqNo == base && k < |g.data| && Showing(Reverse(segs), base, k) == Some(g.data[k])
  {
    ShowsReversed(segs, base, k);
    ShowingIsMember(Reverse(segs), base, k);
    ReverseMembers(segs);
    hide Reverse; hide Showing; hide Shows;
    g :| g in Reverse(segs) && g.seqNo == base && k < |g.data| && Showing(Reverse(segs), base, k) == Some(g.data[k]);
  }

  lemma {:induction false} MidSlices(a: Segment, b: Segment, mid: seq<Segment>, post: seq<Segment>,
                                     pad: seq<byte>, stream: seq<byte>, g: Segment)
    requires Widens(a, b, mid, post, pad, stream) && g in mid
    ensures SliceOf(g, pad + b.data, Wrap(b.seqNo - |pad|))
    ensures Dist(b.seqNo, a.seqNo) == |a.data| < 0x8000_0000
  {
    WidensSlices(a, b, mid, post, pad, stream);
    hide Wrap; hide Dist;
  }

  lemma {:induction false} MidShowsPadding(a: Segment, b: Segment, mid: seq<Segment>, post: seq<Segment>,
                                           pad: seq<byte>, stream: seq<byte>, k: nat)
    requires Widens(a, b, mid, post, pad, stream) && |pad| <= |a.data| && k < |a.data| && Shows(mid, a.seqNo, k)
    ensures |pad| == |a.data| && Showing(Reverse(mid), a.seqNo, k) == Some(pad[k])
  {
    hide *;
    var g := ShownBy(mid, a.seqNo, k);
    MidSlices(a, b, mid, post, pad, stream, g);
    StartBehind(a.seqNo, b.seqNo, |a.data|, |pad|);
    SliceAtStart(g, pad + b.data, Wrap(b.seqNo - |pad|), k);
    assert k < |pad| ==> (pad + b.data)[k] == pad[k];
  }

  lemma {:induction false} SliceAtStart(g: Segment, long: seq<byte>, start: u32, k: nat)
    requires SliceOf(g, long, start) && k < |g.data|
    ensures Dist(g.seqNo, start) < 0x8000_0000
    ensures Dist(g.seqNo, start) == 0 ==> k < |long| && g.data[k] == long[k]
  {
    if Dist(g.seqNo, start) == 0 {
      assert long[0..|g.data|][k] == g.data[k];
    }
  }

  lemma {:induction false} StartBehind(a: u32, b: u32, n: nat, pad: nat)
    requires Dist(b, a) == n && pad <= n < 0x8000_0000
    ensures Dist(a, Wrap(b - pad)) < 0x8000_0000 ==> pad == n && Wrap(b - pad) == a
    ensures pad == n ==> Wrap(b - pad) == a && Dist(a, Wrap(b - pad)) == 0
  {
    assert b == a + n || b == a + n - 0x1_0000_0000;
  }

  /** The reversed list shows the truth exactly if the padding that shows agrees with it. */
  lemma {:induction false} ReversedTruth(a: Segment, b: Segment, mid: seq<Segment>, post: seq<Segment>,
                                         pad: seq<byte>, stream: seq<byte>)
    requires Widens(a, b, mid, post, pad, stream) && |pad| <= |a.data|
    ensures ShowsTruth(Reverse([a] + mid + post), a)
      <==> forall k: nat :: PaddingShows(a, mid, post, pad, k) ==> pad[k] == a.data[k]
  {
    var after := Reverse([a] + mid + post);
    ReversedOrder(a, mid, post);
    forall k: nat | k < |a.data|
      ensures Showing(after, a.seqNo, k) == Some(if PaddingShows(a, mid, post, pad, k) then pad[k] else a.data[k])
    {
      ShowingAt(a, b, mid, post, pad, stream, k);
    }
  }

  lemma {:induction false} ShowingAt(a: Segment, b: Segment, mid: seq<Segment>, post: seq<Segment>,
                                     pad: seq<byte>, stream: seq<byte>, k: nat)
    requires Widens(a, b, mid, post, pad, stream) && |pad| <= |a.data| && k < |a.data|
    ensures Showing(Reverse(post) + Reverse(mid) + [a], a.seqNo, k)
         == Some(if PaddingShows(a, mid, post, pad, k) then pad[k] else a.data[k])
  {
    ShowingConcat(Reverse(post) + Reverse(mid), [a], a.seqNo, k);
    ShowingConcat(Reverse(post), Reverse(mid), a.seqNo, k);
    ShowsReversed(post, a.seqNo, k);
    ShowsReversed(mid, a.seqNo, k);
    ShowingIsMember(Reverse(post), a.seqNo, k);
    ShowingIsMember(Reverse(mid), a.seqNo, k);
    hide Shows; hide Widens; hide Reverse;
    if Shows(post, a.seqNo, k) {
      PostShowsTruth(a, b, mid, post, pad, stream, k);
    } else if Shows(mid, a.seqNo, k) {
      MidShowsPadding(a, b, mid, post, pad, stream, k);
    } else {
      assert Showing([a], a.seqNo, k) == Some(a.data[k]);
    }
  }

  // ----- which replacement packets reach back to the first segment -----

  /** Among the packets that replace the widened one, only the first starts at the padding's start;
      it is as long as the room allows. */
  lemma {:induction false} WidenedShows(p: Packet, pad: seq<byte>, room: u64, k: nat)
    requires HasRoom(p, |pad|, room) && !p.isFake && |pad| + |p.payload| < 0x8000_0000 && k < |pad|
    ensures Shows(OriginalSegments(Widened(p, pad, room).value), Wrap(p.tcp.seqNo - |pad|), k) <==> k < room
  {
    hide OriginalSegments; hide Segmentize; hide Overlapped; hide Shows;
    var payload, start := pad + p.payload, Wrap(p.tcp.seqNo - Wrap(|pad|));
    assert start == Wrap(p.tcp.seqNo - |pad|) by {
      WrapSmall(|pad|);
    }
    hide Wrap;
    if |payload| <= room {
      SingleShows(p, payload, start, k);
    } else {
      ChunksShow(payload, room, p, start, k);
    }
  }

  lemma {:induction false} SingleShows(p: Packet, payload: seq<byte>, start: u32, k: nat)
    requires !p.isFake && k < |payload|
    ensures Shows(OriginalSegments([Overlapped(p, payload, start)]), start, k)
  {
    var q := Overlapped(p, payload, start);
    assert SegmentOf(q) == Segment(start, payload) && !q.isFake;
    hide Overlapped;
    OriginalsOfTwo(q, q);
    assert SegmentOf(q) in OriginalSegments([q]);
  }

  lemma {:induction false} ChunksShow(payload: seq<byte>, room: nat, orig: Packet, start: u32, k: nat)
    requires 0 < room < |payload| < 0x8000_0000 && !orig.isFake
    ensures Shows(OriginalSegments(Segmentize(payload, room, orig, start)), start, k) <==> k < room
  {
    hide Chunks; hide TakeOver; hide Wrap;
    var chunks, out := Chunks(payload, room, orig, start), Segmentize(payload, room, orig, start);
    ChunksPartition(payload, room, orig, start);
    TakeOverSegments(chunks, orig);
    FirstChunkFull(chunks, room, orig, start, payload);
    forall i | 0 <= i < |chunks| ensures !chunks[i].isFake && (chunks[i].tcp.seqNo == start <==> i == 0) {
      assert ChunkAt(chunks, i, room, orig, start);
      ChunkStart(chunks, i, room, orig, start, payload);
    }
    AllOriginal(out);
    hide Payloads; hide ChunkAt;
    var segs := Segments(chunks);
    assert OriginalSegments(out) == segs;
    assert segs[0] in segs && segs[0].data == chunks[0].payload;
    if Shows(segs, start, k) {
      var g :| g in segs && g.seqNo == start && k < |g.data|;
      var i :| 0 <= i < |segs| && segs[i] == g;
    }
  }

  lemma {:induction false} FirstChunkFull(chunks: seq<Packet>, room: nat, orig: Packet, start: u32, payload: seq<byte>)
    requires chunks != [] && Payloads(chunks) == payload && room < |payload|
    requires forall j :: 0 <= j < |chunks| ==> ChunkAt(chunks, j, room, orig, start)
    ensures |chunks[0].payload| == room
  {
    assert ChunkAt(chunks, 0, room, orig, start);
    OnlyOne(chunks);
  }

  lemma {:induction false} OnlyOne(ps: seq<Packet>)
    ensures |ps| == 1 ==> Payloads(ps) == ps[0].payload
  {
    if |ps| == 1 {
      assert ps[1..] == [];
    }
  }

  lemma {:induction false} ChunkStart(chunks: seq<Packet>, i: nat, room: nat, orig: Packet, start: u32, payload: seq<byte>)
    requires i < |chunks| && Payloads(chunks) == payload && |payload| < 0x8000_0000
    requires forall j :: 0 <= j < |chunks| ==> ChunkAt(chunks, j, room, orig, start)
    ensures chunks[i].tcp.seqNo == start <==> i == 0
  {
    var n := |Payloads(chunks[..i])|;
    assert ChunkAt(chunks, i, room, orig, start) && ChunkAt(chunks, 0, room, orig, start);
    PayloadSlice(chunks, i);
    if i == 0 {
      assert chunks[..0] == [];
      WrapSmall(start);
    } else {
      assert chunks[..i][0] == chunks[0] && n >= |chunks[0].payload|;
      hide Payloads;
      DistAdd(start, start, n);
      AtBase(start, start);
      AtBase(chunks[i].tcp.seqNo, start);
    }
  }

  // ----- the step -----

  /** The packet after the first original is an original that continues it. */
  ghost predicate AdjacentLeaders(ps: seq<Packet>, i: nat) {
    && i + 1 < |ps| && !ps[i].isFake && !ps[i + 1].isFake
    && Dist(ps[i + 1].tcp.seqNo, ps[i].tcp.seqNo) == |ps[i].payload|
  }

  ghost function PadOf(length: nat, pattern: Option<seq<byte>>): (pad: seq<byte>)
    requires pattern == Some([]) ==> length == 0
    ensures |pad| == length
  {
    if length == 0 then [] else Padding(length, pattern)
  }

  /** Wherever the first replacement packet reaches and no later original that starts at the same
      number does, the padding repeats the first original. */
  ghost predicate PaddingAgrees(ps: seq<Packet>, i: nat, pad: seq<byte>, room: nat)
    requires i + 1 < |ps| && |pad| == |ps[i].payload|
  {
    forall k: nat :: k < |pad| && k < room && !Shows(OriginalSegments(ps[i + 2..]), ps[i].tcp.seqNo, k) ==> pad[k] == ps[i].payload[k]
  }

  /** The overlap stays behind the first original's start, or exactly reaches it with padding that
      says the same. */
  ghost predicate StaysHidden(ps: seq<Packet>, i: nat, length: nat, pattern: Option<seq<byte>>, room: nat)
    requires i + 1 < |ps| && (pattern == Some([]) ==> length == 0)
  {
    length < |ps[i].payload| || (length == |ps[i].payload| && PaddingAgrees(ps, i, PadOf(length, pattern), room))
  }

  lemma {:induction false} ShapeReversed(ps: seq<Packet>, i: nat, mid: seq<Packet>)
    requires i + 1 < |ps| && !ps[i].isFake && !ps[i + 1].isFake && forall j :: 0 <= j < i ==> ps[j].isFake
    ensures var post := OriginalSegments(ps[i + 2..]);
      && OriginalSegments(ps) == [SegmentOf(ps[i]), SegmentOf(ps[i + 1])] + post
      && OriginalSegments(FilteredReverse(ps[..i + 1] + mid + ps[i + 2..]))
         == Reverse([SegmentOf(ps[i])] + OriginalSegments(mid) + post)
  {
    hide OriginalSegments; hide SegmentOf; hide FilteredReverse;
    SecondShape(ps, i, mid);
    ReversedSegments(ps[..i + 1] + mid + ps[i + 2..]);
  }

  lemma {:induction false} OverlapReversed(ps: seq<Packet>, i: nat, length: nat, pattern: Option<seq<byte>>, room: u64, stream: seq<byte>)
    requires i + 1 < |ps| && (forall j :: 0 <= j < i ==> ps[j].isFake) && AdjacentLeaders(ps, i)
    requires Widenable(ps[i + 1], length, pattern, room)
    requires Consistent(OriginalSegments(ps), stream, ps[i].tcp.seqNo) && length + |stream| < 0x8000_0000
    ensures pattern == Some([]) ==> length == 0
    ensures Reassemble(OriginalSegments(FilteredReverse(Overlap(ps, i + 1, length, pattern, room).value))) == Reassemble(OriginalSegments(ps))
      <==> StaysHidden(ps, i, length, pattern, room)
  {
    hide Widened; hide Padding; hide PadOf; hide Reassemble; hide FilteredReverse; hide OriginalSegments; hide Fills; hide Consistent;
    hide Dist; hide Wrap; hide SliceOf; hide Reverse; hide PaddingShows; hide PaddingAgrees; hide Shows;
    var a, b, pad := SegmentOf(ps[i]), SegmentOf(ps[i + 1]), PadOf(length, pattern);
    PadIs(length, pattern);
    var mid := Widened(ps[i + 1], pad, room).value;
    var wide, post := OriginalSegments(mid), OriginalSegments(ps[i + 2..]);
    assert Overlap(ps, i + 1, length, pattern, room) == Done(ps[..i + 1] + mid + ps[i + 2..]);
    hide Overlap;
    ShapeReversed(ps, i, mid);
    SecondIsSlice(a, b, post, stream);
    WidenedFills(ps[i + 1], pad, room);
    WidensHere(a, b, wide, post, pad, stream);
    DecidedReversed(a, b, wide, post, pad, stream);
    if length <= |ps[i].payload| {
      ShownByRoom(ps, i, pad, room);
    }
  }

  lemma {:induction false} PadIs(length: nat, pattern: Option<seq<byte>>)
    requires pattern == Some([]) ==> length == 0
    ensures PadOf(length, pattern) == if length == 0 then [] else Padding(length, pattern)
  {
  }

  lemma {:induction false} WidensHere(a: Segment, b: Segment, mid: seq<Segment>, post: seq<Segment>, pad: seq<byte>, stream: seq<byte>)
    requires Consistent([a, b] + post, stream, a.seqNo) && |pad| + |stream| < 0x8000_0000
    requires Dist(b.seqNo, a.seqNo) == |a.data| && Fills(mid, pad + b.data, Wrap(b.seqNo - |pad|))
    ensures Widens(a, b, mid, post, pad, stream)
  {
  }

  /** The same on segments. */
  lemma {:induction false} DecidedReversed(a: Segment, b: Segment, mid: seq<Segment>, post: seq<Segment>,
                                           pad: seq<byte>, stream: seq<byte>)
    requires Widens(a, b, mid, post, pad, stream)
    ensures Reassemble(Reverse([a] + mid + post)) == Reassemble([a, b] + post)
      <==> |pad| <= |a.data| && forall k: nat :: PaddingShows(a, mid, post, pad, k) ==> pad[k] == a.data[k]
  {
    hide Widens; hide Reassemble; hide PaddingShows; hide Reverse; hide ShowsTruth;
    ReversedOrder(a, mid, post);
    hide Permuted;
    if |pad| > |a.data| {
      OverlapBeyond(a, b, mid, post, pad, stream, Reverse([a] + mid + post));
    } else {
      OverlapShown(a, b, mid, post, pad, stream, Reverse([a] + mid + post));
      ReversedTruth(a, b, mid, post, pad, stream);
    }
  }

  lemma {:induction false} SecondIsSlice(a: Segment, b: Segment, post: seq<Segment>, stream: seq<byte>)
    requires Consistent([a, b] + post, stream, a.seqNo)
    ensures SliceOf(b, stream, a.seqNo)
  {
    assert b in [a, b] + post;
  }

  lemma {:induction false} ShownByRoom(ps: seq<Packet>, i: nat, pad: seq<byte>, room: u64)
    requires AdjacentLeaders(ps, i) && |pad| <= |ps[i].payload| && HasRoom(ps[i + 1], |pad|, room)
    requires |pad| + |ps[i + 1].payload| < 0x8000_0000
    ensures var a, mid, post := SegmentOf(ps[i]), OriginalSegments(Widened(ps[i + 1], pad, room).value), OriginalSegments(ps[i + 2..]);
      (forall k: nat :: PaddingShows(a, mid, post, pad, k) ==> pad[k] == a.data[k])
      <==> |pad| < |ps[i].payload| || PaddingAgrees(ps, i, pad, room)
  {
    hide Widened; hide OriginalSegments; hide Shows;
    var p := ps[i + 1];
    if |pad| == |ps[i].payload| {
      StartBehind(ps[i].tcp.seqNo, p.tcp.seqNo, |pad|, |pad|);
      hide Wrap;
      forall k: nat | k < |pad|
        ensures Shows(OriginalSegments(Widened(p, pad, room).value), ps[i].tcp.seqNo, k) <==> k < room
      {
        WidenedShows(p, pad, room, k);
      }
    }
  }

  // ----- the modifier -----

  /** The packets on which the overlap works: split, moved, stamped, with their TTL. */
  function Prepared(ps: seq<Packet>, args: Args, ctx: Context): Outcome<seq<Packet>> {
    var cut :- SplitAll(ps, args.splits, ctx);
    var timed :- TsPass(SeqPass(cut, false, args.seqOffset), false, args.tsOffset);
    Done(TtlPass(timed, false, args.ipv4Ttl))
  }

  lemma {:induction false} PreparedCarries(ps: seq<Packet>, args: Args, ctx: Context, stream: seq<byte>, origin: u32)
    requires Consistent(OriginalSegments(ps), stream, origin) && Prepared(ps, args, ctx).Done?
    ensures var lived := Prepared(ps, args, ctx).value;
      && Consistent(OriginalSegments(lived), stream, Wrap(origin + Offset(args)))
      && Reassemble(OriginalSegments(lived)) == Reassemble(OriginalSegments(ps))
  {
    hide SplitAll; hide TtlPass; hide TsPass; hide SeqPass; hide Reassemble; hide OriginalSegments; hide Consistent; hide SameExtent;
    var ref := OriginalSegments(ps);
    var cut := SplitAll(ps, args.splits, ctx).value;
    OwnExtent(ref, origin);
    SplitAllCarries(ps, args.splits, ctx, stream, origin, ref, origin);
    var moved := SeqPass(cut, false, args.seqOffset);
    var o := SeqPassCarries(cut, false, args.seqOffset, stream, origin, ref, origin);
    WrapSmall(origin);
    TsKeepsSegments(moved, false, args.tsOffset);
    var timed := TsPass(moved, false, args.tsOffset).value;
    TtlKeepsSegments(timed, false, args.ipv4Ttl);
    SameExtentSameBytes(ref, origin, OriginalSegments(moved), o, stream);
  }

  lemma {:induction false} DisorderIs(ps: seq<Packet>, args: Args, pos: Position, ctx: Context)
    requires args.fakeBlob.None? && ModifyDisorder(ps, args, Some(pos), ctx).Done?
    ensures Prepared(ps, args, ctx).Done? && DisorderOverlap(Prepared(ps, args, ctx).value, pos, args, ctx).Done?
    ensures OriginalSegments(ModifyDisorder(ps, args, Some(pos), ctx).value)
         == OriginalSegments(FilteredReverse(DisorderOverlap(Prepared(ps, args, ctx).value, pos, args, ctx).value))
  {
    hide SplitAll; hide TtlPass; hide TsPass; hide SeqPass; hide BadPass; hide DisorderOverlap; hide OriginalSegments; hide FilteredReverse;
    var wide := DisorderOverlap(Prepared(ps, args, ctx).value, pos, args, ctx).value;
    var bad := BadPass(wide, false, args.badcksum);
    BadKeepsSegments(wide, false, args.badcksum);
    BadKeepsSegments(bad, false, args.badcksum);
    ReversedSegments(wide);
    ReversedSegments(BadPass(bad, false, args.badcksum));
  }

  lemma {:induction false} ReverseHidden(ps: seq<Packet>, stream: seq<byte>, origin: u32)
    requires Consistent(OriginalSegments(ps), stream, origin)
    ensures Reassemble(OriginalSegments(FilteredReverse(ps))) == Reassemble(OriginalSegments(ps))
  {
    hide Reassemble; hide OriginalSegments; hide FilteredReverse; hide Consistent;
    ReversedSegments(ps);
    ReverseMembers(OriginalSegments(ps));
    ReassembleOrderFree(OriginalSegments(ps), OriginalSegments(FilteredReverse(ps)), stream, origin);
  }

  /** The overlap on the prepared packets, up to the reversal. */
  lemma {:induction false} StepHidden(ps: seq<Packet>, pos: Position, args: Args, ctx: Context, stream: seq<byte>, length: nat)
    requires DisorderOverlap(ps, pos, args, ctx).Done? && OverlapLength(pos, ctx.marks) == Done(Some(length))
    requires AdjacentLeaders(ps, FirstOriginal(ps)) && length + |stream| < 0x8000_0000
    requires Consistent(OriginalSegments(ps), stream, ps[FirstOriginal(ps)].tcp.seqNo)
    ensures length < |ps[0].payload| && args.seqovlPattern == Some([]) ==> length == 0
    ensures Reassemble(OriginalSegments(FilteredReverse(DisorderOverlap(ps, pos, args, ctx).value))) == Reassemble(OriginalSegments(ps))
      <==> length >= |ps[0].payload| || StaysHidden(ps, FirstOriginal(ps), length, args.seqovlPattern, RoomAt(ps, ctx))
  {
    hide OverlapLength; hide Reassemble; hide Overlap; hide OriginalSegments; hide Consistent; hide StaysHidden; hide FilteredReverse;
    var i := FirstOriginal(ps);
    if length < |ps[0].payload| {
      OverlapReversed(ps, i, length, args.seqovlPattern, RoomAt(ps, ctx), stream);
    } else {
      ReverseHidden(ps, stream, ps[i].tcp.seqNo);
    }
  }

  /** The payload room of the packet that is widened. */
  function RoomAt(ps: seq<Packet>, ctx: Context): u64
    requires FirstOriginal(ps) + 1 < |ps|
  {
    PayloadRoom(ctx.mss, ps[FirstOriginal(ps) + 1], DISORDER_TCP_BASE)
  }

  /** The disorder modifier with an overlap of two adjacent leading segments, reversal included,
      leaves reassembly unchanged exactly if the overlap is refused, is shorter than the first
      segment, or equals it with padding that agrees wherever it shows. The code refuses by the size
      of the front packet; that is the first segment, and the condition always holds, unless a
      decoy stands in front. */
  lemma {:induction false} DisorderOverlapInvisible(ps: seq<Packet>, args: Args, pos: Position, ctx: Context,
                                                    stream: seq<byte>, origin: u32, length: nat)
    requires args.fakeBlob.None? && ModifyDisorder(ps, args, Some(pos), ctx).Done?
    requires Consistent(OriginalSegments(ps), stream, origin)
    requires OverlapLength(pos, ctx.marks) == Done(Some(length)) && length + |stream| < 0x8000_0000
    requires Prepared(ps, args, ctx).Done?
    requires var lived := Prepared(ps, args, ctx).value;
      AdjacentLeaders(lived, FirstOriginal(lived)) && lived[FirstOriginal(lived)].tcp.seqNo == Wrap(origin + Offset(args))
    ensures var lived := Prepared(ps, args, ctx).value;
      var i := FirstOriginal(lived);
      && (length < |lived[0].payload| && args.seqovlPattern == Some([]) ==> length == 0)
      && (Reassemble(OriginalSegments(ModifyDisorder(ps, args, Some(pos), ctx).value)) == Reassemble(OriginalSegments(ps))
          <==> length >= |lived[0].payload| || StaysHidden(lived, i, length, args.seqovlPattern, RoomAt(lived, ctx)))
      && (!lived[0].isFake && length < |lived[0].payload| ==> StaysHidden(lived, i, length, args.seqovlPattern, RoomAt(lived, ctx)))
  {
    hide ModifyDisorder; hide Reassemble; hide OriginalSegments; hide Consistent; hide DisorderOverlap; hide FilteredReverse; hide OverlapLength;
    hide RoomAt; hide PaddingAgrees; hide Prepared;
    DisorderIs(ps, args, pos, ctx);
    PreparedCarries(ps, args, ctx, stream, origin);
    StepHidden(Prepared(ps, args, ctx).value, pos, args, ctx, stream, length);
  }

  // ----- a decoy in front opens the overlap -----

  const TEN_ZEROS: seq<byte> := [0, 0, 0, 0, 0, 0, 0, 0, 0, 0]

  const TOUCHING: seq<Packet> := [Captive(1, 100, [1, 2]), Captive(2, 102, [3])]

  const DECOY: Mod := Splitter(PLAIN.(fakeBlob := Some(TEN_ZEROS)), None)

  function Widening(length: u64): Mod {
    Disorder(PLAIN, Some(Position(Other, NoOperation, length)))
  }

  lemma {:induction false} WithoutLists(mods: seq<Mod>, ps: seq<Packet>, mss: nat)
    ensures Modify(Config(mods, None, None), ps, L7Proto.Unknown, mss) == ModifyAll(mods, ps, Context(NO_MARKS, L7Proto.Unknown, mss))
  {
    hide ModifyAll; hide Reassemble; hide OriginalSegments;
  }

  lemma {:induction false} TwoModifiers(a: Mod, b: Mod, ps: seq<Packet>, mid: seq<Packet>, ctx: Context)
    requires Matches(a, ctx.proto) && Matches(b, ctx.proto) && ModifyOne(a, ps, ctx) == Done(mid)
    ensures ModifyAll([a, b], ps, ctx) == ModifyOne(b, mid, ctx)
  {
    hide ModifyOne; hide Matches;
    assert [a, b][1..] == [b] && [b][1..] == [];
    assert ModifyAll([b], mid, ctx) == ModifyOne(b, mid, ctx);
  }

  lemma {:induction false} BothMatch(length: u64, ctx: Context)
    ensures Matches(DECOY, ctx.proto) && Matches(Widening(length), ctx.proto)
    ensures forall ps :: ModifyOne(DECOY, ps, ctx) == ModifySplitter(ps, DECOY.args, None, ctx)
    ensures forall ps :: ModifyOne(Widening(length), ps, ctx) == ModifyDisorder(ps, PLAIN, Some(Position(Other, NoOperation, length)), ctx)
  {
    hide ModifySplitter; hide ModifyDisorder;
  }

  /** A ten-byte decoy, then an overlap of at least the first segment and less than the decoy: for
      each such length the run ends, and what reassembles is not what was captured. */
  lemma {:induction false} DecoyOpensOverlap(length: u64)
    requires 2 <= length < 10
    ensures var run := Modify(Config([DECOY, Widening(length)], None, None), TOUCHING, L7Proto.Unknown, 536);
      run.Done? && Reassemble(OriginalSegments(run.value)) != Reassemble(OriginalSegments(TOUCHING))
  {
    hide *;
    var ctx, mixed := Context(NO_MARKS, L7Proto.Unknown, 536), [DecoyPacket()] + TOUCHING;
    DecoyRuns(ctx);
    DecoyedMixed();
    WideningTears(mixed, length, ctx);
    DecoyedSegments(mixed);
    BothMatch(length, ctx);
    TwoModifiers(DECOY, Widening(length), TOUCHING, mixed, ctx);
    WithoutLists([DECOY, Widening(length)], TOUCHING, 536);
  }

  lemma {:induction false} DecoyedMixed()
    ensures DecoyLeads([DecoyPacket()] + TOUCHING)
  {
    hide DecoyPacket;
  }

  function DecoyPacket(): (p: Packet)
    ensures p.isFake && p.payload == TEN_ZEROS
  {
    hide TcpChecksum;
    FakePacket(TOUCHING[0], TEN_ZEROS)
  }

  lemma {:induction false} DecoyIs()
    ensures FakePacket(TOUCHING[0], TEN_ZEROS) == DecoyPacket()
  {
    hide FakePacket;
  }

  lemma {:induction false} MarkedAlready(p: Packet)
    requires p.isFake
    ensures MarkFake([p]) == [p]
  {
    assert [p][1..] == [] && p.(isFake := true) == p;
  }

  lemma {:induction false} DecoyRuns(ctx: Context)
    ensures ModifySplitter(TOUCHING, DECOY.args, None, ctx) == Done([DecoyPacket()] + TOUCHING)
  {
    hide FakePacket; hide DecoyPacket; hide MarkFake;
    var decoy := DecoyPacket();
    DecoyIs();
    MarkedAlready(decoy);
    assert SplitterFakes([decoy], DECOY.args) == Done([decoy]);
    hide SplitterFakes;
  }

  /** The three packets that the disorder modifier sees. */
  ghost predicate DecoyLeads(mixed: seq<Packet>) {
    |mixed| == 3 && mixed[0].isFake && mixed[0].payload == TEN_ZEROS && mixed[1] == TOUCHING[0] && mixed[2] == TOUCHING[1]
  }

  lemma {:induction false} DecoyedFirst(mixed: seq<Packet>, ctx: Context)
    requires DecoyLeads(mixed) && ctx.mss == 536
    ensures FirstOriginal(mixed) == 1 && RoomAt(mixed, ctx) == 536 && AdjacentLeaders(mixed, 1)
  {
    assert mixed[0].isFake && !mixed[1].isFake;
  }

  lemma {:induction false} DecoyedRuns(mixed: seq<Packet>, length: u64, ctx: Context)
    requires DecoyLeads(mixed) && ctx == Context(NO_MARKS, L7Proto.Unknown, 536) && 2 <= length < 10
    ensures ModifyDisorder(mixed, PLAIN, Some(Position(Other, NoOperation, length)), ctx).Done?
  {
    DecoyedFirst(mixed, ctx);
    hide FirstOriginal; hide PayloadRoom; hide Overlapped; hide Padding; hide FilteredReverse; hide Wrap;
    assert Widened(mixed[2], Padding(length, None), 536).Done?;
    hide Widened;
    assert Overlap(mixed, 2, length, None, 536).Done?;
    hide Overlap;
    assert DisorderOverlap(mixed, Position(Other, NoOperation, length), PLAIN, ctx).Done?;
  }

  lemma {:induction false} DecoyedSegments(mixed: seq<Packet>)
    requires DecoyLeads(mixed)
    ensures OriginalSegments(mixed) == OriginalSegments(TOUCHING) == [Segment(100, [1, 2]), Segment(102, [3])]
    ensures Consistent(OriginalSegments(mixed), [1, 2, 3], 100)
  {
    assert mixed == [mixed[0]] + TOUCHING;
    OriginalSegmentsCons(mixed[0], TOUCHING);
    OriginalsOfTwo(TOUCHING[0], TOUCHING[1]);
    assert TOUCHING == [TOUCHING[0], TOUCHING[1]];
    assert [1, 2, 3][0..2] == [1, 2] && [1, 2, 3][2..3] == [3];
  }

  lemma {:induction false} PaddingDiffers(mixed: seq<Packet>, length: u64)
    requires DecoyLeads(mixed) && 2 <= length < 10
    ensures !StaysHidden(mixed, 1, length, None, 536)
  {
    if length == 2 {
      assert mixed[1 + 2..] == [];
      assert OriginalSegments([]) == [];
      assert !Shows([], 100, 0);
      assert PadOf(2, None)[0] == 0 && mixed[1].payload[0] == 1;
    }
  }

  lemma {:induction false} PlainPrepared(ps: seq<Packet>, length: u64, ctx: Context)
    ensures Prepared(ps, PLAIN, ctx) == Done(ps) && PLAIN.fakeBlob.None? && PLAIN.seqovlPattern.None?
    ensures OverlapLength(Position(Other, NoOperation, length), ctx.marks) == Done(Some(length)) && Wrap(100 + Offset(PLAIN)) == 100
  {
  }

  lemma {:induction false} DecoyedFront(mixed: seq<Packet>)
    requires DecoyLeads(mixed)
    ensures |mixed| == 3 && |mixed[0].payload| == 10 && mixed[1].tcp.seqNo == 100
  {
  }

  lemma {:induction false} WideningTears(mixed: seq<Packet>, length: u64, ctx: Context)
    requires DecoyLeads(mixed) && ctx == Context(NO_MARKS, L7Proto.Unknown, 536) && 2 <= length < 10
    ensures var out := ModifyDisorder(mixed, PLAIN, Some(Position(Other, NoOperation, length)), ctx);
      out.Done? && Reassemble(OriginalSegments(out.value)) != Reassemble(OriginalSegments(mixed))
  {
    hide *;
    var pos := Position(Other, NoOperation, length);
    PlainPrepared(mixed, length, ctx);
    DecoyedFirst(mixed, ctx);
    DecoyedFront(mixed);
    DecoyedRuns(mixed, length, ctx);
    DecoyedSegments(mixed);
    PaddingDiffers(mixed, length);
    DisorderOverlapInvisible(mixed, PLAIN, pos, ctx, [1, 2, 3], 100, length);
  }
}
