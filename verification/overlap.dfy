/** Sequence overlap is invisible to a receiver that reassembles correctly. */
module OverlapHidden {
  import opened Base
  import opened Serial
  import opened Sorting
  import opened Packets
  import opened Checksum
  import opened Reassembly
  import opened Splitting
  import opened Segmentation
  import opened Modifiers

  /** The segments are slices of `data` from `origin`, the first of them at its start, and leave nothing out. */
  ghost predicate Fills(segs: seq<Segment>, data: seq<byte>, origin: u32) {
    && (forall g :: g in segs ==> SliceOf(g, data, origin))
    && (exists g :: g in segs && g.seqNo == origin)
    && forall k: int :: Covered(segs, k, origin) <==> 0 <= k < |data|
  }

  // ----- what replaces the widened packet -----

  lemma {:induction false} OneFills(g: Segment)
    requires |g.data| < 0x8000_0000
    ensures Fills([g], g.data, g.seqNo)
  {
    assert g in [g];
    forall k: int ensures Covered([g], k, g.seqNo) <==> 0 <= k < |g.data| {
      assert Covered([g], k, g.seqNo) <==> Covers(g, k, g.seqNo);
    }
    assert g.data[0..|g.data|] == g.data;
  }

  /** Packets whose sequence numbers count the bytes before them. */
  lemma {:induction false} RunFills(run: seq<Packet>, start: u32)
    requires run != [] && |Payloads(run)| < 0x8000_0000
    requires forall i :: 0 <= i < |run| ==> run[i].tcp.seqNo == Wrap(start + |Payloads(run[..i])|)
    ensures Fills(Segments(run), Payloads(run), start)
  {
    var segs, data := Segments(run), Payloads(run);
    forall i | 0 <= i < |run|
      ensures SliceOf(segs[i], data, start) && Dist(segs[i].seqNo, start) == |Payloads(run[..i])|
    {
      PayloadSlice(run, i);
      DistAdd(start, start, |Payloads(run[..i])|);
    }
    forall g | g in segs ensures SliceOf(g, data, start) {
      var i :| 0 <= i < |segs| && segs[i] == g;
    }
    assert segs[0] in segs && segs[0].seqNo == start by {
      assert run[..0] == [];
      WrapSmall(start);
    }
    forall k: int ensures Covered(segs, k, start) <==> 0 <= k < |data| {
      if 0 <= k < |data| {
        var i := PayloadPosition(run, k);
        PayloadSlice(run, i);
        assert segs[i] in segs && Covers(segs[i], k, start);
      }
    }
  }

  lemma {:induction false} TakeOverSegments(chunks: seq<Packet>, orig: Packet)
    requires chunks != []
    ensures var out := chunks[0 := TakeOver(chunks[0], orig)];
      Segments(out) == Segments(chunks) && forall i :: 0 <= i < |out| ==> out[i].isFake == chunks[i].isFake
  {
  }

  lemma {:induction false} SegmentizeFills(payload: seq<byte>, mss: nat, orig: Packet, start: u32)
    requires mss > 0 && 0 < |payload| < 0x8000_0000 && !orig.isFake
    ensures Fills(OriginalSegments(Segmentize(payload, mss, orig, start)), payload, start)
  {
    hide Chunks; hide TakeOver;
    var chunks := Chunks(payload, mss, orig, start);
    ChunksPartition(payload, mss, orig, start);
    TakeOverSegments(chunks, orig);
    forall i | 0 <= i < |chunks|
      ensures chunks[i].tcp.seqNo == Wrap(start + |Payloads(chunks[..i])|) && !chunks[i].isFake
    {
      assert ChunkAt(chunks, i, mss, orig, start);
    }
    AllOriginal(Segmentize(payload, mss, orig, start));
    RunFills(chunks, start);
  }

  lemma {:induction false} OverlappedFills(p: Packet, payload: seq<byte>, start: u32)
    requires !p.isFake && |payload| < 0x8000_0000
    ensures Fills(OriginalSegments([Overlapped(p, payload, start)]), payload, start)
  {
    var q := Overlapped(p, payload, start);
    assert SegmentOf(q) == Segment(start, payload) && !q.isFake;
    hide Overlapped;
    OriginalsOfTwo(q, q);
    OneFills(SegmentOf(q));
  }

  /** Re-segmented or not, the replacement fills the padded payload from the earlier start. */
  lemma {:induction false} WidenedFills(p: Packet, pad: seq<byte>, room: u64)
    requires HasRoom(p, |pad|, room) && !p.isFake && |pad| + |p.payload| < 0x8000_0000
    ensures Fills(OriginalSegments(Widened(p, pad, room).value), pad + p.payload, Wrap(p.tcp.seqNo - |pad|))
  {
    hide Fills; hide Segmentize; hide Overlapped; hide OriginalSegments;
    var payload, start := pad + p.payload, Wrap(p.tcp.seqNo - Wrap(|pad|));
    assert start == Wrap(p.tcp.seqNo - |pad|) by {
      WrapSmall(|pad|);
    }
    hide Wrap;
    if |payload| <= room {
      OverlappedFills(p, payload, start);
    } else {
      SegmentizeFills(payload, room, p, start);
    }
  }

  // ----- the splitter: overlap before the first segment -----

  lemma {:induction false} BackDist(x: u32, origin: u32, n: nat)
    requires Dist(x, origin) + n < 0x1_0000_0000
    ensures Dist(x, Wrap(origin - n)) == Dist(x, origin) + n
    ensures Dist(origin, Wrap(origin - n)) == n
  {
    var o := Wrap(origin - n);
    var q := (origin - n) / 0x1_0000_0000;
    assert o == origin - n - q * 0x1_0000_0000;
  }

  lemma {:induction false} SliceBehind(pad: seq<byte>, stream: seq<byte>, d: nat, data: seq<byte>)
    requires d + |data| <= |stream| && stream[d..d + |data|] == data
    ensures (pad + stream)[|pad| + d..|pad| + d + |data|] == data
  {
  }

  /** A slice of the stream is a slice of the padded stream, further from the earlier origin. */
  lemma {:induction false} PaddedSlice(g: Segment, pad: seq<byte>, stream: seq<byte>, origin: u32)
    requires SliceOf(g, stream, origin) && |pad| + |stream| < 0x8000_0000
    ensures SliceOf(g, pad + stream, Wrap(origin - |pad|))
    ensures Dist(g.seqNo, Wrap(origin - |pad|)) == Dist(g.seqNo, origin) + |pad|
  {
    BackDist(g.seqNo, origin, |pad|);
    hide Wrap; hide Dist;
    SliceBehind(pad, stream, Dist(g.seqNo, origin), g.data);
  }

  lemma {:induction false} PrefixSlice(g: Segment, data: seq<byte>, stream: seq<byte>, origin: u32)
    requires SliceOf(g, data, origin) && |data| <= |stream| && stream[..|data|] == data
    ensures SliceOf(g, stream, origin)
  {
    var d := Dist(g.seqNo, origin);
    forall k | 0 <= k < |g.data| ensures stream[d..d + |g.data|][k] == g.data[k] {
      assert stream[d + k] == stream[..|data|][d + k] == data[d..d + |g.data|][k];
    }
  }

  lemma {:induction false} CoveredAppend(a: seq<Segment>, b: seq<Segment>, k: int, origin: u32)
    ensures Covered(a + b, k, origin) <==> Covered(a, k, origin) || Covered(b, k, origin)
  {
    assert forall g :: g in a + b <==> g in a || g in b;
  }

  lemma {:induction false} CoveredBack(segs: seq<Segment>, pad: seq<byte>, stream: seq<byte>, origin: u32, k: int)
    requires forall g :: g in segs ==> SliceOf(g, stream, origin)
    requires |pad| + |stream| < 0x8000_0000
    ensures Covered(segs, k, Wrap(origin - |pad|)) <==> Covered(segs, k - |pad|, origin)
  {
    forall g | g in segs ensures Covers(g, k, Wrap(origin - |pad|)) <==> Covers(g, k - |pad|, origin) {
      PaddedSlice(g, pad, stream, origin);
    }
  }

  lemma {:induction false} PaddedConsistent(g: Segment, mid: seq<Segment>, post: seq<Segment>, pad: seq<byte>,
                                            stream: seq<byte>, origin: u32)
    requires Consistent([g] + post, stream, origin) && g.seqNo == origin
    requires |pad| + |stream| < 0x8000_0000
    requires Fills(mid, pad + g.data, Wrap(origin - |pad|))
    ensures Consistent(mid + post, pad + stream, Wrap(origin - |pad|))
  {
    var o, long := Wrap(origin - |pad|), pad + stream;
    hide Wrap;
    assert g in [g] + post && forall h :: h in post ==> h in [g] + post;
    assert stream[..|g.data|] == g.data;
    assert long[..|pad + g.data|] == pad + g.data;
    forall h | h in mid + post ensures SliceOf(h, long, o) {
      if h in mid {
        PrefixSlice(h, pad + g.data, long, o);
      } else {
        PaddedSlice(h, pad, stream, origin);
      }
    }
  }

  lemma {:induction false} PaddedCover(g: Segment, mid: seq<Segment>, post: seq<Segment>, pad: seq<byte>,
                                       stream: seq<byte>, origin: u32, k: int)
    requires Consistent([g] + post, stream, origin) && g.seqNo == origin
    requires |pad| + |stream| < 0x8000_0000
    requires Fills(mid, pad + g.data, Wrap(origin - |pad|))
    ensures Covered(mid + post, k, Wrap(origin - |pad|)) <==> 0 <= k < |pad| || Covered([g] + post, k - |pad|, origin)
  {
    var o := Wrap(origin - |pad|);
    assert forall h :: h in post ==> h in [g] + post;
    CoveredAppend(mid, post, k, o);
    CoveredAppend([g], post, k - |pad|, origin);
    CoveredBack(post, pad, stream, origin, k);
    assert Covered([g], k - |pad|, origin) <==> Covers(g, k - |pad|, origin);
    assert Covered(mid, k, o) <==> 0 <= k < |pad + g.data|;
  }

  /** Padding the segment at the origin puts the padding in front of what is reassembled. */
  lemma {:induction false} PaddedReassembly(g: Segment, mid: seq<Segment>, post: seq<Segment>, pad: seq<byte>,
                                            stream: seq<byte>, origin: u32)
    requires Consistent([g] + post, stream, origin) && g.seqNo == origin
    requires |pad| + |stream| < 0x8000_0000
    requires Fills(mid, pad + g.data, Wrap(origin - |pad|))
    ensures Reassemble(mid + post) == pad + Reassemble([g] + post)
  {
    hide Reassemble;
    var before, after, o, long := [g] + post, mid + post, Wrap(origin - |pad|), pad + stream;
    PaddedConsistent(g, mid, post, pad, stream, origin);
    forall k: int ensures Covered(after, k, o) <==> 0 <= k < |pad| || Covered(before, k - |pad|, origin) {
      PaddedCover(g, mid, post, pad, stream, origin, k);
    }
    var first :| first in mid && first.seqNo == o;
    hide *;
    assert g in before && first in after;
    PaddedLength(before, g, after, first, pad, stream, origin, o);
    assert long[..|pad| + |Reassemble(before)|] == pad + stream[..|Reassemble(before)|];
  }

  lemma {:induction false} PaddedLength(before: seq<Segment>, g: Segment, after: seq<Segment>, first: Segment,
                                        pad: seq<byte>, stream: seq<byte>, origin: u32, o: u32)
    requires Consistent(before, stream, origin) && g in before && g.seqNo == origin
    requires Consistent(after, pad + stream, o) && first in after && first.seqNo == o
    requires forall k: int :: Covered(after, k, o) <==> 0 <= k < |pad| || Covered(before, k - |pad|, origin)
    ensures |Reassemble(after)| == |pad| + |Reassemble(before)| <= |pad| + |stream|
    ensures Reassemble(after) == (pad + stream)[..|Reassemble(after)|] && Reassemble(before) == stream[..|Reassemble(before)|]
  {
    hide Reassemble; hide Consistent; hide Covered;
    LowestUnique(before, origin, 0, g);
    LowestUnique(after, o, 0, first);
    ReassembleIsGapFreePrefix(before, stream, origin);
    ReassembleIsGapFreePrefix(after, pad + stream, o);
    SameLength(before, origin, |Reassemble(before)|, after, o, |Reassemble(after)|, |pad|);
  }

  lemma {:induction false} SameLength(before: seq<Segment>, origin: u32, n: nat, after: seq<Segment>, o: u32, m: nat, shift: nat)
    requires forall k: int :: Covered(after, k, o) <==> 0 <= k < shift || Covered(before, k - shift, origin)
    requires (forall k :: 0 <= k < n ==> Covered(before, k, origin)) && !Covered(before, n, origin)
    requires (forall k :: 0 <= k < m ==> Covered(after, k, o)) && !Covered(after, m, o)
    ensures m == shift + n
  {
    assert Covered(after, shift + n, o) <==> 0 <= shift + n < shift || Covered(before, n, origin);
    assert Covered(after, m, o) <==> 0 <= m < shift || Covered(before, m - shift, origin);
  }

  lemma {:induction false} NoOriginalsBefore(ps: seq<Packet>, i: nat)
    requires i <= |ps| && forall j :: 0 <= j < i ==> ps[j].isFake
    ensures Originals(ps[..i]) == []
  {
    if i == 0 {
    } else {
      assert ps[..i][1..] == ps[1..][..i - 1];
      NoOriginalsBefore(ps[1..], i - 1);
    }
  }

  lemma {:induction false} NoSegmentsBefore(ps: seq<Packet>, i: nat)
    requires i <= |ps| && forall j :: 0 <= j < i ==> ps[j].isFake
    ensures OriginalSegments(ps[..i]) == []
  {
    NoOriginalsBefore(ps, i);
  }

  lemma {:induction false} FirstOnly(ps: seq<Packet>, i: nat)
    requires i < |ps| && !ps[i].isFake && forall j :: 0 <= j < i ==> ps[j].isFake
    ensures OriginalSegments(ps[..i + 1]) == [SegmentOf(ps[i])]
  {
    assert ps[..i + 1] == ps[..i] + [ps[i]];
    SegmentsConcat(ps[..i], [ps[i]]);
    NoSegmentsBefore(ps, i);
    OriginalsOfTwo(ps[i], ps[i]);
  }

  lemma {:induction false} LeadingShape(ps: seq<Packet>, i: nat, mid: seq<Packet>)
    requires i < |ps| && !ps[i].isFake && forall j :: 0 <= j < i ==> ps[j].isFake
    ensures OriginalSegments(ps) == [SegmentOf(ps[i])] + OriginalSegments(ps[i + 1..])
    ensures OriginalSegments(ps[..i] + mid + ps[i + 1..]) == OriginalSegments(mid) + OriginalSegments(ps[i + 1..])
  {
    hide Originals; hide Segments;
    OriginalsAround(ps, i, mid);
    NoSegmentsBefore(ps, i);
    OriginalsOfTwo(ps[i], ps[i]);
    hide *;
  }

  lemma {:induction false} OverlapFirst(ps: seq<Packet>, i: nat, length: nat, pattern: Option<seq<byte>>, room: u64, stream: seq<byte>)
    requires i < |ps| && !ps[i].isFake && (forall j :: 0 <= j < i ==> ps[j].isFake)
    requires Widenable(ps[i], length, pattern, room)
    requires Consistent(OriginalSegments(ps), stream, ps[i].tcp.seqNo) && length + |stream| < 0x8000_0000
    ensures var after := Reassemble(OriginalSegments(Overlap(ps, i, length, pattern, room).value));
      length <= |after| && after[length..] == Reassemble(OriginalSegments(ps))
  {
    hide Widened; hide Reassemble; hide Padding; hide OriginalSegments; hide Consistent; hide SliceOf;
    var p := ps[i];
    var pad := if length == 0 then [] else Padding(length, pattern);
    var mid := Widened(p, pad, room).value;
    hide Overlap;
    LeadingShape(ps, i, mid);
    var g, post := SegmentOf(p), OriginalSegments(ps[i + 1..]);
    InsideStream(g, post, stream);
    hide SliceOf; hide Consistent; hide Fills;
    WidenedFills(p, pad, room);
    PaddedReassembly(g, OriginalSegments(mid), post, pad, stream, p.tcp.seqNo);
  }

  lemma {:induction false} InsideStream(g: Segment, post: seq<Segment>, stream: seq<byte>)
    requires Consistent([g] + post, stream, g.seqNo)
    ensures |g.data| <= |stream|
  {
    assert g in [g] + post;
  }

  /** After the splitter's overlap on the lowest segment, the receiver's reassembly, cut at the
      original first sequence number, is the original stream. */
  lemma {:induction false} SplitterOverlapInvisible(ps: seq<Packet>, length: nat, args: Args, ctx: Context, stream: seq<byte>)
    requires SplitterOverlap(ps, length, args, ctx).Done? && FirstOriginal(ps) < |ps|
    requires Consistent(OriginalSegments(ps), stream, ps[FirstOriginal(ps)].tcp.seqNo)
    requires length + |stream| < 0x8000_0000
    ensures var after := Reassemble(OriginalSegments(SplitterOverlap(ps, length, args, ctx).value));
      length <= |after| && after[length..] == Reassemble(OriginalSegments(ps))
  {
    hide Overlap; hide Reassemble; hide OriginalSegments; hide Consistent;
    var i := FirstOriginal(ps);
    OverlapFirst(ps, i, length, args.seqovlPattern, PayloadRoom(ctx.mss, ps[i], SPLITTER_TCP_BASE), stream);
  }

  // ----- the disorder modifier: overlap into the first segment -----

  /** Byte k of the first segment in list order that starts at the base and is longer than k. */
  ghost function Showing(segs: seq<Segment>, base: u32, k: nat): Option<byte> {
    if segs == [] then None
    else if segs[0].seqNo == base && k < |segs[0].data| then Some(segs[0].data[k])
    else Showing(segs[1..], base, k)
  }

  lemma {:induction false} ShowingConcat(a: seq<Segment>, b: seq<Segment>, base: u32, k: nat)
    ensures Showing(a + b, base, k) == if Showing(a, base, k).Some? then Showing(a, base, k) else Showing(b, base, k)
  {
    if a == [] {
      assert a + b == b;
    } else {
      assert (a + b)[1..] == a[1..] + b;
      ShowingConcat(a[1..], b, base, k);
    }
  }

  ghost predicate Shows(segs: seq<Segment>, base: u32, k: nat) {
    exists g :: g in segs && g.seqNo == base && k < |g.data|
  }

  lemma {:induction false} ShowingIsMember(segs: seq<Segment>, base: u32, k: nat)
    ensures Showing(segs, base, k).Some? <==> Shows(segs, base, k)
    ensures Showing(segs, base, k).Some? ==>
      exists g :: g in segs && g.seqNo == base && k < |g.data| && Showing(segs, base, k) == Some(g.data[k])
  {
    if segs == [] {
    } else {
      ShowingIsMember(segs[1..], base, k);
      assert forall g :: g in segs <==> g == segs[0] || g in segs[1..];
    }
  }

  lemma {:induction false} AtBase(x: u32, base: u32)
    ensures Dist(x, base) == 0 <==> x == base
  {
  }

  lemma {:induction false} InsertShowing(x: Segment, s: seq<Segment>, base: u32, k: nat)
    ensures Showing(Insert(x, s, ByOffset(base)), base, k) == Showing([x] + s, base, k)
  {
    assert ([x] + s)[1..] == s;
    AtBase(x.seqNo, base);
    if s == [] || !ByOffset(base)(s[0], x) {
    } else {
      InsertShowing(x, s[1..], base, k);
      var rest := Insert(x, s[1..], ByOffset(base));
      assert ([s[0]] + rest)[1..] == rest && ([x] + s[1..])[1..] == s[1..];
    }
  }

  /** The stable sort keeps the order of the segments that start at the base. */
  lemma {:induction false} SortShowing(segs: seq<Segment>, base: u32, k: nat)
    ensures Showing(StableSort(segs, ByOffset(base)), base, k) == Showing(segs, base, k)
  {
    if segs == [] {
    } else {
      var rest := StableSort(segs[1..], ByOffset(base));
      SortShowing(segs[1..], base, k);
      InsertShowing(segs[0], rest, base, k);
      assert ([segs[0]] + rest)[1..] == rest;
    }
  }

  lemma {:induction false} NothingShows(segs: seq<Segment>, base: u32, k: nat)
    requires forall g :: g in segs ==> Dist(g.seqNo, base) > 0
    ensures Showing(segs, base, k).None?
  {
    if segs == [] {
    } else {
      assert segs[0] in segs;
      AtBase(segs[0].seqNo, base);
      NothingShows(segs[1..], base, k);
    }
  }

  /** Merging puts the showing bytes in front and never changes what is merged. */
  lemma {:induction false} MergeShows(t: seq<Segment>, base: u32, acc: seq<byte>, k: nat)
    requires AscendingFrom(t, base)
    ensures var r := Merge(t, base, acc);
      && (k < |acc| ==> k < |r| && r[k] == acc[k])
      && (k >= |acc| && Showing(t, base, k).Some? ==> k < |r| && Showing(t, base, k) == Some(r[k]))
  {
    if t == [] {
    } else {
      var g := t[0];
      AtBase(g.seqNo, base);
      var rel, data := Dist(g.seqNo, base), g.data;
      if rel > 0 {
        forall h | h in t ensures Dist(h.seqNo, base) > 0 {
          var i :| 0 <= i < |t| && t[i] == h;
        }
        NothingShows(t, base, k);
      }
      if rel + |data| <= |acc| {
        MergeShows(t[1..], base, acc, k);
      } else if rel <= |acc| {
        MergeShows(t[1..], base, acc + data[|acc| - rel..], k);
      }
      if rel > 0 {
        NothingShows(t[1..], base, k);
      }
    }
  }

  /** Reassembly from the lowest number starts with the showing bytes. */
  lemma {:induction false} ReassembleShows(segs: seq<Segment>, a: Segment, k: nat)
    requires a in segs && forall g :: g in segs ==> Dist(g.seqNo, a.seqNo) < 0x8000_0000
    requires Showing(segs, a.seqNo, k).Some?
    ensures k < |Reassemble(segs)| && Showing(segs, a.seqNo, k) == Some(Reassemble(segs)[k])
  {
    var base := FoldBase(segs, segs[0].seqNo);
    BaseIsLowest(segs, a.seqNo);
    LowestUnique(segs, a.seqNo, 0, a);
    AtBase(base, a.seqNo);
    hide FoldBase;
    SortedByOffset(segs, base);
    SortShowing(segs, base, k);
    hide Showing; hide StableSort;
    MergeShows(StableSort(segs, ByOffset(base)), base, [], k);
  }

  lemma {:induction false} ReassembleMaskedBytes(segs: seq<Segment>, a: Segment, stream: seq<byte>, mask: nat)
    requires a in segs
    requires forall g :: g in segs ==> Dist(g.seqNo, a.seqNo) < 0x8000_0000 && MaskedSlice(g, stream, a.seqNo, mask)
    ensures var r := Reassemble(segs); |r| <= |stream| && forall k :: mask <= k < |r| ==> r[k] == stream[k]
  {
    var base := FoldBase(segs, segs[0].seqNo);
    BaseIsLowest(segs, a.seqNo);
    LowestUnique(segs, a.seqNo, 0, a);
    AtBase(base, a.seqNo);
    hide FoldBase;
    SortedByOffset(segs, base);
    hide StableSort;
    MergeBytes(StableSort(segs, ByOffset(base)), base, [], stream, mask);
  }

  lemma {:induction false} SliceIsMasked(g: Segment, stream: seq<byte>, origin: u32, mask: nat)
    requires SliceOf(g, stream, origin)
    ensures MaskedSlice(g, stream, origin, mask)
  {
    var d := Dist(g.seqNo, origin);
    assert forall k :: 0 <= k < |g.data| ==> g.data[k] == stream[d..d + |g.data|][k] == stream[d + k];
  }

  /** A slice of padding plus b's data is right from the end of the padding on. */
  lemma {:induction false} PaddedIsMasked(g: Segment, pad: seq<byte>, b: Segment, stream: seq<byte>, origin: u32)
    requires SliceOf(b, stream, origin) && |stream| <= 0x8000_0000 && |pad| <= Dist(b.seqNo, origin)
    requires SliceOf(g, pad + b.data, Wrap(b.seqNo - |pad|))
    ensures Dist(g.seqNo, origin) == Dist(g.seqNo, Wrap(b.seqNo - |pad|)) + Dist(b.seqNo, origin) - |pad|
    ensures MaskedSlice(g, stream, origin, Dist(b.seqNo, origin))
  {
    hide Wrap; hide Dist;
    var start, e := Wrap(b.seqNo - |pad|), Dist(b.seqNo, origin);
    DistAdd(b.seqNo, origin, -|pad|);
    ForwardDist(g.seqNo, start, origin);
    var d, c := Dist(g.seqNo, origin), Dist(g.seqNo, start);
    forall k | d <= k < d + |g.data| && e <= k ensures g.data[k - d] == stream[k] {
      SameByte(g.data, c, pad, b.data, k - d, stream, e);
    }
  }

  lemma {:induction false} SameByte(data: seq<byte>, c: nat, pad: seq<byte>, more: seq<byte>, i: nat, stream: seq<byte>, e: nat)
    requires c + |data| <= |pad + more| && (pad + more)[c..c + |data|] == data && i < |data| && |pad| <= c + i
    requires e + |more| <= |stream| && stream[e..e + |more|] == more
    ensures data[i] == stream[e + c + i - |pad|]
  {
    assert data[i] == (pad + more)[c..c + |data|][i] == more[c + i - |pad|];
    assert more[c + i - |pad|] == stream[e..e + |more|][c + i - |pad|];
  }

  lemma {:induction false} ForwardDist(x: u32, start: u32, origin: u32)
    requires Dist(x, start) + Dist(start, origin) < 0x1_0000_0000
    ensures Dist(x, origin) == Dist(x, start) + Dist(start, origin)
  {
  }

  /** The first two segments touch, and `mid` replaces the second behind some padding. */
  ghost predicate Widens(a: Segment, b: Segment, mid: seq<Segment>, post: seq<Segment>, pad: seq<byte>, stream: seq<byte>) {
    && Consistent([a, b] + post, stream, a.seqNo) && |pad| + |stream| < 0x8000_0000
    && Dist(b.seqNo, a.seqNo) == |a.data|
    && Fills(mid, pad + b.data, Wrap(b.seqNo - |pad|))
  }

  ghost predicate Permuted(x: seq<Segment>, y: seq<Segment>) {
    forall g :: g in x <==> g in y
  }

  lemma {:induction false} OverlappedMasked(a: Segment, b: Segment, mid: seq<Segment>, post: seq<Segment>,
                                            pad: seq<byte>, stream: seq<byte>, g: Segment)
    requires Widens(a, b, mid, post, pad, stream) && |pad| <= |a.data|
    requires g in [a] + mid + post
    ensures Dist(g.seqNo, a.seqNo) < 0x8000_0000 && MaskedSlice(g, stream, a.seqNo, |a.data|)
  {
    hide Wrap; hide Dist; hide MaskedSlice;
    assert a in [a, b] + post && b in [a, b] + post;
    if g == a || g in post {
      assert g in [a, b] + post;
      SliceIsMasked(g, stream, a.seqNo, |a.data|);
    } else {
      PaddedIsMasked(g, pad, b, stream, a.seqNo);
    }
    MaskedInside(g, stream, a.seqNo, |a.data|);
  }

  lemma {:induction false} MaskedInside(g: Segment, stream: seq<byte>, origin: u32, mask: nat)
    requires MaskedSlice(g, stream, origin, mask) && |stream| < 0x8000_0000
    ensures Dist(g.seqNo, origin) < 0x8000_0000
  {
  }

  /** Every byte of the first segment's range is shown as it should be. */
  ghost predicate ShowsTruth(segs: seq<Segment>, a: Segment) {
    forall k: nat :: k < |a.data| ==> Showing(segs, a.seqNo, k) == Some(a.data[k])
  }

  /** In any list order: widening the second segment by at most the first is hidden exactly if no
      padding shows in the first segment's place. */
  lemma {:induction false} OverlapShown(a: Segment, b: Segment, mid: seq<Segment>, post: seq<Segment>,
                                        pad: seq<byte>, stream: seq<byte>, after: seq<Segment>)
    requires Widens(a, b, mid, post, pad, stream) && |pad| <= |a.data| && Permuted(after, [a] + mid + post)
    ensures Reassemble(after) == Reassemble([a, b] + post) <==> ShowsTruth(after, a)
  {
    var before, origin := [a, b] + post, a.seqNo;
    forall g | g in after ensures Dist(g.seqNo, origin) < 0x8000_0000 && MaskedSlice(g, stream, origin, |a.data|) {
      OverlappedMasked(a, b, mid, post, pad, stream, g);
    }
    forall k: int ensures Covered(after, k, origin) <==> Covered(before, k, origin) {
      OverlappedCover(a, b, mid, post, pad, stream, k);
      CoveredPermuted(after, [a] + mid + post, k, origin);
    }
    assert a in [a] + mid + post;
    assert Consistent(before, stream, origin);
    hide *;
    assert a in after && a in before;
    TruthDecides(before, after, a, stream);
  }

  lemma {:induction false} CoveredPermuted(x: seq<Segment>, y: seq<Segment>, k: int, origin: u32)
    requires Permuted(x, y)
    ensures Covered(x, k, origin) <==> Covered(y, k, origin)
  {
  }

  lemma {:induction false} TruthDecides(before: seq<Segment>, after: seq<Segment>, a: Segment, stream: seq<byte>)
    requires a in before && a in after && Consistent(before, stream, a.seqNo)
    requires forall g :: g in after ==> Dist(g.seqNo, a.seqNo) < 0x8000_0000 && MaskedSlice(g, stream, a.seqNo, |a.data|)
    requires forall k: int :: Covered(after, k, a.seqNo) <==> Covered(before, k, a.seqNo)
    ensures Reassemble(after) == Reassemble(before) <==> ShowsTruth(after, a)
  {
    var origin := a.seqNo;
    assert |a.data| <= |stream| && forall k: nat :: k < |a.data| ==> a.data[k] == stream[k] by {
      AtBase(origin, origin);
      assert stream[0..|a.data|] == a.data;
    }
    hide MaskedSlice; hide Covered; hide Consistent; hide Dist; hide Reassemble;
    ReassembleMaskedBytes(after, a, stream, |a.data|);
    SameReach(before, after, a, stream);
    forall k: nat | k < |a.data|
      ensures k < |Reassemble(after)| && Showing(after, origin, k) == Some(Reassemble(after)[k])
    {
      ShowingIsMember(after, origin, k);
      ReassembleShows(after, a, k);
    }
  }

  lemma {:induction false} SameReach(before: seq<Segment>, after: seq<Segment>, a: Segment, stream: seq<byte>)
    requires a in before && a in after && Consistent(before, stream, a.seqNo)
    requires forall g :: g in after ==> Dist(g.seqNo, a.seqNo) < 0x8000_0000
    requires forall k: int :: Covered(after, k, a.seqNo) <==> Covered(before, k, a.seqNo)
    ensures |Reassemble(after)| == |Reassemble(before)| <= |stream|
    ensures Reassemble(before) == stream[..|Reassemble(before)|]
  {
    var origin := a.seqNo;
    AtBase(origin, origin);
    hide Covered; hide Reassemble; hide Consistent; hide Dist;
    ReassembleReach(after, origin);
    LowestUnique(after, origin, 0, a);
    LowestUnique(before, origin, 0, a);
    ReassembleIsGapFreePrefix(before, stream, origin);
    SameLength(before, origin, |Reassemble(before)|, after, origin, |Reassemble(after)|, 0);
  }

  /** Where the replaced packets lie, seen from the start of the padding or from the first segment. */
  lemma {:induction false} MidCover(b: Segment, mid: seq<Segment>, pad: seq<byte>, stream: seq<byte>, origin: u32, k: int)
    requires SliceOf(b, stream, origin) && |stream| <= 0x8000_0000 && |pad| <= Dist(b.seqNo, origin)
    requires Fills(mid, pad + b.data, Wrap(b.seqNo - |pad|))
    ensures Covered(mid, k, origin) <==> Dist(b.seqNo, origin) - |pad| <= k < Dist(b.seqNo, origin) + |b.data|
  {
    hide Wrap; hide Dist; hide MaskedSlice;
    var start, gap := Wrap(b.seqNo - |pad|), Dist(b.seqNo, origin) - |pad|;
    forall g | g in mid ensures Covers(g, k, origin) <==> Covers(g, k - gap, start) {
      PaddedIsMasked(g, pad, b, stream, origin);
    }
    assert Covered(mid, k, origin) <==> Covered(mid, k - gap, start);
    assert Covered(mid, k - gap, start) <==> 0 <= k - gap < |pad + b.data|;
  }

  lemma {:induction false} OverlappedCover(a: Segment, b: Segment, mid: seq<Segment>, post: seq<Segment>,
                                           pad: seq<byte>, stream: seq<byte>, k: int)
    requires Widens(a, b, mid, post, pad, stream) && |pad| <= |a.data|
    ensures Covered([a] + mid + post, k, a.seqNo) <==> Covered([a, b] + post, k, a.seqNo)
  {
    assert b in [a, b] + post;
    MidCover(b, mid, pad, stream, a.seqNo, k);
    PairCovers(a, b, k);
    CoverOf(a, b, mid, post, k, a.seqNo);
    hide *;
  }

  lemma {:induction false} CoverOf(a: Segment, b: Segment, mid: seq<Segment>, post: seq<Segment>, k: int, origin: u32)
    ensures Covered([a] + mid + post, k, origin)
      <==> Covered([a], k, origin) || Covered(mid, k, origin) || Covered(post, k, origin)
    ensures Covered([a, b] + post, k, origin)
      <==> Covered([a], k, origin) || Covered([b], k, origin) || Covered(post, k, origin)
  {
    hide Covered;
    CoveredAppend([a] + mid, post, k, origin);
    CoveredAppend([a], mid, k, origin);
    assert [a, b] == [a] + [b];
    CoveredAppend([a, b], post, k, origin);
    CoveredAppend([a], [b], k, origin);
  }

  lemma {:induction false} BeyondLeader(a: Segment, b: Segment, mid: seq<Segment>, post: seq<Segment>,
                                        pad: seq<byte>, stream: seq<byte>) returns (first: Segment)
    requires Widens(a, b, mid, post, pad, stream) && |pad| > |a.data|
    ensures first in [a] + mid + post && first.seqNo == Wrap(a.seqNo - (|pad| - |a.data|))
    ensures Consistent([a, b] + post, stream, a.seqNo)
  {
    SameStart(a.seqNo, b.seqNo, |a.data|, |pad|);
    hide Wrap; hide Dist; hide Covered; hide SliceOf;
    first :| first in mid && first.seqNo == Wrap(b.seqNo - |pad|);
  }

  /** Widening it by more makes the result longer in any list order: the padding shows in front of
      the stream. */
  lemma {:induction false} OverlapBeyond(a: Segment, b: Segment, mid: seq<Segment>, post: seq<Segment>,
                                         pad: seq<byte>, stream: seq<byte>, after: seq<Segment>)
    requires Widens(a, b, mid, post, pad, stream) && |pad| > |a.data| && Permuted(after, [a] + mid + post)
    ensures |Reassemble(after)| == |Reassemble([a, b] + post)| + |pad| - |a.data|
  {
    hide *;
    var before, shift := [a, b] + post, |pad| - |a.data|;
    var start := Wrap(a.seqNo - shift);
    var first := BeyondLeader(a, b, mid, post, pad, stream);
    forall g | g in after ensures Dist(g.seqNo, start) < 0x8000_0000 {
      InPermuted(after, [a] + mid + post, g);
      BeyondInside(a, b, mid, post, pad, stream, g);
    }
    forall k: int ensures Covered(after, k, start) <==> 0 <= k < shift || Covered(before, k - shift, a.seqNo) {
      BeyondCover(a, b, mid, post, pad, stream, k);
      CoveredPermuted(after, [a] + mid + post, k, start);
    }
    InPermuted(after, [a] + mid + post, first);
    assert a in before;
    SelfDistance(start);
    SelfDistance(a.seqNo);
    ConsistentInside(before, stream, a.seqNo);
    LowestUnique(after, start, 0, first);
    LowestUnique(before, a.seqNo, 0, a);
    ReassembleReach(after, start);
    ReassembleReach(before, a.seqNo);
    SameLength(before, a.seqNo, |Reassemble(before)|, after, start, |Reassemble(after)|, shift);
  }

  lemma {:induction false} InPermuted(x: seq<Segment>, y: seq<Segment>, g: Segment)
    requires Permuted(x, y)
    ensures g in x <==> g in y
  {
  }

  lemma {:induction false} SelfDistance(n: u32)
    ensures Dist(n, n) == 0
  {
  }

  lemma {:induction false} SameStart(a: u32, b: u32, n: nat, pad: nat)
    requires Dist(b, a) == n && n < pad < 0x8000_0000
    ensures Wrap(b - pad) == Wrap(a - (pad - n))
  {
    assert b == a + n || b == a + n - 0x1_0000_0000;
  }

  lemma {:induction false} BeyondInside(a: Segment, b: Segment, mid: seq<Segment>, post: seq<Segment>,
                                        pad: seq<byte>, stream: seq<byte>, g: Segment)
    requires Widens(a, b, mid, post, pad, stream) && |pad| > |a.data| && g in [a] + mid + post
    ensures Dist(g.seqNo, Wrap(a.seqNo - (|pad| - |a.data|))) < 0x8000_0000
  {
    hide Wrap; hide Dist;
    SameStart(a.seqNo, b.seqNo, |a.data|, |pad|);
    if g in mid {
    } else {
      assert g in [a, b] + post;
      BackDist(g.seqNo, a.seqNo, |pad| - |a.data|);
    }
  }

  lemma {:induction false} BeyondCover(a: Segment, b: Segment, mid: seq<Segment>, post: seq<Segment>,
                                       pad: seq<byte>, stream: seq<byte>, k: int)
    requires Widens(a, b, mid, post, pad, stream) && |pad| > |a.data|
    ensures var shift := |pad| - |a.data|;
      Covered([a] + mid + post, k, Wrap(a.seqNo - shift)) <==> 0 <= k < shift || Covered([a, b] + post, k - shift, a.seqNo)
  {
    var shift := |pad| - |a.data|;
    BeyondParts(a, b, mid, post, pad, stream, k);
    CoverOf(a, b, mid, post, k, Wrap(a.seqNo - shift));
    CoverOf(a, b, mid, post, k - shift, a.seqNo);
    hide *;
  }

  lemma {:induction false} BeyondParts(a: Segment, b: Segment, mid: seq<Segment>, post: seq<Segment>,
                                       pad: seq<byte>, stream: seq<byte>, k: int)
    requires Widens(a, b, mid, post, pad, stream) && |pad| > |a.data|
    ensures var shift := |pad| - |a.data|;
      var start := Wrap(a.seqNo - shift);
      && (Covered([a], k, start) <==> shift <= k < |pad|)
      && (Covered(mid, k, start) <==> 0 <= k < |pad| + |b.data|)
      && (Covered(post, k, start) <==> Covered(post, k - shift, a.seqNo))
      && (Covered([a], k - shift, a.seqNo) <==> shift <= k < |pad|)
      && (Covered([b], k - shift, a.seqNo) <==> |pad| <= k < |pad| + |b.data|)
  {
    hide *;
    var lead := pad[..|pad| - |a.data|];
    WidensSizes(a, b, mid, post, pad, stream);
    WidensSlices(a, b, mid, post, pad, stream);
    MidFromStart(a, b, mid, post, pad, stream, k);
    PairCovers(a, b, k - |lead|);
    assert forall g :: g in [a] ==> g == a;
    CoveredBack([a], lead, stream, a.seqNo, k);
    CoveredBack(post, lead, stream, a.seqNo, k);
  }

  lemma {:induction false} WidensSizes(a: Segment, b: Segment, mid: seq<Segment>, post: seq<Segment>,
                                       pad: seq<byte>, stream: seq<byte>)
    requires Widens(a, b, mid, post, pad, stream)
    ensures |pad| + |stream| < 0x8000_0000 && Dist(b.seqNo, a.seqNo) == |a.data|
  {
    hide Dist; hide Fills; hide Consistent;
  }

  lemma {:induction false} WidensSlices(a: Segment, b: Segment, mid: seq<Segment>, post: seq<Segment>,
                                        pad: seq<byte>, stream: seq<byte>)
    requires Widens(a, b, mid, post, pad, stream)
    ensures SliceOf(a, stream, a.seqNo) && forall g :: g in post ==> SliceOf(g, stream, a.seqNo)
  {
    assert a in [a, b] + post && forall g :: g in post ==> g in [a, b] + post;
  }

  lemma {:induction false} MidFromStart(a: Segment, b: Segment, mid: seq<Segment>, post: seq<Segment>,
                                        pad: seq<byte>, stream: seq<byte>, k: int)
    requires Widens(a, b, mid, post, pad, stream) && |pad| > |a.data|
    ensures Covered(mid, k, Wrap(a.seqNo - (|pad| - |a.data|))) <==> 0 <= k < |pad| + |b.data|
  {
    SameStart(a.seqNo, b.seqNo, |a.data|, |pad|);
    hide Wrap; hide Dist; hide Covered; hide Consistent;
    assert |pad + b.data| == |pad| + |b.data|;
  }

  lemma {:induction false} PairCovers(a: Segment, b: Segment, k: int)
    requires Dist(b.seqNo, a.seqNo) == |a.data|
    ensures Covered([a], k, a.seqNo) <==> 0 <= k < |a.data|
    ensures Covered([b], k, a.seqNo) <==> |a.data| <= k < |a.data| + |b.data|
  {
    assert a in [a] && b in [b];
    assert Covered([a], k, a.seqNo) <==> Covers(a, k, a.seqNo);
    assert Covered([b], k, a.seqNo) <==> Covers(b, k, a.seqNo);
  }

  lemma {:induction false} SecondShape(ps: seq<Packet>, i: nat, mid: seq<Packet>)
    requires i + 1 < |ps| && !ps[i].isFake && !ps[i + 1].isFake && forall j :: 0 <= j < i ==> ps[j].isFake
    ensures OriginalSegments(ps) == [SegmentOf(ps[i]), SegmentOf(ps[i + 1])] + OriginalSegments(ps[i + 2..])
    ensures OriginalSegments(ps[..i + 1] + mid + ps[i + 2..])
         == [SegmentOf(ps[i])] + OriginalSegments(mid) + OriginalSegments(ps[i + 2..])
  {
    OriginalsAround(ps, i + 1, mid);
    FirstOnly(ps, i);
    OriginalsOfTwo(ps[i + 1], ps[i + 1]);
    hide OriginalSegments;
    hide SegmentOf;
  }

  // ----- sizes -----

  lemma {:induction false} ChunksRoom(payload: seq<byte>, room: nat, p: Packet, start: u32)
    requires room > 0 && payload != []
    ensures forall q :: q in Segmentize(payload, room, p, start) ==> q.Size() <= p.HeaderLength() + room
  {
    hide Chunks; hide Wrap;
    var chunks, out := Chunks(payload, room, p, start), Segmentize(payload, room, p, start);
    ChunksPartition(payload, room, p, start);
    forall i | 0 <= i < |chunks| ensures chunks[i].Size() <= p.HeaderLength() + room {
      assert ChunkAt(chunks, i, room, p, start);
    }
    assert TakeOver(chunks[0], p).Size() == chunks[0].Size();
  }

  lemma {:induction false} OverlappedSize(p: Packet, payload: seq<byte>, start: u32)
    ensures Overlapped(p, payload, start).Size() == p.HeaderLength() + |payload|
  {
    hide TcpChecksum; hide Narrow;
  }

  lemma {:induction false} WidenedRoom(p: Packet, pad: seq<byte>, room: u64)
    requires HasRoom(p, |pad|, room)
    ensures forall q :: q in Widened(p, pad, room).value ==> q.Size() <= p.HeaderLength() + room
  {
    hide Wrap; hide Segmentize; hide Overlapped;
    var payload, start := pad + p.payload, Wrap(p.tcp.seqNo - Wrap(|pad|));
    if |payload| <= room {
      OverlappedSize(p, payload, start);
    } else {
      ChunksRoom(payload, room, p, start);
    }
  }

  lemma {:induction false} RoomFits(mss: nat, p: Packet, tcpBase: nat)
    requires 0 <= mss - (p.ip.Length() - 20) - (p.tcp.Length() - tcpBase) < 0x1_0000_0000
    ensures p.HeaderLength() + PayloadRoom(mss, p, tcpBase) == mss + 20 + tcpBase
  {
  }

  /** Every packet that replaces the widened one fits the connection's MSS plus the fixed headers
      (section 3.7.1 of RFC 9293) as long as the MSS covers the option bytes: 40 bytes more than
      the MSS for the disorder modifier, 28 for the splitter. */
  lemma {:induction false} WidenedFitsMss(p: Packet, pad: seq<byte>, mss: nat, tcpBase: nat)
    requires 0 <= mss - (p.ip.Length() - 20) - (p.tcp.Length() - tcpBase) < 0x1_0000_0000
    requires HasRoom(p, |pad|, PayloadRoom(mss, p, tcpBase))
    ensures forall q :: q in Widened(p, pad, PayloadRoom(mss, p, tcpBase)).value ==> q.Size() <= mss + 20 + tcpBase
  {
    hide Widened;
    RoomFits(mss, p, tcpBase);
    hide PayloadRoom;
    WidenedRoom(p, pad, PayloadRoom(mss, p, tcpBase));
  }
}
