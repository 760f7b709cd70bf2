/** Reassembly of a byte stream from TCP segments in any order (src/modify/algorithms/common.hpp). */
module Reassembly {
  import opened Base
  import opened Serial
  import opened Sorting
  import opened Packets

  datatype Segment = Segment(seqNo: u32, data: seq<byte>)

  function SegmentOf(p: Packet): Segment {
    Segment(p.tcp.seqNo, p.payload)
  }

  function Segments(ps: seq<Packet>): seq<Segment> {
    seq(|ps|, i requires 0 <= i < |ps| => SegmentOf(ps[i]))
  }

  /** The packets that carry the stream: everything but fake blobs. */
  function Originals(ps: seq<Packet>): seq<Packet> {
    if ps == [] then []
    else (if ps[0].isFake then [] else [ps[0]]) + Originals(ps[1..])
  }

  function Fakes(ps: seq<Packet>): seq<Packet> {
    if ps == [] then []
    else (if ps[0].isFake then [ps[0]] else []) + Fakes(ps[1..])
  }

  function OriginalSegments(ps: seq<Packet>): seq<Segment> {
    Segments(Originals(ps))
  }

  lemma {:induction false} OriginalsConcat(a: seq<Packet>, b: seq<Packet>)
    ensures Originals(a + b) == Originals(a) + Originals(b)
  {
    if a == [] {
      assert a + b == b;
    } else {
      assert (a + b)[1..] == a[1..] + b;
      OriginalsConcat(a[1..], b);
    }
  }

  lemma {:induction false} AllOriginal(ps: seq<Packet>)
    requires forall i :: 0 <= i < |ps| ==> !ps[i].isFake
    ensures Originals(ps) == ps
  {
    if ps == [] {
    } else {
      AllOriginal(ps[1..]);
      assert ps == [ps[0]] + ps[1..];
    }
  }

  lemma {:induction false} SegmentsConcat(a: seq<Packet>, b: seq<Packet>)
    ensures OriginalSegments(a + b) == OriginalSegments(a) + OriginalSegments(b)
  {
    OriginalsConcat(a, b);
  }

  // ----- what the code computes -----

  /** The lowest sequence number as the comparator sees it, scanning from the left. */
  function FoldBase(segs: seq<Segment>, base: u32): u32 {
    if segs == [] then base
    else FoldBase(segs[1..], if Before(segs[0].seqNo, base) then segs[0].seqNo else base)
  }

  function ByOffset(base: u32): (Segment, Segment) -> bool {
    (a: Segment, b: Segment) => Dist(a.seqNo, base) < Dist(b.seqNo, base)
  }

  /** Appends segments in order of offset: skips what is covered, trims overlaps, stops at a hole. */
  function Merge(segs: seq<Segment>, base: u32, acc: seq<byte>): seq<byte> {
    if segs == [] then acc
    else
      var rel, data := Dist(segs[0].seqNo, base), segs[0].data;
      if rel + |data| <= |acc| then Merge(segs[1..], base, acc)
      else if rel > |acc| then acc
      else Merge(segs[1..], base, acc + data[|acc| - rel..])
  }

  function Reassemble(segs: seq<Segment>): seq<byte> {
    if segs == [] then []
    else
      var base := FoldBase(segs, segs[0].seqNo);
      Merge(StableSort(segs, ByOffset(base)), base, [])
  }

  // ----- what it should compute -----

  ghost predicate Covers(g: Segment, k: int, origin: u32) {
    Dist(g.seqNo, origin) <= k < Dist(g.seqNo, origin) + |g.data|
  }

  ghost predicate Covered(segs: seq<Segment>, k: int, origin: u32) {
    exists g :: g in segs && Covers(g, k, origin)
  }

  /** The segment is a slice of the stream that starts at `origin`. */
  ghost predicate SliceOf(g: Segment, stream: seq<byte>, origin: u32) {
    var d := Dist(g.seqNo, origin);
    d < 0x8000_0000 && d + |g.data| <= |stream| && stream[d..d + |g.data|] == g.data
  }

  /** Every segment is a slice of one stream inside a half-circle window. */
  ghost predicate Consistent(segs: seq<Segment>, stream: seq<byte>, origin: u32) {
    |stream| <= 0x8000_0000 && forall g :: g in segs ==> SliceOf(g, stream, origin)
  }

  /** The smallest offset of a segment. */
  ghost function Lowest(segs: seq<Segment>, origin: u32): nat
    requires segs != []
  {
    var d := Dist(segs[0].seqNo, origin);
    if |segs| == 1 then d
    else
      var rest := Lowest(segs[1..], origin);
      if d < rest then d else rest
  }

  lemma {:induction false} LowestIsMinimum(segs: seq<Segment>, origin: u32)
    requires segs != []
    ensures exists g :: g in segs && Dist(g.seqNo, origin) == Lowest(segs, origin)
    ensures forall g :: g in segs ==> Lowest(segs, origin) <= Dist(g.seqNo, origin)
  {
    assert segs[0] in segs;
    if |segs| == 1 {
    } else {
      LowestIsMinimum(segs[1..], origin);
      assert forall g :: g in segs ==> g == segs[0] || g in segs[1..];
    }
  }

  lemma {:induction false} LowestUnique(segs: seq<Segment>, origin: u32, lo: nat, g: Segment)
    requires g in segs && Dist(g.seqNo, origin) == lo
    requires forall h :: h in segs ==> lo <= Dist(h.seqNo, origin)
    ensures Lowest(segs, origin) == lo
  {
    LowestIsMinimum(segs, origin);
  }

  // ----- base selection and merging -----

  lemma {:induction false} FoldBaseIsLowest(segs: seq<Segment>, base: u32, origin: u32)
    requires Dist(base, origin) < 0x8000_0000
    requires forall g :: g in segs ==> Dist(g.seqNo, origin) < 0x8000_0000
    ensures var b := FoldBase(segs, base);
      && (b == base || exists g :: g in segs && g.seqNo == b)
      && Dist(b, origin) <= Dist(base, origin)
      && forall g :: g in segs ==> Dist(b, origin) <= Dist(g.seqNo, origin)
  {
    if segs == [] {
    } else {
      var g := segs[0];
      assert g in segs;
      BeforeInWindow(g.seqNo, base, origin);
      FoldBaseIsLowest(segs[1..], if Before(g.seqNo, base) then g.seqNo else base, origin);
      assert forall h :: h in segs ==> h == g || h in segs[1..];
    }
  }

  /** Offsets and data of a segment that may carry foreign bytes below `mask`. */
  ghost predicate MaskedSlice(g: Segment, stream: seq<byte>, base: u32, mask: nat) {
    var d := Dist(g.seqNo, base);
    && d + |g.data| <= |stream|
    && forall k :: d <= k < d + |g.data| && mask <= k ==> g.data[k - d] == stream[k]
  }

  ghost predicate AscendingFrom(segs: seq<Segment>, base: u32) {
    forall i, j :: 0 <= i < j < |segs| ==> Dist(segs[i].seqNo, base) <= Dist(segs[j].seqNo, base)
  }

  lemma {:induction false} CoveredCons(segs: seq<Segment>, k: int, origin: u32)
    requires segs != []
    ensures Covered(segs, k, origin) <==> Covers(segs[0], k, origin) || Covered(segs[1..], k, origin)
  {
    assert segs[0] in segs;
    assert forall h :: h in segs <==> h == segs[0] || h in segs[1..];
  }

  /** Merging an ascending list extends the prefix to the first uncovered position, whatever the bytes. */
  lemma {:induction false} MergeReach(segs: seq<Segment>, base: u32, acc: seq<byte>)
    requires AscendingFrom(segs, base)
    ensures var r := Merge(segs, base, acc);
      && |acc| <= |r|
      && (forall k :: |acc| <= k < |r| ==> Covered(segs, k, base))
      && !Covered(segs, |r|, base)
  {
    if segs == [] {
    } else {
      var g := segs[0];
      assert g in segs;
      var rel, data := Dist(g.seqNo, base), g.data;
      var r := Merge(segs, base, acc);
      forall k: int ensures Covered(segs, k, base) <==> Covers(g, k, base) || Covered(segs[1..], k, base) {
        CoveredCons(segs, k, base);
      }
      if rel + |data| <= |acc| {
        MergeReach(segs[1..], base, acc);
      } else if rel > |acc| {
        forall h | h in segs ensures !Covers(h, |r|, base) {
          var i :| 0 <= i < |segs| && segs[i] == h;
        }
      } else {
        MergeReach(segs[1..], base, acc + data[|acc| - rel..]);
      }
    }
  }

  /** From `mask` on the merged bytes are the stream's, whatever foreign bytes lie below it. */
  lemma {:induction false} MergeBytes(segs: seq<Segment>, base: u32, acc: seq<byte>, stream: seq<byte>, mask: nat)
    requires forall g :: g in segs ==> MaskedSlice(g, stream, base, mask)
    requires |acc| <= |stream| && forall k :: mask <= k < |acc| ==> acc[k] == stream[k]
    ensures var r := Merge(segs, base, acc); |r| <= |stream| && forall k :: mask <= k < |r| ==> r[k] == stream[k]
  {
    if segs == [] {
    } else {
      var g := segs[0];
      assert g in segs;
      var rel, data := Dist(g.seqNo, base), g.data;
      assert forall h :: h in segs[1..] ==> h in segs;
      if rel + |data| <= |acc| {
        MergeBytes(segs[1..], base, acc, stream, mask);
      } else if rel <= |acc| {
        MergeBytes(segs[1..], base, acc + data[|acc| - rel..], stream, mask);
      }
    }
  }

  lemma {:induction false} SortedByOffset(segs: seq<Segment>, base: u32)
    ensures var t := StableSort(segs, ByOffset(base));
      AscendingFrom(t, base) && |t| == |segs| && forall g :: g in t <==> g in segs
  {
    var key := (g: Segment) => Dist(g.seqNo, base) as int;
    SortMembers(segs, ByOffset(base));
    SortAscending(segs, ByOffset(base), key);
    var t := StableSort(segs, ByOffset(base));
    forall i, j | 0 <= i < j < |t| ensures Dist(t[i].seqNo, base) <= Dist(t[j].seqNo, base) {
      assert key(t[i]) <= key(t[j]);
    }
  }

  lemma {:induction false} RebaseSlice(g: Segment, stream: seq<byte>, origin: u32, base: u32)
    requires SliceOf(g, stream, origin) && Dist(base, origin) <= Dist(g.seqNo, origin)
    ensures Dist(base, origin) <= |stream|
    ensures Dist(g.seqNo, base) == Dist(g.seqNo, origin) - Dist(base, origin)
    ensures MaskedSlice(g, stream[Dist(base, origin)..], base, 0)
  {
    DistRebase(g.seqNo, base, origin);
    var d := Dist(g.seqNo, origin);
    assert forall k :: 0 <= k < |g.data| ==> g.data[k] == stream[d..d + |g.data|][k] == stream[d + k];
  }

  lemma {:induction false} BaseIsLowest(segs: seq<Segment>, origin: u32)
    requires segs != [] && forall g :: g in segs ==> Dist(g.seqNo, origin) < 0x8000_0000
    ensures var base := FoldBase(segs, segs[0].seqNo);
      && Dist(base, origin) == Lowest(segs, origin)
      && forall g :: g in segs ==> Dist(base, origin) <= Dist(g.seqNo, origin)
  {
    assert segs[0] in segs;
    var base := FoldBase(segs, segs[0].seqNo);
    FoldBaseIsLowest(segs, segs[0].seqNo, origin);
    var lowest :| lowest in segs && lowest.seqNo == base;
    LowestUnique(segs, origin, Dist(base, origin), lowest);
  }

  /** How far reassembly reaches: from the lowest segment to the first position nothing covers,
      even when overlapping segments disagree about their bytes. */
  lemma {:induction false} ReassembleReach(segs: seq<Segment>, origin: u32)
    requires segs != [] && forall g :: g in segs ==> Dist(g.seqNo, origin) < 0x8000_0000
    ensures var r, lo := Reassemble(segs), Lowest(segs, origin);
      && (forall k :: lo <= k < lo + |r| ==> Covered(segs, k, origin))
      && !Covered(segs, lo + |r|, origin)
  {
    BaseIsLowest(segs, origin);
    var base := FoldBase(segs, segs[0].seqNo);
    var lo, t := Dist(base, origin), StableSort(segs, ByOffset(base));
    SortedByOffset(segs, base);
    MergeReach(t, base, []);
    hide Merge; hide Covered; hide FoldBase;
    forall k: int ensures Covered(segs, k, origin) <==> Covered(t, k - lo, base) {
      CoveredRebased(segs, t, k, origin, base);
    }
  }

  /** Correct reassembly: for slices of one stream in any order, with duplicates, overlaps and
      holes, the result is the stream from the lowest segment up to the first missing byte. */
  lemma {:induction false} ReassembleIsGapFreePrefix(segs: seq<Segment>, stream: seq<byte>, origin: u32)
    requires segs != [] && Consistent(segs, stream, origin)
    ensures var r, lo := Reassemble(segs), Lowest(segs, origin);
      && lo + |r| <= |stream| && r == stream[lo..lo + |r|]
      && (forall k :: lo <= k < lo + |r| ==> Covered(segs, k, origin))
      && !Covered(segs, lo + |r|, origin)
  {
    ConsistentInside(segs, stream, origin);
    ReassembleReach(segs, origin);
    ReassembleBytes(segs, stream, origin);
    hide *;
  }

  lemma {:induction false} ConsistentInside(segs: seq<Segment>, stream: seq<byte>, origin: u32)
    requires Consistent(segs, stream, origin)
    ensures forall g :: g in segs ==> Dist(g.seqNo, origin) < 0x8000_0000
  {
  }

  lemma {:induction false} ReassembleBytes(segs: seq<Segment>, stream: seq<byte>, origin: u32)
    requires segs != [] && Consistent(segs, stream, origin)
    ensures var r, lo := Reassemble(segs), Lowest(segs, origin); lo + |r| <= |stream| && r == stream[lo..lo + |r|]
  {
    ConsistentInside(segs, stream, origin);
    BaseIsLowest(segs, origin);
    var base := FoldBase(segs, segs[0].seqNo);
    var lo, t := Dist(base, origin), StableSort(segs, ByOffset(base));
    assert Reassemble(segs) == Merge(t, base, []);
    SortedByOffset(segs, base);
    hide FoldBase; hide StableSort; hide ByOffset; hide Reassemble; hide Merge; hide Dist;
    assert segs[0] in segs;
    RebaseSlice(segs[0], stream, origin, base);
    forall g | g in t ensures MaskedSlice(g, stream[lo..], base, 0) {
      RebaseSlice(g, stream, origin, base);
    }
    MergeBytes(t, base, [], stream[lo..], 0);
  }

  lemma {:induction false} CoveredRebased(segs: seq<Segment>, t: seq<Segment>, k: int, origin: u32, base: u32)
    requires forall g :: g in t <==> g in segs
    requires forall g :: g in segs ==> Dist(base, origin) <= Dist(g.seqNo, origin)
    ensures Covered(segs, k, origin) <==> Covered(t, k - Dist(base, origin), base)
  {
    forall g | g in segs
      ensures Covers(g, k, origin) <==> Covers(g, k - Dist(base, origin), base)
    {
      DistRebase(g.seqNo, base, origin);
    }
  }

  // ----- consequences -----

  /** The second list shows the same bytes of the same stream as the first, seen from its own origin. */
  ghost predicate SameExtent(a: seq<Segment>, oa: u32, b: seq<Segment>, ob: u32) {
    && (a == [] <==> b == [])
    && (a != [] ==> Lowest(a, oa) == Lowest(b, ob))
    && forall k: int :: Covered(a, k, oa) <==> Covered(b, k, ob)
  }

  lemma {:induction false} SameExtentSameBytes(a: seq<Segment>, oa: u32, b: seq<Segment>, ob: u32, stream: seq<byte>)
    requires Consistent(a, stream, oa) && Consistent(b, stream, ob) && SameExtent(a, oa, b, ob)
    ensures Reassemble(a) == Reassemble(b)
  {
    if a != [] {
      ReassembleIsGapFreePrefix(a, stream, oa);
      ReassembleIsGapFreePrefix(b, stream, ob);
      var lo, ra, rb := Lowest(a, oa), Reassemble(a), Reassemble(b);
      assert |ra| < |rb| ==> Covered(b, lo + |ra|, ob);
      assert |rb| < |ra| ==> Covered(a, lo + |rb|, oa);
    }
  }

  lemma {:induction false} SameMembersSameExtent(a: seq<Segment>, b: seq<Segment>, origin: u32)
    requires forall g :: g in a <==> g in b
    ensures SameExtent(a, origin, b, origin)
  {
    assert a != [] ==> a[0] in b;
    assert b != [] ==> b[0] in a;
    if a != [] {
      LowestIsMinimum(a, origin);
      LowestIsMinimum(b, origin);
    }
  }

  /** Arrival order and repetition do not matter. */
  lemma {:induction false} ReassembleOrderFree(a: seq<Segment>, b: seq<Segment>, stream: seq<byte>, origin: u32)
    requires Consistent(a, stream, origin)
    requires forall g :: g in a <==> g in b
    ensures Reassemble(a) == Reassemble(b)
  {
    SameMembersSameExtent(a, b, origin);
    SameExtentSameBytes(a, origin, b, origin, stream);
  }

  // ----- translation -----

  function Shift(d: int): Segment -> Segment {
    (g: Segment) => g.(seqNo := Wrap(g.seqNo + d))
  }

  lemma {:induction false} FoldBaseShift(segs: seq<Segment>, base: u32, d: int)
    ensures FoldBase(MapSeq(segs, Shift(d)), Wrap(base + d)) == Wrap(FoldBase(segs, base) + d)
  {
    if segs == [] {
    } else {
      DistShift(segs[0].seqNo, base, d);
      assert MapSeq(segs, Shift(d))[1..] == MapSeq(segs[1..], Shift(d));
      FoldBaseShift(segs[1..], if Before(segs[0].seqNo, base) then segs[0].seqNo else base, d);
    }
  }

  lemma {:induction false} MergeShift(segs: seq<Segment>, base: u32, acc: seq<byte>, d: int)
    ensures Merge(MapSeq(segs, Shift(d)), Wrap(base + d), acc) == Merge(segs, base, acc)
  {
    if segs == [] {
    } else {
      DistShift(segs[0].seqNo, base, d);
      assert MapSeq(segs, Shift(d))[1..] == MapSeq(segs[1..], Shift(d));
      var rel, data := Dist(segs[0].seqNo, base), segs[0].data;
      if rel + |data| <= |acc| {
        MergeShift(segs[1..], base, acc, d);
      } else if rel <= |acc| {
        MergeShift(segs[1..], base, acc + data[|acc| - rel..], d);
      }
    }
  }

  lemma {:induction false} ByOffsetShift(a: Segment, b: Segment, base: u32, d: int)
    ensures ByOffset(base)(a, b) <==> ByOffset(Wrap(base + d))(Shift(d)(a), Shift(d)(b))
  {
    DistShift(a.seqNo, base, d);
    DistShift(b.seqNo, base, d);
  }

  lemma {:induction false} SortShift(segs: seq<Segment>, base: u32, d: int)
    ensures StableSort(MapSeq(segs, Shift(d)), ByOffset(Wrap(base + d)))
         == MapSeq(StableSort(segs, ByOffset(base)), Shift(d))
  {
    forall a: Segment, b: Segment | a in segs && b in segs
      ensures ByOffset(base)(a, b) <==> ByOffset(Wrap(base + d))(Shift(d)(a), Shift(d)(b))
    {
      ByOffsetShift(a, b, base, d);
    }
    SortMap(segs, Shift(d), ByOffset(base), ByOffset(Wrap(base + d)));
  }

  /** Adding any constant to every sequence number, modulo 2^32, leaves the bytes alone;
      no window and no consistency is needed. */
  lemma {:induction false} ReassembleTranslates(segs: seq<Segment>, d: int)
    ensures Reassemble(MapSeq(segs, Shift(d))) == Reassemble(segs)
  {
    if segs != [] {
      var base, shifted := FoldBase(segs, segs[0].seqNo), MapSeq(segs, Shift(d));
      var base' := FoldBase(shifted, shifted[0].seqNo);
      assert base' == Wrap(base + d) by {
        assert shifted[0].seqNo == Wrap(segs[0].seqNo + d);
        FoldBaseShift(segs, segs[0].seqNo, d);
      }
      var t := StableSort(segs, ByOffset(base));
      assert StableSort(shifted, ByOffset(base')) == MapSeq(t, Shift(d)) by {
        SortShift(segs, base, d);
      }
      assert Merge(MapSeq(t, Shift(d)), base', []) == Merge(t, base, []) by {
        MergeShift(t, base, [], d);
      }
    }
  }

  // ----- the loops -----

  /** `concat`. */
  method Concat(packets: seq<Packet>) returns (fullPayload: seq<byte>)
    ensures fullPayload == Reassemble(Segments(packets))
  {
    if packets == [] {
      return [];
    }
    var segs: seq<Segment> := [];
    for i := 0 to |packets|
      invariant segs == Segments(packets[..i])
    {
      segs := segs + [SegmentOf(packets[i])];
      assert packets[..i + 1] == packets[..i] + [packets[i]];
    }
    assert packets[..|packets|] == packets;
    var base := segs[0].seqNo;
    for i := 0 to |segs|
      invariant FoldBase(segs, segs[0].seqNo) == FoldBase(segs[i..], base)
    {
      if Before(segs[i].seqNo, base) {
        base := segs[i].seqNo;
      }
    }
    var sorted := StableSort(segs, ByOffset(base));
    fullPayload := [];
    for i := 0 to |sorted|
      invariant Merge(sorted, base, []) == Merge(sorted[i..], base, fullPayload)
    {
      var rel, data := Dist(sorted[i].seqNo, base), sorted[i].data;
      if rel + |data| <= |fullPayload| {
        continue;
      }
      if rel > |fullPayload| {
        break;
      }
      fullPayload := fullPayload + data[|fullPayload| - rel..];
    }
  }

  function Payloads(ps: seq<Packet>): seq<byte> {
    if ps == [] then [] else ps[0].payload + Payloads(ps[1..])
  }

  lemma {:induction false} PayloadsConcat(a: seq<Packet>, b: seq<Packet>)
    ensures Payloads(a + b) == Payloads(a) + Payloads(b)
  {
    if a == [] {
      assert a + b == b;
    } else {
      assert (a + b)[1..] == a[1..] + b;
      PayloadsConcat(a[1..], b);
    }
  }

  /** `concat_sorted`. */
  method ConcatSorted(packets: seq<Packet>) returns (fullPayload: seq<byte>)
    ensures fullPayload == Payloads(packets)
  {
    fullPayload := [];
    for i := 0 to |packets|
      invariant fullPayload == Payloads(packets[..i])
    {
      fullPayload := fullPayload + packets[i].payload;
      assert packets[..i + 1] == packets[..i] + [packets[i]];
      PayloadsConcat(packets[..i], [packets[i]]);
    }
    assert packets[..|packets|] == packets;
  }

  /** Each packet starts where the one before it ends. */
  ghost predicate Contiguous(ps: seq<Packet>) {
    forall i :: 0 < i < |ps| ==> ps[i].tcp.seqNo == Wrap(ps[i - 1].tcp.seqNo + |ps[i - 1].payload|)
  }

  lemma {:induction false} PayloadSlice(ps: seq<Packet>, i: nat)
    requires i < |ps|
    ensures var d := |Payloads(ps[..i])|;
      && d + |ps[i].payload| <= |Payloads(ps)|
      && Payloads(ps)[d..d + |ps[i].payload|] == ps[i].payload
      && |Payloads(ps[..i + 1])| == d + |ps[i].payload|
  {
    assert ps[..i + 1] == ps[..i] + [ps[i]];
    PayloadsConcat(ps[..i], [ps[i]]);
    assert ps == ps[..i + 1] + ps[i + 1..];
    PayloadsConcat(ps[..i + 1], ps[i + 1..]);
  }

  lemma {:induction false} ContiguousDist(ps: seq<Packet>, i: nat)
    requires Contiguous(ps) && |Payloads(ps)| <= 0x8000_0000 && i < |ps|
    ensures Dist(ps[i].tcp.seqNo, ps[0].tcp.seqNo) == |Payloads(ps[..i])|
  {
    if i == 0 {
    } else {
      ContiguousDist(ps, i - 1);
      PayloadSlice(ps, i - 1);
      hide Payloads; hide Dist; hide Wrap;
      DistAdd(ps[i - 1].tcp.seqNo, ps[0].tcp.seqNo, |ps[i - 1].payload|);
    }
  }

  lemma {:induction false} PayloadPosition(ps: seq<Packet>, k: nat) returns (i: nat)
    requires k < |Payloads(ps)|
    ensures i < |ps| && |Payloads(ps[..i])| <= k < |Payloads(ps[..i])| + |ps[i].payload|
  {
    var n := |ps[0].payload|;
    if k < n {
      i := 0;
    } else {
      var j := PayloadPosition(ps[1..], k - n);
      i := j + 1;
      assert ps[..i] == [ps[0]] + ps[1..][..j];
      PayloadsConcat([ps[0]], ps[1..][..j]);
    }
  }

  lemma {:induction false} ContiguousConsistent(ps: seq<Packet>)
    requires ps != [] && Contiguous(ps) && |Payloads(ps)| < 0x8000_0000
    ensures Consistent(Segments(ps), Payloads(ps), ps[0].tcp.seqNo)
    ensures Lowest(Segments(ps), ps[0].tcp.seqNo) == 0
  {
    var origin, segs := ps[0].tcp.seqNo, Segments(ps);
    forall g | g in segs ensures SliceOf(g, Payloads(ps), origin) {
      var i :| 0 <= i < |segs| && segs[i] == g;
      ContiguousDist(ps, i);
      PayloadSlice(ps, i);
    }
    assert segs[0] in segs;
    LowestUnique(segs, origin, 0, segs[0]);
  }

  lemma {:induction false} ContiguousCovered(ps: seq<Packet>, k: nat)
    requires Contiguous(ps) && |Payloads(ps)| < 0x8000_0000 && k < |Payloads(ps)|
    ensures Covered(Segments(ps), k, ps[0].tcp.seqNo)
  {
    var i := PayloadPosition(ps, k);
    ContiguousDist(ps, i);
    PayloadSlice(ps, i);
    var g := Segments(ps)[i];
    assert g in Segments(ps) && Covers(g, k, ps[0].tcp.seqNo);
  }

  /** On packets that follow one another the plain concatenation and the reassembly agree,
      also across the 2^32 wrap. */
  lemma {:induction false} ContiguousReassembles(ps: seq<Packet>)
    requires Contiguous(ps) && |Payloads(ps)| < 0x8000_0000
    ensures Reassemble(Segments(ps)) == Payloads(ps)
  {
    if ps != [] {
      ContiguousConsistent(ps);
      ReassembleIsGapFreePrefix(Segments(ps), Payloads(ps), ps[0].tcp.seqNo);
      var n := |Reassemble(Segments(ps))|;
      if n < |Payloads(ps)| {
        ContiguousCovered(ps, n);
      }
    }
  }
}
