/** Splitting refines cutting the stream: on packets that tile a stream, offsets found by
    counting payload bytes are offsets in the stream. */
module Tiling {
  import opened Base
  import opened Serial
  import opened Sorting
  import opened Packets
  import opened Reassembly
  import opened Splitting

  ghost predicate Holds(ps: seq<Packet>, i: int, k: int, origin: u32) {
    0 <= i < |ps| && Covers(SegmentOf(ps[i]), k, origin)
  }

  ghost predicate Occupied(ps: seq<Packet>, k: int, origin: u32) {
    exists i :: Holds(ps, i, k, origin)
  }

  ghost predicate HeldBy(ps: seq<Packet>, among: seq<nat>, k: int, origin: u32) {
    exists j :: j in among && Holds(ps, j, k, origin)
  }

  /** Every byte of the stream is held by exactly one packet; packets may be empty and in any order. */
  ghost predicate Tiles(ps: seq<Packet>, stream: seq<byte>, origin: u32) {
    && |stream| <= 0x8000_0000
    && (forall i :: 0 <= i < |ps| ==> SliceOf(SegmentOf(ps[i]), stream, origin))
    && (forall k :: 0 <= k < |stream| ==> Occupied(ps, k, origin))
    && forall i, j, k :: Holds(ps, i, k, origin) && Holds(ps, j, k, origin) ==> i == j
  }

  /** Some packet starts at offset k. */
  ghost predicate Boundary(ps: seq<Packet>, k: int, origin: u32) {
    exists i :: 0 <= i < |ps| && Dist(ps[i].tcp.seqNo, origin) == k
  }

  // ----- the order of the iterators -----

  ghost predicate Distinct(s: seq<nat>) {
    forall a, b :: 0 <= a < b < |s| ==> s[a] != s[b]
  }

  ghost predicate AscendingOrder(ps: seq<Packet>, order: seq<nat>, origin: u32)
    requires ValidOrder(ps, order)
  {
    forall a, b :: 0 <= a < b < |order| ==> OffsetOf(ps, order[a], origin) <= OffsetOf(ps, order[b], origin)
  }

  ghost function OffsetOf(ps: seq<Packet>, i: nat, origin: u32): u32
    requires i < |ps|
  {
    Dist(ps[i].tcp.seqNo, origin)
  }

  lemma {:induction false} DistinctPermutation(s: seq<nat>, t: seq<nat>)
    requires multiset(s) == multiset(t) && Distinct(t)
    ensures Distinct(s)
  {
    forall a, b | 0 <= a < b < |s| ensures s[a] != s[b] {
      if s[a] == s[b] {
        assert s == s[..a] + [s[a]] + s[a + 1..b] + [s[b]] + s[b + 1..];
        assert multiset(s)[s[a]] >= 2;
        DistinctOnce(t, s[a]);
      }
    }
  }

  lemma {:induction false} DistinctOnce(t: seq<nat>, x: nat)
    requires Distinct(t)
    ensures multiset(t)[x] <= 1
  {
    if t == [] {
    } else {
      DistinctOnce(t[1..], x);
      assert t == [t[0]] + t[1..];
      if x == t[0] {
        assert x !in t[1..];
      }
    }
  }

  /** In the window the order is a permutation of the packets by ascending offset. */
  lemma {:induction false} OrderAscends(ps: seq<Packet>, origin: u32)
    requires forall i :: 0 <= i < |ps| ==> Dist(ps[i].tcp.seqNo, origin) < 0x8000_0000
    ensures var order := SequenceOrder(ps);
      && ValidOrder(ps, order) && Distinct(order)
      && (forall i: nat :: i < |ps| ==> i in order)
      && AscendingOrder(ps, order, origin)
  {
    var key := (i: nat) => if i < |ps| then Dist(ps[i].tcp.seqNo, origin) as int else 0;
    var all, lt, order := Indices(|ps|), BySequence(ps), SequenceOrder(ps);
    forall i, j | i in all && j in all ensures lt(i, j) <==> key(i) < key(j) {
      BeforeInWindow(ps[i].tcp.seqNo, ps[j].tcp.seqNo, origin);
    }
    SortMembers(all, lt);
    SortAscending(all, lt, key);
    DistinctPermutation(order, all);
    forall i: nat | i < |ps| ensures i in order {
      assert all[i] in all;
    }
    forall a, b | 0 <= a < b < |order|
      ensures OffsetOf(ps, order[a], origin) <= OffsetOf(ps, order[b], origin)
    {
      assert key(order[a]) <= key(order[b]);
    }
  }

  // ----- finding a byte -----

  /** The packets in `done` hold exactly the first `acc` bytes. */
  ghost predicate HoldFirst(ps: seq<Packet>, done: seq<nat>, acc: nat, origin: u32) {
    forall k: int :: HeldBy(ps, done, k, origin) <==> 0 <= k < acc
  }

  lemma {:induction false} HoldFirstSnoc(ps: seq<Packet>, done: seq<nat>, i: nat, acc: nat, origin: u32)
    requires HoldFirst(ps, done, acc, origin) && i < |ps|
    requires ps[i].payload == [] || Dist(ps[i].tcp.seqNo, origin) == acc
    ensures HoldFirst(ps, done + [i], acc + |ps[i].payload|, origin)
  {
    forall k: int
      ensures HeldBy(ps, done + [i], k, origin) <==> 0 <= k < acc + |ps[i].payload|
    {
      assert HeldBy(ps, done, k, origin) <==> 0 <= k < acc;
      assert i in done + [i] && forall j :: j in done ==> j in done + [i];
    }
  }

  lemma {:induction false} FirstNotDone(done: seq<nat>, rest: seq<nat>)
    requires Distinct(done + rest) && rest != []
    ensures rest[0] !in done
  {
    assert (done + rest)[|done|] == rest[0];
    assert forall a :: 0 <= a < |done| ==> (done + rest)[a] == done[a];
  }

  lemma {:induction false} SliceByte(g: Segment, r: nat, stream: seq<byte>, origin: u32)
    requires SliceOf(g, stream, origin) && r < |g.data|
    ensures g.data[r] == stream[Dist(g.seqNo, origin) + r]
  {
    var d := Dist(g.seqNo, origin);
    assert stream[d..d + |g.data|][r] == stream[d + r];
  }

  lemma {:induction false} LocateHolds(ps: seq<Packet>, done: seq<nat>, rest: seq<nat>, pos: nat, acc: nat,
                                       stream: seq<byte>, origin: u32)
    requires Tiles(ps, stream, origin) && acc <= pos < |stream|
    requires ValidOrder(ps, rest) && Distinct(done + rest)
    requires forall i: nat :: i < |ps| ==> i in done || i in rest
    requires AscendingOrder(ps, rest, origin)
    requires HoldFirst(ps, done, acc, origin)
    ensures var found := Locate(ps, rest, pos, acc);
      found.Some? && Dist(ps[found.value.index].tcp.seqNo, origin) + found.value.offset == pos
    decreases rest
  {
    assert Occupied(ps, acc, origin) && !HeldBy(ps, done, acc, origin);
    var holder: nat :| Holds(ps, holder, acc, origin);
    assert holder in rest;
    var i := rest[0];
    var d, size := Dist(ps[i].tcp.seqNo, origin), |ps[i].payload|;
    if size > 0 {
      assert d <= acc by {
        var b :| 0 <= b < |rest| && rest[b] == holder;
      }
      assert d >= acc by {
        FirstNotDone(done, rest);
        assert HeldBy(ps, done, d, origin) <==> 0 <= d < acc;
        assert Holds(ps, i, d, origin);
      }
    }
    if pos < acc + size {
    } else {
      HoldFirstSnoc(ps, done, i, acc, origin);
      assert done + [i] + rest[1..] == done + rest;
      LocateHolds(ps, done + [i], rest[1..], pos, acc + size, stream, origin);
    }
  }

  lemma {:induction false} FindOffset(ps: seq<Packet>, k: nat, stream: seq<byte>, origin: u32)
    requires Tiles(ps, stream, origin) && k < |stream|
    ensures var found := FindPacketByOffset(ps, k);
      found.Some? && Dist(ps[found.value.index].tcp.seqNo, origin) + found.value.offset == k
  {
    OrderAscends(ps, origin);
    var order := SequenceOrder(ps);
    assert [] + order == order;
    assert HoldFirst(ps, [], 0, origin);
    LocateHolds(ps, [], order, k, 0, stream, origin);
  }

  /** `find_packet_by_offset(k)` returns the packet and the index inside it that hold byte k. */
  lemma {:induction false} FindIsHolder(ps: seq<Packet>, k: nat, stream: seq<byte>, origin: u32)
    requires Tiles(ps, stream, origin) && k < |stream|
    ensures var found := FindPacketByOffset(ps, k);
      && found.Some?
      && Dist(ps[found.value.index].tcp.seqNo, origin) + found.value.offset == k
      && ps[found.value.index].payload[found.value.offset] == stream[k]
  {
    FindOffset(ps, k, stream, origin);
    var at := FindPacketByOffset(ps, k).value;
    assert SliceOf(SegmentOf(ps[at.index]), stream, origin);
    SliceByte(SegmentOf(ps[at.index]), at.offset, stream, origin);
  }

  // ----- splitting at it -----

  /** What a split does to a tiling: one packet more, cut at offset k, the others untouched. */
  ghost predicate CutAt(before: seq<Packet>, after: seq<Packet>, k: int, origin: u32) {
    && |after| == |before| + 1
    && exists i: nat :: CutPacket(before, after, i, k, origin)
  }

  ghost predicate CutPacket(before: seq<Packet>, after: seq<Packet>, i: nat, k: int, origin: u32)
    requires |after| == |before| + 1
  {
    && i < |before|
    && after[..i] == before[..i] && after[i + 2..] == before[i + 1..]
    && after[i].payload + after[i + 1].payload == before[i].payload
    && after[i].tcp.seqNo == before[i].tcp.seqNo
    && Dist(after[i + 1].tcp.seqNo, origin) == k
  }

  /** The packet of the old list that the packet at j of the new list is, or is half of. */
  function Parent(i: nat, j: int): int {
    if j <= i then j else j - 1
  }

  /** The new list holds byte k at j exactly where the old one holds it at j's parent, on the right side of the cut. */
  lemma {:induction false} HalvesHold(ps: seq<Packet>, i: nat, r: nat, first: Packet, second: Packet,
                                      stream: seq<byte>, origin: u32, j: int, k: int)
    requires Tiles(ps, stream, origin) && i < |ps| && r < |ps[i].payload|
    requires SegmentOf(first) == Segment(ps[i].tcp.seqNo, ps[i].payload[..r])
    requires SegmentOf(second) == Segment(Wrap(ps[i].tcp.seqNo + r), ps[i].payload[r..])
    ensures var cut := Dist(ps[i].tcp.seqNo, origin) + r;
      Holds(ps[..i] + [first, second] + ps[i + 1..], j, k, origin)
      <==> Holds(ps, Parent(i, j), k, origin) && (j == i ==> k < cut) && (j == i + 1 ==> cut <= k)
  {
    var out := ps[..i] + [first, second] + ps[i + 1..];
    CutSlice(SegmentOf(ps[i]), r, stream, origin);
    if 0 <= j < |out| {
      assert out[j] == if j < i then ps[j] else if j == i then first else if j == i + 1 then second else ps[j - 1];
    }
  }

  lemma {:induction false} HalvesSlice(ps: seq<Packet>, i: nat, r: nat, first: Packet, second: Packet,
                                       stream: seq<byte>, origin: u32)
    requires Tiles(ps, stream, origin) && i < |ps| && r < |ps[i].payload|
    requires SegmentOf(first) == Segment(ps[i].tcp.seqNo, ps[i].payload[..r])
    requires SegmentOf(second) == Segment(Wrap(ps[i].tcp.seqNo + r), ps[i].payload[r..])
    ensures Dist(second.tcp.seqNo, origin) == Dist(ps[i].tcp.seqNo, origin) + r
    ensures var out := ps[..i] + [first, second] + ps[i + 1..];
      forall j :: 0 <= j < |out| ==> SliceOf(SegmentOf(out[j]), stream, origin)
  {
    CutSlice(SegmentOf(ps[i]), r, stream, origin);
    var out := ps[..i] + [first, second] + ps[i + 1..];
    forall j | 0 <= j < |out| ensures SliceOf(SegmentOf(out[j]), stream, origin) {
      assert out[j] == if j < i then ps[j] else if j == i then first else if j == i + 1 then second else ps[j - 1];
    }
  }

  lemma {:induction false} HalvesTile(ps: seq<Packet>, i: nat, r: nat, first: Packet, second: Packet,
                                      stream: seq<byte>, origin: u32)
    requires Tiles(ps, stream, origin) && i < |ps| && r < |ps[i].payload|
    requires SegmentOf(first) == Segment(ps[i].tcp.seqNo, ps[i].payload[..r])
    requires SegmentOf(second) == Segment(Wrap(ps[i].tcp.seqNo + r), ps[i].payload[r..])
    ensures Tiles(ps[..i] + [first, second] + ps[i + 1..], stream, origin)
  {
    var out := ps[..i] + [first, second] + ps[i + 1..];
    var cut := Dist(ps[i].tcp.seqNo, origin) + r;
    HalvesSlice(ps, i, r, first, second, stream, origin);
    forall j, k
      ensures Holds(out, j, k, origin)
        <==> Holds(ps, Parent(i, j), k, origin) && (j == i ==> k < cut) && (j == i + 1 ==> cut <= k)
    {
      HalvesHold(ps, i, r, first, second, stream, origin, j, k);
    }
    forall k | 0 <= k < |stream| ensures Occupied(out, k, origin) {
      assert Occupied(ps, k, origin);
      var j: int :| Holds(ps, j, k, origin);
      assert Holds(out, if j < i || (j == i && k < cut) then j else j + 1, k, origin);
    }
  }

  /** Splitting at stream offset k, in any list order and also when the sequence number wraps
      inside the packet, is cutting the stream at k. */
  lemma {:induction false} SplitRefinesCut(ps: seq<Packet>, k: nat, stream: seq<byte>, origin: u32)
    requires Tiles(ps, stream, origin) && k < |stream|
    ensures FindPacketByOffset(ps, k).Some?
    ensures var out := SplitAt(ps, FindPacketByOffset(ps, k).value);
      Tiles(out, stream, origin) && CutAt(ps, out, k, origin)
  {
    hide FirstPart;
    hide SecondPart;
    hide FindPacketByOffset;
    hide CutAt;
    FindIsHolder(ps, k, stream, origin);
    hide Tiles;
    var at := FindPacketByOffset(ps, k).value;
    var p := ps[at.index];
    SplitSegment(p, at.offset);
    HalvesCut(ps, at, FirstPart(p, at.offset), SecondPart(p, at.offset), k, stream, origin);
  }

  lemma {:induction false} HalvesCut(ps: seq<Packet>, at: Place, first: Packet, second: Packet, k: nat,
                                     stream: seq<byte>, origin: u32)
    requires Tiles(ps, stream, origin) && at.index < |ps| && at.offset < |ps[at.index].payload|
    requires Dist(ps[at.index].tcp.seqNo, origin) + at.offset == k
    requires SegmentOf(first) == Segment(ps[at.index].tcp.seqNo, ps[at.index].payload[..at.offset])
    requires SegmentOf(second) == Segment(Wrap(ps[at.index].tcp.seqNo + at.offset), ps[at.index].payload[at.offset..])
    ensures var out := ps[..at.index] + [first, second] + ps[at.index + 1..];
      Tiles(out, stream, origin) && CutAt(ps, out, k, origin)
  {
    var i := at.index;
    var out := ps[..i] + [first, second] + ps[i + 1..];
    HalvesSlice(ps, i, at.offset, first, second, stream, origin);
    HalvesTile(ps, i, at.offset, first, second, stream, origin);
    assert out[..i] == ps[..i] && out[i + 2..] == ps[i + 1..];
    assert out[i].payload + out[i + 1].payload == ps[i].payload;
    assert CutPacket(ps, out, i, k, origin);
  }

  /** The splits at a list of offsets, each found afresh in the current packets. */
  ghost function CutAll(ps: seq<Packet>, cuts: seq<nat>): seq<Packet>
    decreases cuts
  {
    if cuts == [] then ps
    else
      match FindPacketByOffset(ps, cuts[0])
      case None => ps
      case Some(at) => CutAll(SplitAt(ps, at), cuts[1..])
  }

  lemma {:induction false} CutKeepsBoundary(before: seq<Packet>, after: seq<Packet>, k: int, b: int, origin: u32)
    requires CutAt(before, after, k, origin)
    ensures Boundary(after, k, origin)
    ensures Boundary(before, b, origin) ==> Boundary(after, b, origin)
  {
    var i: nat :| CutPacket(before, after, i, k, origin);
    if Boundary(before, b, origin) {
      var j :| 0 <= j < |before| && Dist(before[j].tcp.seqNo, origin) == b;
      assert j < i ==> after[j] == after[..i][j] == before[..i][j];
      assert j > i ==> after[j + 1] == after[i + 2..][j - i - 1] == before[i + 1..][j - i - 1];
    }
  }

  /** After any list of splits inside the stream, every requested offset is a packet boundary,
      earlier boundaries remain, and the packets still tile the same stream. */
  lemma {:induction false} CutAllRefines(ps: seq<Packet>, cuts: seq<nat>, stream: seq<byte>, origin: u32)
    requires Tiles(ps, stream, origin)
    requires forall c :: 0 <= c < |cuts| ==> cuts[c] < |stream|
    ensures var out := CutAll(ps, cuts);
      && Tiles(out, stream, origin) && |out| == |ps| + |cuts|
      && (forall c :: 0 <= c < |cuts| ==> Boundary(out, cuts[c], origin))
      && forall b :: Boundary(ps, b, origin) ==> Boundary(out, b, origin)
    decreases cuts
  {
    hide SplitAt;
    if cuts == [] {
    } else {
      SplitRefinesCut(ps, cuts[0], stream, origin);
      var next := SplitAt(ps, FindPacketByOffset(ps, cuts[0]).value);
      var rest := cuts[1..];
      CutAllRefines(next, rest, stream, origin);
      forall b ensures Boundary(next, cuts[0], origin) && (Boundary(ps, b, origin) ==> Boundary(next, b, origin)) {
        CutKeepsBoundary(ps, next, cuts[0], b, origin);
      }
      assert forall c :: 0 < c < |cuts| ==> cuts[c] == rest[c - 1];
    }
  }

  /** A tiling reassembles to the whole stream. */
  lemma {:induction false} TilesReassemble(ps: seq<Packet>, stream: seq<byte>, origin: u32)
    requires Tiles(ps, stream, origin) && stream != []
    ensures Reassemble(Segments(ps)) == stream
  {
    var segs := Segments(ps);
    forall g | g in segs ensures SliceOf(g, stream, origin) {
      var i :| 0 <= i < |segs| && segs[i] == g;
      assert segs[i] == SegmentOf(ps[i]);
    }
    forall k | 0 <= k < |stream| ensures Covered(segs, k, origin) {
      assert Occupied(ps, k, origin);
      var i: int :| Holds(ps, i, k, origin);
      assert segs[i] == SegmentOf(ps[i]) && segs[i] in segs;
    }
    assert Covered(segs, 0, origin);
    var first :| first in segs && Covers(first, 0, origin);
    LowestUnique(segs, origin, 0, first);
    ReassembleIsGapFreePrefix(segs, stream, origin);
  }
}
