/** Which split positions are in range: the searches that fail, the splits that go wrong, and the
    markers that never do. */
module Ranges {
  import opened Base
  import opened Serial
  import opened Sorting
  import opened Packets
  import opened Reassembly
  import opened Splitting
  import opened Markers
  import opened Modifiers

  // ----- finding -----

  function SizeAt(ps: seq<Packet>): nat -> nat {
    (i: nat) => if i < |ps| then |ps[i].payload| else 0
  }

  lemma {:induction false} LocateFinds(ps: seq<Packet>, order: seq<nat>, pos: nat, acc: nat)
    requires acc <= pos && ValidOrder(ps, order)
    ensures Locate(ps, order, pos, acc).Some? <==> pos < acc + SumBy(order, SizeAt(ps))
  {
    if order == [] {
    } else {
      var size := |ps[order[0]].payload|;
      if pos < acc + size {
      } else {
        LocateFinds(ps, order[1..], pos, acc + size);
      }
    }
  }

  lemma {:induction false} SumOfAll(ps: seq<Packet>, from: nat)
    requires from <= |ps|
    ensures SumBy(Indices(|ps|)[from..], SizeAt(ps)) == |Payloads(ps[from..])|
    decreases |ps| - from
  {
    if from >= |ps| {
    } else {
      SumOfAll(ps, from + 1);
      assert Indices(|ps|)[from..][1..] == Indices(|ps|)[from + 1..];
      assert ps[from..][1..] == ps[from + 1..];
    }
  }

  /** On any list of packets the search succeeds exactly on offsets below the total payload. */
  lemma {:induction false} FindsExactly(ps: seq<Packet>, pos: nat)
    ensures FindPacketByOffset(ps, pos).Some? <==> pos < |Payloads(ps)|
  {
    var all := Indices(|ps|);
    LocateFinds(ps, SequenceOrder(ps), pos, 0);
    SumSort(all, BySequence(ps), SizeAt(ps));
    SumOfAll(ps, 0);
    assert all[0..] == all && ps[0..] == ps;
  }

  // ----- splitting -----

  lemma {:induction false} SplitKeepsTotal(ps: seq<Packet>, at: Place)
    requires at.index < |ps| && at.offset <= |ps[at.index].payload|
    ensures |Payloads(SplitAt(ps, at))| == |Payloads(ps)|
  {
    var p := ps[at.index];
    var a, b := FirstPart(p, at.offset), SecondPart(p, at.offset);
    SplitSegment(p, at.offset);
    assert a.payload == SegmentOf(a).data && b.payload == SegmentOf(b).data;
    hide FirstPart; hide SecondPart; hide SegmentOf;
    TotalAround(ps, at.index, [a, b]);
    TotalAround(ps, at.index, [p]);
    assert ps == ps[..at.index] + [p] + ps[at.index + 1..];
    assert [a, b][1..] == [b] && [b][1..] == [] && [p][1..] == [];
  }

  lemma {:induction false} TotalAround(ps: seq<Packet>, i: nat, mid: seq<Packet>)
    requires i < |ps|
    ensures |Payloads(ps[..i] + mid + ps[i + 1..])| == |Payloads(ps[..i])| + |Payloads(mid)| + |Payloads(ps[i + 1..])|
  {
    PayloadsConcat(ps[..i] + mid, ps[i + 1..]);
    PayloadsConcat(ps[..i], mid);
  }

  /** The position resolves to an offset behind the last byte, on a path that dereferences the
      iterator unchecked. */
  ghost predicate Misplaced(ps: seq<Packet>, pos: Position, ctx: Context) {
    && (ctx.proto == Http || ctx.proto == Tls)
    && SplitTarget(pos, ctx).Some? && SplitTarget(pos, ctx).value >= |Payloads(ps)|
  }

  lemma {:induction false} SplitFaultsExactly(ps: seq<Packet>, pos: Position, ctx: Context)
    ensures Split(ps, pos, ctx).Fault? <==> Misplaced(ps, pos, ctx)
    ensures Split(ps, pos, ctx).Done? ==> |Payloads(Split(ps, pos, ctx).value)| == |Payloads(ps)|
  {
    hide SplitTarget; hide FindPacketByOffset; hide SplitAt;
    var target := SplitTarget(pos, ctx);
    if target.Some? {
      FindsExactly(ps, target.value);
      if FindPacketByOffset(ps, target.value).Some? {
        SplitKeepsTotal(ps, FindPacketByOffset(ps, target.value).value);
      }
    }
  }

  /** A whole list of splits goes wrong exactly when one of its positions does, measured on the
      packets before the first split. */
  lemma {:induction false} SplitsFaultExactly(ps: seq<Packet>, splits: seq<Position>, ctx: Context)
    ensures SplitAll(ps, splits, ctx).Fault? <==> exists i :: 0 <= i < |splits| && Misplaced(ps, splits[i], ctx)
    decreases |splits|
  {
    hide Split;
    if splits == [] {
    } else {
      SplitFaultsExactly(ps, splits[0], ctx);
      if Split(ps, splits[0], ctx).Done? {
        var next := Split(ps, splits[0], ctx).value;
        SplitsFaultExactly(next, splits[1..], ctx);
        assert forall i :: 0 <= i < |splits| ==> (Misplaced(next, splits[i], ctx) <==> Misplaced(ps, splits[i], ctx));
        assert forall i :: 0 < i < |splits| ==> splits[i] == splits[1..][i - 1];
      }
    }
  }

  // ----- markers -----

  function DataSize(): Segment -> nat {
    (g: Segment) => |g.data|
  }

  lemma {:induction false} MergeBound(segs: seq<Segment>, base: u32, acc: seq<byte>)
    ensures |Merge(segs, base, acc)| <= |acc| + SumBy(segs, DataSize())
  {
    if segs == [] {
    } else {
      var rel, data := Dist(segs[0].seqNo, base), segs[0].data;
      if rel + |data| <= |acc| {
        MergeBound(segs[1..], base, acc);
      } else if rel <= |acc| {
        MergeBound(segs[1..], base, acc + data[|acc| - rel..]);
      }
    }
  }

  lemma {:induction false} OriginalsSize(ps: seq<Packet>)
    ensures SumBy(OriginalSegments(ps), DataSize()) <= |Payloads(ps)|
  {
    if ps == [] {
    } else {
      OriginalsSize(ps[1..]);
      assert ps == [ps[0]] + ps[1..];
      SegmentsConcat([ps[0]], ps[1..]);
      OriginalsOfTwo(ps[0], ps[0]);
      var rest := OriginalSegments(ps[1..]);
      hide OriginalSegments;
      if ps[0].isFake {
        assert [] + rest == rest;
      } else {
        assert ([SegmentOf(ps[0])] + rest)[1..] == rest;
      }
    }
  }

  /** What reassembles from the originals is never longer than all payloads together. */
  lemma {:induction false} ReassembleBound(ps: seq<Packet>)
    ensures |Reassemble(OriginalSegments(ps))| <= |Payloads(ps)|
  {
    var segs := OriginalSegments(ps);
    OriginalsSize(ps);
    hide OriginalSegments;
    if segs != [] {
      var base := FoldBase(segs, segs[0].seqNo);
      MergeBound(StableSort(segs, ByOffset(base)), base, []);
      SumSort(segs, ByOffset(base), DataSize());
    }
  }

  predicate Bare(pos: Position) {
    pos.operation == NoOperation
  }

  /** The markers are the pipeline's own: found in what the originals reassemble to. */
  ghost predicate MarkedBy(ps: seq<Packet>, ctx: Context) {
    && (ctx.proto == Http || ctx.proto == Tls) && |Payloads(ps)| < 0x1_0000_0000_0000_0000
    && FindMarkers(Reassemble(OriginalSegments(ps)), ctx.proto) == Done(Some(ctx.marks))
  }

  /** Markers are valid split points: at the start or the middle of a host name that is not empty
      a split without arithmetic always finds a packet, on any list of packets. */
  lemma {:induction false} HostSplitFinds(ps: seq<Packet>, pos: Position, ctx: Context)
    requires MarkedBy(ps, ctx) && Bare(pos) && (pos.arg == HostStart || pos.arg == HostMid)
    requires ctx.marks.hoststart != ctx.marks.hostend
    ensures SplitTarget(pos, ctx).Some? && FindPacketByOffset(ps, SplitTarget(pos, ctx).value).Some?
    ensures Split(ps, pos, ctx).Done?
  {
    var full := Reassemble(OriginalSegments(ps));
    ReassembleBound(ps);
    hide Reassemble; hide FindMarkersTls; hide FindMarkersHttp; hide FindPacketByOffset; hide OriginalSegments;
    MarksOrdered(full, ctx);
    SmallSize(ctx.marks.hoststart.value);
    SmallSize(ctx.marks.hostmid.value);
    FindsExactly(ps, SplitTarget(pos, ctx).value);
  }

  lemma {:induction false} SmallSize(n: nat)
    requires n < 0x1_0000_0000_0000_0000
    ensures Wrap64(n) == n
  {
  }

  lemma {:induction false} MarksOrdered(full: seq<byte>, ctx: Context)
    requires ctx.proto == Http || ctx.proto == Tls
    requires FindMarkers(full, ctx.proto) == Done(Some(ctx.marks))
    ensures Ordered(ctx.marks, |full|)
    ensures ctx.marks.hoststart != ctx.marks.hostend ==> ctx.marks.hostmid.value < ctx.marks.hostend.value
    ensures ctx.proto == Http ==> ctx.marks.hostend.value + 2 <= |full|
  {
    if ctx.proto == Http {
      HttpMarkersInside(full);
    } else {
      TlsMarkersInside(full);
    }
  }

  /** At the end of the host name it always finds one for HTTP, where the line end follows; for
      TLS exactly when some byte follows the name. */
  lemma {:induction false} HostEndSplitFinds(ps: seq<Packet>, pos: Position, ctx: Context)
    requires MarkedBy(ps, ctx) && Bare(pos) && pos.arg == HostEnd
    ensures ctx.proto == Http ==> Split(ps, pos, ctx).Done?
    ensures ctx.marks.hostend.Some?
    ensures ctx.proto == Tls ==> (Split(ps, pos, ctx).Done? <==> ctx.marks.hostend.value < |Payloads(ps)|)
  {
    var full := Reassemble(OriginalSegments(ps));
    ReassembleBound(ps);
    hide Reassemble; hide FindMarkersTls; hide FindMarkersHttp; hide FindPacketByOffset; hide OriginalSegments; hide Split;
    MarksOrdered(full, ctx);
    SmallSize(ctx.marks.hostend.value);
    SplitFaultsExactly(ps, pos, ctx);
  }
}
