/** The pipeline keeps the byte stream: whatever modifiers run, the originals reassemble to the
    same bytes. */
module StreamKept {
  import opened Base
  import opened Serial
  import opened Sorting
  import opened Packets
  import opened Reassembly
  import opened Splitting
  import opened Segmentation
  import opened Markers
  import opened Modifiers

  /** The originals of `ps` are slices of the stream from `origin` and show what `ref` showed from `o0`. */
  ghost predicate Carries(ps: seq<Packet>, stream: seq<byte>, origin: u32, ref: seq<Segment>, o0: u32) {
    Consistent(OriginalSegments(ps), stream, origin) && SameExtent(ref, o0, OriginalSegments(ps), origin)
  }

  // ----- passes -----

  lemma {:induction false} OriginalSegmentsCons(p: Packet, rest: seq<Packet>)
    ensures OriginalSegments([p] + rest) == (if p.isFake then [] else [SegmentOf(p)]) + OriginalSegments(rest)
  {
    assert ([p] + rest)[1..] == rest;
  }

  lemma {:induction false} NoSegments()
    ensures OriginalSegments([]) == []
  {
  }

  /** A pass over the originals maps their segments; a pass over the fakes does not touch them. */
  lemma {:induction false} PassSegments(ps: seq<Packet>, fakes: bool, f: Packet -> Packet, g: Segment -> Segment)
    requires forall p :: f(p).isFake == p.isFake && SegmentOf(f(p)) == g(SegmentOf(p))
    ensures OriginalSegments(Pass(ps, fakes, f))
         == if fakes then OriginalSegments(ps) else MapSeq(OriginalSegments(ps), g)
  {
    hide OriginalSegments;
    if ps == [] {
      NoSegments();
    } else {
      var p, rest := ps[0], ps[1..];
      PassSegments(rest, fakes, f, g);
      assert ps == [p] + rest;
      OriginalSegmentsCons(p, rest);
      OriginalSegmentsCons(if p.isFake == fakes then f(p) else p, Pass(rest, fakes, f));
    }
  }

  function Identity(): Segment -> Segment {
    (g: Segment) => g
  }

  lemma {:induction false} MapIdentity(segs: seq<Segment>)
    ensures MapSeq(segs, Identity()) == segs
  {
  }

  lemma {:induction false} TtlKeepsSegments(ps: seq<Packet>, fakes: bool, ttl: Option<byte>)
    ensures OriginalSegments(TtlPass(ps, fakes, ttl)) == OriginalSegments(ps)
  {
    if ttl.Some? {
      PassSegments(ps, fakes, TtlSetter(ttl.value), Identity());
      MapIdentity(OriginalSegments(ps));
    }
  }

  lemma {:induction false} BadKeepsSegments(ps: seq<Packet>, fakes: bool, badcksum: bool)
    ensures OriginalSegments(BadPass(ps, fakes, badcksum)) == OriginalSegments(ps)
  {
    if badcksum {
      PassSegments(ps, fakes, Spoiler(), Identity());
      MapIdentity(OriginalSegments(ps));
    }
  }

  lemma {:induction false} StampSegments(ps: seq<Packet>, fakes: bool, offset: int)
    requires StampPass(ps, fakes, offset).Done?
    ensures OriginalSegments(StampPass(ps, fakes, offset).value) == OriginalSegments(ps)
  {
    if ps == [] {
    } else {
      var p, rest := ps[0], ps[1..];
      var q := if p.isFake == fakes then Restamp(p, offset).value else p;
      assert q.isFake == p.isFake && SegmentOf(q) == SegmentOf(p);
      hide Restamp;
      StampSegments(rest, fakes, offset);
      assert ps == [p] + rest;
      OriginalSegmentsCons(p, rest);
      OriginalSegmentsCons(q, StampPass(rest, fakes, offset).value);
    }
  }

  lemma {:induction false} TsKeepsSegments(ps: seq<Packet>, fakes: bool, offset: Option<int>)
    requires TsPass(ps, fakes, offset).Done?
    ensures OriginalSegments(TsPass(ps, fakes, offset).value) == OriginalSegments(ps)
  {
    if offset.Some? {
      StampSegments(ps, fakes, offset.value);
    }
  }

  lemma {:induction false} ShiftExtent(segs: seq<Segment>, d: int, stream: seq<byte>, origin: u32)
    requires Consistent(segs, stream, origin)
    ensures Consistent(MapSeq(segs, Shift(d)), stream, Wrap(origin + d))
    ensures SameExtent(segs, origin, MapSeq(segs, Shift(d)), Wrap(origin + d))
  {
    var moved, o := MapSeq(segs, Shift(d)), Wrap(origin + d);
    forall i | 0 <= i < |segs|
      ensures Dist(moved[i].seqNo, o) == Dist(segs[i].seqNo, origin) && moved[i].data == segs[i].data
    {
      DistShift(segs[i].seqNo, origin, d);
    }
    forall g | g in moved ensures SliceOf(g, stream, o) {
      var i :| 0 <= i < |moved| && moved[i] == g;
      assert SliceOf(segs[i], stream, origin);
    }
    forall k: int ensures Covered(segs, k, origin) <==> Covered(moved, k, o) {
      if Covered(segs, k, origin) {
        var g :| g in segs && Covers(g, k, origin);
        var i :| 0 <= i < |segs| && segs[i] == g;
        assert moved[i] in moved && Covers(moved[i], k, o);
      }
      if Covered(moved, k, o) {
        var g :| g in moved && Covers(g, k, o);
        var i :| 0 <= i < |moved| && moved[i] == g;
        assert segs[i] in segs && Covers(segs[i], k, origin);
      }
    }
    ShiftLowest(segs, d, origin);
  }

  lemma {:induction false} ShiftLowest(segs: seq<Segment>, d: int, origin: u32)
    ensures segs != [] ==> Lowest(MapSeq(segs, Shift(d)), Wrap(origin + d)) == Lowest(segs, origin)
  {
    if segs == [] {
    } else {
      DistShift(segs[0].seqNo, origin, d);
      assert MapSeq(segs, Shift(d))[1..] == MapSeq(segs[1..], Shift(d));
      ShiftLowest(segs[1..], d, origin);
    }
  }

  lemma {:induction false} OwnExtent(segs: seq<Segment>, origin: u32)
    ensures SameExtent(segs, origin, segs, origin)
  {
  }

  lemma {:induction false} SameExtentTrans(a: seq<Segment>, oa: u32, b: seq<Segment>, ob: u32, c: seq<Segment>, oc: u32)
    requires SameExtent(a, oa, b, ob) && SameExtent(b, ob, c, oc)
    ensures SameExtent(a, oa, c, oc)
  {
  }

  lemma {:induction false} SeqPassSegments(ps: seq<Packet>, fakes: bool, offset: int)
    ensures OriginalSegments(SeqPass(ps, fakes, Some(offset)))
         == if fakes then OriginalSegments(ps) else MapSeq(OriginalSegments(ps), Shift(offset))
  {
    forall p: Packet
      ensures Resequencer(offset)(p).isFake == p.isFake && SegmentOf(Resequencer(offset)(p)) == Shift(offset)(SegmentOf(p))
    {
    }
    PassSegments(ps, fakes, Resequencer(offset), Shift(offset));
  }

  /** `sequence_offset` on the originals, by any amount, is invisible to reassembly, although the
      lowest number, the comparator and the wrap all move. */
  lemma {:induction false} SequenceOffsetInvisible(ps: seq<Packet>, offset: int)
    ensures Reassemble(OriginalSegments(SeqPass(ps, false, Some(offset)))) == Reassemble(OriginalSegments(ps))
  {
    hide Reassemble; hide OriginalSegments; hide SeqPass;
    SeqPassSegments(ps, false, offset);
    ReassembleTranslates(OriginalSegments(ps), offset);
  }

  /** A sequence offset moves the origin along. */
  lemma {:induction false} SeqPassCarries(ps: seq<Packet>, fakes: bool, offset: Option<int>,
                                          stream: seq<byte>, origin: u32, ref: seq<Segment>, o0: u32)
    returns (o: u32)
    requires Carries(ps, stream, origin, ref, o0)
    ensures o == if fakes || offset.None? then origin else Wrap(origin + offset.value)
    ensures Carries(SeqPass(ps, fakes, offset), stream, o, ref, o0)
  {
    o := origin;
    if offset.Some? {
      var before, after := OriginalSegments(ps), OriginalSegments(SeqPass(ps, fakes, offset));
      SeqPassSegments(ps, fakes, offset.value);
      if !fakes {
        o := Wrap(origin + offset.value);
        assert after == MapSeq(before, Shift(offset.value));
        ShiftExtent(before, offset.value, stream, origin);
        hide SeqPass; hide OriginalSegments; hide Consistent; hide SameExtent; hide MapSeq;
        SameExtentTrans(ref, o0, before, origin, after, o);
      }
    }
  }

  // ----- splits -----

  lemma {:induction false} SplitCarries(ps: seq<Packet>, pos: Position, ctx: Context,
                                        stream: seq<byte>, origin: u32, ref: seq<Segment>, o0: u32)
    requires Carries(ps, stream, origin, ref, o0) && Split(ps, pos, ctx).Done?
    ensures Carries(Split(ps, pos, ctx).value, stream, origin, ref, o0)
  {
    hide SplitAt; hide FindPacketByOffset;
    var target := SplitTarget(pos, ctx);
    if target.Some? && FindPacketByOffset(ps, target.value).Some? {
      var at := FindPacketByOffset(ps, target.value).value;
      SplitKeepsExtent(ps, at, stream, origin);
      SameExtentTrans(ref, o0, OriginalSegments(ps), origin, OriginalSegments(SplitAt(ps, at)), origin);
    }
  }

  lemma {:induction false} SplitAllCarries(ps: seq<Packet>, splits: seq<Position>, ctx: Context,
                                           stream: seq<byte>, origin: u32, ref: seq<Segment>, o0: u32)
    requires Carries(ps, stream, origin, ref, o0) && SplitAll(ps, splits, ctx).Done?
    ensures Carries(SplitAll(ps, splits, ctx).value, stream, origin, ref, o0)
    decreases |splits|
  {
    hide Split; hide Carries;
    if splits == [] {
    } else {
      SplitCarries(ps, splits[0], ctx, stream, origin, ref, o0);
      SplitAllCarries(Split(ps, splits[0], ctx).value, splits[1..], ctx, stream, origin, ref, o0);
    }
  }

  // ----- reversal and decoys -----

  lemma {:induction false} ReverseMembers<T(!new)>(s: seq<T>)
    ensures forall x :: x in Reverse(s) <==> x in s
    ensures multiset(Reverse(s)) == multiset(s)
  {
    if s == [] {
    } else {
      ReverseMembers(s[1..]);
      assert s == [s[0]] + s[1..];
    }
  }

  /** Weaving puts exactly the given originals between the untouched fakes. */
  lemma {:induction false} WeaveParts(ps: seq<Packet>, originals: seq<Packet>)
    requires |originals| == |Originals(ps)| && forall i :: 0 <= i < |originals| ==> !originals[i].isFake
    ensures Originals(Weave(ps, originals)) == originals
    ensures Fakes(Weave(ps, originals)) == Fakes(ps)
    ensures |Weave(ps, originals)| == |ps|
    ensures forall i :: 0 <= i < |ps| ==> Weave(ps, originals)[i].isFake == ps[i].isFake
    ensures forall i :: 0 <= i < |ps| && ps[i].isFake ==> Weave(ps, originals)[i] == ps[i]
  {
    if ps == [] {
    } else {
      var rest := if ps[0].isFake then Weave(ps[1..], originals) else Weave(ps[1..], originals[1..]);
      var head := if ps[0].isFake then ps[0] else originals[0];
      WeaveParts(ps[1..], if ps[0].isFake then originals else originals[1..]);
      assert Weave(ps, originals) == [head] + rest;
      assert ([head] + rest)[1..] == rest;
    }
  }

  lemma {:induction false} OriginalsAreOriginal(ps: seq<Packet>)
    ensures forall i :: 0 <= i < |Originals(ps)| ==> !Originals(ps)[i].isFake
  {
    if ps == [] {
    } else {
      OriginalsAreOriginal(ps[1..]);
    }
  }

  lemma {:induction false} ReverseAt<T(!new)>(s: seq<T>)
    ensures forall i :: 0 <= i < |s| ==> Reverse(s)[i] == s[|s| - 1 - i]
  {
    if s == [] {
    } else {
      ReverseAt(s[1..]);
    }
  }

  lemma {:induction false} ReverseTwice<T(!new)>(s: seq<T>)
    ensures Reverse(Reverse(s)) == s
  {
    ReverseAt(s);
    ReverseAt(Reverse(s));
  }

  /** The filtered reverse keeps every fake at its index and reverses the rest. */
  lemma {:induction false} FilteredReverseParts(ps: seq<Packet>)
    ensures var out := FilteredReverse(ps);
      && |out| == |ps|
      && (forall i :: 0 <= i < |ps| ==> out[i].isFake == ps[i].isFake)
      && (forall i :: 0 <= i < |ps| && ps[i].isFake ==> out[i] == ps[i])
      && Originals(out) == Reverse(Originals(ps)) && Fakes(out) == Fakes(ps)
  {
    OriginalsAreOriginal(ps);
    ReverseAt(Originals(ps));
    WeaveParts(ps, Reverse(Originals(ps)));
  }

  lemma {:induction false} WeaveAgain(ps: seq<Packet>, qs: seq<Packet>, originals: seq<Packet>)
    requires |qs| == |ps| && |originals| == |Originals(ps)| == |Originals(qs)|
    requires forall i :: 0 <= i < |ps| ==> qs[i].isFake == ps[i].isFake && (ps[i].isFake ==> qs[i] == ps[i])
    ensures Weave(qs, originals) == Weave(ps, originals)
  {
    if ps == [] {
    } else {
      WeaveAgain(ps[1..], qs[1..], if ps[0].isFake then originals else originals[1..]);
    }
  }

  lemma {:induction false} WeaveOwn(ps: seq<Packet>)
    ensures Weave(ps, Originals(ps)) == ps
  {
    if ps == [] {
    } else {
      WeaveOwn(ps[1..]);
      assert ps == [ps[0]] + ps[1..];
      if ps[0].isFake {
        assert Originals(ps) == Originals(ps[1..]);
      } else {
        assert Originals(ps)[1..] == Originals(ps[1..]);
      }
    }
  }

  /** The filtered reverse undoes itself. */
  lemma {:induction false} FilteredReverseTwice(ps: seq<Packet>)
    ensures FilteredReverse(FilteredReverse(ps)) == ps
  {
    hide FilteredReverse;
    var out := FilteredReverse(ps);
    FilteredReverseParts(ps);
    ReverseTwice(Originals(ps));
    assert FilteredReverse(out) == Weave(out, Reverse(Originals(out))) by {
      FilteredReverseIs(out);
    }
    WeaveAgain(ps, out, Originals(ps));
    WeaveOwn(ps);
  }

  lemma {:induction false} FilteredReverseIs(ps: seq<Packet>)
    ensures FilteredReverse(ps) == Weave(ps, Reverse(Originals(ps)))
  {
  }

  lemma {:induction false} SegmentsMembers(a: seq<Packet>, b: seq<Packet>)
    requires forall p :: p in a <==> p in b
    ensures forall g :: g in Segments(a) <==> g in Segments(b)
  {
    forall g | g in Segments(a) ensures g in Segments(b) {
      var i :| 0 <= i < |a| && Segments(a)[i] == g;
      assert a[i] in a;
      var j :| 0 <= j < |b| && b[j] == a[i];
      assert Segments(b)[j] == g;
    }
    forall g | g in Segments(b) ensures g in Segments(a) {
      var i :| 0 <= i < |b| && Segments(b)[i] == g;
      assert b[i] in b;
      var j :| 0 <= j < |a| && a[j] == b[i];
      assert Segments(a)[j] == g;
    }
  }

  lemma {:induction false} ReverseCarries(ps: seq<Packet>, stream: seq<byte>, origin: u32, ref: seq<Segment>, o0: u32)
    requires Carries(ps, stream, origin, ref, o0)
    ensures Carries(FilteredReverse(ps), stream, origin, ref, o0)
  {
    FilteredReverseParts(ps);
    hide FilteredReverse;
    ReverseMembers(Originals(ps));
    var a, b := OriginalSegments(ps), OriginalSegments(FilteredReverse(ps));
    SegmentsMembers(Originals(ps), Originals(FilteredReverse(ps)));
    SameMembersSameExtent(a, b, origin);
    SameExtentTrans(ref, o0, a, origin, b, origin);
  }

  lemma {:induction false} MarkFakeNoOriginals(ps: seq<Packet>)
    ensures Originals(MarkFake(ps)) == []
  {
    if ps == [] {
    } else {
      MarkFakeNoOriginals(ps[1..]);
    }
  }

  lemma {:induction false} DecoysCarry(fakes: seq<Packet>, ps: seq<Packet>,
                                       stream: seq<byte>, origin: u32, ref: seq<Segment>, o0: u32)
    requires Carries(ps, stream, origin, ref, o0)
    ensures Carries(MarkFake(fakes) + ps, stream, origin, ref, o0)
  {
    MarkFakeNoOriginals(fakes);
    SegmentsConcat(MarkFake(fakes), ps);
    assert OriginalSegments(MarkFake(fakes) + ps) == OriginalSegments(ps);
  }

  // ----- the modifiers -----

  predicate NoOverlap(m: Mod) {
    match m
    case Splitter(_, overlap) => overlap.None?
    case Disorder(_, overlapAt) => overlapAt.None?
  }

  lemma {:induction false} SplitterOriginalsCarry(ps: seq<Packet>, args: Args, ctx: Context,
                                                  stream: seq<byte>, origin: u32, ref: seq<Segment>, o0: u32)
    returns (o: u32)
    requires Carries(ps, stream, origin, ref, o0) && SplitterOriginals(ps, args, None, ctx).Done?
    ensures o == Wrap(origin + Offset(args))
    ensures Carries(SplitterOriginals(ps, args, None, ctx).value, stream, o, ref, o0)
  {
    WrapSmall(origin);
    hide Wrap;
    hide SplitAll; hide TtlPass; hide TsPass; hide SeqPass; hide BadPass;
    var cut := SplitAll(ps, args.splits, ctx).value;
    SplitAllCarries(ps, args.splits, ctx, stream, origin, ref, o0);
    TtlKeepsSegments(cut, false, args.ipv4Ttl);
    var lived := TtlPass(cut, false, args.ipv4Ttl);
    TsKeepsSegments(lived, false, args.tsOffset);
    var timed := TsPass(lived, false, args.tsOffset).value;
    o := SeqPassCarries(timed, false, args.seqOffset, stream, origin, ref, o0);
    BadKeepsSegments(SeqPass(timed, false, args.seqOffset), false, args.badcksum);
  }

  lemma {:induction false} DisorderOriginalsCarry(ps: seq<Packet>, args: Args, ctx: Context,
                                                  stream: seq<byte>, origin: u32, ref: seq<Segment>, o0: u32)
    returns (o: u32)
    requires Carries(ps, stream, origin, ref, o0) && DisorderOriginals(ps, args, None, ctx).Done?
    ensures o == Wrap(origin + Offset(args))
    ensures Carries(DisorderOriginals(ps, args, None, ctx).value, stream, o, ref, o0)
  {
    WrapSmall(origin);
    hide Wrap;
    hide SplitAll; hide TtlPass; hide TsPass; hide SeqPass; hide BadPass;
    var cut := SplitAll(ps, args.splits, ctx).value;
    SplitAllCarries(ps, args.splits, ctx, stream, origin, ref, o0);
    var moved := SeqPass(cut, false, args.seqOffset);
    o := SeqPassCarries(cut, false, args.seqOffset, stream, origin, ref, o0);
    TsKeepsSegments(moved, false, args.tsOffset);
    var timed := TsPass(moved, false, args.tsOffset).value;
    TtlKeepsSegments(timed, false, args.ipv4Ttl);
    var lived := TtlPass(timed, false, args.ipv4Ttl);
    BadKeepsSegments(lived, false, args.badcksum);
    BadKeepsSegments(BadPass(lived, false, args.badcksum), false, args.badcksum);
  }

  lemma {:induction false} ModifyOneCarries(m: Mod, ps: seq<Packet>, ctx: Context,
                                            stream: seq<byte>, origin: u32, ref: seq<Segment>, o0: u32)
    returns (o: u32)
    requires Carries(ps, stream, origin, ref, o0) && NoOverlap(m) && ModifyOne(m, ps, ctx).Done?
    ensures o == Wrap(origin + Displacement(m))
    ensures Carries(ModifyOne(m, ps, ctx).value, stream, o, ref, o0)
  {
    WrapSmall(origin);
    hide Wrap;
    hide Carries; hide FakePacket; hide SplitterOriginals; hide DisorderOriginals; hide SplitterFakes; hide DisorderFakes;
    hide FilteredReverse;
    o := origin;
    var args := m.args;
    match m {
      case Splitter(_, _) =>
        if args.fakeBlob.None? {
          o := SplitterOriginalsCarry(ps, args, ctx, stream, origin, ref, o0);
        } else {
          DecoysCarry(SplitterFakes([FakePacket(ps[0], args.fakeBlob.value)], args).value, ps, stream, origin, ref, o0);
        }
      case Disorder(_, _) =>
        if args.fakeBlob.None? {
          o := DisorderOriginalsCarry(ps, args, ctx, stream, origin, ref, o0);
          ReverseCarries(DisorderOriginals(ps, args, None, ctx).value, stream, o, ref, o0);
        } else {
          var fakes := DisorderFakes([FakePacket(ps[0], args.fakeBlob.value)], args).value;
          DecoysCarry(fakes, ps, stream, origin, ref, o0);
          ReverseCarries(MarkFake(fakes) + ps, stream, origin, ref, o0);
        }
    }
  }

  lemma {:induction false} ModifyAllCarries(mods: seq<Mod>, ps: seq<Packet>, ctx: Context,
                                            stream: seq<byte>, origin: u32, ref: seq<Segment>, o0: u32)
    returns (o: u32)
    requires Carries(ps, stream, origin, ref, o0) && ModifyAll(mods, ps, ctx).Done?
    requires forall i :: 0 <= i < |mods| ==> NoOverlap(mods[i])
    ensures o == Wrap(origin + Moved(mods, ctx.proto))
    ensures Carries(ModifyAll(mods, ps, ctx).value, stream, o, ref, o0)
    decreases |mods|
  {
    hide Carries; hide ModifyOne; hide Wrap; hide Displacement;
    WrapSmall(origin);
    if mods == [] {
      o := origin;
    } else if !Matches(mods[0], ctx.proto) {
      o := ModifyAllCarries(mods[1..], ps, ctx, stream, origin, ref, o0);
    } else {
      var o1 := ModifyOneCarries(mods[0], ps, ctx, stream, origin, ref, o0);
      WrapSum(origin + Displacement(mods[0]), Moved(mods[1..], ctx.proto));
      o := ModifyAllCarries(mods[1..], ModifyOne(mods[0], ps, ctx).value, ctx, stream, o1, ref, o0);
    }
  }

  /** End to end: for any list of splitters and disorder modifiers without sequence overlap, with
      any splits, decoys, TTL, timestamp, sequence-number and checksum options, the originals
      reassemble to the same bytes after the pipeline as before it. The packets may come in any
      order and may overlap, repeat or leave holes; sequence numbers may wrap. */
  lemma {:induction false} PipelineKeepsStream(config: Config, ps: seq<Packet>, proto: L7Proto, mss: nat,
                                               stream: seq<byte>, origin: u32)
    requires Consistent(OriginalSegments(ps), stream, origin)
    requires forall i :: 0 <= i < |config.mods| ==> NoOverlap(config.mods[i])
    requires Modify(config, ps, proto, mss).Done?
    ensures Reassemble(OriginalSegments(Modify(config, ps, proto, mss).value)) == Reassemble(OriginalSegments(ps))
  {
    hide ModifyAll; hide Reassemble; hide Allowed; hide FindMarkers;
    var out, before := Modify(config, ps, proto, mss).value, OriginalSegments(ps);
    if out != ps {
      var marks := FindMarkers(Reassemble(before), proto).value.value;
      var o := ModifyAllCarries(config.mods, ps, Context(marks, proto, mss), stream, origin, before, origin);
      SameExtentSameBytes(before, origin, OriginalSegments(out), o, stream);
    }
  }
}
