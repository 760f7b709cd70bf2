/** When the pipeline runs to its end: the exact conditions, on the captured packets and on the
    configuration, under which a pipeline without sequence overlap faults. */
module Fitness {
  import opened Base
  import opened Serial
  import opened Packets
  import opened Checksum
  import opened Reassembly
  import opened Splitting
  import opened Segmentation
  import opened Markers
  import opened Modifiers
  import opened StreamKept
  import opened Ranges
  import opened Hello
  import opened Samples

  /** The option walker ends, and a timestamp option it finds is complete. */
  ghost predicate Stampable(o: Options) {
    var scan := ScanOption(o, TS_OPT_KIND, 0);
    !scan.Stuck? && (scan.Found? && o[scan.at + 1] == TS_OPT_SIZE ==> scan.at + 10 <= |o|)
  }

  lemma {:induction false} StampsExactly(p: Packet, offset: int)
    ensures Restamp(p, offset).Done? <==> Stampable(p.tcp.options)
    ensures Restamp(p, offset).Done? ==> Stampable(Restamp(p, offset).value.tcp.options)
  {
    if ShiftTimestamp(p.tcp.options, offset).Done? {
      ShiftTimestampUndo(p.tcp.options, offset);
    }
  }

  // ----- what faults depend on -----

  ghost predicate Sound(p: Packet) {
    Stampable(p.tcp.options)
  }

  /** What later faults depend on: the total payload, whether there is a front packet, whether it is
      a decoy and can be stamped, whether the last original can, and whether all originals can. A
      decoy in front stays there, so the last original matters only without one. */
  datatype Outline = Outline(total: nat, empty: bool, frontFake: bool, front: bool, last: bool, sound: bool)

  ghost function OutlineOf(ps: seq<Packet>): Outline {
    var os := Originals(ps);
    Outline(|Payloads(ps)|, ps == [], ps != [] && ps[0].isFake, ps == [] || Sound(ps[0]),
            ps == [] || ps[0].isFake || os == [] || Sound(os[|os| - 1]),
            forall j :: 0 <= j < |os| ==> Sound(os[j]))
  }

  /** The same kind of packet, as long, and as fit for stamping. */
  ghost predicate Alike(p: Packet, q: Packet) {
    q.isFake == p.isFake && |q.payload| == |p.payload| && (Sound(q) <==> Sound(p))
  }

  ghost predicate AllAlike(a: seq<Packet>, b: seq<Packet>) {
    |a| == |b| && forall i :: 0 <= i < |a| ==> Alike(a[i], b[i])
  }

  lemma {:induction false} AlikeCons(p: Packet, q: Packet, x: seq<Packet>, y: seq<Packet>)
    requires Alike(p, q) && AllAlike(x, y)
    ensures AllAlike([p] + x, [q] + y)
  {
    hide Alike;
  }

  lemma {:induction false} AlikeRest(a: seq<Packet>, b: seq<Packet>)
    requires AllAlike(a, b) && a != []
    ensures Alike(a[0], b[0]) && AllAlike(a[1..], b[1..])
  {
    hide Alike;
  }

  lemma {:induction false} AlikeOriginals(a: seq<Packet>, b: seq<Packet>)
    requires AllAlike(a, b)
    ensures AllAlike(Originals(a), Originals(b)) && |Payloads(a)| == |Payloads(b)|
  {
    if a == [] {
    } else {
      AlikeRest(a, b);
      hide AllAlike; hide Sound;
      AlikeOriginals(a[1..], b[1..]);
      AlikeCons(a[0], b[0], Originals(a[1..]), Originals(b[1..]));
      assert [] + Originals(a[1..]) == Originals(a[1..]) && [] + Originals(b[1..]) == Originals(b[1..]);
    }
  }

  lemma {:induction false} AlikeOutline(a: seq<Packet>, b: seq<Packet>)
    requires AllAlike(a, b)
    ensures OutlineOf(a) == OutlineOf(b)
  {
    hide Sound; hide Payloads; hide Originals;
    AlikeOriginals(a, b);
    var x, y := Originals(a), Originals(b);
    assert forall j :: 0 <= j < |x| ==> Alike(x[j], y[j]);
    assert a != [] ==> Alike(a[0], b[0]);
    assert x != [] ==> Alike(x[|x| - 1], y[|y| - 1]);
  }

  // ----- passes -----

  lemma {:induction false} PassAlike(ps: seq<Packet>, fakes: bool, f: Packet -> Packet)
    requires forall p :: Alike(p, f(p))
    ensures AllAlike(ps, Pass(ps, fakes, f))
  {
    hide Sound;
    PassAt(ps, fakes, f);
  }

  lemma {:induction false} ResequenceAlike(p: Packet, offset: int)
    ensures Alike(p, Resequence(p, offset))
  {
    hide TcpChecksum; hide Stampable; hide Wrap;
  }

  lemma {:induction false} PlainAlike(ps: seq<Packet>, fakes: bool, ttl: Option<byte>, offset: Option<int>, badcksum: bool)
    ensures AllAlike(ps, TtlPass(ps, fakes, ttl))
    ensures AllAlike(ps, SeqPass(ps, fakes, offset))
    ensures AllAlike(ps, BadPass(ps, fakes, badcksum))
  {
    hide Stampable; hide Resequence;
    if ttl.Some? {
      PassAlike(ps, fakes, TtlSetter(ttl.value));
    }
    if offset.Some? {
      forall p ensures Alike(p, Resequencer(offset.value)(p)) {
        ResequenceAlike(p, offset.value);
      }
      PassAlike(ps, fakes, Resequencer(offset.value));
    }
    if badcksum {
      PassAlike(ps, fakes, Spoiler());
    }
  }

  lemma {:induction false} StampFaultsExactly(ps: seq<Packet>, fakes: bool, offset: int)
    ensures StampPass(ps, fakes, offset).Fault? <==> exists i :: 0 <= i < |ps| && ps[i].isFake == fakes && !Sound(ps[i])
  {
    hide Stampable; hide Restamp;
    if ps == [] {
    } else {
      StampsExactly(ps[0], offset);
      StampFaultsExactly(ps[1..], fakes, offset);
      if i :| 0 <= i < |ps| && ps[i].isFake == fakes && !Sound(ps[i]) {
        assert i > 0 ==> ps[1..][i - 1] == ps[i];
      }
      if i :| 0 <= i < |ps[1..]| && ps[1..][i].isFake == fakes && !Sound(ps[1..][i]) {
        assert ps[i + 1] == ps[1..][i];
      }
    }
  }

  lemma {:induction false} RestampAlike(p: Packet, offset: int)
    requires Restamp(p, offset).Done?
    ensures Alike(p, Restamp(p, offset).value)
  {
    StampsExactly(p, offset);
    hide Stampable; hide TcpChecksum; hide ShiftTimestamp;
  }

  lemma {:induction false} TsAlike(ps: seq<Packet>, fakes: bool, offset: Option<int>)
    requires TsPass(ps, fakes, offset).Done?
    ensures AllAlike(ps, TsPass(ps, fakes, offset).value)
  {
    hide Sound; hide Restamp;
    if offset.Some? {
      StampPassAt(ps, fakes, offset.value);
      var to := StampPass(ps, fakes, offset.value).value;
      forall i | 0 <= i < |ps| ensures Alike(ps[i], to[i]) {
        assert Stamped(ps, to, i, fakes, offset.value);
        if ps[i].isFake == fakes {
          RestampAlike(ps[i], offset.value);
        }
      }
    }
  }

  lemma {:induction false} AlikeTrans(a: seq<Packet>, b: seq<Packet>, c: seq<Packet>)
    requires AllAlike(a, b) && AllAlike(b, c)
    ensures AllAlike(a, c)
  {
    hide Sound;
    assert forall i :: 0 <= i < |a| ==> Alike(a[i], b[i]) && Alike(b[i], c[i]);
  }

  lemma {:induction false} OriginalsMember(ps: seq<Packet>, p: Packet)
    ensures p in Originals(ps) <==> p in ps && !p.isFake
  {
    if ps == [] {
    } else {
      OriginalsMember(ps[1..], p);
      assert ps == [ps[0]] + ps[1..];
    }
  }

  /** A timestamp pass over the originals faults exactly if one of them is unfit. */
  lemma {:induction false} TsFaultsExactly(ps: seq<Packet>, offset: Option<int>)
    ensures TsPass(ps, false, offset).Fault? <==> offset.Some? && !OutlineOf(ps).sound
  {
    hide Sound; hide Payloads;
    if offset.Some? {
      StampFaultsExactly(ps, false, offset.value);
      var os := Originals(ps);
      if i :| 0 <= i < |ps| && ps[i].isFake == false && !Sound(ps[i]) {
        OriginalsMember(ps, ps[i]);
        var j :| 0 <= j < |os| && os[j] == ps[i];
      }
      if j :| 0 <= j < |os| && !Sound(os[j]) {
        OriginalsMember(ps, os[j]);
        assert os[j] in os;
        var i :| 0 <= i < |ps| && ps[i] == os[j];
      }
    }
  }

  // ----- splits -----

  lemma {:induction false} PartOptions(p: Packet, at: nat)
    requires at <= |p.payload|
    ensures FirstPart(p, at).tcp.options == SecondPart(p, at).tcp.options == p.tcp.options
  {
    hide TcpChecksum; hide Narrow; hide Wrap;
  }

  lemma {:induction false} HalvesOriginals(ps: seq<Packet>, i: nat, a: Packet, b: Packet)
    requires i < |ps| && a.isFake == b.isFake == ps[i].isFake
    ensures var x, z := Originals(ps[..i]), Originals(ps[i + 1..]);
      && Originals(ps) == x + (if ps[i].isFake then [] else [ps[i]]) + z
      && Originals(ps[..i] + [a, b] + ps[i + 1..]) == x + (if ps[i].isFake then [] else [a, b]) + z
  {
    var p := ps[i];
    assert ps == ps[..i] + [p] + ps[i + 1..];
    OriginalsConcat(ps[..i] + [p], ps[i + 1..]);
    OriginalsConcat(ps[..i], [p]);
    OriginalsConcat(ps[..i] + [a, b], ps[i + 1..]);
    OriginalsConcat(ps[..i], [a, b]);
    assert [a, b][1..] == [b] && [b][1..] == [] && [p][1..] == [];
  }

  /** Two packets in the place of one, as fit as it. */
  lemma {:induction false} HalvesOutline(ps: seq<Packet>, i: nat, a: Packet, b: Packet)
    requires i < |ps| && a.isFake == b.isFake == ps[i].isFake
    requires (Sound(a) <==> Sound(ps[i])) && (Sound(b) <==> Sound(ps[i]))
    requires |Payloads(ps[..i] + [a, b] + ps[i + 1..])| == |Payloads(ps)|
    ensures OutlineOf(ps[..i] + [a, b] + ps[i + 1..]) == OutlineOf(ps)
  {
    hide Sound; hide Payloads; hide Originals;
    var p, out := ps[i], ps[..i] + [a, b] + ps[i + 1..];
    HalvesOriginals(ps, i, a, b);
    assert out != [] && out[0] == if i == 0 then a else ps[0];
    if !p.isFake {
      SameSoundness(Originals(ps[..i]), p, a, b, Originals(ps[i + 1..]));
    }
  }

  lemma {:induction false} SameSoundness(x: seq<Packet>, p: Packet, a: Packet, b: Packet, z: seq<Packet>)
    requires (Sound(a) <==> Sound(p)) && (Sound(b) <==> Sound(p))
    ensures var os, ns := x + [p] + z, x + [a, b] + z;
      && ((forall j :: 0 <= j < |os| ==> Sound(os[j])) <==> forall j :: 0 <= j < |ns| ==> Sound(ns[j]))
      && (Sound(os[|os| - 1]) <==> Sound(ns[|ns| - 1]))
  {
    hide Sound;
    var os, ns := x + [p] + z, x + [a, b] + z;
    assert os[|x|] == p && ns[|x|] == a && ns[|x| + 1] == b;
    if forall j :: 0 <= j < |os| ==> Sound(os[j]) {
      forall j | 0 <= j < |ns| ensures Sound(ns[j]) {
        assert ns[j] == if j < |x| then os[j] else if j == |x| then a else if j == |x| + 1 then b else os[j - 1];
      }
    }
    if forall j :: 0 <= j < |ns| ==> Sound(ns[j]) {
      forall j | 0 <= j < |os| ensures Sound(os[j]) {
        assert j < |x| ==> os[j] == ns[j];
        assert j > |x| ==> os[j] == ns[j + 1];
      }
    }
  }

  lemma {:induction false} SplitOutline(ps: seq<Packet>, at: Place)
    requires at.index < |ps| && at.offset <= |ps[at.index].payload|
    ensures OutlineOf(SplitAt(ps, at)) == OutlineOf(ps)
  {
    hide OutlineOf; hide FirstPart; hide SecondPart; hide Payloads; hide Stampable;
    var p := ps[at.index];
    PartOptions(p, at.offset);
    SplitSegment(p, at.offset);
    SplitKeepsTotal(ps, at);
    HalvesOutline(ps, at.index, FirstPart(p, at.offset), SecondPart(p, at.offset));
  }

  /** Some position resolves behind the first `total` bytes on an unchecked path. */
  ghost predicate MisplacedIn(splits: seq<Position>, ctx: Context, total: nat) {
    exists j :: 0 <= j < |splits| && Behind(splits[j], ctx, total)
  }

  ghost predicate Behind(pos: Position, ctx: Context, total: nat) {
    (ctx.proto == Http || ctx.proto == Tls) && SplitTarget(pos, ctx).Some? && SplitTarget(pos, ctx).value >= total
  }

  lemma {:induction false} SplitsOutline(ps: seq<Packet>, splits: seq<Position>, ctx: Context)
    ensures SplitAll(ps, splits, ctx).Fault? <==> MisplacedIn(splits, ctx, OutlineOf(ps).total)
    ensures SplitAll(ps, splits, ctx).Done? ==> OutlineOf(SplitAll(ps, splits, ctx).value) == OutlineOf(ps)
  {
    SplitsFaultExactly(ps, splits, ctx);
    assert forall j :: 0 <= j < |splits| ==> (Misplaced(ps, splits[j], ctx) <==> Behind(splits[j], ctx, OutlineOf(ps).total));
    hide Misplaced; hide Behind;
    SplitsKeepOutline(ps, splits, ctx);
  }

  lemma {:induction false} SplitsKeepOutline(ps: seq<Packet>, splits: seq<Position>, ctx: Context)
    ensures SplitAll(ps, splits, ctx).Done? ==> OutlineOf(SplitAll(ps, splits, ctx).value) == OutlineOf(ps)
    decreases |splits|
  {
    hide OutlineOf; hide SplitAt; hide FindPacketByOffset; hide SplitTarget;
    if splits == [] || Split(ps, splits[0], ctx).Fault? {
    } else {
      var target := SplitTarget(splits[0], ctx);
      if target.Some? && FindPacketByOffset(ps, target.value).Some? {
        SplitOutline(ps, FindPacketByOffset(ps, target.value).value);
      }
      SplitsKeepOutline(Split(ps, splits[0], ctx).value, splits[1..], ctx);
    }
  }

  // ----- reversal and decoys -----

  lemma {:induction false} TotalByKind(ps: seq<Packet>)
    ensures |Payloads(ps)| == |Payloads(Fakes(ps))| + |Payloads(Originals(ps))|
  {
    if ps == [] {
    } else {
      TotalByKind(ps[1..]);
      PayloadsConcat(if ps[0].isFake then [ps[0]] else [], Fakes(ps[1..]));
      PayloadsConcat(if ps[0].isFake then [] else [ps[0]], Originals(ps[1..]));
      assert [ps[0]][1..] == [];
    }
  }

  lemma {:induction false} TotalReversed(s: seq<Packet>)
    ensures |Payloads(Reverse(s))| == |Payloads(s)|
  {
    if s == [] {
    } else {
      TotalReversed(s[1..]);
      PayloadsConcat(Reverse(s[1..]), [s[0]]);
      assert [s[0]][1..] == [];
    }
  }

  /** Reversing the originals swaps first and last, unless a decoy stands in front. */
  function Turned(o: Outline): Outline {
    if o.empty || o.frontFake then o else o.(front := o.last, last := o.front)
  }

  lemma {:induction false} FrontIsFirst(ps: seq<Packet>)
    requires ps != [] && !ps[0].isFake
    ensures Originals(ps) != [] && Originals(ps)[0] == ps[0]
  {
  }

  lemma {:induction false} ReverseOutline(ps: seq<Packet>)
    ensures OutlineOf(FilteredReverse(ps)) == Turned(OutlineOf(ps))
  {
    FilteredReverseParts(ps);
    var out, os := FilteredReverse(ps), Originals(ps);
    hide FilteredReverse;
    TotalByKind(ps);
    TotalByKind(out);
    TotalReversed(os);
    ReverseAt(os);
    hide Sound; hide Payloads; hide Originals; hide Reverse;
    assert (forall j :: 0 <= j < |os| ==> Sound(os[j])) <==> forall j :: 0 <= j < |os| ==> Sound(Reverse(os)[j]) by {
      assert forall j :: 0 <= j < |os| ==> os[j] == Reverse(os)[|os| - 1 - j];
    }
    if ps != [] && !ps[0].isFake {
      FrontIsFirst(ps);
      FrontIsFirst(out);
    }
  }

  lemma {:induction false} MarkedParts(fakes: seq<Packet>, ps: seq<Packet>)
    ensures Originals(MarkFake(fakes) + ps) == Originals(ps)
    ensures |Payloads(MarkFake(fakes) + ps)| == |Payloads(fakes)| + |Payloads(ps)|
  {
    MarkFakeNoOriginals(fakes);
    OriginalsConcat(MarkFake(fakes), ps);
    MarkedTotal(fakes);
    PayloadsConcat(MarkFake(fakes), ps);
  }

  lemma {:induction false} MarkedTotal(ps: seq<Packet>)
    ensures |Payloads(MarkFake(ps))| == |Payloads(ps)|
  {
    if ps == [] {
    } else {
      MarkedTotal(ps[1..]);
    }
  }

  /** A decoy in front, as fit as the front packet it copies. */
  function Decoyed(o: Outline, blob: seq<byte>): Outline {
    o.(total := o.total + |blob|, frontFake := true, last := true)
  }

  lemma {:induction false} DecoyFields(front: Packet, blob: seq<byte>)
    ensures var f := FakePacket(front, blob); f.isFake && f.payload == blob && (Sound(f) <==> Sound(front))
  {
    hide TcpChecksum; hide Stampable; hide Narrow;
  }

  lemma {:induction false} DecoyOutline(ps: seq<Packet>, blob: seq<byte>, fakes: seq<Packet>)
    requires ps != [] && AllAlike([FakePacket(ps[0], blob)], fakes)
    ensures OutlineOf(MarkFake(fakes) + ps) == Decoyed(OutlineOf(ps), blob)
  {
    var fake := FakePacket(ps[0], blob);
    DecoyFields(ps[0], blob);
    hide FakePacket; hide Stampable;
    assert Alike([fake][0], fakes[0]);
    MarkedParts(fakes, ps);
    AlikeOriginals([fake], fakes);
    assert |Payloads([fake])| == |blob| by {
      assert [fake][1..] == [];
    }
    assert MarkFake(fakes)[0] == fakes[0].(isFake := true);
    hide Payloads; hide Originals; hide MarkFake;
    assert (MarkFake(fakes) + ps)[0] == MarkFake(fakes)[0];
  }

  lemma {:induction false} OneStamp(f: Packet, offset: Option<int>)
    requires f.isFake
    ensures TsPass([f], true, offset).Fault? <==> offset.Some? && !Sound(f)
  {
    hide Sound;
    if offset.Some? {
      StampFaultsExactly([f], true, offset.value);
      assert [f][0] == f;
    }
  }

  lemma {:induction false} AlikeOne(f: Packet, fs: seq<Packet>)
    requires AllAlike([f], fs)
    ensures |fs| == 1 && fs == [fs[0]] && Alike(f, fs[0])
  {
    assert [f][0] == f;
  }

  lemma {:induction false} FakesExactly(f: Packet, args: Args)
    requires f.isFake
    ensures SplitterFakes([f], args).Fault? <==> args.tsOffset.Some? && !Sound(f)
    ensures DisorderFakes([f], args).Fault? <==> args.tsOffset.Some? && !Sound(f)
    ensures SplitterFakes([f], args).Done? ==> AllAlike([f], SplitterFakes([f], args).value)
    ensures DisorderFakes([f], args).Done? ==> AllAlike([f], DisorderFakes([f], args).value)
  {
    hide TtlPass; hide SeqPass; hide TsPass; hide BadPass; hide AllAlike; hide Sound;
    var ttl, off, bad := args.ipv4Ttl, args.seqOffset, args.badcksum;
    PlainAlike([f], true, ttl, off, bad);
    var lived, moved := TtlPass([f], true, ttl), SeqPass([f], true, off);
    AlikeOne(f, lived);
    AlikeOne(f, moved);
    OneStamp(lived[0], args.tsOffset);
    OneStamp(moved[0], args.tsOffset);
    if TsPass(lived, true, args.tsOffset).Done? {
      var timed := TsPass(lived, true, args.tsOffset).value;
      TsAlike(lived, true, args.tsOffset);
      AlikeTrans([f], lived, timed);
      PlainAlike(timed, true, ttl, off, bad);
      AlikeTrans([f], timed, SeqPass(timed, true, off));
      PlainAlike(SeqPass(timed, true, off), true, ttl, off, bad);
      AlikeTrans([f], SeqPass(timed, true, off), BadPass(SeqPass(timed, true, off), true, bad));
    }
    if TsPass(moved, true, args.tsOffset).Done? {
      var timed := TsPass(moved, true, args.tsOffset).value;
      TsAlike(moved, true, args.tsOffset);
      AlikeTrans([f], moved, timed);
      PlainAlike(timed, true, ttl, off, bad);
      AlikeTrans([f], timed, TtlPass(timed, true, ttl));
      PlainAlike(TtlPass(timed, true, ttl), true, ttl, off, bad);
      AlikeTrans([f], TtlPass(timed, true, ttl), BadPass(TtlPass(timed, true, ttl), true, bad));
    }
  }

  // ----- the modifiers -----

  /** A modifier without decoy faults exactly on a misplaced split or on stamping an unfit original. */
  ghost predicate OriginalsFault(args: Args, o: Outline, ctx: Context) {
    MisplacedIn(args.splits, ctx, o.total) || (args.tsOffset.Some? && !o.sound)
  }

  lemma {:induction false} SplitterExactly(ps: seq<Packet>, args: Args, ctx: Context)
    ensures SplitterOriginals(ps, args, None, ctx).Fault? <==> OriginalsFault(args, OutlineOf(ps), ctx)
    ensures SplitterOriginals(ps, args, None, ctx).Done? ==> OutlineOf(SplitterOriginals(ps, args, None, ctx).value) == OutlineOf(ps)
  {
    hide SplitAll; hide TtlPass; hide SeqPass; hide TsPass; hide BadPass; hide OutlineOf; hide MisplacedIn; hide AllAlike;
    var ttl, off, bad := args.ipv4Ttl, args.seqOffset, args.badcksum;
    SplitsOutline(ps, args.splits, ctx);
    if SplitAll(ps, args.splits, ctx).Done? {
      var cut := SplitAll(ps, args.splits, ctx).value;
      var lived := TtlPass(cut, false, ttl);
      PlainAlike(cut, false, ttl, off, bad);
      AlikeOutline(cut, lived);
      TsFaultsExactly(lived, args.tsOffset);
      if TsPass(lived, false, args.tsOffset).Done? {
        var timed := TsPass(lived, false, args.tsOffset).value;
        TsAlike(lived, false, args.tsOffset);
        AlikeOutline(lived, timed);
        PlainAlike(timed, false, ttl, off, bad);
        AlikeOutline(timed, SeqPass(timed, false, off));
        PlainAlike(SeqPass(timed, false, off), false, ttl, off, bad);
        AlikeOutline(SeqPass(timed, false, off), BadPass(SeqPass(timed, false, off), false, bad));
      }
    }
  }

  lemma {:induction false} DisorderExactly(ps: seq<Packet>, args: Args, ctx: Context)
    ensures DisorderOriginals(ps, args, None, ctx).Fault? <==> OriginalsFault(args, OutlineOf(ps), ctx)
    ensures DisorderOriginals(ps, args, None, ctx).Done? ==> OutlineOf(DisorderOriginals(ps, args, None, ctx).value) == OutlineOf(ps)
  {
    hide SplitAll; hide TtlPass; hide SeqPass; hide TsPass; hide BadPass; hide OutlineOf; hide MisplacedIn; hide AllAlike;
    var ttl, off, bad := args.ipv4Ttl, args.seqOffset, args.badcksum;
    SplitsOutline(ps, args.splits, ctx);
    if SplitAll(ps, args.splits, ctx).Done? {
      var cut := SplitAll(ps, args.splits, ctx).value;
      var moved := SeqPass(cut, false, off);
      PlainAlike(cut, false, ttl, off, bad);
      AlikeOutline(cut, moved);
      TsFaultsExactly(moved, args.tsOffset);
      if TsPass(moved, false, args.tsOffset).Done? {
        var timed := TsPass(moved, false, args.tsOffset).value;
        TsAlike(moved, false, args.tsOffset);
        AlikeOutline(moved, timed);
        PlainAlike(timed, false, ttl, off, bad);
        var lived := TtlPass(timed, false, ttl);
        AlikeOutline(timed, lived);
        PlainAlike(lived, false, ttl, off, bad);
        var once := BadPass(lived, false, bad);
        AlikeOutline(lived, once);
        PlainAlike(once, false, ttl, off, bad);
        AlikeOutline(once, BadPass(once, false, bad));
      }
    }
  }

  /** The fault of one modifier, and what it does to the outline otherwise. */
  ghost predicate OneFaults(m: Mod, o: Outline, ctx: Context) {
    if m.args.fakeBlob.Some? then o.empty || (m.args.tsOffset.Some? && !o.front)
    else OriginalsFault(m.args, o, ctx)
  }

  function After(m: Mod, o: Outline): Outline {
    var next := if m.args.fakeBlob.Some? then Decoyed(o, m.args.fakeBlob.value) else o;
    if m.Disorder? then Turned(next) else next
  }

  lemma {:induction false} ModifyOneExactly(m: Mod, ps: seq<Packet>, ctx: Context)
    requires NoOverlap(m)
    ensures ModifyOne(m, ps, ctx).Fault? <==> OneFaults(m, OutlineOf(ps), ctx)
    ensures ModifyOne(m, ps, ctx).Done? ==> OutlineOf(ModifyOne(m, ps, ctx).value) == After(m, OutlineOf(ps))
  {
    var args := m.args;
    assert OutlineOf(ps).empty == (ps == []);
    if args.fakeBlob.Some? {
      if ps != [] {
        DecoyExactly(m, ps, ctx);
      }
    } else {
      hide OutlineOf; hide OriginalsFault; hide SplitterOriginals; hide DisorderOriginals; hide FilteredReverse;
      SplitterExactly(ps, args, ctx);
      DisorderExactly(ps, args, ctx);
      if m.Disorder? && DisorderOriginals(ps, args, None, ctx).Done? {
        ReverseOutline(DisorderOriginals(ps, args, None, ctx).value);
      }
    }
  }

  lemma {:induction false} DecoyExactly(m: Mod, ps: seq<Packet>, ctx: Context)
    requires m.args.fakeBlob.Some? && ps != []
    ensures ModifyOne(m, ps, ctx).Fault? <==> m.args.tsOffset.Some? && !OutlineOf(ps).front
    ensures ModifyOne(m, ps, ctx).Done? ==> OutlineOf(ModifyOne(m, ps, ctx).value) == After(m, OutlineOf(ps))
  {
    var args, blob := m.args, m.args.fakeBlob.value;
    var fake := FakePacket(ps[0], blob);
    assert OutlineOf(ps).front == Sound(ps[0]);
    DecoyFields(ps[0], blob);
    hide FakePacket; hide SplitterFakes; hide DisorderFakes; hide FilteredReverse; hide OutlineOf; hide Sound; hide AllAlike;
    FakesExactly(fake, args);
    if m.Splitter? && SplitterFakes([fake], args).Done? {
      DecoyOutline(ps, blob, SplitterFakes([fake], args).value);
    }
    if m.Disorder? && DisorderFakes([fake], args).Done? {
      DecoyOutline(ps, blob, DisorderFakes([fake], args).value);
      ReverseOutline(MarkFake(DisorderFakes([fake], args).value) + ps);
    }
  }

  // ----- lists of modifiers -----

  /** The bytes of the decoys that these modifiers add. */
  function Blobs(mods: seq<Mod>, proto: L7Proto): nat {
    if mods == [] then 0
    else (if Matches(mods[0], proto) && mods[0].args.fakeBlob.Some? then |mods[0].args.fakeBlob.value| else 0) + Blobs(mods[1..], proto)
  }

  /** The reversals that these modifiers make before one of them adds a decoy. */
  function Turns(mods: seq<Mod>, proto: L7Proto): nat {
    if mods == [] then 0
    else if !Matches(mods[0], proto) then Turns(mods[1..], proto)
    else if mods[0].args.fakeBlob.Some? then 0
    else (if mods[0].Disorder? then 1 else 0) + Turns(mods[1..], proto)
  }

  /** Whether the packet that stands in front after these modifiers can be stamped: the front packet,
      or the last original if no decoy stands before it and the originals were reversed an odd number
      of times. */
  ghost predicate FrontSound(before: seq<Mod>, o: Outline, proto: L7Proto) {
    if o.frontFake || Turns(before, proto) % 2 == 0 then o.front else o.last
  }

  /** The i-th modifier runs and is the wrong one for these packets: it copies a front packet that is
      not there, stamps a packet that cannot be stamped, or splits behind the captured payload and the
      decoys added so far. */
  ghost predicate StageFaults(mods: seq<Mod>, i: nat, o: Outline, ctx: Context) {
    && i < |mods| && Matches(mods[i], ctx.proto)
    && if mods[i].args.fakeBlob.Some? then
         o.empty || (mods[i].args.tsOffset.Some? && !FrontSound(mods[..i], o, ctx.proto))
       else
         || MisplacedIn(mods[i].args.splits, ctx, o.total + Blobs(mods[..i], ctx.proto))
         || (mods[i].args.tsOffset.Some? && !o.sound)
  }

  lemma {:induction false} FrontCons(m: Mod, before: seq<Mod>, o: Outline, proto: L7Proto)
    requires !o.empty && (o.frontFake ==> o.last)
    ensures FrontSound([m] + before, o, proto) == FrontSound(before, if Matches(m, proto) then After(m, o) else o, proto)
  {
    assert ([m] + before)[1..] == before;
  }

  lemma {:induction false} StageCons(mods: seq<Mod>, i: nat, o: Outline, ctx: Context)
    requires i + 1 < |mods| && (o.frontFake || o.empty ==> o.last) && (o.empty ==> o.front)
    requires Matches(mods[0], ctx.proto) && mods[0].args.fakeBlob.Some? ==> !o.empty
    ensures StageFaults(mods, i + 1, o, ctx)
      <==> StageFaults(mods[1..], i, if Matches(mods[0], ctx.proto) then After(mods[0], o) else o, ctx)
  {
    hide MisplacedIn;
    var m, before := mods[0], mods[1..][..i];
    var next := if Matches(m, ctx.proto) then After(m, o) else o;
    assert mods[..i + 1] == [m] + before && mods[i + 1] == mods[1..][i];
    assert ([m] + before)[1..] == before;
    assert Blobs(mods[..i + 1], ctx.proto) + o.total == Blobs(before, ctx.proto) + next.total;
    if !o.empty {
      FrontCons(m, before, o, ctx.proto);
    }
    hide FrontSound; hide Blobs; hide Turns;
  }

  lemma {:induction false} OutlineFacts(ps: seq<Packet>)
    ensures var o := OutlineOf(ps); (o.frontFake || o.empty ==> o.last) && (o.empty ==> o.front)
  {
  }

  lemma {:induction false} StageZero(mods: seq<Mod>, o: Outline, ctx: Context)
    requires mods != []
    ensures StageFaults(mods, 0, o, ctx) <==> Matches(mods[0], ctx.proto) && OneFaults(mods[0], o, ctx)
  {
    assert mods[..0] == [];
    hide MisplacedIn;
  }

  ghost predicate SomeStageFaults(mods: seq<Mod>, o: Outline, ctx: Context) {
    exists i: nat :: StageFaults(mods, i, o, ctx)
  }

  lemma {:induction false} StagesCons(mods: seq<Mod>, o: Outline, ctx: Context)
    requires mods != [] && !(Matches(mods[0], ctx.proto) && OneFaults(mods[0], o, ctx))
    requires (o.frontFake || o.empty ==> o.last) && (o.empty ==> o.front)
    ensures SomeStageFaults(mods, o, ctx)
      <==> SomeStageFaults(mods[1..], if Matches(mods[0], ctx.proto) then After(mods[0], o) else o, ctx)
  {
    StageZero(mods, o, ctx);
    var next := if Matches(mods[0], ctx.proto) then After(mods[0], o) else o;
    forall i: nat | i + 1 < |mods| ensures StageFaults(mods, i + 1, o, ctx) <==> StageFaults(mods[1..], i, next, ctx) {
      StageCons(mods, i, o, ctx);
    }
    if i: nat :| StageFaults(mods, i, o, ctx) {
      assert i > 0 && StageFaults(mods[1..], i - 1, next, ctx);
    }
    if i: nat :| StageFaults(mods[1..], i, next, ctx) {
      assert StageFaults(mods, i + 1, o, ctx);
    }
  }

  /** A list of modifiers without overlap faults exactly if one of them does, each judged on the
      packets before the first of them. */
  lemma {:induction false} ModifyAllFaultsExactly(mods: seq<Mod>, ps: seq<Packet>, ctx: Context)
    requires forall i :: 0 <= i < |mods| ==> NoOverlap(mods[i])
    ensures ModifyAll(mods, ps, ctx).Fault? <==> SomeStageFaults(mods, OutlineOf(ps), ctx)
    decreases |mods|
  {
    var o := OutlineOf(ps);
    OutlineFacts(ps);
    hide OutlineOf; hide ModifyOne; hide OneFaults; hide After; hide NoOverlap;
    if mods == [] {
      assert forall i: nat :: !StageFaults(mods, i, o, ctx);
    } else {
      hide StageFaults;
      assert forall i :: 0 <= i < |mods[1..]| ==> mods[1..][i] == mods[i + 1];
      if Matches(mods[0], ctx.proto) {
        ModifyOneExactly(mods[0], ps, ctx);
      }
      if Matches(mods[0], ctx.proto) && OneFaults(mods[0], o, ctx) {
        StageZero(mods, o, ctx);
        assert StageFaults(mods, 0, o, ctx);
      } else {
        StagesCons(mods, o, ctx);
        if Matches(mods[0], ctx.proto) {
          ModifyAllFaultsExactly(mods[1..], ModifyOne(mods[0], ps, ctx).value, ctx);
        } else {
          ModifyAllFaultsExactly(mods[1..], ps, ctx);
        }
      }
    }
  }

  // ----- the whole pipeline -----

  lemma {:induction false} AllowedExactly(config: Config, ps: seq<Packet>, full: seq<byte>, proto: L7Proto, marks: Marks)
    requires FindMarkers(full, proto) == Done(Some(marks))
    ensures Allowed(config, ps, full, marks).Fault? <==> config.ips.Some? && ps == []
  {
    if proto == Http {
      HttpMarkersInside(full);
    } else if proto == Tls {
      TlsMarkersInside(full);
    }
  }

  /** Why a pipeline goes wrong: the marker parser leaves its input, the address list looks at a packet
      that is not there, or one of the modifiers that run faults. */
  ghost predicate PipelineFaults(config: Config, ps: seq<Packet>, proto: L7Proto, mss: nat) {
    var found := FindMarkers(Reassemble(OriginalSegments(ps)), proto);
    || found.Fault?
    || (found.value.Some? && config.ips.Some? && ps == [])
    || SomeStageFaults(Running(config, ps, proto), OutlineOf(ps), RunContext(ps, proto, mss))
  }

  /** The pipeline without overlap faults exactly then. What the marker parser needs is in
      `TlsFaultsExactly` and `HttpFaultsExactly`. */
  lemma {:induction false} PipelineFaultsExactly(config: Config, ps: seq<Packet>, proto: L7Proto, mss: nat)
    requires forall i :: 0 <= i < |config.mods| ==> NoOverlap(config.mods[i])
    ensures Modify(config, ps, proto, mss).Fault? <==> PipelineFaults(config, ps, proto, mss)
  {
    var full, ctx, mods := Reassemble(OriginalSegments(ps)), RunContext(ps, proto, mss), Running(config, ps, proto);
    var found := FindMarkers(full, proto);
    if found.Done? && found.value.Some? {
      AllowedExactly(config, ps, full, proto, found.value.value);
    }
    assert mods == config.mods || mods == [];
    hide ModifyAll; hide FindMarkers; hide OutlineOf; hide Allowed; hide OriginalSegments; hide Reassemble; hide NoOverlap; hide SomeStageFaults;
    ModifyAllFaultsExactly(mods, ps, ctx);
    NoModifiers(ps, ctx);
  }

  lemma {:induction false} NoModifiers(ps: seq<Packet>, ctx: Context)
    ensures ModifyAll([], ps, ctx) == Done(ps)
  {
  }

  /** Without such a fault the pipeline ends, and the originals still reassemble to the same bytes. */
  lemma {:induction false} PipelineDelivers(config: Config, ps: seq<Packet>, proto: L7Proto, mss: nat,
                                            stream: seq<byte>, origin: u32)
    requires forall i :: 0 <= i < |config.mods| ==> NoOverlap(config.mods[i])
    requires !PipelineFaults(config, ps, proto, mss)
    requires Consistent(OriginalSegments(ps), stream, origin)
    ensures Modify(config, ps, proto, mss).Done?
    ensures Reassemble(OriginalSegments(Modify(config, ps, proto, mss).value)) == Reassemble(OriginalSegments(ps))
  {
    hide Modify; hide Reassemble; hide OriginalSegments; hide PipelineFaults; hide NoOverlap; hide Consistent;
    PipelineFaultsExactly(config, ps, proto, mss);
    PipelineKeepsStream(config, ps, proto, mss, stream, origin);
  }

  // ----- two faults -----

  /** An option of length zero: the walk stays on it forever. */
  const STALLING: Packet := var p := Captive(1, 100, [1]); p.(tcp := p.tcp.(options := [0, 0, 0, 0]))

  lemma {:induction false} StampingCanStall()
    ensures Modify(Config([Splitter(PLAIN.(tsOffset := Some(1)), None)], None, None), [STALLING], L7Proto.Unknown, 536).Fault?
  {
    var m := Splitter(PLAIN.(tsOffset := Some(1)), None);
    var config, ps := Config([m], None, None), [STALLING];
    assert Originals(ps) == ps by {
      assert ps[1..] == [];
    }
    assert ScanOption(STALLING.tcp.options, TS_OPT_KIND, 0).Stuck?;
    assert !OutlineOf(ps).sound by {
      assert !Sound(ps[0]);
    }
    hide OutlineOf; hide Reassemble; hide Modify; hide OriginalSegments; hide MisplacedIn; hide Sound;
    assert StageFaults([m], 0, OutlineOf(ps), RunContext(ps, L7Proto.Unknown, 536));
    assert Running(config, ps, L7Proto.Unknown) == [m];
    PipelineFaultsExactly(config, ps, L7Proto.Unknown, 536);
  }

  const FAR: Position := Position(Other, NoOperation, 100)

  const MISSING: Mod := Splitter(PLAIN.(splits := [FAR]), None)

  /** A nine-byte request with a host name, and a split at offset 100. */
  lemma {:induction false} SplittingCanMiss()
    ensures Modify(Config([MISSING], None, None), [Captive(1, 100, RequestHead([], 32, [97], []))], Http, 536).Fault?
  {
    hide OutlineOf; hide Reassemble; hide Modify; hide OriginalSegments; hide RequestHead; hide StageFaults; hide FindMarkersHttp;
    var p, config := Captive(1, 100, RequestHead([], 32, [97], [])), Config([MISSING], None, None);
    NineBytes();
    HostLineRoundTrip([], 32, [97], []);
    WholePacket(p);
    OutlineTotal([p]);
    var ctx := Context(HostMarks(6, 1, None), Http, 536);
    assert RunContext([p], Http, 536) == ctx && Running(config, [p], Http) == [MISSING];
    hide RunContext; hide Running; hide HostMarks;
    FarIsBehind(OutlineOf([p]), ctx);
    assert SomeStageFaults([MISSING], OutlineOf([p]), ctx);
    PipelineFaultsExactly(config, [p], Http, 536);
  }

  lemma {:induction false} NineBytes()
    ensures |RequestHead([], 32, [97], [])| == 9
  {
  }

  lemma {:induction false} OutlineTotal(ps: seq<Packet>)
    ensures OutlineOf(ps).total == |Payloads(ps)|
  {
  }

  lemma {:induction false} FarIsBehind(o: Outline, ctx: Context)
    requires o.total == 9 && ctx.proto == Http
    ensures StageFaults([MISSING], 0, o, ctx)
  {
    assert [FAR][0] == FAR && Behind(FAR, ctx, 9) && [MISSING][..0] == [];
    assert MisplacedIn([FAR], ctx, 9);
  }

  lemma {:induction false} WholePacket(p: Packet)
    requires !p.isFake && |p.payload| < 0x8000_0000
    ensures Payloads([p]) == p.payload == Reassemble(OriginalSegments([p]))
  {
    assert [p][1..] == [] && Originals([p]) == [p];
    assert p.payload + [] == p.payload;
    ContiguousReassembles([p]);
  }
}
