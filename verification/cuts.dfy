/** Which packets the modifiers cut, read off the split positions, and with it the exact condition
    under which what leaves the host is still the stream. */
module Cuts {
  import opened Base
  import opened Serial
  import opened Sorting
  import opened Packets
  import opened Reassembly
  import opened Splitting
  import opened Markers
  import opened Tiling
  import opened Modifiers
  import opened StreamKept
  import opened Verdicts
  import opened Delivery
  import Health
  import Ranges

  // ----- positions -----

  ghost predicate TargetOf(splits: seq<Position>, ctx: Context, k: nat) {
    exists j :: 0 <= j < |splits| && SplitTarget(splits[j], ctx) == Some(k)
  }

  /** Some split of a modifier that runs and has no decoy asks for offset k. */
  ghost predicate Targets(mods: seq<Mod>, ctx: Context, k: nat) {
    exists i :: 0 <= i < |mods| && Cutting(mods[i], ctx) && TargetOf(mods[i].args.splits, ctx, k)
  }

  predicate Cutting(m: Mod, ctx: Context) {
    Matches(m, ctx.proto) && m.args.fakeBlob.None?
  }

  /** A requested offset lies inside the packet. */
  ghost predicate IsCut(p: Packet, mods: seq<Mod>, ctx: Context, origin: u32) {
    exists k: nat :: Targets(mods, ctx, k) && Covers(SegmentOf(p), k, origin)
  }

  ghost predicate IsCutBy(p: Packet, splits: seq<Position>, ctx: Context, origin: u32) {
    exists k: nat :: TargetOf(splits, ctx, k) && Covers(SegmentOf(p), k, origin)
  }

  /** No decoy stands among the packets when a split is made. */
  ghost predicate DecoysLast(mods: seq<Mod>, ctx: Context) {
    forall i, j :: 0 <= i < j < |mods| && Matches(mods[i], ctx.proto) && mods[i].args.fakeBlob.Some? && Cutting(mods[j], ctx)
      ==> mods[j].args.splits == []
  }

  // ----- a tiling holds as many bytes as the stream -----

  /** The packets not yet walked hold what is left. */
  lemma {:induction false} WalkTotal(ps: seq<Packet>, done: seq<nat>, rest: seq<nat>, acc: nat, stream: seq<byte>, origin: u32)
    requires Tiles(ps, stream, origin) && acc <= |stream|
    requires ValidOrder(ps, rest) && Distinct(done + rest)
    requires forall i: nat :: i < |ps| ==> i in done || i in rest
    requires AscendingOrder(ps, rest, origin)
    requires HoldFirst(ps, done, acc, origin)
    ensures acc + SumBy(rest, Ranges.SizeAt(ps)) == |stream|
    decreases rest
  {
    if rest == [] {
      forall k: int ensures Occupied(ps, k, origin) ==> HeldBy(ps, done, k, origin) {
        if Occupied(ps, k, origin) {
          var i: nat :| Holds(ps, i, k, origin);
          assert i in done;
        }
      }
      assert HeldBy(ps, done, acc, origin) <==> 0 <= acc < acc;
    } else {
      NextInWalk(ps, done, rest, acc, stream, origin);
      var i := rest[0];
      HoldFirstSnoc(ps, done, i, acc, origin);
      assert done + [i] + rest[1..] == done + rest;
      WalkTotal(ps, done + [i], rest[1..], acc + |ps[i].payload|, stream, origin);
    }
  }

  /** The next packet is empty or starts where the walked ones end. */
  lemma {:induction false} NextInWalk(ps: seq<Packet>, done: seq<nat>, rest: seq<nat>, acc: nat, stream: seq<byte>, origin: u32)
    requires Tiles(ps, stream, origin) && acc <= |stream| && rest != []
    requires ValidOrder(ps, rest) && Distinct(done + rest)
    requires forall i: nat :: i < |ps| ==> i in done || i in rest
    requires AscendingOrder(ps, rest, origin)
    requires HoldFirst(ps, done, acc, origin)
    ensures var p := ps[rest[0]];
      (p.payload == [] || Dist(p.tcp.seqNo, origin) == acc) && acc + |p.payload| <= |stream|
  {
    var i := rest[0];
    var d, size := Dist(ps[i].tcp.seqNo, origin), |ps[i].payload|;
    assert SliceOf(SegmentOf(ps[i]), stream, origin);
    if size > 0 {
      FirstNotDone(done, rest);
      assert Holds(ps, i, d, origin);
      assert HeldBy(ps, done, d, origin) <==> 0 <= d < acc;
      assert d >= acc;
      assert Occupied(ps, acc, origin) && !HeldBy(ps, done, acc, origin);
      var holder: nat :| Holds(ps, holder, acc, origin);
      assert holder in rest;
      var b :| 0 <= b < |rest| && rest[b] == holder;
      assert OffsetOf(ps, rest[0], origin) <= OffsetOf(ps, rest[b], origin);
    }
  }

  lemma {:induction false} TilesTotal(ps: seq<Packet>, stream: seq<byte>, origin: u32)
    requires Tiles(ps, stream, origin)
    ensures |Payloads(ps)| == |stream|
  {
    OrderAscends(ps, origin);
    var order, all := SequenceOrder(ps), Indices(|ps|);
    assert [] + order == order;
    assert HoldFirst(ps, [], 0, origin);
    WalkTotal(ps, [], order, 0, stream, origin);
    SumSort(all, BySequence(ps), Ranges.SizeAt(ps));
    Ranges.SumOfAll(ps, 0);
    assert all[0..] == all && ps[0..] == ps;
  }

  // ----- tilings under moves and reversal -----

  ghost predicate SameSpots(a: seq<Packet>, oa: u32, b: seq<Packet>, ob: u32) {
    |a| == |b| && forall i :: 0 <= i < |a| ==> SameSpot(a[i], oa, b[i], ob)
  }

  ghost predicate SameSpot(p: Packet, op: u32, q: Packet, oq: u32) {
    p.payload == q.payload && Dist(p.tcp.seqNo, op) == Dist(q.tcp.seqNo, oq)
  }

  lemma {:induction false} SpotsTile(a: seq<Packet>, oa: u32, b: seq<Packet>, ob: u32, stream: seq<byte>)
    requires Tiles(a, stream, oa) && SameSpots(a, oa, b, ob)
    ensures Tiles(b, stream, ob)
  {
    hide Dist;
    forall i | 0 <= i < |b| ensures SliceOf(SegmentOf(b[i]), stream, ob) {
      assert SliceOf(SegmentOf(a[i]), stream, oa) && SameSpot(a[i], oa, b[i], ob);
    }
    forall i, k ensures Holds(b, i, k, ob) <==> Holds(a, i, k, oa) {
      assert 0 <= i < |a| ==> SameSpot(a[i], oa, b[i], ob);
    }
    forall k | 0 <= k < |stream| ensures Occupied(b, k, ob) {
      assert Occupied(a, k, oa);
      var i: int :| Holds(a, i, k, oa);
      assert Holds(b, i, k, ob);
    }
  }

  lemma {:induction false} ReversedTile(ps: seq<Packet>, stream: seq<byte>, origin: u32)
    requires Tiles(ps, stream, origin)
    ensures Tiles(Reverse(ps), stream, origin)
  {
    ReverseAt(ps);
    hide Reverse; hide Covers;
    var out, n := Reverse(ps), |ps|;
    forall i | 0 <= i < n ensures SliceOf(SegmentOf(out[i]), stream, origin) {
      assert out[i] == ps[n - 1 - i];
    }
    forall i, k ensures Holds(out, i, k, origin) <==> Holds(ps, n - 1 - i, k, origin) {
    }
    forall k | 0 <= k < |stream| ensures Occupied(out, k, origin) {
      assert Occupied(ps, k, origin);
      var i: int :| Holds(ps, i, k, origin);
      assert Holds(out, n - 1 - i, k, origin);
    }
    forall i, j, k | Holds(out, i, k, origin) && Holds(out, j, k, origin) ensures i == j {
      assert Holds(ps, n - 1 - i, k, origin) && Holds(ps, n - 1 - j, k, origin);
    }
  }

  ghost predicate FakeFree(ps: seq<Packet>) {
    forall i :: 0 <= i < |ps| ==> !ps[i].isFake
  }

  lemma {:induction false} PlainReverse(ps: seq<Packet>)
    requires FakeFree(ps)
    ensures FilteredReverse(ps) == Reverse(ps)
  {
    AllOriginal(ps);
    AllWoven(ps, Reverse(ps));
  }

  lemma {:induction false} AllWoven(ps: seq<Packet>, originals: seq<Packet>)
    requires FakeFree(ps) && |originals| == |Originals(ps)| == |ps|
    ensures Weave(ps, originals) == originals
  {
    if ps == [] {
    } else {
      AllOriginal(ps[1..]);
      AllWoven(ps[1..], originals[1..]);
      assert originals == [originals[0]] + originals[1..];
    }
  }

  lemma {:induction false} ShiftedSpots(a: seq<Packet>, b: seq<Packet>, shift: int, origin: u32)
    requires FakeFree(a) && Shifted(a, b, shift)
    ensures FakeFree(b) && SameSpots(a, origin, b, Wrap(origin + shift))
  {
    hide Dist; hide Wrap;
    forall i | 0 <= i < |a| ensures !b[i].isFake && SameSpot(a[i], origin, b[i], Wrap(origin + shift)) {
      assert MovedBy(a[i], b[i], shift);
      DistShift(a[i].tcp.seqNo, origin, shift);
    }
  }

  // ----- what holds until the first decoy -----

  /** Only originals, tiling the stream from the moved origin, with accept verdicts from `ps`. */
  ghost predicate Laid(ps: seq<Packet>, cur: seq<Packet>, shift: int, stream: seq<byte>, origin: u32) {
    && Captives(ps) && Tiles(ps, stream, origin)
    && FakeFree(cur) && Tiles(cur, stream, Wrap(origin + shift)) && Intact(ps, cur, shift)
  }

  /** The packet `c` is still left to the kernel. */
  ghost predicate Kept(c: Packet, cur: seq<Packet>) {
    c.id in AcceptIds(cur)
  }

  lemma {:induction false} IdOnce(ps: seq<Packet>, id: u32)
    requires Captives(ps)
    ensures AcceptIds(ps)[id] <= 1
  {
    if ps == [] {
    } else {
      IdOnce(ps[1..], id);
      AcceptMember(ps[1..], id);
    }
  }

  /** An accepted packet lies where the captured one with its id lies. */
  lemma {:induction false} AcceptedLies(ps: seq<Packet>, cur: seq<Packet>, shift: int, stream: seq<byte>, origin: u32,
                                        c: Packet, i: nat, k: int)
    requires Laid(ps, cur, shift, stream, origin) && c in ps
    requires i < |cur| && cur[i].action == Accept && cur[i].id == c.id
    ensures Holds(cur, i, k, Wrap(origin + shift)) <==> Covers(SegmentOf(c), k, origin)
  {
    assert Traced(ps, cur[i], shift);
    hide Dist; hide Wrap; hide Tiles; hide Sheds;
    var q :| q in ps && Was(q, cur[i], shift);
    CapturedIs(ps, q);
    CapturedIs(ps, c);
    assert q == c;
    DistShift(c.tcp.seqNo, origin, shift);
  }

  /** The packet that holds byte k is a captured packet's exactly if that packet is still whole and
      covers k. */
  lemma {:induction false} HolderDecides(ps: seq<Packet>, cur: seq<Packet>, shift: int, stream: seq<byte>, origin: u32,
                                         c: Packet, at: nat, k: int)
    requires Laid(ps, cur, shift, stream, origin) && c in ps && at < |cur| && Holds(cur, at, k, Wrap(origin + shift))
    requires Kept(c, cur)
    ensures cur[at].action == Accept && cur[at].id == c.id <==> Covers(SegmentOf(c), k, origin)
  {
    AcceptMember(cur, c.id);
    var i :| 0 <= i < |cur| && cur[i].action == Accept && cur[i].id == c.id;
    AcceptedLies(ps, cur, shift, stream, origin, c, i, k);
    if cur[at].action == Accept && cur[at].id == c.id {
      AcceptedLies(ps, cur, shift, stream, origin, c, at, k);
    }
    assert Tiles(cur, stream, Wrap(origin + shift));
    hide Covers; hide Wrap; hide Laid;
  }

  lemma {:induction false} FreeAround(ps: seq<Packet>, i: nat, mid: seq<Packet>)
    requires FakeFree(ps) && i < |ps| && FakeFree(mid)
    ensures FakeFree(ps[..i] + mid + ps[i + 1..])
  {
    var out := ps[..i] + mid + ps[i + 1..];
    forall j | 0 <= j < |out| ensures !out[j].isFake {
      assert out[j] == if j < i then ps[j] else if j < i + |mid| then mid[j - i] else ps[j - |mid| + 1];
    }
  }

  lemma {:induction false} HalvesFree(ps: seq<Packet>, at: Place)
    requires FakeFree(ps) && at.index < |ps| && at.offset <= |ps[at.index].payload|
    ensures FakeFree(SplitAt(ps, at))
  {
    hide FirstPart; hide SecondPart;
    var p := ps[at.index];
    SplitSegment(p, at.offset);
    FreeAround(ps, at.index, [FirstPart(p, at.offset), SecondPart(p, at.offset)]);
  }

  /** A split takes the accept verdict of exactly the packet that it hits. */
  lemma {:induction false} SplitAccepts(ps: seq<Packet>, at: Place)
    requires at.index < |ps| && at.offset <= |ps[at.index].payload|
    ensures AcceptIds(ps) == AcceptIds(SplitAt(ps, at))
                             + if ps[at.index].action == Accept then multiset{ps[at.index].id} else multiset{}
  {
    var p := ps[at.index];
    HalvesStand(p, at.offset);
    hide FirstPart; hide SecondPart;
    AcceptReplaced(ps, at.index, [FirstPart(p, at.offset), SecondPart(p, at.offset)]);
  }

  lemma {:induction false} SplitInside(ps: seq<Packet>, cur: seq<Packet>, k: nat, shift: int, stream: seq<byte>, origin: u32)
    requires Laid(ps, cur, shift, stream, origin) && k < |stream|
    ensures FindPacketByOffset(cur, k).Some?
    ensures var next := SplitAt(cur, FindPacketByOffset(cur, k).value);
      && Laid(ps, next, shift, stream, origin)
      && forall c :: c in ps ==> (Kept(c, next) <==> Kept(c, cur) && !Covers(SegmentOf(c), k, origin))
  {
    var edited := Wrap(origin + shift);
    hide Wrap; hide FindPacketByOffset; hide SplitAt; hide Covers; hide AcceptIds; hide CutAt;
    SplitRefinesCut(cur, k, stream, edited);
    FindIsHolder(cur, k, stream, edited);
    hide Tiles; hide Captives;
    var at := FindPacketByOffset(cur, k).value;
    var next := SplitAt(cur, at);
    HalvesFree(cur, at);
    SplitAtIntact(cur, at);
    IntactTrans(ps, cur, next, shift, 0);
    SplitAccepts(cur, at);
    HolderHolds(cur, at, k, edited);
    hide Intact; hide FakeFree;
    forall c | c in ps ensures Kept(c, next) <==> Kept(c, cur) && !Covers(SegmentOf(c), k, origin) {
      KeptAfter(ps, cur, next, shift, stream, origin, c, at, k);
    }
  }

  lemma {:induction false} HolderHolds(cur: seq<Packet>, at: Place, k: nat, edited: u32)
    requires at.index < |cur| && at.offset < |cur[at.index].payload|
    requires Dist(cur[at.index].tcp.seqNo, edited) + at.offset == k
    ensures Holds(cur, at.index, k, edited)
  {
  }

  lemma {:induction false} KeptAfter(ps: seq<Packet>, cur: seq<Packet>, next: seq<Packet>, shift: int, stream: seq<byte>,
                                     origin: u32, c: Packet, at: Place, k: nat)
    requires Laid(ps, cur, shift, stream, origin) && c in ps && at.index < |cur|
    requires Holds(cur, at.index, k, Wrap(origin + shift))
    requires AcceptIds(cur) == AcceptIds(next) + if cur[at.index].action == Accept then multiset{cur[at.index].id} else multiset{}
    ensures Kept(c, next) <==> Kept(c, cur) && !Covers(SegmentOf(c), k, origin)
  {
    IdOnce(ps, c.id);
    CaptivesSober(ps);
    assert AcceptIds(cur) <= AcceptIds(ps);
    if Kept(c, cur) {
      HolderDecides(ps, cur, shift, stream, origin, c, at.index, k);
    }
    hide Laid; hide Covers; hide AcceptIds; hide Holds;
    assert AcceptIds(cur)[c.id] <= 1;
    assert AcceptIds(next)[c.id] + (if cur[at.index].action == Accept && cur[at.index].id == c.id then 1 else 0) == AcceptIds(cur)[c.id];
  }

  lemma {:induction false} CoveredInside(ps: seq<Packet>, c: Packet, k: int, stream: seq<byte>, origin: u32)
    requires Tiles(ps, stream, origin) && c in ps && Covers(SegmentOf(c), k, origin)
    ensures k < |stream|
  {
    var i :| 0 <= i < |ps| && ps[i] == c;
    assert SliceOf(SegmentOf(ps[i]), stream, origin);
  }

  lemma {:induction false} SplitLaid(ps: seq<Packet>, cur: seq<Packet>, pos: Position, ctx: Context, shift: int,
                                     stream: seq<byte>, origin: u32)
    requires Laid(ps, cur, shift, stream, origin) && Split(cur, pos, ctx).Done?
    ensures var next, target := Split(cur, pos, ctx).value, SplitTarget(pos, ctx);
      && Laid(ps, next, shift, stream, origin)
      && forall c :: c in ps ==>
           (Kept(c, next) <==> Kept(c, cur) && !(target.Some? && Covers(SegmentOf(c), target.value, origin)))
  {
    var target := SplitTarget(pos, ctx);
    if target.Some? {
      var k := target.value;
      Ranges.FindsExactly(cur, k);
      TilesTotal(cur, stream, Wrap(origin + shift));
      if k < |stream| {
        hide Laid; hide Kept; hide Covers; hide FindPacketByOffset; hide SplitAt; hide SplitTarget;
        SplitInside(ps, cur, k, shift, stream, origin);
      } else {
        forall c | c in ps ensures !Covers(SegmentOf(c), k, origin) {
          if Covers(SegmentOf(c), k, origin) {
            CoveredInside(ps, c, k, stream, origin);
          }
        }
        hide Laid; hide Kept; hide Covers; hide FindPacketByOffset; hide SplitTarget;
      }
    } else {
      hide Laid; hide Kept; hide Covers; hide SplitTarget;
    }
  }

  lemma {:induction false} SplitsLaid(ps: seq<Packet>, cur: seq<Packet>, splits: seq<Position>, ctx: Context, shift: int,
                                      stream: seq<byte>, origin: u32)
    requires Laid(ps, cur, shift, stream, origin) && SplitAll(cur, splits, ctx).Done?
    ensures var next := SplitAll(cur, splits, ctx).value;
      && Laid(ps, next, shift, stream, origin)
      && forall c :: c in ps ==> (Kept(c, next) <==> Kept(c, cur) && !IsCutBy(c, splits, ctx, origin))
    decreases |splits|
  {
    hide Laid; hide Kept; hide Covers; hide SplitTarget; hide Split; hide IsCutBy;
    if splits == [] {
      forall c | c in ps ensures !IsCutBy(c, splits, ctx, origin) {
        NotCutByNone(c, ctx, origin);
      }
    } else {
      var next := Split(cur, splits[0], ctx).value;
      SplitLaid(ps, cur, splits[0], ctx, shift, stream, origin);
      SplitsLaid(ps, next, splits[1..], ctx, shift, stream, origin);
      forall c | c in ps
        ensures IsCutBy(c, splits, ctx, origin) <==>
          IsCutBy(c, splits[1..], ctx, origin)
          || (SplitTarget(splits[0], ctx).Some? && Covers(SegmentOf(c), SplitTarget(splits[0], ctx).value, origin))
      {
        CutByCons(c, splits, ctx, origin);
      }
    }
  }

  lemma {:induction false} NotCutByNone(c: Packet, ctx: Context, origin: u32)
    ensures !IsCutBy(c, [], ctx, origin)
  {
  }

  lemma {:induction false} CutByCons(c: Packet, splits: seq<Position>, ctx: Context, origin: u32)
    requires splits != []
    ensures IsCutBy(c, splits, ctx, origin) <==>
      IsCutBy(c, splits[1..], ctx, origin)
      || (SplitTarget(splits[0], ctx).Some? && Covers(SegmentOf(c), SplitTarget(splits[0], ctx).value, origin))
  {
    hide SplitTarget; hide Covers;
    forall k: nat ensures TargetOf(splits, ctx, k) <==> TargetOf(splits[1..], ctx, k) || SplitTarget(splits[0], ctx) == Some(k) {
      if j :| 0 <= j < |splits| && SplitTarget(splits[j], ctx) == Some(k) {
        assert j > 0 ==> splits[1..][j - 1] == splits[j];
      }
      if j :| 0 <= j < |splits[1..]| && SplitTarget(splits[1..][j], ctx) == Some(k) {
        assert splits[j + 1] == splits[1..][j];
      }
    }
  }

  // ----- whole modifiers -----

  lemma {:induction false} ShiftedLaid(ps: seq<Packet>, cur: seq<Packet>, next: seq<Packet>, shift: int, more: int,
                                       stream: seq<byte>, origin: u32)
    requires Laid(ps, cur, shift, stream, origin) && Shifted(cur, next, more)
    ensures Laid(ps, next, shift + more, stream, origin) && AcceptIds(next) == AcceptIds(cur)
  {
    hide Tiles; hide SameSpots; hide FakeFree; hide Captives; hide Wrap; hide Shifted; hide Intact; hide AcceptIds;
    var edited := Wrap(origin + shift);
    ShiftedSpots(cur, next, more, edited);
    WrapSum(origin + shift, more);
    SpotsTile(cur, edited, next, Wrap(edited + more), stream);
    ShiftedIntact(cur, next, more);
    ShiftedAccept(cur, next, more);
    IntactTrans(ps, cur, next, shift, more);
  }

  lemma {:induction false} ReverseLaid(ps: seq<Packet>, cur: seq<Packet>, shift: int, stream: seq<byte>, origin: u32)
    requires Laid(ps, cur, shift, stream, origin)
    ensures Laid(ps, FilteredReverse(cur), shift, stream, origin) && AcceptIds(FilteredReverse(cur)) == AcceptIds(cur)
  {
    hide FilteredReverse; hide Captives; hide Wrap;
    ReversedTile(cur, stream, Wrap(origin + shift));
    hide Tiles;
    PlainReverse(cur);
    ReverseAt(cur);
    ReverseAccept(cur);
    ReverseIntact(cur);
    IntactTrans(ps, cur, FilteredReverse(cur), shift, 0);
    hide Intact;
  }

  lemma {:induction false} SplitterLaid(ps: seq<Packet>, cur: seq<Packet>, args: Args, ctx: Context, shift: int,
                                        stream: seq<byte>, origin: u32)
    requires Laid(ps, cur, shift, stream, origin) && SplitterOriginals(cur, args, None, ctx).Done?
    ensures var next := SplitterOriginals(cur, args, None, ctx).value;
      && Laid(ps, next, shift + Offset(args), stream, origin)
      && forall c :: c in ps ==> (Kept(c, next) <==> Kept(c, cur) && !IsCutBy(c, args.splits, ctx, origin))
  {
    hide SplitAll; hide TtlPass; hide TsPass; hide SeqPass; hide BadPass; hide Laid; hide Shifted; hide IsCutBy; hide AcceptIds;
    var cut := SplitAll(cur, args.splits, ctx).value;
    SplitsLaid(ps, cur, args.splits, ctx, shift, stream, origin);
    var lived := TtlPass(cut, false, args.ipv4Ttl);
    TtlShifted(cut, args.ipv4Ttl);
    var timed := TsPass(lived, false, args.tsOffset).value;
    TsShifted(lived, args.tsOffset);
    ShiftedTrans(cut, lived, timed, 0, 0);
    var moved := SeqPass(timed, false, args.seqOffset);
    SeqShifted(timed, args);
    ShiftedTrans(cut, timed, moved, 0, Offset(args));
    BadShifted(moved, args.badcksum);
    ShiftedTrans(cut, moved, BadPass(moved, false, args.badcksum), Offset(args), 0);
    ShiftedLaid(ps, cut, BadPass(moved, false, args.badcksum), shift, Offset(args), stream, origin);
  }

  lemma {:induction false} DisorderLaid(ps: seq<Packet>, cur: seq<Packet>, args: Args, ctx: Context, shift: int,
                                        stream: seq<byte>, origin: u32)
    requires Laid(ps, cur, shift, stream, origin) && DisorderOriginals(cur, args, None, ctx).Done?
    ensures var next := DisorderOriginals(cur, args, None, ctx).value;
      && Laid(ps, next, shift + Offset(args), stream, origin)
      && forall c :: c in ps ==> (Kept(c, next) <==> Kept(c, cur) && !IsCutBy(c, args.splits, ctx, origin))
  {
    hide SplitAll; hide TtlPass; hide TsPass; hide SeqPass; hide BadPass; hide Laid; hide Shifted; hide IsCutBy; hide AcceptIds;
    var cut := SplitAll(cur, args.splits, ctx).value;
    SplitsLaid(ps, cur, args.splits, ctx, shift, stream, origin);
    DisorderPasses(cut, args);
    var moved := SeqPass(cut, false, args.seqOffset);
    var lived := TtlPass(TsPass(moved, false, args.tsOffset).value, false, args.ipv4Ttl);
    var next := BadPass(BadPass(lived, false, args.badcksum), false, args.badcksum);
    ShiftedLaid(ps, cut, next, shift, Offset(args), stream, origin);
  }

  lemma {:induction false} DisorderPasses(cut: seq<Packet>, args: Args)
    requires TsPass(SeqPass(cut, false, args.seqOffset), false, args.tsOffset).Done?
    ensures var timed := TsPass(SeqPass(cut, false, args.seqOffset), false, args.tsOffset).value;
      var next := BadPass(BadPass(TtlPass(timed, false, args.ipv4Ttl), false, args.badcksum), false, args.badcksum);
      Shifted(cut, next, Offset(args))
  {
    hide TtlPass; hide TsPass; hide SeqPass; hide BadPass; hide Shifted;
    var d, moved := Offset(args), SeqPass(cut, false, args.seqOffset);
    SeqShifted(cut, args);
    var timed := TsPass(moved, false, args.tsOffset).value;
    TsShifted(moved, args.tsOffset);
    ShiftedTrans(cut, moved, timed, d, 0);
    var lived := TtlPass(timed, false, args.ipv4Ttl);
    TtlShifted(timed, args.ipv4Ttl);
    ShiftedTrans(cut, timed, lived, d, 0);
    var bad := BadPass(lived, false, args.badcksum);
    BadShifted(lived, args.badcksum);
    ShiftedTrans(cut, lived, bad, d, 0);
    BadShifted(bad, args.badcksum);
    ShiftedTrans(cut, bad, BadPass(bad, false, args.badcksum), d, 0);
  }

  /** A modifier without decoy and overlap. */
  lemma {:induction false} ModifyLaid(ps: seq<Packet>, m: Mod, cur: seq<Packet>, ctx: Context, shift: int,
                                      stream: seq<byte>, origin: u32)
    requires Laid(ps, cur, shift, stream, origin) && ModifyOne(m, cur, ctx).Done? && m.args.fakeBlob.None? && NoOverlap(m)
    ensures var next := ModifyOne(m, cur, ctx).value;
      && Laid(ps, next, shift + Displacement(m), stream, origin)
      && forall c :: c in ps ==> (Kept(c, next) <==> Kept(c, cur) && !IsCutBy(c, m.args.splits, ctx, origin))
  {
    hide SplitterOriginals; hide DisorderOriginals; hide FilteredReverse; hide Laid; hide IsCutBy; hide AcceptIds;
    match m {
      case Splitter(args, _) => SplitterLaid(ps, cur, args, ctx, shift, stream, origin);
      case Disorder(args, _) =>
        var out := DisorderOriginals(cur, args, None, ctx).value;
        DisorderLaid(ps, cur, args, ctx, shift, stream, origin);
        ReverseLaid(ps, out, shift + Offset(args), stream, origin);
    }
  }

  // ----- once a decoy is in, nothing is split -----

  ghost predicate NoSplits(mods: seq<Mod>, ctx: Context) {
    forall i :: 0 <= i < |mods| && Cutting(mods[i], ctx) ==> mods[i].args.splits == []
  }

  lemma {:induction false} ModifyKeepsAccepts(m: Mod, cur: seq<Packet>, ctx: Context)
    requires ModifyOne(m, cur, ctx).Done? && NoOverlap(m) && (m.args.fakeBlob.None? ==> m.args.splits == [])
    ensures AcceptIds(ModifyOne(m, cur, ctx).value) == AcceptIds(cur)
  {
    hide FakePacket; hide SplitterFakes; hide DisorderFakes; hide FilteredReverse; hide Health.Keeps; hide AcceptIds;
    hide TtlPass; hide TsPass; hide SeqPass; hide BadPass; hide Shifted;
    var args := m.args;
    if args.fakeBlob.Some? {
      var fake := FakePacket(cur[0], args.fakeBlob.value);
      if m.Splitter? {
        Health.SplitterFakesKeep([fake], args, false);
        DecoysAccept(cur[0], args.fakeBlob.value, SplitterFakes([fake], args).value, cur);
      } else {
        Health.DisorderFakesKeep([fake], args, false);
        DecoysAccept(cur[0], args.fakeBlob.value, DisorderFakes([fake], args).value, cur);
        ReverseAccept(MarkFake(DisorderFakes([fake], args).value) + cur);
      }
    } else if m.Splitter? {
      SplitterPasses(cur, args);
      ShiftedAccept(cur, SplitterOriginals(cur, args, None, ctx).value, Offset(args));
    } else {
      DisorderPasses(cur, args);
      ShiftedAccept(cur, DisorderOriginals(cur, args, None, ctx).value, Offset(args));
      ReverseAccept(DisorderOriginals(cur, args, None, ctx).value);
    }
  }

  lemma {:induction false} SplitterPasses(cut: seq<Packet>, args: Args)
    requires TsPass(TtlPass(cut, false, args.ipv4Ttl), false, args.tsOffset).Done?
    ensures var timed := TsPass(TtlPass(cut, false, args.ipv4Ttl), false, args.tsOffset).value;
      Shifted(cut, BadPass(SeqPass(timed, false, args.seqOffset), false, args.badcksum), Offset(args))
  {
    hide TtlPass; hide TsPass; hide SeqPass; hide BadPass; hide Shifted;
    var lived := TtlPass(cut, false, args.ipv4Ttl);
    TtlShifted(cut, args.ipv4Ttl);
    var timed := TsPass(lived, false, args.tsOffset).value;
    TsShifted(lived, args.tsOffset);
    ShiftedTrans(cut, lived, timed, 0, 0);
    var moved := SeqPass(timed, false, args.seqOffset);
    SeqShifted(timed, args);
    ShiftedTrans(cut, timed, moved, 0, Offset(args));
    BadShifted(moved, args.badcksum);
    ShiftedTrans(cut, moved, BadPass(moved, false, args.badcksum), Offset(args), 0);
  }

  lemma {:induction false} NoSplitsKeep(mods: seq<Mod>, cur: seq<Packet>, ctx: Context)
    requires ModifyAll(mods, cur, ctx).Done? && NoSplits(mods, ctx) && forall i :: 0 <= i < |mods| ==> NoOverlap(mods[i])
    ensures AcceptIds(ModifyAll(mods, cur, ctx).value) == AcceptIds(cur)
    decreases |mods|
  {
    hide ModifyOne; hide AcceptIds; hide NoOverlap;
    if mods == [] {
    } else {
      assert forall i :: 0 <= i < |mods[1..]| ==> mods[1..][i] == mods[i + 1];
      if Matches(mods[0], ctx.proto) {
        ModifyKeepsAccepts(mods[0], cur, ctx);
        NoSplitsKeep(mods[1..], ModifyOne(mods[0], cur, ctx).value, ctx);
      } else {
        NoSplitsKeep(mods[1..], cur, ctx);
      }
    }
  }

  // ----- the pipeline -----

  lemma {:induction false} CutCons(c: Packet, mods: seq<Mod>, ctx: Context, origin: u32)
    requires mods != []
    ensures IsCut(c, mods, ctx, origin) <==>
      IsCut(c, mods[1..], ctx, origin) || (Cutting(mods[0], ctx) && IsCutBy(c, mods[0].args.splits, ctx, origin))
  {
    hide TargetOf; hide Covers;
    forall k: nat
      ensures Targets(mods, ctx, k) <==> Targets(mods[1..], ctx, k) || (Cutting(mods[0], ctx) && TargetOf(mods[0].args.splits, ctx, k))
    {
      if i :| 0 <= i < |mods| && Cutting(mods[i], ctx) && TargetOf(mods[i].args.splits, ctx, k) {
        assert i > 0 ==> mods[1..][i - 1] == mods[i];
      }
      if i :| 0 <= i < |mods[1..]| && Cutting(mods[1..][i], ctx) && TargetOf(mods[1..][i].args.splits, ctx, k) {
        assert mods[i + 1] == mods[1..][i];
      }
    }
  }

  lemma {:induction false} NoSplitsNoCut(c: Packet, mods: seq<Mod>, ctx: Context, origin: u32)
    requires NoSplits(mods, ctx)
    ensures !IsCut(c, mods, ctx, origin)
  {
  }

  /** A captured packet keeps its accept verdict exactly if no requested offset lies inside it. */
  lemma {:induction false} KeptExactly(ps: seq<Packet>, mods: seq<Mod>, cur: seq<Packet>, ctx: Context, shift: int,
                                       stream: seq<byte>, origin: u32)
    requires Laid(ps, cur, shift, stream, origin) && ModifyAll(mods, cur, ctx).Done?
    requires DecoysLast(mods, ctx) && forall i :: 0 <= i < |mods| ==> NoOverlap(mods[i])
    ensures forall c :: c in ps ==>
      (Kept(c, ModifyAll(mods, cur, ctx).value) <==> Kept(c, cur) && !IsCut(c, mods, ctx, origin))
    decreases |mods|
  {
    hide Laid; hide ModifyOne; hide AcceptIds; hide NoOverlap; hide IsCut; hide IsCutBy; hide Displacement;
    if mods == [] {
      forall c | c in ps ensures !IsCut(c, mods, ctx, origin) {
        NoSplitsNoCut(c, mods, ctx, origin);
      }
    } else {
      var m, rest := mods[0], mods[1..];
      RestLast(mods, ctx);
      forall c | c in ps
        ensures IsCut(c, mods, ctx, origin) <==>
          IsCut(c, rest, ctx, origin) || (Cutting(m, ctx) && IsCutBy(c, m.args.splits, ctx, origin))
      {
        CutCons(c, mods, ctx, origin);
      }
      if !Matches(m, ctx.proto) {
        KeptExactly(ps, rest, cur, ctx, shift, stream, origin);
      } else if m.args.fakeBlob.None? {
        ModifyLaid(ps, m, cur, ctx, shift, stream, origin);
        KeptExactly(ps, rest, ModifyOne(m, cur, ctx).value, ctx, shift + Displacement(m), stream, origin);
      } else {
        ModifyKeepsAccepts(m, cur, ctx);
        NoSplitsKeep(rest, ModifyOne(m, cur, ctx).value, ctx);
        forall c | c in ps ensures !IsCut(c, rest, ctx, origin) {
          NoSplitsNoCut(c, rest, ctx, origin);
        }
      }
    }
  }

  lemma {:induction false} RestLast(mods: seq<Mod>, ctx: Context)
    requires mods != [] && DecoysLast(mods, ctx)
    ensures DecoysLast(mods[1..], ctx)
    ensures Matches(mods[0], ctx.proto) && mods[0].args.fakeBlob.Some? ==> NoSplits(mods[1..], ctx)
  {
    assert forall i :: 0 <= i < |mods[1..]| ==> mods[1..][i] == mods[i + 1];
  }

  lemma {:induction false} StartLaid(ps: seq<Packet>, stream: seq<byte>, origin: u32)
    requires Captives(ps) && Tiles(ps, stream, origin)
    ensures Laid(ps, ps, 0, stream, origin) && forall c :: c in ps ==> Kept(c, ps)
  {
    IntactSelf(ps);
    WrapSmall(origin);
    hide Intact; hide Tiles; hide Wrap;
    forall c | c in ps ensures Kept(c, ps) {
      AcceptMember(ps, c.id);
      var i :| 0 <= i < |ps| && ps[i] == c;
    }
  }

  lemma {:induction false} AllOrNone(ps: seq<Packet>, ids: multiset<u32>)
    requires Captives(ps) && ids <= AcceptIds(ps)
    ensures ids == AcceptIds(ps) <==> forall c :: c in ps ==> c.id in ids
    ensures ids == multiset{} <==> forall c :: c in ps ==> c.id !in ids
  {
    forall id: u32 ensures AcceptIds(ps)[id] <= 1 && (id in AcceptIds(ps) <==> exists c :: c in ps && c.id == id) {
      IdOnce(ps, id);
      AcceptMember(ps, id);
      if i :| 0 <= i < |ps| && ps[i].action == Accept && ps[i].id == id {
        assert ps[i] in ps;
      }
      if c :| c in ps && c.id == id {
        var i :| 0 <= i < |ps| && ps[i] == c;
      }
    }
    hide AcceptIds; hide Captives;
    if forall c :: c in ps ==> c.id in ids {
      forall id: u32 ensures ids[id] == AcceptIds(ps)[id] {
      }
    }
    if forall c :: c in ps ==> c.id !in ids {
      forall id: u32 ensures ids[id] == 0 {
      }
    }
  }

  /** When the wire still carries the stream, decided before anything runs: for captured packets that
      tile a stream and modifiers without overlap that split before they add decoys, the originals
      that leave the host lie in the stream from some origin exactly if the sequence offsets sum to
      zero modulo 2^32, or no captured packet is cut, or every one is; and then the destination
      reassembles the stream. */
  lemma {:induction false} DeliveredExactly(config: Config, ps: seq<Packet>, proto: L7Proto, mss: nat, stream: seq<byte>, origin: u32)
    requires Captives(ps) && Tiles(ps, stream, origin) && stream != []
    requires forall i :: 0 <= i < |config.mods| ==> NoOverlap(config.mods[i])
    requires DecoysLast(config.mods, RunContext(ps, proto, mss)) && Modify(config, ps, proto, mss).Done?
    ensures var mods, ctx, out := Running(config, ps, proto), RunContext(ps, proto, mss), Modify(config, ps, proto, mss).value;
      var shift := Moved(mods, proto);
      var wire, kept := OnWire(ps, out), Wrap(shift) == 0
          || (forall c :: c in ps ==> !IsCut(c, mods, ctx, origin)) || (forall c :: c in ps ==> IsCut(c, mods, ctx, origin));
      && (Somewhere(wire, out, Wrap(origin + shift)) <==> kept)
      && (kept ==> Reassemble(OriginalSegments(wire)) == stream)
  {
    hide Modify; hide Running; hide RunContext; hide Tiles; hide IsCut; hide OnWire; hide AcceptIds; hide Captives; hide NoOverlap;
    hide Somewhere; hide Reassemble; hide Wrap; hide Consistent; hide Moved; hide InPlace; hide OriginalSegments; hide DecoysLast;
    WholeStream(ps, stream, origin);
    CutDecides(config, ps, proto, mss, stream, origin);
    DestinationReceives(config, ps, proto, mss, stream, origin);
  }

  lemma {:induction false} WholeStream(ps: seq<Packet>, stream: seq<byte>, origin: u32)
    requires Captives(ps) && Tiles(ps, stream, origin) && stream != []
    ensures Consistent(OriginalSegments(ps), stream, origin) && Reassemble(OriginalSegments(ps)) == stream
  {
    AllOriginal(ps);
    TilesReassemble(ps, stream, origin);
    TilesConsistent(ps, stream, origin);
  }

  /** The accept verdicts that are left, by position. */
  lemma {:induction false} CutDecides(config: Config, ps: seq<Packet>, proto: L7Proto, mss: nat, stream: seq<byte>, origin: u32)
    requires Captives(ps) && Tiles(ps, stream, origin)
    requires forall i :: 0 <= i < |config.mods| ==> NoOverlap(config.mods[i])
    requires DecoysLast(config.mods, RunContext(ps, proto, mss)) && Modify(config, ps, proto, mss).Done?
    ensures var mods, ctx, ids := Running(config, ps, proto), RunContext(ps, proto, mss), AcceptIds(Modify(config, ps, proto, mss).value);
      && (ids == AcceptIds(ps) <==> forall c :: c in ps ==> !IsCut(c, mods, ctx, origin))
      && (ids == multiset{} <==> forall c :: c in ps ==> IsCut(c, mods, ctx, origin))
  {
    hide Modify; hide ModifyAll; hide RunContext; hide Laid; hide Tiles; hide IsCut; hide AcceptIds; hide NoOverlap;
    hide Moved; hide Captives; hide AllTraced; hide Sober; hide Reassemble; hide OriginalSegments; hide FindMarkers; hide Allowed;
    var mods, ctx, out := Running(config, ps, proto), RunContext(ps, proto, mss), Modify(config, ps, proto, mss).value;
    assert mods == config.mods || mods == [];
    hide Running; hide DecoysLast;
    ModifyRuns(config, ps, proto, mss);
    StartLaid(ps, stream, origin);
    CaptivesSober(ps);
    KeptExactly(ps, mods, ps, ctx, 0, stream, origin);
    AcceptedAreIntact(config, ps, proto, mss);
    AllOrNone(ps, AcceptIds(out));
  }

  lemma {:induction false} TilesConsistent(ps: seq<Packet>, stream: seq<byte>, origin: u32)
    requires Tiles(ps, stream, origin) && FakeFree(ps)
    ensures Consistent(OriginalSegments(ps), stream, origin)
  {
    AllOriginal(ps);
    var segs := OriginalSegments(ps);
    forall g | g in segs ensures SliceOf(g, stream, origin) {
      var i :| 0 <= i < |segs| && segs[i] == g;
      assert SliceOf(SegmentOf(ps[i]), stream, origin);
    }
  }
}
