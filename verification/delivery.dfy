/** What the destination gets from the kernel and from the program together. */
module Delivery {
  import opened Base
  import opened Serial
  import opened Packets
  import opened Reassembly
  import opened Markers
  import opened Modifiers
  import opened StreamKept
  import opened Verdicts

  /** The captured packet behind an id. */
  function Captured(ps: seq<Packet>, id: u32): Option<Packet> {
    if ps == [] then None
    else if ps[0].id == id then Some(ps[0])
    else Captured(ps[1..], id)
  }

  /** What leaves the host for a packet: nothing if it is only dropped, the kernel's copy if it is
      accepted, else the edited one. */
  function Leaves(ps: seq<Packet>, p: Packet): seq<Packet> {
    match p.action
    case Drop => []
    case Accept => if Captured(ps, p.id).Some? then [Captured(ps, p.id).value] else []
    case _ => [p]
  }

  function OnWire(ps: seq<Packet>, out: seq<Packet>): seq<Packet> {
    if out == [] then [] else Leaves(ps, out[0]) + OnWire(ps, out[1..])
  }

  /** Captured data packets: waiting to be accepted, originals, ids all different. */
  ghost predicate Captives(ps: seq<Packet>) {
    && (forall i :: 0 <= i < |ps| ==> ps[i].action == Accept && !ps[i].isFake)
    && forall i, j :: 0 <= i < j < |ps| ==> ps[i].id != ps[j].id
  }

  lemma {:induction false} CapturedIs(ps: seq<Packet>, q: Packet)
    requires Captives(ps) && q in ps
    ensures Captured(ps, q.id) == Some(q)
  {
    if ps[0] == q {
    } else {
      var j :| 0 <= j < |ps| && ps[j] == q;
      CapturedIs(ps[1..], q);
    }
  }

  /** A packet and what leaves for it: the same bytes; the same place, or the captured one. */
  ghost predicate LeavesAs(p: Packet, w: Packet, shift: int) {
    && w.isFake == p.isFake && w.payload == p.payload
    && if p.action == Accept then p.tcp.seqNo == Wrap(w.tcp.seqNo + shift) else w.tcp.seqNo == p.tcp.seqNo
  }

  lemma {:induction false} OnWireAt(ps: seq<Packet>, out: seq<Packet>, shift: int)
    requires Captives(ps) && AllTraced(ps, out, shift) && Sober(out)
    ensures var wire := OnWire(ps, out); |wire| == |out| && forall i :: 0 <= i < |out| ==> LeavesAs(out[i], wire[i], shift)
  {
    if out == [] {
    } else {
      hide Captives;
      var p := out[0];
      if p.action == Accept {
        var q :| q in ps && Was(q, p, shift);
        CapturedIs(ps, q);
      }
      hide Captured; hide Was; hide Wrap;
      assert |Leaves(ps, p)| == 1 && LeavesAs(p, Leaves(ps, p)[0], shift);
      forall i | 0 <= i < |out[1..]| && !out[1..][i].isFake && out[1..][i].action == Accept ensures Traced(ps, out[1..][i], shift) {
        assert out[1..][i] == out[i + 1];
      }
      hide Traced; hide Leaves; hide LeavesAs;
      OnWireAt(ps, out[1..], shift);
      var wire, rest := OnWire(ps, out), OnWire(ps, out[1..]);
      forall i | 0 <= i < |out| ensures LeavesAs(out[i], wire[i], shift) {
        assert wire[i] == if i == 0 then Leaves(ps, p)[0] else rest[i - 1];
      }
    }
  }

  // ----- places -----

  /** Seen from `place`, every original on the wire lies where its bytes lie in the stream, which
      for the edited packets starts at `edited`. */
  ghost predicate InPlace(wire: seq<Packet>, out: seq<Packet>, place: u32, edited: u32) {
    && |wire| == |out|
    && forall i :: 0 <= i < |out| && !out[i].isFake ==> Dist(wire[i].tcp.seqNo, place) == Dist(out[i].tcp.seqNo, edited)
  }

  ghost predicate Somewhere(wire: seq<Packet>, out: seq<Packet>, edited: u32) {
    exists place: u32 :: InPlace(wire, out, place, edited)
  }

  lemma {:induction false} SameDistance(x: u32, a: u32, b: u32)
    ensures Dist(x, a) == Dist(x, b) <==> a == b
  {
  }

  lemma {:induction false} PlaceOf(p: Packet, w: Packet, shift: int, origin: u32, place: u32)
    requires LeavesAs(p, w, shift)
    ensures Dist(w.tcp.seqNo, place) == Dist(p.tcp.seqNo, Wrap(origin + shift))
      <==> place == if p.action == Accept then origin else Wrap(origin + shift)
  {
    hide Dist; hide Wrap;
    if p.action == Accept {
      DistShift(w.tcp.seqNo, origin, shift);
      SameDistance(w.tcp.seqNo, place, origin);
    } else {
      SameDistance(w.tcp.seqNo, place, Wrap(origin + shift));
    }
  }

  ghost predicate Accepting(out: seq<Packet>) {
    exists i :: 0 <= i < |out| && !out[i].isFake && out[i].action == Accept
  }

  lemma {:induction false} InPlaceExactly(ps: seq<Packet>, out: seq<Packet>, shift: int, origin: u32, place: u32)
    requires Captives(ps) && AllTraced(ps, out, shift) && Sober(out)
    ensures InPlace(OnWire(ps, out), out, place, Wrap(origin + shift))
      <==> (Accepting(out) ==> place == origin) && (Loose(out) ==> place == Wrap(origin + shift))
  {
    OnWireAt(ps, out, shift);
    hide OnWire; hide Captives; hide AllTraced; hide Sober; hide LeavesAs; hide Dist; hide Wrap;
    var wire := OnWire(ps, out);
    forall i | 0 <= i < |out|
      ensures Dist(wire[i].tcp.seqNo, place) == Dist(out[i].tcp.seqNo, Wrap(origin + shift))
        <==> place == if out[i].action == Accept then origin else Wrap(origin + shift)
    {
      PlaceOf(out[i], wire[i], shift, origin, place);
    }
  }

  lemma {:induction false} NoShift(origin: u32, shift: int)
    ensures Wrap(origin + shift) == origin <==> Wrap(shift) == 0
  {
    WrapAdd(origin, shift);
  }

  lemma {:induction false} AcceptingIds(out: seq<Packet>)
    requires Sober(out)
    ensures Accepting(out) <==> AcceptIds(out) != multiset{}
  {
    if out == [] {
    } else {
      AcceptingIds(out[1..]);
      if i :| 0 <= i < |out| && !out[i].isFake && out[i].action == Accept {
        assert i > 0 ==> out[1..][i - 1] == out[i];
      }
      if j :| 0 <= j < |out[1..]| && !out[1..][j].isFake && out[1..][j].action == Accept {
        assert out[j + 1] == out[1..][j];
      }
    }
  }

  lemma {:induction false} CaptivesSober(ps: seq<Packet>)
    requires Captives(ps)
    ensures Sober(ps) && !Loose(ps)
  {
  }

  /** When the originals on the wire are in place from some origin. */
  ghost predicate Moveless(ps: seq<Packet>, out: seq<Packet>, shift: int) {
    Wrap(shift) == 0 || AcceptIds(out) == AcceptIds(ps) || AcceptIds(out) == multiset{}
  }

  lemma {:induction false} SomewhereExactly(ps: seq<Packet>, out: seq<Packet>, shift: int, origin: u32)
    requires Captives(ps) && Intact(ps, out, shift)
    ensures Somewhere(OnWire(ps, out), out, Wrap(origin + shift)) <==> Moveless(ps, out, shift)
  {
    CaptivesSober(ps);
    AcceptingIds(out);
    NoShift(origin, shift);
    hide Captives; hide Sober; hide Loose; hide Accepting; hide AcceptIds; hide InPlace; hide OnWire; hide AllTraced;
    var edited := Wrap(origin + shift);
    hide Wrap;
    forall place: u32
      ensures InPlace(OnWire(ps, out), out, place, edited)
        <==> (Accepting(out) ==> place == origin) && (Loose(out) ==> place == edited)
    {
      InPlaceExactly(ps, out, shift, origin, place);
    }
    var wire := OnWire(ps, out);
    assert InPlace(wire, out, origin, edited) <==> (Loose(out) ==> origin == edited);
    assert InPlace(wire, out, edited, edited) <==> (Accepting(out) ==> edited == origin);
  }

  // ----- bytes -----

  lemma {:induction false} PlacedSegments(out: seq<Packet>, wire: seq<Packet>, edited: u32, place: u32)
    requires InPlace(wire, out, place, edited)
    requires forall i :: 0 <= i < |out| ==> wire[i].isFake == out[i].isFake && wire[i].payload == out[i].payload
    ensures var a, b := OriginalSegments(out), OriginalSegments(wire);
      |a| == |b| && forall i :: 0 <= i < |a| ==> a[i].data == b[i].data && Dist(b[i].seqNo, place) == Dist(a[i].seqNo, edited)
  {
    hide Dist;
    if out == [] {
      assert wire == [];
    } else {
      PlacedSegments(out[1..], wire[1..], edited, place);
      assert out == [out[0]] + out[1..] && wire == [wire[0]] + wire[1..];
      OriginalSegmentsCons(out[0], out[1..]);
      OriginalSegmentsCons(wire[0], wire[1..]);
      hide OriginalSegments;
      var a, b := OriginalSegments(out[1..]), OriginalSegments(wire[1..]);
      if !out[0].isFake {
        assert forall i :: 0 < i < |a| + 1 ==> ([SegmentOf(out[0])] + a)[i] == a[i - 1] && ([SegmentOf(wire[0])] + b)[i] == b[i - 1];
      }
    }
  }

  /** Segment lists with the same data at the same distances show the same bytes. */
  lemma {:induction false} SamePlaces(a: seq<Segment>, oa: u32, b: seq<Segment>, ob: u32, stream: seq<byte>)
    requires |a| == |b| && forall i :: 0 <= i < |a| ==> a[i].data == b[i].data && Dist(b[i].seqNo, ob) == Dist(a[i].seqNo, oa)
    requires Consistent(a, stream, oa)
    ensures Consistent(b, stream, ob) && SameExtent(a, oa, b, ob)
  {
    forall g | g in b ensures SliceOf(g, stream, ob) {
      var i :| 0 <= i < |b| && b[i] == g;
      assert a[i] in a;
    }
    forall k: int ensures Covered(a, k, oa) <==> Covered(b, k, ob) {
      CoveredPlaces(a, oa, b, ob, k);
      CoveredPlaces(b, ob, a, oa, k);
    }
    SameLowest(a, oa, b, ob);
  }

  lemma {:induction false} CoveredPlaces(a: seq<Segment>, oa: u32, b: seq<Segment>, ob: u32, k: int)
    requires |a| == |b| && forall i :: 0 <= i < |a| ==> a[i].data == b[i].data && Dist(b[i].seqNo, ob) == Dist(a[i].seqNo, oa)
    ensures Covered(a, k, oa) ==> Covered(b, k, ob)
  {
    if g :| g in a && Covers(g, k, oa) {
      var i :| 0 <= i < |a| && a[i] == g;
      assert b[i] in b && Covers(b[i], k, ob);
    }
  }

  lemma {:induction false} SameLowest(a: seq<Segment>, oa: u32, b: seq<Segment>, ob: u32)
    requires |a| == |b| && forall i :: 0 <= i < |a| ==> Dist(b[i].seqNo, ob) == Dist(a[i].seqNo, oa)
    ensures a != [] ==> Lowest(a, oa) == Lowest(b, ob)
  {
    if |a| <= 1 {
    } else {
      SameLowest(a[1..], oa, b[1..], ob);
    }
  }

  lemma {:induction false} InPlaceBytes(ps: seq<Packet>, out: seq<Packet>, shift: int, place: u32, edited: u32, stream: seq<byte>)
    requires Captives(ps) && AllTraced(ps, out, shift) && Sober(out)
    requires InPlace(OnWire(ps, out), out, place, edited) && Consistent(OriginalSegments(out), stream, edited)
    ensures var wire := OriginalSegments(OnWire(ps, out));
      Consistent(wire, stream, place) && SameExtent(OriginalSegments(out), edited, wire, place)
  {
    OnWireAt(ps, out, shift);
    hide OnWire; hide Captives; hide AllTraced; hide Sober; hide OriginalSegments; hide Consistent; hide SameExtent; hide Wrap; hide InPlace;
    PlacedSegments(out, OnWire(ps, out), edited, place);
    SamePlaces(OriginalSegments(out), edited, OriginalSegments(OnWire(ps, out)), place, stream);
  }

  /** What actually leaves the host, the kernel's copies of accepted packets and the program's own
      packets, for any modifiers without overlap. The edited originals lie in the stream from the
      moved origin. The originals on the wire lie in it from some origin exactly if the offsets sum
      to zero modulo 2^32, or no packet lost its accept verdict, or every packet did; and then the
      destination reassembles (decoys aside) what was captured. */
  lemma {:induction false} DestinationReceives(config: Config, ps: seq<Packet>, proto: L7Proto, mss: nat,
                                               stream: seq<byte>, origin: u32)
    requires Captives(ps) && Consistent(OriginalSegments(ps), stream, origin)
    requires forall i :: 0 <= i < |config.mods| ==> NoOverlap(config.mods[i])
    requires Modify(config, ps, proto, mss).Done?
    ensures var out, shift := Modify(config, ps, proto, mss).value, Moved(Running(config, ps, proto), proto);
      var wire, edited := OnWire(ps, out), Wrap(origin + shift);
      && Consistent(OriginalSegments(out), stream, edited)
      && (Somewhere(wire, out, edited) <==> Moveless(ps, out, shift))
      && (Moveless(ps, out, shift) ==> Reassemble(OriginalSegments(wire)) == Reassemble(OriginalSegments(ps)))
  {
    hide Modify; hide Reassemble; hide OriginalSegments; hide Consistent; hide OnWire; hide NoOverlap; hide Running;
    hide Captives; hide Moveless; hide Moved; hide InPlace; hide AllTraced; hide Wrap;
    var out, shift := Modify(config, ps, proto, mss).value, Moved(Running(config, ps, proto), proto);
    AcceptedAreIntact(config, ps, proto, mss);
    SomewhereExactly(ps, out, shift, origin);
    EditedLies(config, ps, proto, mss, stream, origin);
    PipelineKeepsStream(config, ps, proto, mss, stream, origin);
    if Moveless(ps, out, shift) {
      var place: u32 :| InPlace(OnWire(ps, out), out, place, Wrap(origin + shift));
      CaptivesSober(ps);
      InPlaceBytes(ps, out, shift, place, Wrap(origin + shift), stream);
      SameExtentSameBytes(OriginalSegments(out), Wrap(origin + shift), OriginalSegments(OnWire(ps, out)), place, stream);
    }
  }

  /** Without moved numbers what leaves the host lies where the captured bytes lie and shows all of them. */
  lemma {:induction false} WireExtent(config: Config, ps: seq<Packet>, proto: L7Proto, mss: nat, stream: seq<byte>, origin: u32)
    requires Captives(ps) && Consistent(OriginalSegments(ps), stream, origin)
    requires forall i :: 0 <= i < |config.mods| ==> NoOverlap(config.mods[i])
    requires Modify(config, ps, proto, mss).Done? && Wrap(Moved(Running(config, ps, proto), proto)) == 0
    ensures var wire := OriginalSegments(OnWire(ps, Modify(config, ps, proto, mss).value));
      Consistent(wire, stream, origin) && SameExtent(OriginalSegments(ps), origin, wire, origin)
  {
    hide Modify; hide OriginalSegments; hide Consistent; hide SameExtent; hide OnWire; hide NoOverlap; hide Running;
    hide Captives; hide Moved; hide InPlace; hide AllTraced; hide Wrap;
    var out, shift := Modify(config, ps, proto, mss).value, Moved(Running(config, ps, proto), proto);
    AcceptedAreIntact(config, ps, proto, mss);
    CaptivesSober(ps);
    NoShift(origin, shift);
    InPlaceExactly(ps, out, shift, origin, origin);
    EditedLies(config, ps, proto, mss, stream, origin);
    InPlaceBytes(ps, out, shift, origin, origin, stream);
    SameExtentTrans(OriginalSegments(ps), origin, OriginalSegments(out), origin, OriginalSegments(OnWire(ps, out)), origin);
  }

  lemma {:induction false} EditedLies(config: Config, ps: seq<Packet>, proto: L7Proto, mss: nat, stream: seq<byte>, origin: u32)
    requires Consistent(OriginalSegments(ps), stream, origin)
    requires forall i :: 0 <= i < |config.mods| ==> NoOverlap(config.mods[i])
    requires Modify(config, ps, proto, mss).Done?
    ensures var out, edited := OriginalSegments(Modify(config, ps, proto, mss).value), Wrap(origin + Moved(Running(config, ps, proto), proto));
      Consistent(out, stream, edited) && SameExtent(OriginalSegments(ps), origin, out, edited)
  {
    hide Modify; hide ModifyAll; hide OriginalSegments; hide Consistent; hide SameExtent; hide Moved; hide NoOverlap; hide Wrap;
    var mods, ctx := Running(config, ps, proto), RunContext(ps, proto, mss);
    assert ctx.proto == proto && (mods == config.mods || mods == []);
    hide Running; hide RunContext;
    ModifyRuns(config, ps, proto, mss);
    var ref := OriginalSegments(ps);
    OwnExtent(ref, origin);
    var o := ModifyAllCarries(mods, ps, ctx, stream, origin, ref, origin);
  }
}
