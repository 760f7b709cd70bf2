/** Delivery over whole runs: everything captured for a connection is on the wire or still held. */
module Wires {
  import opened Base
  import opened Serial
  import opened Packets
  import opened Reassembly
  import opened Classify
  import opened Modifiers
  import opened Conntrack
  import opened StreamKept
  import opened Ledger
  import opened Accounts
  import opened Delivery
  import Headers
  import Markers
  import Sorting
  import Verdicts
  import Progress
  import Losses
  import InOrder

  function FlowOf(p: Packet): Key {
    KeyOf(ViewOf(p))
  }

  ghost predicate InFlow(ps: seq<Packet>, key: Key) {
    forall p :: p in ps ==> FlowOf(p) == key
  }

  lemma {:induction false} StaysInFlow(config: Config, ps: seq<Packet>, proto: Markers.L7Proto, mss: nat, key: Key)
    requires InFlow(ps, key) && Modify(config, ps, proto, mss).Done?
    ensures InFlow(Modify(config, ps, proto, mss).value, key)
  {
    hide Modify;
    forall q | q in Modify(config, ps, proto, mss).value ensures FlowOf(q) == key {
      Headers.PipelineKeepsFlow(config, ps, proto, mss, q);
    }
  }

  // ----- what a run captures and what leaves the host -----

  /** The packet that came in under an id. */
  function Sender(es: seq<Event>, id: u32): Option<PacketView> {
    if es == [] then None
    else
      match es[|es| - 1]
      case Arrival(view, _) => if view.packetId == id then Some(view) else Sender(es[..|es| - 1], id)
      case _ => Sender(es[..|es| - 1], id)
  }

  /** The data a packet brings to a connection. */
  function Brings(view: PacketView, key: Key): seq<Segment> {
    if KeyOf(view) == key && view.payload != [] then [Segment(view.tcp.seqNo, view.payload)] else []
  }

  function Caught(es: seq<Event>, key: Key): seq<Segment> {
    if es == [] then []
    else Caught(es[..|es| - 1], key) + match es[|es| - 1] case Arrival(view, _) => Brings(view, key) case _ => []
  }

  /** An accepted packet leaves as it came; a sent one as it is, decoys aside; a dropped one not at all. */
  function LeavesFor(all: seq<Event>, e: Emission, key: Key): seq<Segment> {
    match e
    case Verdict(id, accept) => if accept && Sender(all, id).Some? then Brings(Sender(all, id).value, key) else []
    case Sent(p) => if !p.isFake && FlowOf(p) == key then [SegmentOf(p)] else []
  }

  function Wired(all: seq<Event>, log: seq<Emission>, key: Key): seq<Segment> {
    if log == [] then [] else LeavesFor(all, log[0], key) + Wired(all, log[1..], key)
  }

  ghost predicate Once(ids: multiset<u32>) {
    forall id: u32 :: ids[id] <= 1
  }

  /** The kernel numbers each packet anew. */
  ghost predicate FreshIds(es: seq<Event>) {
    Once(Arrived(es))
  }

  /** No profile overlaps, and none moves the numbers of the originals. */
  ghost predicate Steady(settings: map<u16, Settings>) {
    && Progress.PlainProfiles(settings)
    && forall port, proto :: port in settings ==> Wrap(Moved(settings[port].config.mods, proto)) == 0
  }

  // ----- senders -----

  lemma {:induction false} ArrivedCounts(es: seq<Event>, i: nat)
    requires i < |es| && es[i].Arrival?
    ensures Arrived(es)[es[i].view.packetId] >= 1
    decreases |es|
  {
    if i == |es| - 1 {
    } else {
      ArrivedCounts(es[..|es| - 1], i);
    }
  }

  lemma {:induction false} SenderIs(es: seq<Event>, i: nat)
    requires i < |es| && es[i].Arrival? && FreshIds(es)
    ensures Sender(es, es[i].view.packetId) == Some(es[i].view)
    decreases |es|
  {
    if i == |es| - 1 {
    } else {
      var init := es[..|es| - 1];
      ArrivedCounts(init, i);
      assert Arrived(es)[es[i].view.packetId] <= 1;
      FreshBefore(es);
      SenderIs(init, i);
    }
  }

  lemma {:induction false} FreshBefore(es: seq<Event>)
    requires es != [] && FreshIds(es)
    ensures FreshIds(es[..|es| - 1])
  {
    FewerOnce(Arrived(es[..|es| - 1]), Arrived(es));
  }

  lemma {:induction false} FewerOnce(a: multiset<u32>, b: multiset<u32>)
    requires a <= b && Once(b)
    ensures Once(a)
  {
    forall id: u32 ensures a[id] <= b[id] <= 1 {
    }
  }

  lemma {:induction false} WiredConcat(all: seq<Event>, a: seq<Emission>, b: seq<Emission>, key: Key)
    ensures Wired(all, a + b, key) == Wired(all, a, key) + Wired(all, b, key)
  {
    hide LeavesFor;
    if a == [] {
      assert a + b == b;
    } else {
      assert (a + b)[1..] == a[1..] + b;
      WiredConcat(all, a[1..], b, key);
    }
  }

  lemma {:induction false} WiredOne(all: seq<Event>, e: Emission, key: Key)
    ensures Wired(all, [e], key) == LeavesFor(all, e, key)
  {
    assert [e][1..] == [];
  }

  // ----- held packets -----

  /** Every held packet is the one its id came in with, brings data and belongs to the connection. */
  ghost predicate Backed(all: seq<Event>, segs: seq<Packet>, key: Key) {
    forall p :: p in segs ==> Sender(all, p.id) == Some(ViewOf(p)) && FlowOf(p) == key && p.payload != [] && !p.isFake
  }

  lemma {:induction false} BackedCons(all: seq<Event>, segs: seq<Packet>, key: Key)
    requires Backed(all, segs, key) && segs != []
    ensures Backed(all, segs[1..], key)
    ensures Sender(all, segs[0].id) == Some(ViewOf(segs[0])) && FlowOf(segs[0]) == key && segs[0].payload != []
  {
    hide Sender; hide FlowOf;
    assert segs[0] in segs;
  }

  lemma {:induction false} AcceptedLeaves(all: seq<Event>, p: Packet, key: Key)
    requires Sender(all, p.id) == Some(ViewOf(p)) && p.payload != []
    ensures LeavesFor(all, Verdict(p.id, true), key) == if FlowOf(p) == key then [SegmentOf(p)] else []
  {
    hide Sender;
  }

  lemma {:induction false} SegmentsCons(ps: seq<Packet>)
    requires ps != []
    ensures Segments(ps) == [SegmentOf(ps[0])] + Segments(ps[1..])
  {
  }

  lemma {:induction false} WiredRelease(all: seq<Event>, segs: seq<Packet>, owner: Key, key: Key)
    requires Backed(all, segs, owner)
    ensures Wired(all, Release(segs), key) == if owner == key then Segments(segs) else []
  {
    if segs == [] {
    } else {
      var p, rest := segs[0], segs[1..];
      BackedCons(all, segs, owner);
      hide Backed; hide Wired; hide LeavesFor; hide Segments;
      AcceptedLeaves(all, p, key);
      WiredRelease(all, rest, owner, key);
      WiredOne(all, Verdict(p.id, true), key);
      WiredConcat(all, [Verdict(p.id, true)], Release(rest), key);
      SegmentsCons(segs);
    }
  }

  lemma {:induction false} InsertedMembers(segs: seq<Packet>, view: PacketView)
    ensures forall p :: p in Inserted(segs, view) ==> p in segs || p == CreatePacket(view)
    ensures !Duplicate(segs, view) ==> forall p :: p in segs + [CreatePacket(view)] <==> p in Inserted(segs, view)
  {
    Sorting.SortMembers(segs + [CreatePacket(view)], SerialBefore());
  }

  lemma {:induction false} InsertedBacked(all: seq<Event>, segs: seq<Packet>, view: PacketView)
    requires Backed(all, segs, KeyOf(view)) && Sender(all, view.packetId) == Some(view) && view.payload != []
    ensures Backed(all, Inserted(segs, view), KeyOf(view))
  {
    hide Sender; hide Inserted;
    InsertedMembers(segs, view);
    assert ViewOf(CreatePacket(view)) == view;
  }

  lemma {:induction false} DistinctIds(segs: seq<Packet>)
    requires Once(Ids(segs))
    ensures forall i, j :: 0 <= i < j < |segs| ==> segs[i].id != segs[j].id
  {
    forall i, j | 0 <= i < j < |segs| ensures segs[i].id != segs[j].id {
      IdsAround(segs, i, j);
      assert Ids(segs)[segs[i].id] <= 1;
    }
  }

  lemma {:induction false} IdsCons(segs: seq<Packet>)
    requires segs != []
    ensures Ids(segs) == multiset{segs[0].id} + Ids(segs[1..])
  {
  }

  lemma {:induction false} IdsAround(segs: seq<Packet>, i: nat, j: nat)
    requires i < j < |segs|
    ensures Ids(segs)[segs[i].id] >= if segs[i].id == segs[j].id then 2 else 1
  {
    IdCounts(segs[i + 1..], j - i - 1);
    IdsConcat(segs[..i], segs[i..]);
    assert segs == segs[..i] + segs[i..] && segs[i..][1..] == segs[i + 1..];
    IdsCons(segs[i..]);
    hide Ids;
  }

  lemma {:induction false} IdCounts(segs: seq<Packet>, i: nat)
    requires i < |segs|
    ensures Ids(segs)[segs[i].id] >= 1
  {
    if i == 0 {
    } else {
      IdCounts(segs[1..], i - 1);
    }
  }

  // ----- what the verdict loop puts on the wire -----

  lemma {:induction false} EmittedWire(all: seq<Event>, ps: seq<Packet>, out: seq<Packet>, shift: int, owner: Key, key: Key)
    requires Emit(out).Done? && Captives(ps) && Backed(all, ps, owner)
    requires Verdicts.AllTraced(ps, out, shift) && Verdicts.Sober(out) && InFlow(out, owner)
    ensures Wired(all, Emit(out).value, key) == if owner == key then OriginalSegments(OnWire(ps, out)) else []
  {
    if out == [] {
    } else {
      var p, rest := out[0], out[1..];
      forall i | 0 <= i < |rest| && !rest[i].isFake && rest[i].action == Accept ensures Verdicts.Traced(ps, rest[i], shift) {
        assert rest[i] == out[i + 1];
      }
      assert forall i :: 0 <= i < |rest| ==> rest[i] == out[i + 1];
      EmittedWire(all, ps, rest, shift, owner, key);
      FirstWire(all, ps, out, shift, owner, key);
      WiredConcat(all, EmitOne(p).value, Emit(rest).value, key);
      SegmentsConcat(Leaves(ps, p), OnWire(ps, rest));
    }
  }

  lemma {:induction false} FirstWire(all: seq<Event>, ps: seq<Packet>, out: seq<Packet>, shift: int, owner: Key, key: Key)
    requires out != [] && EmitOne(out[0]).Done? && Captives(ps) && Backed(all, ps, owner)
    requires Verdicts.AllTraced(ps, out, shift) && Verdicts.Sober(out) && InFlow(out, owner)
    ensures Wired(all, EmitOne(out[0]).value, key) == if owner == key then OriginalSegments(Leaves(ps, out[0])) else []
  {
    var p := out[0];
    assert p in out;
    if p.action == Accept {
      var q :| q in ps && Verdicts.Was(q, p, shift);
      CapturedIs(ps, q);
      WiredOne(all, Verdict(p.id, true), key);
      OneSegment(q);
    } else {
      var drop, send := Verdict(p.id, false), Sent(p);
      WiredOne(all, drop, key);
      WiredOne(all, send, key);
      WiredConcat(all, [drop], [send], key);
      assert [drop] + [send] == [drop, send];
      OneSegment(p);
    }
  }

  lemma {:induction false} OneSegment(p: Packet)
    ensures OriginalSegments([p]) == if p.isFake then [] else [SegmentOf(p)]
  {
    assert [p][1..] == [] && Originals([p]) == if p.isFake then [] else [p];
    assert Segments([p]) == [SegmentOf(p)];
  }

  // ----- extents -----

  /** The second list shows exactly the stream bytes that the first one brought. */
  ghost predicate Presents(caught: seq<Segment>, shown: seq<Segment>, stream: seq<byte>, origin: u32) {
    Consistent(shown, stream, origin) && SameExtent(caught, origin, shown, origin)
  }

  lemma {:induction false} CoveredJoin(a: seq<Segment>, b: seq<Segment>, k: int, origin: u32)
    ensures Covered(a + b, k, origin) <==> Covered(a, k, origin) || Covered(b, k, origin)
  {
    hide Covers;
    if Covered(a + b, k, origin) {
      var g :| g in a + b && Covers(g, k, origin);
      assert g in a || g in b;
    }
    if g :| g in a && Covers(g, k, origin) {
      assert g in a + b;
    }
    if g :| g in b && Covers(g, k, origin) {
      assert g in a + b;
    }
  }

  lemma {:induction false} LowestJoin(a: seq<Segment>, b: seq<Segment>, origin: u32)
    requires a != [] && b != []
    ensures Lowest(a + b, origin) == if Lowest(a, origin) < Lowest(b, origin) then Lowest(a, origin) else Lowest(b, origin)
  {
    LowestIsMinimum(a, origin);
    LowestIsMinimum(b, origin);
    hide Lowest; hide Dist;
    var lo := if Lowest(a, origin) < Lowest(b, origin) then Lowest(a, origin) else Lowest(b, origin);
    var g :| g in a + b && Dist(g.seqNo, origin) == lo;
    LowestUnique(a + b, origin, lo, g);
  }

  lemma {:induction false} ExtentJoin(a: seq<Segment>, b: seq<Segment>, c: seq<Segment>, d: seq<Segment>, origin: u32)
    requires SameExtent(a, origin, b, origin) && SameExtent(c, origin, d, origin)
    ensures SameExtent(a + c, origin, b + d, origin)
  {
    hide Covered; hide Lowest;
    forall k: int ensures Covered(a + c, k, origin) <==> Covered(b + d, k, origin) {
      CoveredJoin(a, c, k, origin);
      CoveredJoin(b, d, k, origin);
    }
    if a == [] {
      assert a + c == c && b + d == d;
    } else if c == [] {
      assert a + c == a && b + d == b;
    } else {
      LowestJoin(a, c, origin);
      LowestJoin(b, d, origin);
    }
  }

  lemma {:induction false} ConsistentJoin(a: seq<Segment>, b: seq<Segment>, stream: seq<byte>, origin: u32)
    ensures Consistent(a + b, stream, origin) <==> Consistent(a, stream, origin) && Consistent(b, stream, origin)
  {
    hide SliceOf;
    assert Consistent(a + b, stream, origin) ==> forall g :: g in a || g in b ==> g in a + b;
  }

  /** One step: the log gains `emitted` and the buffer changes from `held` to `kept`. */
  lemma {:induction false} StepShows(caught: seq<Segment>, brought: seq<Segment>, wired: seq<Segment>, held: seq<Segment>,
                                     emitted: seq<Segment>, kept: seq<Segment>, stream: seq<byte>, origin: u32)
    requires Presents(caught, wired + held, stream, origin) && Presents(held + brought, emitted + kept, stream, origin)
    ensures Presents(caught + brought, wired + emitted + kept, stream, origin)
  {
    hide SameExtent; hide Consistent;
    ConsistentJoin(wired, held, stream, origin);
    ConsistentJoin(wired, emitted + kept, stream, origin);
    OwnExtent(wired, origin);
    OwnExtent(brought, origin);
    ExtentJoin(caught, wired + held, brought, brought, origin);
    ExtentJoin(wired, wired, held + brought, emitted + kept, origin);
    assert wired + held + brought == wired + (held + brought);
    assert wired + emitted + kept == wired + (emitted + kept);
    SameExtentTrans(caught + brought, origin, wired + held + brought, origin, wired + (emitted + kept), origin);
  }

  // ----- one decision -----

  /** What one decision needs to know of the connection and of the packet. */
  ghost predicate Ready(all: seq<Event>, c: Conn, view: PacketView, settings: map<u16, Settings>) {
    && Backed(all, c.segs, KeyOf(view)) && Waiting(c.segs) && view.packetId != 0
    && Sender(all, view.packetId) == Some(view) && Once(Ids(c.segs) + multiset{view.packetId})
    && !Losses.Forgets(c, view, settings) && Steady(settings)
  }

  lemma {:induction false} BackedCaptives(all: seq<Event>, ps: seq<Packet>, key: Key)
    requires Backed(all, ps, key) && Waiting(ps) && forall i, j :: 0 <= i < j < |ps| ==> ps[i].id != ps[j].id
    ensures Captives(ps) && InFlow(ps, key) && forall i :: 0 <= i < |ps| ==> !ps[i].isFake
  {
    hide Sender; hide FlowOf;
    assert forall i :: 0 <= i < |ps| ==> ps[i] in ps;
  }

  lemma {:induction false} InsertedCaptives(all: seq<Event>, c: Conn, view: PacketView)
    requires Backed(all, c.segs, KeyOf(view)) && Waiting(c.segs) && view.packetId != 0 && view.payload != []
    requires Sender(all, view.packetId) == Some(view) && Once(Ids(c.segs) + multiset{view.packetId}) && !Duplicate(c.segs, view)
    ensures var ps := Inserted(c.segs, view);
      Captives(ps) && Backed(all, ps, KeyOf(view)) && InFlow(ps, KeyOf(view)) && OriginalSegments(ps) == Segments(ps)
  {
    hide *;
    var ps := Inserted(c.segs, view);
    WaitingInserted(c.segs, view);
    InsertedBacked(all, c.segs, view);
    IdsInserted(c.segs, view);
    DistinctIds(ps);
    BackedCaptives(all, ps, KeyOf(view));
    AllOriginal(ps);
    OriginalsOnly(ps);
  }

  lemma {:induction false} OriginalsOnly(ps: seq<Packet>)
    requires Originals(ps) == ps
    ensures OriginalSegments(ps) == Segments(ps)
  {
  }

  lemma {:induction false} InsertedExtent(segs: seq<Packet>, view: PacketView, stream: seq<byte>, origin: u32)
    requires !Duplicate(segs, view) && view.payload != []
    requires Consistent(Segments(segs) + Brings(view, KeyOf(view)), stream, origin)
    ensures Presents(Segments(segs) + Brings(view, KeyOf(view)), Segments(Inserted(segs, view)), stream, origin)
  {
    var more, ps := segs + [CreatePacket(view)], Inserted(segs, view);
    InsertedMembers(segs, view);
    hide Inserted; hide Duplicate; hide SameExtent;
    assert Segments(more) == Segments(segs) + Brings(view, KeyOf(view));
    SegmentsMembers(more, ps);
    SameMembersSameExtent(Segments(more), Segments(ps), origin);
  }

  lemma {:induction false} StillRunning(config: Config, ps: seq<Packet>, proto: Markers.L7Proto)
    requires Wrap(Moved(config.mods, proto)) == 0
    ensures Wrap(Moved(Running(config, ps, proto), proto)) == 0
  {
    hide Reassemble; hide OriginalSegments; hide Markers.FindMarkers; hide Allowed;
    assert Running(config, ps, proto) == config.mods || Running(config, ps, proto) == [];
  }

  lemma {:induction false} FinishWire(all: seq<Event>, ps: seq<Packet>, config: Config, proto: Markers.L7Proto, mss: nat,
                                      owner: Key, key: Key)
    requires Captives(ps) && Backed(all, ps, owner) && InFlow(ps, owner)
    requires Modify(config, ps, proto, mss).Done? && Emit(Modify(config, ps, proto, mss).value).Done?
    ensures var out := Modify(config, ps, proto, mss).value;
      Wired(all, Emit(out).value, key) == if owner == key then OriginalSegments(OnWire(ps, out)) else []
  {
    hide Modify; hide Emit; hide OnWire; hide Captives; hide Backed; hide InFlow; hide Moved; hide Running;
    hide Wired; hide OriginalSegments;
    Verdicts.AcceptedAreIntact(config, ps, proto, mss);
    CaptivesSober(ps);
    StaysInFlow(config, ps, proto, mss, owner);
    EmittedWire(all, ps, Modify(config, ps, proto, mss).value, Moved(Running(config, ps, proto), proto), owner, key);
  }

  lemma {:induction false} FinishShows(all: seq<Event>, c: Conn, view: PacketView, config: Config, proto: Markers.L7Proto, mss: nat,
                                       stream: seq<byte>, origin: u32)
    requires Backed(all, c.segs, KeyOf(view)) && Waiting(c.segs) && view.packetId != 0 && view.payload != []
    requires Sender(all, view.packetId) == Some(view) && Once(Ids(c.segs) + multiset{view.packetId}) && !Duplicate(c.segs, view)
    requires Consistent(Segments(c.segs) + Brings(view, KeyOf(view)), stream, origin)
    requires forall i :: 0 <= i < |config.mods| ==> NoOverlap(config.mods[i])
    requires Wrap(Moved(config.mods, proto)) == 0
    requires Modify(config, Inserted(c.segs, view), proto, mss).Done?
    requires Emit(Modify(config, Inserted(c.segs, view), proto, mss).value).Done?
    ensures Presents(Segments(c.segs) + Brings(view, KeyOf(view)),
                  Wired(all, Emit(Modify(config, Inserted(c.segs, view), proto, mss).value).value, KeyOf(view)), stream, origin)
  {
    hide Inserted; hide Modify; hide Emit; hide OnWire; hide Captives; hide Backed; hide InFlow; hide Moved; hide Running;
    hide Wired; hide OriginalSegments; hide Segments; hide SameExtent; hide Consistent; hide Wrap; hide NoOverlap; hide Brings;
    hide Duplicate; hide Waiting;
    var ps, owner := Inserted(c.segs, view), KeyOf(view);
    InsertedCaptives(all, c, view);
    InsertedExtent(c.segs, view, stream, origin);
    FinishWire(all, ps, config, proto, mss, owner, owner);
    StillRunning(config, ps, proto);
    WireExtent(config, ps, proto, mss, stream, origin);
    SameExtentTrans(Segments(c.segs) + Brings(view, owner), origin, Segments(ps), origin,
                    OriginalSegments(OnWire(ps, Modify(config, ps, proto, mss).value)), origin);
  }

  lemma {:induction false} NoSegmentsLeft(a: seq<Segment>)
    ensures Segments([]) == [] && a + [] == a && [] + a == a
  {
  }

  /** What a decision brings in is afterwards on the wire or held. */
  lemma {:induction false} DecideShows(all: seq<Event>, c: Conn, view: PacketView, settings: map<u16, Settings>,
                                       stream: seq<byte>, origin: u32)
    requires Decide(c, view, settings).Done? && Ready(all, c, view, settings)
    requires Consistent(Segments(c.segs) + Brings(view, KeyOf(view)), stream, origin)
    ensures var (c', emitted) := Decide(c, view, settings).value;
      Presents(Segments(c.segs) + Brings(view, KeyOf(view)), Wired(all, emitted, KeyOf(view)) + Segments(c'.segs), stream, origin)
  {
    hide Combine; hide Modify; hide Emit; hide Payloads; hide Waiting; hide Ids; hide Inserted; hide Duplicate;
    hide SameExtent; hide Consistent; hide Backed; hide Wrap; hide Moved; hide Sender; hide Segments; hide Wired; hide NoOverlap;
    var (c', emitted) := Decide(c, view, settings).value;
    var key := KeyOf(view);
    var before := Segments(c.segs) + Brings(view, key);
    NoSegmentsLeft(before);
    NoSegmentsLeft(Wired(all, emitted, key));
    WiredOne(all, Verdict(view.packetId, true), key);
    if view.payload == [] || c.done {
      SwapShows(Segments(c.segs), Brings(view, key), stream, origin);
    } else {
      var profile, segs := settings[view.tcp.dest], Inserted(c.segs, view);
      var (verdict, proto) := Combine(profile.kinds, Payloads(segs));
      match verdict {
        case Reassembling =>
          InsertedExtent(c.segs, view, stream, origin);
          WiredNone(all, key, Segments(segs));
        case Error =>
          OwnExtent(before, origin);
        case Finished =>
          FinishShows(all, c, view, profile.config, proto.value, c.tcp.mss, stream, origin);
      }
    }
  }

  lemma {:induction false} WiredNone(all: seq<Event>, key: Key, a: seq<Segment>)
    ensures Wired(all, [], key) + a == a
  {
  }

  lemma {:induction false} SwapShows(a: seq<Segment>, b: seq<Segment>, stream: seq<byte>, origin: u32)
    requires Consistent(a + b, stream, origin)
    ensures Presents(a + b, b + a, stream, origin)
  {
    ConsistentJoin(a, b, stream, origin);
    ConsistentJoin(b, a, stream, origin);
    SameMembersSameExtent(a + b, b + a, origin);
  }

  /** Nothing is sent for another connection, and what is held stays backed. */
  lemma {:induction false} DecideElsewhere(all: seq<Event>, c: Conn, view: PacketView, settings: map<u16, Settings>, key: Key)
    requires Decide(c, view, settings).Done? && Ready(all, c, view, settings)
    ensures var (c', emitted) := Decide(c, view, settings).value;
      Backed(all, c'.segs, KeyOf(view)) && (key != KeyOf(view) ==> Wired(all, emitted, key) == [])
  {
    hide Combine; hide Modify; hide Emit; hide Payloads; hide Waiting; hide Ids; hide Inserted; hide Duplicate;
    hide Captives; hide InFlow; hide Sender; hide Wired;
    var (c', emitted) := Decide(c, view, settings).value;
    WiredOne(all, Verdict(view.packetId, true), key);
    WiredNone(all, key, []);
    assert Wired(all, [], key) + [] == Wired(all, [], key);
    if view.payload != [] && !c.done {
      var profile, segs := settings[view.tcp.dest], Inserted(c.segs, view);
      var (verdict, proto) := Combine(profile.kinds, Payloads(segs));
      if verdict != Error {
        InsertedCaptives(all, c, view);
        hide Backed;
        if verdict.Finished? {
          FinishWire(all, segs, profile.config, proto.value, c.tcp.mss, KeyOf(view), key);
        }
      }
    }
  }

  // ----- one event -----

  /** The data on the wire and in the buffer of a connection. */
  function Shown(all: seq<Event>, w: World, key: Key): seq<Segment> {
    Wired(all, w.log, key) + Segments(ConnAt(w.conns, key).segs)
  }

  ghost predicate AllBacked(all: seq<Event>, w: World) {
    forall k :: k in w.conns ==> Backed(all, w.conns[k].segs, k)
  }

  lemma {:induction false} SweepShows(all: seq<Event>, w: World, now: int, order: seq<Key>, key: Key)
    requires AllBacked(all, w)
    ensures AllBacked(all, Sweep(w, now, order)) && Shown(all, Sweep(w, now, order), key) == Shown(all, w, key)
    decreases order
  {
    hide Backed; hide Expired; hide Wired; hide Segments;
    if order == [] {
    } else {
      var k := order[0];
      if k in w.conns && Expired(w.conns[k], now) {
        var segs := w.conns[k].segs;
        var next := World(w.conns - {k}, w.log + Release(segs));
        WiredConcat(all, w.log, Release(segs), key);
        WiredRelease(all, segs, k, key);
        NoSegmentsLeft(Wired(all, w.log, key));
        NoSegmentsLeft(Shown(all, w, key));
        SweepShows(all, next, now, order[1..], key);
      } else {
        SweepShows(all, w, now, order[1..], key);
      }
    }
  }

  lemma {:induction false} IdsHeld(conns: map<Key, Conn>, key: Key)
    ensures Ids(ConnAt(conns, key).segs) <= Held(conns)
  {
    hide Ids;
    NoIds();
    if key in conns {
      HeldRemove(conns, key);
    }
  }

  ghost predicate ReadyFor(all: seq<Event>, w: World, view: PacketView, settings: map<u16, Settings>) {
    && AllBacked(all, w) && AllWaiting(w) && view.packetId != 0
    && Sender(all, view.packetId) == Some(view) && Once(Held(w.conns) + multiset{view.packetId})
    && !Losses.Forgets(ConnAt(w.conns, KeyOf(view)), view, settings) && Steady(settings)
  }

  lemma {:induction false} ReadyHere(all: seq<Event>, w: World, view: PacketView, now: int, settings: map<u16, Settings>)
    requires ReadyFor(all, w, view, settings) && Track(ConnAt(w.conns, KeyOf(view)), view, now).Done?
    ensures Ready(all, Track(ConnAt(w.conns, KeyOf(view)), view, now).value, view, settings)
  {
    hide TrackTcp; hide Sender; hide Ids; hide Held; hide Steady; hide Combine; hide Inserted; hide Duplicate; hide Payloads;
    var c := ConnAt(w.conns, KeyOf(view));
    IdsHeld(w.conns, KeyOf(view));
    FewerOnce(Ids(c.segs) + multiset{view.packetId}, Held(w.conns) + multiset{view.packetId});
  }

  lemma {:induction false} BringsElsewhere(view: PacketView, key: Key)
    ensures key != KeyOf(view) ==> Brings(view, key) == []
  {
  }

  lemma {:induction false} ArrivalShows(all: seq<Event>, w: World, view: PacketView, now: int, settings: map<u16, Settings>,
                                        key: Key, caught: seq<Segment>, stream: seq<byte>, origin: u32)
    requires Arrive(w, view, now, settings).Done? && ReadyFor(all, w, view, settings)
    requires Presents(caught, Shown(all, w, key), stream, origin) && Consistent(caught + Brings(view, key), stream, origin)
    ensures var w' := Arrive(w, view, now, settings).value;
      AllBacked(all, w') && Presents(caught + Brings(view, key), Shown(all, w', key), stream, origin)
  {
    hide Track; hide Ready; hide Backed; hide Decide; hide SameExtent; hide Consistent; hide Wired; hide Segments; hide Brings;
    hide Waiting; hide Sender; hide Once; hide Losses.Forgets; hide Steady; hide Held;
    var was, here := ConnAt(w.conns, KeyOf(view)), KeyOf(view);
    var c := Track(was, view, now).value;
    Progress.TrackFaultsExactly(was, view, now);
    ReadyHere(all, w, view, now, settings);
    assert key != here ==> Brings(view, key) == [] by {
      BringsElsewhere(view, key);
    }
    hide ReadyFor;
    DecideElsewhere(all, c, view, settings, key);
    var (c', emitted) := Decide(c, view, settings).value;
    var wired, held := Wired(all, w.log, key), Segments(ConnAt(w.conns, key).segs);
    WiredConcat(all, w.log, emitted, key);
    if key == here {
      ConsistentJoin(wired, held, stream, origin);
      ConsistentJoin(caught, Brings(view, key), stream, origin);
      ConsistentJoin(held, Brings(view, key), stream, origin);
      DecideShows(all, c, view, settings, stream, origin);
      StepShows(caught, Brings(view, key), wired, held, Wired(all, emitted, key), Segments(c'.segs), stream, origin);
    } else {
      NoSegmentsLeft(wired);
      NoSegmentsLeft(caught);
    }
  }

  // ----- runs -----

  lemma {:induction false} RunShows(all: seq<Event>, n: nat, settings: map<u16, Settings>, key: Key, stream: seq<byte>, origin: u32)
    requires n <= |all| && Run(all[..n], settings).Done? && RealIds(all) && FreshIds(all) && FreshIds(all[..n]) && Steady(settings)
    requires forall i: nat :: !Losses.ForgetsAt(all, i, settings)
    requires Consistent(Caught(all[..n], key), stream, origin)
    ensures var w := Run(all[..n], settings).value;
      AllBacked(all, w) && Presents(Caught(all[..n], key), Shown(all, w, key), stream, origin)
  {
    hide Step; hide Consistent; hide SameExtent; hide Shown; hide AllBacked; hide Losses.Forgets; hide Steady; hide Once;
    if n == 0 {
      StartShows(all, key, stream, origin);
    } else {
      var es, init, e := all[..n], all[..n - 1], all[n - 1];
      assert es[..|es| - 1] == init && es[|es| - 1] == e;
      FreshBefore(es);
      CaughtConsistent(es, key, stream, origin);
      RunShows(all, n - 1, settings, key, stream, origin);
      var w, caught := Run(init, settings).value, Caught(init, key);
      match e {
        case Sweeping(now, order) =>
          SweepShows(all, w, now, order, key);
          NoSegmentsLeft(caught);
          SweepIs(w, now, order, settings);
        case Arrival(view, now) =>
          LedgerBalances(init, settings);
          FewerOnce(Held(w.conns) + multiset{view.packetId}, Arrived(es));
          SenderIs(all, n - 1);
          assert !Losses.ForgetsAt(all, n - 1, settings);
          ArrivalIs(w, view, now, settings);
          ArrivalShows(all, w, view, now, settings, key, caught, stream, origin);
      }
    }
  }

  lemma {:induction false} SweepIs(w: World, now: int, order: seq<Key>, settings: map<u16, Settings>)
    ensures Step(w, Sweeping(now, order), settings) == Done(Sweep(w, now, order))
  {
  }

  lemma {:induction false} ArrivalIs(w: World, view: PacketView, now: int, settings: map<u16, Settings>)
    ensures Step(w, Arrival(view, now), settings) == Arrive(w, view, now, settings)
  {
  }

  lemma {:induction false} StartShows(all: seq<Event>, key: Key, stream: seq<byte>, origin: u32)
    requires Consistent(Caught(all[..0], key), stream, origin)
    ensures AllBacked(all, NEW_WORLD) && Presents(Caught(all[..0], key), Shown(all, NEW_WORLD, key), stream, origin)
  {
    assert all[..0] == [] && Shown(all, NEW_WORLD, key) == [];
    OwnExtent([], origin);
  }

  lemma {:induction false} CaughtConsistent(es: seq<Event>, key: Key, stream: seq<byte>, origin: u32)
    requires es != [] && Consistent(Caught(es, key), stream, origin)
    ensures Consistent(Caught(es[..|es| - 1], key), stream, origin)
  {
    hide SliceOf;
    assert forall g :: g in Caught(es[..|es| - 1], key) ==> g in Caught(es, key);
  }

  /** Over every run that forgets nothing, with fresh ids and profiles without overlap and moved
      numbers: what the log puts on the wire for a connection, together with what is still held for
      it, reassembles to everything captured for it. Once nothing is held, the wire alone does. */
  lemma {:induction false} RunDelivers(es: seq<Event>, settings: map<u16, Settings>, key: Key, stream: seq<byte>, origin: u32)
    requires Run(es, settings).Done? && RealIds(es) && FreshIds(es) && Steady(settings)
    requires forall i: nat :: !Losses.ForgetsAt(es, i, settings)
    requires Consistent(Caught(es, key), stream, origin)
    ensures var w := Run(es, settings).value;
      && Reassemble(Shown(es, w, key)) == Reassemble(Caught(es, key))
      && (ConnAt(w.conns, key).segs == [] ==> Reassemble(Wired(es, w.log, key)) == Reassemble(Caught(es, key)))
  {
    hide Run; hide Reassemble; hide Consistent; hide SameExtent; hide Losses.ForgetsAt; hide FreshIds; hide RealIds;
    hide Steady; hide Wired; hide AllBacked;
    assert es[..|es|] == es;
    RunShows(es, |es|, settings, key, stream, origin);
    var w := Run(es, settings).value;
    SameExtentSameBytes(Caught(es, key), origin, Shown(es, w, key), origin, stream);
    NoSegmentsLeft(Wired(es, w.log, key));
  }

  /** In-order runs without retransmissions forget nothing. */
  lemma {:induction false} InOrderDelivers(es: seq<Event>, settings: map<u16, Settings>, key: Key, stream: seq<byte>, origin: u32)
    requires Run(es, settings).Done? && RealIds(es) && FreshIds(es) && Steady(settings)
    requires InOrder.InSequenceRun(es, settings)
    requires Consistent(Caught(es, key), stream, origin)
    ensures var w := Run(es, settings).value;
      && Reassemble(Shown(es, w, key)) == Reassemble(Caught(es, key))
      && (ConnAt(w.conns, key).segs == [] ==> Reassemble(Wired(es, w.log, key)) == Reassemble(Caught(es, key)))
  {
    hide Run; hide Losses.ForgetsAt;
    InOrder.RunPatient(es, settings);
    Losses.LostSomewhere(es, settings);
    RunDelivers(es, settings, key, stream, origin);
  }
}
