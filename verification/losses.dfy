/** When the ledger loses a packet, exactly, and two short runs in which it does. */
module Losses {
  import opened Base
  import opened Serial
  import opened Sorting
  import opened Packets
  import opened Reassembly
  import opened Classify
  import opened Modifiers
  import opened Conntrack
  import opened Ledger
  import opened Samples
  import Accounts

  lemma {:induction false} IdsEmpty(segs: seq<Packet>)
    ensures Ids(segs) == multiset{} <==> segs == []
  {
    if segs == [] {
    } else {
      assert segs[0].id in Ids(segs);
    }
  }

  /** The arrival brings data to an undecided connection, and classification fails while packets are
      held, or does not fail and the sequence number is held already. */
  ghost predicate Forgets(c: Conn, view: PacketView, settings: map<u16, Settings>) {
    && view.payload != [] && !c.done && view.tcp.dest in settings
    && if Combine(settings[view.tcp.dest].kinds, Payloads(Inserted(c.segs, view))).0 == Error then c.segs != []
       else Duplicate(c.segs, view)
  }

  lemma {:induction false} LostIsForgotten(c: Conn, view: PacketView, settings: map<u16, Settings>)
    ensures LostFrom(c, view, settings) != multiset{} <==> Forgets(c, view, settings)
  {
    hide Combine; hide Inserted; hide Duplicate; hide Payloads;
    IdsEmpty(c.segs);
  }

  lemma {:induction false} Cancel(a: multiset<u32>, b: multiset<u32>, lost: multiset<u32>)
    requires a + lost == b
    ensures a == b <==> lost == multiset{}
  {
    forall id ensures a[id] + lost[id] == b[id] {
      assert (a + lost)[id] == b[id];
    }
  }

  /** An arrival leaves its id or a held one neither held nor decided exactly if it meets that guard. */
  lemma {:induction false} LosesExactly(w: World, view: PacketView, now: int, settings: map<u16, Settings>)
    requires Arrive(w, view, now, settings).Done? && Accounts.AllWaiting(w) && view.packetId != 0
    ensures var w' := Arrive(w, view, now, settings).value;
      Held(w'.conns) + Decided(w'.log) == Held(w.conns) + Decided(w.log) + multiset{view.packetId}
      <==> !Forgets(ConnAt(w.conns, KeyOf(view)), view, settings)
  {
    hide Arrive; hide Held; hide Decided; hide LostFrom; hide Forgets;
    var w' := Arrive(w, view, now, settings).value;
    Accounts.ArrivalBalances(w, view, now, settings);
    LostIsForgotten(ConnAt(w.conns, KeyOf(view)), view, settings);
    Cancel(Held(w'.conns) + Decided(w'.log), Held(w.conns) + Decided(w.log) + multiset{view.packetId}, LostBy(w, view, settings));
  }

  // ----- runs -----

  ghost predicate ForgetsAt(es: seq<Event>, i: nat, settings: map<u16, Settings>) {
    && i < |es| && es[i].Arrival? && Run(es[..i], settings).Done?
    && Forgets(ConnAt(Run(es[..i], settings).value.conns, KeyOf(es[i].view)), es[i].view, settings)
  }

  lemma {:induction false} LostSomewhere(es: seq<Event>, settings: map<u16, Settings>)
    requires Run(es, settings).Done?
    ensures Lost(es, settings) != multiset{} <==> exists i: nat :: ForgetsAt(es, i, settings)
    decreases |es|
  {
    hide Step; hide LostFrom; hide Forgets;
    if es == [] {
    } else {
      var n := |es| - 1;
      var init := es[..n];
      LostSomewhere(init, settings);
      forall i: nat | i < n ensures ForgetsAt(es, i, settings) <==> ForgetsAt(init, i, settings) {
        assert init[..i] == es[..i];
      }
      if es[n].Arrival? {
        LostIsForgotten(ConnAt(Run(init, settings).value.conns, KeyOf(es[n].view)), es[n].view, settings);
      }
      assert ForgetsAt(es, n, settings) <==> es[n].Arrival? && LostBy(Run(init, settings).value, es[n].view, settings) != multiset{};
      if i: nat :| ForgetsAt(es, i, settings) {
        assert i == n || ForgetsAt(init, i, settings);
      }
      if i: nat :| ForgetsAt(init, i, settings) {
        assert ForgetsAt(es, i, settings);
      }
    }
  }

  /** Over a run every arrived id is held or decided, as often as it arrived, exactly if no arrival
      of the run meets the guard. */
  lemma {:induction false} RunLosesExactly(es: seq<Event>, settings: map<u16, Settings>)
    requires Run(es, settings).Done? && Accounts.RealIds(es)
    ensures var w := Run(es, settings).value;
      Held(w.conns) + Decided(w.log) == Arrived(es) <==> forall i: nat :: !ForgetsAt(es, i, settings)
  {
    hide Run; hide Held; hide Decided; hide Lost; hide Arrived; hide ForgetsAt;
    var w := Run(es, settings).value;
    Accounts.LedgerBalances(es, settings);
    LostSomewhere(es, settings);
    Cancel(Held(w.conns) + Decided(w.log), Arrived(es), Lost(es, settings));
  }

  // ----- two runs -----

  const HTTPS: u16 := 443

  function OneProfile(): map<u16, Settings> {
    map[HTTPS := Settings([TlsHandshake], Config([], None, None))]
  }

  /** The first bytes of a TLS record whose body has not arrived. */
  const RECORD_START: seq<byte> := [0x16, 3, 1, 0, 10]

  function Data(id: u32, seqNo: u32, payload: seq<byte>): PacketView {
    ViewOf(Captive(id, seqNo, payload))
  }

  function Tracked(view: PacketView, c: Conn): Conn {
    c.(tcp := c.tcp.(curSeq := view.tcp.seqNo), lastTime := 0, bytes := Wrap64(c.bytes + |view.payload|),
       packets := Wrap64(c.packets + 1))
  }

  lemma {:induction false} NoFlags(id: u32, seqNo: u32, payload: seq<byte>, c: Conn)
    requires c.tcp.state == NoState
    ensures Track(c, Data(id, seqNo, payload), 0) == Done(Tracked(Data(id, seqNo, payload), c))
  {
  }

  lemma {:induction false} AsksForMore(p: seq<byte>)
    requires p == RECORD_START
    ensures Combine([TlsHandshake], p) == (Reassembling, None)
  {
    assert ReadBe16(p, 3) == 10;
  }

  lemma {:induction false} GivesUp(p: seq<byte>)
    requires |p| >= 5 && p[0] == 0
    ensures Combine([TlsHandshake], p) == (Error, None)
  {
  }

  /** After the first arrival the record start is held. */
  lemma {:induction false} FirstHeld(id: u32) returns (c: Conn)
    ensures var v := Data(id, 100, RECORD_START);
      && Run([Arrival(v, 0)], OneProfile()) == Done(World(map[KeyOf(v) := c], []))
      && c.segs == [CreatePacket(v)] && !c.done && c.tcp.state == NoState
  {
    var v, e := Data(id, 100, RECORD_START), Arrival(Data(id, 100, RECORD_START), 0);
    NoFlags(id, 100, RECORD_START, NEW_CONN);
    hide Track;
    var p := CreatePacket(v);
    assert Payloads([p]) == RECORD_START by {
      assert [p][1..] == [] && p.payload + [] == RECORD_START;
    }
    AsksForMore(RECORD_START);
    hide Combine; hide Payloads;
    c := Tracked(v, NEW_CONN).(segs := [p]);
    assert Decide(Tracked(v, NEW_CONN), v, OneProfile()) == Done((c, []));
    hide Decide;
    assert [e][..0] == [] && Run([], OneProfile()) == Done(NEW_WORLD);
    assert NEW_WORLD.conns[KeyOf(v) := c] == map[KeyOf(v) := c] && NEW_WORLD.log + [] == [];
    assert Step(NEW_WORLD, e, OneProfile()) == Done(World(map[KeyOf(v) := c], []));
  }

  lemma {:induction false} TwoSteps(a: Event, b: Event, settings: map<u16, Settings>, w: World)
    requires Run([a], settings) == Done(w)
    ensures Run([a, b], settings) == Step(w, b, settings)
  {
    assert [a, b][..1] == [a];
  }

  /** A retransmission while the connection reassembles is neither held nor decided. */
  lemma {:induction false} RetransmissionIsLost()
    ensures var es := [Arrival(Data(1, 100, RECORD_START), 0), Arrival(Data(2, 100, RECORD_START), 0)];
      && Run(es, OneProfile()).Done?
      && var w := Run(es, OneProfile()).value;
         2 !in Decided(w.log) && forall k :: k in w.conns ==> 2 !in Ids(w.conns[k].segs)
  {
    var c := FirstHeld(1);
    var v1, v2 := Data(1, 100, RECORD_START), Data(2, 100, RECORD_START);
    var w, p := World(map[KeyOf(v1) := c], []), CreatePacket(v1);
    assert KeyOf(v1) == KeyOf(v2) && ConnAt(w.conns, KeyOf(v2)) == c;
    NoFlags(2, 100, RECORD_START, c);
    hide Track;
    var t := Tracked(v2, c);
    assert Inserted(t.segs, v2) == [p] by {
      assert t.segs[0].tcp.seqNo == v2.tcp.seqNo;
    }
    hide Inserted;
    assert Payloads([p]) == RECORD_START by {
      assert [p][1..] == [] && p.payload + [] == RECORD_START;
    }
    AsksForMore(RECORD_START);
    hide Combine; hide Payloads;
    assert Decide(t, v2, OneProfile()) == Done((t.(segs := [p]), []));
    hide Decide;
    TwoSteps(Arrival(v1, 0), Arrival(v2, 0), OneProfile(), w);
    assert Arrive(w, v2, 0, OneProfile()) == Done(World(w.conns[KeyOf(v2) := t.(segs := [p])], []));
    assert [p][1..] == [] && p.id == 1;
  }

  /** A packet that arrives late, sorts first and cannot be classified takes the held one with it:
      it is accepted itself, the held one never gets a verdict. */
  lemma {:induction false} FailureLosesHeld()
    ensures var es := [Arrival(Data(1, 100, RECORD_START), 0), Arrival(Data(2, 50, [0]), 0)];
      && Run(es, OneProfile()).Done?
      && var w := Run(es, OneProfile()).value;
         2 in Decided(w.log) && 1 !in Decided(w.log) && forall k :: k in w.conns ==> 1 !in Ids(w.conns[k].segs)
  {
    var c := FirstHeld(1);
    var v1, v2 := Data(1, 100, RECORD_START), Data(2, 50, [0]);
    var w := World(map[KeyOf(v1) := c], []);
    assert KeyOf(v1) == KeyOf(v2);
    var c' := FailStep(w, v2, c);
    hide Arrive;
    TwoSteps(Arrival(v1, 0), Arrival(v2, 0), OneProfile(), w);
    Accounts.DecidedOne(2, true);
  }

  lemma {:induction false} FailStep(w: World, v: PacketView, c: Conn) returns (c': Conn)
    requires v == Data(2, 50, [0]) && w == World(map[KeyOf(v) := c], [])
    requires c.segs == [CreatePacket(Data(1, 100, RECORD_START))] && !c.done && c.tcp.state == NoState
    ensures Arrive(w, v, 0, OneProfile()) == Done(World(w.conns[KeyOf(v) := c'], [Verdict(2, true)])) && c'.segs == []
  {
    var p, q := CreatePacket(Data(1, 100, RECORD_START)), CreatePacket(v);
    NoFlags(2, 50, [0], c);
    hide Track;
    var t := Tracked(v, c);
    SortsFirst(p, q, v);
    hide Inserted;
    assert Payloads([q, p]) == [0] + RECORD_START by {
      assert [q, p][1..] == [p] && [p][1..] == [] && p.payload + [] == RECORD_START;
      assert Payloads([q, p]) == q.payload + Payloads([p]) && Payloads([p]) == p.payload + Payloads([]);
    }
    GivesUp([0] + RECORD_START);
    hide Combine; hide Payloads;
    c' := t.(segs := [], done := true);
    assert Decide(t, v, OneProfile()) == Done((c', [Verdict(2, true)]));
    hide Decide;
    assert [] + [Verdict(2, true)] == [Verdict(2, true)];
  }

  lemma {:induction false} SortsFirst(p: Packet, q: Packet, v: PacketView)
    requires p.tcp.seqNo == 100 && q == CreatePacket(v) && v.tcp.seqNo == 50
    ensures Inserted([p], v) == [q, p]
  {
    var lt := SerialBefore();
    assert Before(50, 100) && lt(q, p) && !Follows(p, v);
    assert [p] + [q] == [p, q] && [p, q][1..] == [q] && [q][1..] == [];
    assert StableSort([], lt) == [] && Insert(q, [], lt) == [q];
    assert StableSort([q], lt) == Insert(q, StableSort([q][1..], lt), lt) == [q];
    assert Insert(p, [], lt) == [p];
    assert Insert(p, [q], lt) == [q] + Insert(p, [q][1..], lt) == [q, p];
    assert StableSort([p, q], lt) == Insert(p, StableSort([p, q][1..], lt), lt);
  }
}
