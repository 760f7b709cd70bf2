/** In-order runs without retransmissions lose nothing. */
module InOrder {
  import opened Base
  import opened Serial
  import opened Packets
  import opened Reassembly
  import opened Classify
  import opened Modifiers
  import opened Conntrack
  import opened Ledger
  import opened Accounts
  import Buffers

  /** The arrival continues what its connection holds, and with it less than half a circle is held. */
  ghost predicate Continues(segs: seq<Packet>, view: PacketView) {
    && |Payloads(segs)| + |view.payload| < 0x8000_0000
    && (segs != [] && view.payload != []
        ==> view.tcp.seqNo == Wrap(segs[|segs| - 1].tcp.seqNo + |segs[|segs| - 1].payload|))
  }

  ghost predicate InSequence(w: World, e: Event) {
    e.Arrival? ==> Continues(ConnAt(w.conns, KeyOf(e.view)).segs, e.view)
  }

  ghost predicate InSequenceRun(es: seq<Event>, settings: map<u16, Settings>) {
    forall i :: 0 <= i < |es| && Run(es[..i], settings).Done? ==> InSequence(Run(es[..i], settings).value, es[i])
  }

  // ----- the buffer grows at its end -----

  ghost predicate Chain(segs: seq<Packet>) {
    Contiguous(segs) && |Payloads(segs)| < 0x8000_0000 && forall i :: 0 <= i < |segs| ==> segs[i].payload != []
  }

  lemma {:induction false} PrefixGrows(segs: seq<Packet>, i: nat, j: nat)
    requires Chain(segs) && i < j <= |segs|
    ensures |Payloads(segs[..i])| < |Payloads(segs[..j])|
  {
    PayloadSlice(segs, j - 1);
    if i == j - 1 {
    } else {
      PrefixGrows(segs, i, j - 1);
    }
  }

  lemma {:induction false} ChainAscends(segs: seq<Packet>)
    requires Chain(segs) && segs != []
    ensures Buffers.StrictlyAscending(segs, segs[0].tcp.seqNo)
  {
    var origin := segs[0].tcp.seqNo;
    forall i | 0 <= i < |segs|
      ensures Buffers.OffsetFrom(segs[i], origin) == |Payloads(segs[..i])| < 0x8000_0000
    {
      ContiguousDist(segs, i);
      PayloadSlice(segs, i);
    }
    forall i, j | 0 <= i < j < |segs| ensures Buffers.OffsetFrom(segs[i], origin) < Buffers.OffsetFrom(segs[j], origin) {
      PrefixGrows(segs, i, j);
    }
  }

  lemma {:induction false} ChainGrows(segs: seq<Packet>, view: PacketView)
    requires Chain(segs) && Continues(segs, view) && view.payload != []
    ensures Chain(segs + [CreatePacket(view)])
    ensures Payloads(segs + [CreatePacket(view)]) == Payloads(segs) + view.payload
  {
    var p := CreatePacket(view);
    PayloadsConcat(segs, [p]);
    assert Payloads([p]) == p.payload + Payloads([p][1..]) && [p][1..] == [];
  }

  /** A continuing arrival is never taken for a duplicate and ends up last, on the fast path or,
      where the sequence number wraps, through the sort. */
  lemma {:induction false} ContinuedInsert(segs: seq<Packet>, view: PacketView)
    requires Chain(segs) && Continues(segs, view) && view.payload != []
    ensures !Duplicate(segs, view) && Inserted(segs, view) == segs + [CreatePacket(view)]
  {
    hide Sorted; hide Follows; hide Wrap; hide Payloads;
    var more := segs + [CreatePacket(view)];
    ChainGrows(segs, view);
    ChainAscends(more);
    Buffers.SortIdleHere(more, more[0].tcp.seqNo);
    forall i | 0 <= i < |segs| ensures segs[i].tcp.seqNo != view.tcp.seqNo {
      assert Buffers.OffsetFrom(more[i], more[0].tcp.seqNo) < Buffers.OffsetFrom(more[|segs|], more[0].tcp.seqNo);
    }
  }

  // ----- what holds between events -----

  /** A connection that holds packets is undecided, holds them as one run of bytes, and its
      classifiers asked for more when they saw exactly these bytes. */
  ghost predicate Patient(c: Conn, dest: u16, settings: map<u16, Settings>) {
    c.segs != [] ==>
      !c.done && Chain(c.segs) && dest in settings && Combine(settings[dest].kinds, Payloads(c.segs)).0 == Reassembling
  }

  ghost predicate AllPatient(w: World, settings: map<u16, Settings>) {
    forall k :: k in w.conns ==> Patient(w.conns[k], k.dest, settings)
  }

  /** The classifiers cannot give up on a continuing arrival while something is held. */
  lemma {:induction false} NeverFailsHolding(c: Conn, view: PacketView, settings: map<u16, Settings>)
    requires Patient(c, view.tcp.dest, settings) && Continues(c.segs, view) && view.payload != [] && view.tcp.dest in settings
    ensures var segs := Inserted(c.segs, view);
      Chain(segs) && !Duplicate(c.segs, view)
      && (Combine(settings[view.tcp.dest].kinds, Payloads(segs)).0 == Error ==> c.segs == [])
  {
    hide Combine;
    if c.segs == [] {
      ChainGrows([], view);
      assert [] + [CreatePacket(view)] == [CreatePacket(view)];
    } else {
      ContinuedInsert(c.segs, view);
      ChainGrows(c.segs, view);
      CombineForward(settings[view.tcp.dest].kinds, Payloads(c.segs), view.payload);
    }
  }

  lemma {:induction false} DecidePatient(c: Conn, view: PacketView, settings: map<u16, Settings>)
    requires Decide(c, view, settings).Done? && Patient(c, view.tcp.dest, settings) && Continues(c.segs, view)
    ensures Patient(Decide(c, view, settings).value.0, view.tcp.dest, settings)
    ensures LostFrom(c, view, settings) == multiset{}
  {
    hide Combine; hide Modify; hide Emit; hide Chain; hide Continues; hide Payloads;
    if !(view.payload == [] || c.done) {
      NeverFailsHolding(c, view, settings);
      hide Inserted; hide Duplicate;
    }
  }

  lemma {:induction false} SweepPatient(w: World, now: int, order: seq<Key>, settings: map<u16, Settings>)
    requires AllPatient(w, settings)
    ensures AllPatient(Sweep(w, now, order), settings)
  {
    SweptTable(w, now, order);
  }

  lemma {:induction false} StepPatient(w: World, e: Event, settings: map<u16, Settings>)
    requires Step(w, e, settings).Done? && AllPatient(w, settings) && InSequence(w, e)
    ensures AllPatient(Step(w, e, settings).value, settings)
    ensures e.Arrival? ==> LostBy(w, e.view, settings) == multiset{}
  {
    hide Decide; hide LostFrom; hide Continues; hide TrackTcp; hide Sweep;
    match e {
      case Sweeping(now, order) => SweepPatient(w, now, order, settings);
      case Arrival(view, now) =>
        var was := ConnAt(w.conns, KeyOf(view));
        var c := Track(was, view, now).value;
        assert c.segs == was.segs && c.done == was.done && Patient(was, view.tcp.dest, settings);
        SameLoss(was, c, view, settings);
        DecidePatient(c, view, settings);
    }
  }

  lemma {:induction false} RunPatient(es: seq<Event>, settings: map<u16, Settings>)
    requires Run(es, settings).Done? && InSequenceRun(es, settings)
    ensures AllPatient(Run(es, settings).value, settings) && Lost(es, settings) == multiset{}
    decreases |es|
  {
    hide Step; hide LostBy; hide InSequence; hide AllPatient;
    if es == [] {
      NothingPending(settings);
    } else {
      var init := es[..|es| - 1];
      forall i | 0 <= i < |init| && Run(init[..i], settings).Done?
        ensures InSequence(Run(init[..i], settings).value, init[i])
      {
        assert init[..i] == es[..i];
      }
      RunPatient(init, settings);
      StepPatient(Run(init, settings).value, es[|es| - 1], settings);
    }
  }

  lemma {:induction false} NothingPending(settings: map<u16, Settings>)
    ensures AllPatient(NEW_WORLD, settings)
  {
  }

  /** In every in-order run without retransmissions nothing is held when classification fails, so
      each arrived id is either held or decided, exactly as often as it arrived; packets of expired
      connections are decided too. */
  lemma {:induction false} NothingIsLost(es: seq<Event>, settings: map<u16, Settings>)
    requires Run(es, settings).Done? && RealIds(es) && InSequenceRun(es, settings)
    ensures var w := Run(es, settings).value; Held(w.conns) + Decided(w.log) == Arrived(es)
  {
    hide Run; hide Held; hide Decided; hide Lost; hide Arrived; hide InSequenceRun; hide RealIds; hide AllPatient;
    RunPatient(es, settings);
    LedgerBalances(es, settings);
  }
}
