/** Every arrived id is held, decided or lost, exactly once, over all runs of the ledger. */
module Accounts {
  import opened Base
  import opened Sorting
  import opened Packets
  import opened Reassembly
  import opened Markers
  import opened Classify
  import opened Modifiers
  import opened Conntrack
  import opened Health
  import opened Ledger

  // ----- sums over the connection table -----

  lemma {:induction false} HeldPick(conns: map<Key, Conn>, keys: set<Key>, k: Key)
    requires keys <= conns.Keys && k in keys
    ensures HeldOver(conns, keys) == Ids(conns[k].segs) + HeldOver(conns, keys - {k})
    decreases |keys|
  {
    var j := Pick(keys);
    if j == k {
    } else {
      HeldPick(conns, keys - {j}, k);
      HeldPick(conns, keys - {k}, j);
      assert keys - {j} - {k} == keys - {k} - {j};
    }
  }

  lemma {:induction false} HeldFrame(a: map<Key, Conn>, b: map<Key, Conn>, keys: set<Key>)
    requires keys <= a.Keys && keys <= b.Keys && forall k :: k in keys ==> a[k].segs == b[k].segs
    ensures HeldOver(a, keys) == HeldOver(b, keys)
    decreases |keys|
  {
    if keys == {} {
    } else {
      HeldFrame(a, b, keys - {Pick(keys)});
    }
  }

  lemma {:induction false} HeldUpdate(conns: map<Key, Conn>, k: Key, c: Conn)
    ensures Held(conns[k := c]) + Ids(ConnAt(conns, k).segs) == Held(conns) + Ids(c.segs)
  {
    hide Ids;
    var next, others := conns[k := c], conns.Keys - {k};
    assert next.Keys - {k} == others;
    HeldPick(next, next.Keys, k);
    HeldFrame(conns, next, others);
    if k in conns {
      HeldPick(conns, conns.Keys, k);
    } else {
      assert others == conns.Keys && NEW_CONN.segs == [];
      NoIds();
    }
    hide HeldOver;
    Rotate(Ids(c.segs), HeldOver(conns, others), Ids(ConnAt(conns, k).segs));
  }

  lemma {:induction false} NoIds()
    ensures Ids([]) == multiset{}
  {
  }

  lemma {:induction false} Rotate(a: multiset<u32>, b: multiset<u32>, c: multiset<u32>)
    ensures a + b + c == c + b + a
  {
  }

  lemma {:induction false} HeldRemove(conns: map<Key, Conn>, k: Key)
    requires k in conns
    ensures Held(conns) == Ids(conns[k].segs) + Held(conns - {k})
  {
    HeldPick(conns, conns.Keys, k);
    assert (conns - {k}).Keys == conns.Keys - {k};
    HeldFrame(conns, conns - {k}, conns.Keys - {k});
  }

  // ----- ids of lists -----

  lemma {:induction false} IdsConcat(a: seq<Packet>, b: seq<Packet>)
    ensures Ids(a + b) == Ids(a) + Ids(b)
  {
    if a == [] {
      assert a + b == b;
    } else {
      assert (a + b)[1..] == a[1..] + b;
      IdsConcat(a[1..], b);
    }
  }

  lemma {:induction false} IdsInsert(x: Packet, s: seq<Packet>)
    ensures Ids(Insert(x, s, SerialBefore())) == multiset{x.id} + Ids(s)
  {
    if s != [] && SerialBefore()(s[0], x) {
      IdsInsert(x, s[1..]);
    } else {
      assert ([x] + s)[1..] == s;
    }
  }

  lemma {:induction false} IdsSorted(s: seq<Packet>)
    ensures Ids(Sorted(s)) == Ids(s)
  {
    if s == [] {
    } else {
      IdsSorted(s[1..]);
      IdsInsert(s[0], Sorted(s[1..]));
    }
  }

  /** What `Inserted` holds: one id more, unless the sequence number is already there. */
  lemma {:induction false} IdsInserted(segs: seq<Packet>, view: PacketView)
    ensures Ids(Inserted(segs, view)) == Ids(segs) + if Duplicate(segs, view) then multiset{} else multiset{view.packetId}
  {
    hide Sorted;
    var p := CreatePacket(view);
    assert Ids([p]) == multiset{view.packetId} by {
      assert [p][1..] == [];
    }
    IdsConcat(segs, [p]);
    IdsSorted(segs + [p]);
  }

  lemma {:induction false} DecidedConcat(a: seq<Emission>, b: seq<Emission>)
    ensures Decided(a + b) == Decided(a) + Decided(b)
  {
    if a == [] {
      assert a + b == b;
    } else {
      assert (a + b)[1..] == a[1..] + b;
      DecidedConcat(a[1..], b);
    }
  }

  lemma {:induction false} DecidedRelease(segs: seq<Packet>)
    ensures Decided(Release(segs)) == Ids(segs)
  {
    if segs == [] {
    } else {
      DecidedRelease(segs[1..]);
      assert Release(segs)[1..] == Release(segs[1..]);
    }
  }

  lemma {:induction false} DecidedOne(id: u32, accept: bool)
    ensures Decided([Verdict(id, accept)]) == multiset{id}
  {
    assert [Verdict(id, accept)][1..] == [];
  }

  // ----- the verdict loop -----

  lemma {:induction false} EmitDecides(ps: seq<Packet>)
    requires Emit(ps).Done?
    ensures Decided(Emit(ps).value) == Duties(ps)
  {
    if ps == [] {
    } else {
      EmitDecides(ps[1..]);
      DecidedConcat(EmitOne(ps[0]).value, Emit(ps[1..]).value);
      FirstDecides(ps[0]);
    }
  }

  lemma {:induction false} FirstDecides(p: Packet)
    ensures Decided([Verdict(p.id, true)]) == Decided([Verdict(p.id, false)]) == multiset{p.id}
    ensures Decided([Verdict(p.id, false), Sent(p)]) == multiset{p.id} && Decided([Sent(p)]) == multiset{}
  {
    var drop, send := [Verdict(p.id, false)], [Sent(p)];
    DecidedOne(p.id, true);
    DecidedOne(p.id, false);
    assert send[1..] == [];
    assert [Verdict(p.id, false), Sent(p)] == drop + send;
    DecidedConcat(drop, send);
  }

  /** Held packets wait for an accept verdict under a kernel id. */
  ghost predicate Waiting(segs: seq<Packet>) {
    forall i :: 0 <= i < |segs| ==> segs[i].action == Accept && segs[i].id != 0
  }

  lemma {:induction false} WaitingDuties(segs: seq<Packet>)
    requires Waiting(segs)
    ensures Duties(segs) == Ids(segs) && 0 !in Ids(segs)
  {
    if segs == [] {
    } else {
      WaitingDuties(segs[1..]);
    }
  }

  lemma {:induction false} WaitingInserted(segs: seq<Packet>, view: PacketView)
    requires Waiting(segs) && view.packetId != 0
    ensures Waiting(Inserted(segs, view))
  {
    var more := segs + [CreatePacket(view)];
    SortMembers(more, SerialBefore());
    assert forall p :: p in more ==> p.action == Accept && p.id != 0;
    forall i | 0 <= i < |Inserted(segs, view)|
      ensures Inserted(segs, view)[i].action == Accept && Inserted(segs, view)[i].id != 0
    {
      assert Inserted(segs, view)[i] in Inserted(segs, view);
    }
  }

  lemma {:induction false} EmitRuns(ps: seq<Packet>)
    requires 0 !in Duties(ps)
    ensures Emit(ps).Done?
  {
    if ps == [] {
    } else {
      EmitRuns(ps[1..]);
    }
  }

  /** The assertion in the verdict loop holds: whatever the modifiers did, every packet left to be
      accepted still has its kernel id. */
  lemma {:induction false} AcceptedHaveIds(config: Config, segs: seq<Packet>, proto: L7Proto, mss: nat)
    requires Waiting(segs) && Modify(config, segs, proto, mss).Done?
    ensures Emit(Modify(config, segs, proto, mss).value).Done?
    ensures Decided(Emit(Modify(config, segs, proto, mss).value).value) == Ids(segs)
  {
    hide Modify; hide Emit;
    var out := Modify(config, segs, proto, mss).value;
    DutiesConserved(config, segs, proto, mss);
    WaitingDuties(segs);
    EmitRuns(out);
    EmitDecides(out);
  }

  // ----- one step -----

  ghost predicate AllWaiting(w: World) {
    forall k :: k in w.conns ==> Waiting(w.conns[k].segs)
  }

  ghost predicate Balances(c: Conn, view: PacketView, settings: map<u16, Settings>, c': Conn, emitted: seq<Emission>) {
    && Waiting(c'.segs)
    && Ids(c'.segs) + Decided(emitted) + LostFrom(c, view, settings) == Ids(c.segs) + multiset{view.packetId}
  }

  /** What one arrival does to the connection's buffer and to the log. */
  lemma {:induction false} DecideBalances(c: Conn, view: PacketView, settings: map<u16, Settings>)
    requires Decide(c, view, settings).Done? && Waiting(c.segs) && view.packetId != 0
    ensures Balances(c, view, settings, Decide(c, view, settings).value.0, Decide(c, view, settings).value.1)
  {
    hide Modify; hide Combine; hide Emit; hide Payloads; hide Waiting; hide Ids; hide Decided; hide Inserted; hide LostFrom;
    if view.payload == [] || c.done {
      ImmediateBalances(c, view, settings);
    } else {
      var profile, segs := settings[view.tcp.dest], Inserted(c.segs, view);
      var (verdict, proto) := Combine(profile.kinds, Payloads(segs));
      WaitingInserted(c.segs, view);
      match verdict {
        case Reassembling => HoldBalances(c, view, settings);
        case Error => FailBalances(c, view, settings);
        case Finished =>
          AcceptedHaveIds(profile.config, segs, proto.value, c.tcp.mss);
          FinishBalances(c, view, settings, proto.value, Emit(Modify(profile.config, segs, proto.value, c.tcp.mss).value).value);
      }
    }
  }

  lemma {:induction false} ImmediateBalances(c: Conn, view: PacketView, settings: map<u16, Settings>)
    requires Waiting(c.segs) && (view.payload == [] || c.done)
    ensures Balances(c, view, settings, c, [Verdict(view.packetId, true)])
  {
    DecidedOne(view.packetId, true);
  }

  lemma {:induction false} HoldBalances(c: Conn, view: PacketView, settings: map<u16, Settings>)
    requires view.payload != [] && !c.done && view.tcp.dest in settings && Waiting(Inserted(c.segs, view))
    requires Combine(settings[view.tcp.dest].kinds, Payloads(Inserted(c.segs, view))).0 == Reassembling
    ensures Balances(c, view, settings, c.(segs := Inserted(c.segs, view)), [])
  {
    IdsInserted(c.segs, view);
    hide Inserted; hide Combine; hide Ids;
  }

  lemma {:induction false} FailBalances(c: Conn, view: PacketView, settings: map<u16, Settings>)
    requires view.payload != [] && !c.done && view.tcp.dest in settings
    requires Combine(settings[view.tcp.dest].kinds, Payloads(Inserted(c.segs, view))).0 == Error
    ensures Balances(c, view, settings, c.(segs := [], done := true), [Verdict(view.packetId, true)])
  {
    hide Inserted; hide Combine;
    DecidedOne(view.packetId, true);
  }

  lemma {:induction false} NothingHeld()
    ensures Waiting([]) && Ids([]) == multiset{}
  {
    NoIds();
  }

  lemma {:induction false} FinishBalances(c: Conn, view: PacketView, settings: map<u16, Settings>, proto: L7Proto, emitted: seq<Emission>)
    requires view.payload != [] && !c.done && view.tcp.dest in settings
    requires Combine(settings[view.tcp.dest].kinds, Payloads(Inserted(c.segs, view))).0 == Finished
    requires Decided(emitted) == Ids(Inserted(c.segs, view))
    ensures Balances(c, view, settings, c.(proto := proto, segs := [], done := true), emitted)
  {
    IdsInserted(c.segs, view);
    NothingHeld();
    hide Inserted; hide Combine; hide Payloads; hide Decided; hide Duplicate; hide Ids; hide Waiting;
  }

  lemma {:induction false} ArrivalBalances(w: World, view: PacketView, now: int, settings: map<u16, Settings>)
    requires Arrive(w, view, now, settings).Done? && AllWaiting(w) && view.packetId != 0
    ensures var w' := Arrive(w, view, now, settings).value;
      && AllWaiting(w')
      && Held(w'.conns) + Decided(w'.log) + LostBy(w, view, settings)
         == Held(w.conns) + Decided(w.log) + multiset{view.packetId}
  {
    hide Decide; hide Held; hide Decided; hide Ids; hide LostFrom; hide Waiting; hide TrackTcp;
    NothingHeld();
    var was := ConnAt(w.conns, KeyOf(view));
    var c := Track(was, view, now).value;
    assert c.segs == was.segs && c.done == was.done;
    var (c', emitted) := Decide(c, view, settings).value;
    DecideBalances(c, view, settings);
    SameLoss(was, c, view, settings);
    DecidedConcat(w.log, emitted);
    HeldUpdate(w.conns, KeyOf(view), c');
    Transfer(Held(w.conns[KeyOf(view) := c']), Ids(was.segs), Held(w.conns), Ids(c'.segs), Decided(w.log), Decided(emitted),
             LostBy(w, view, settings), multiset{view.packetId});
  }

  lemma {:induction false} Transfer(h': multiset<u32>, i: multiset<u32>, h: multiset<u32>, i': multiset<u32>,
                                    d: multiset<u32>, e: multiset<u32>, l: multiset<u32>, x: multiset<u32>)
    requires h' + i == h + i' && i' + e + l == i + x
    ensures h' + (d + e) + l == h + d + x
  {
    forall n ensures (h' + (d + e) + l)[n] == (h + d + x)[n] {
      assert (h' + i)[n] == (h + i')[n] && (i' + e + l)[n] == (i + x)[n];
    }
  }

  lemma {:induction false} Extend(h': multiset<u32>, d': multiset<u32>, l: multiset<u32>, h: multiset<u32>, d: multiset<u32>,
                                  x: multiset<u32>, before: multiset<u32>, arrived: multiset<u32>)
    requires h' + d' + l == h + d + x && h + d + before == arrived
    ensures h' + d' + (before + l) == arrived + x
  {
    forall n ensures (h' + d' + (before + l))[n] == (arrived + x)[n] {
      assert (h' + d' + l)[n] == (h + d + x)[n] && (h + d + before)[n] == arrived[n];
    }
  }

  lemma {:induction false} SameLoss(a: Conn, b: Conn, view: PacketView, settings: map<u16, Settings>)
    requires a.segs == b.segs && a.done == b.done
    ensures LostFrom(a, view, settings) == LostFrom(b, view, settings)
  {
  }

  lemma {:induction false} SweepBalances(w: World, now: int, order: seq<Key>)
    requires AllWaiting(w)
    ensures AllWaiting(Sweep(w, now, order))
    ensures Held(Sweep(w, now, order).conns) + Decided(Sweep(w, now, order).log) == Held(w.conns) + Decided(w.log)
    decreases order
  {
    hide Held; hide Decided; hide Ids; hide Waiting; hide Expired;
    if order == [] {
    } else {
      var k := order[0];
      if k in w.conns && Expired(w.conns[k], now) {
        var next := World(w.conns - {k}, w.log + Release(w.conns[k].segs));
        DecidedConcat(w.log, Release(w.conns[k].segs));
        DecidedRelease(w.conns[k].segs);
        HeldRemove(w.conns, k);
        SweepBalances(next, now, order[1..]);
      } else {
        SweepBalances(w, now, order[1..]);
      }
    }
  }

  // ----- runs -----

  ghost predicate RealIds(es: seq<Event>) {
    forall i :: 0 <= i < |es| && es[i].Arrival? ==> es[i].view.packetId != 0
  }

  /** The balance over all runs: each arrived id is held, decided or lost, counted with
      multiplicity. Connections that expire hand their packets over to the log. */
  lemma {:induction false} LedgerBalances(es: seq<Event>, settings: map<u16, Settings>)
    requires Run(es, settings).Done? && RealIds(es)
    ensures var w := Run(es, settings).value;
      AllWaiting(w) && Held(w.conns) + Decided(w.log) + Lost(es, settings) == Arrived(es)
    decreases |es|
  {
    hide Held; hide Decided; hide Arrive; hide Sweep; hide LostBy; hide AllWaiting;
    if es == [] {
      EmptyWorld();
    } else {
      var init, e := es[..|es| - 1], es[|es| - 1];
      LedgerBalances(init, settings);
      var w := Run(init, settings).value;
      match e {
        case Arrival(view, now) =>
          var w' := Run(es, settings).value;
          ArrivalBalances(w, view, now, settings);
          Extend(Held(w'.conns), Decided(w'.log), LostBy(w, view, settings), Held(w.conns), Decided(w.log),
                 multiset{view.packetId}, Lost(init, settings), Arrived(init));
        case Sweeping(now, order) =>
          SweepBalances(w, now, order);
      }
    }
  }

  lemma {:induction false} EmptyWorld()
    ensures AllWaiting(NEW_WORLD) && Held(NEW_WORLD.conns) == multiset{} && Decided(NEW_WORLD.log) == multiset{}
  {
  }

  /** With fresh ids no id ever gets two verdicts, no id is both held and decided, only arrived ids
      are decided, and a lost id is never decided. */
  lemma {:induction false} OneVerdictEach(es: seq<Event>, settings: map<u16, Settings>, id: u32)
    requires Run(es, settings).Done? && RealIds(es) && Arrived(es)[id] <= 1
    ensures var w := Run(es, settings).value;
      && Decided(w.log)[id] <= 1
      && !(id in Held(w.conns) && id in Decided(w.log))
      && (id in Decided(w.log) || id in Held(w.conns) || id in Lost(es, settings) <==> id in Arrived(es))
      && !(id in Lost(es, settings) && id in Decided(w.log))
  {
    hide Held; hide Decided; hide Lost; hide Run; hide Arrived;
    LedgerBalances(es, settings);
    var w := Run(es, settings).value;
    assert Held(w.conns)[id] + Decided(w.log)[id] + Lost(es, settings)[id] == Arrived(es)[id];
  }

  lemma {:induction false} SweepLogs(w: World, now: int, order: seq<Key>)
    ensures w.log <= Sweep(w, now, order).log
    decreases order
  {
    hide Expired;
    if order == [] {
    } else {
      var k := order[0];
      if k in w.conns && Expired(w.conns[k], now) {
        SweepLogs(World(w.conns - {k}, w.log + Release(w.conns[k].segs)), now, order[1..]);
      } else {
        SweepLogs(w, now, order[1..]);
      }
    }
  }

  /** What is logged stays logged, so what one prefix of a run decided is decided for good. */
  lemma {:induction false} LogGrows(es: seq<Event>, more: seq<Event>, settings: map<u16, Settings>)
    requires Run(es + more, settings).Done?
    ensures Run(es, settings).Done?
    ensures Run(es, settings).value.log <= Run(es + more, settings).value.log
    decreases |more|
  {
    hide Sweep; hide Decide; hide Track;
    if more == [] {
      assert es + more == es;
    } else {
      var init, e := more[..|more| - 1], more[|more| - 1];
      assert (es + more)[..|es + more| - 1] == es + init;
      assert (es + more)[|es + more| - 1] == e;
      LogGrows(es, init, settings);
      if e.Sweeping? {
        SweepLogs(Run(es + init, settings).value, e.now, e.order);
      }
    }
  }

  // ----- the sweep -----

  lemma {:induction false} SweptTable(w: World, now: int, order: seq<Key>)
    ensures var out := Sweep(w, now, order).conns;
      && (forall k :: k in out <==> k in w.conns && !(k in order && Expired(w.conns[k], now)))
      && forall k :: k in out ==> out[k] == w.conns[k]
    decreases order
  {
    hide Expired;
    if order == [] {
    } else {
      var k := order[0];
      if k in w.conns && Expired(w.conns[k], now) {
        SweptTable(World(w.conns - {k}, w.log + Release(w.conns[k].segs)), now, order[1..]);
      } else {
        SweptTable(w, now, order[1..]);
      }
      assert order == [k] + order[1..];
    }
  }

  function Live(conns: map<Key, Conn>, now: int): map<Key, Conn> {
    map k | k in conns && !Expired(conns[k], now) :: conns[k]
  }

  /** Walking the whole table in any order removes exactly the expired connections and accepts
      exactly the packets they held. */
  lemma {:induction false} SweepExactly(w: World, now: int, order: seq<Key>)
    requires AllWaiting(w) && forall k :: k in w.conns ==> k in order
    ensures Sweep(w, now, order).conns == Live(w.conns, now)
    ensures Held(Live(w.conns, now)) + Decided(Sweep(w, now, order).log) == Held(w.conns) + Decided(w.log)
  {
    hide Expired; hide Held; hide Decided;
    SweptTable(w, now, order);
    SweepBalances(w, now, order);
  }

  // ----- a connection is handled once -----

  /** What one decision does: data on an undecided connection decides it unless the classifiers wait,
      and then it is held; the done flag is final, nothing is held behind it, and only the decision
      that sets it puts packets on the wire. */
  ghost predicate Settles(c: Conn, view: PacketView, settings: map<u16, Settings>, c': Conn, emitted: seq<Emission>) {
    && (c.done || view.payload == [] ==> c'.done == c.done && c'.segs == c.segs && c'.proto == c.proto)
    && (!c.done && view.payload != [] && view.tcp.dest in settings ==>
          var (verdict, proto) := Combine(settings[view.tcp.dest].kinds, Payloads(Inserted(c.segs, view)));
          && (c'.done <==> verdict != Reassembling)
          && c'.segs == (if verdict == Reassembling then Inserted(c.segs, view) else [])
          && (if verdict == Finished then proto == Some(c'.proto) else c'.proto == c.proto))
    && ((exists i :: 0 <= i < |emitted| && emitted[i].Sent?) ==> !c.done && c'.done)
  }

  lemma {:induction false} DecideSettles(c: Conn, view: PacketView, settings: map<u16, Settings>)
    requires Decide(c, view, settings).Done?
    ensures Settles(c, view, settings, Decide(c, view, settings).value.0, Decide(c, view, settings).value.1)
  {
    hide Combine; hide Modify; hide Emit; hide Inserted; hide Payloads;
  }

  /** Packets are sent only by the arrival that decides a connection; a decided connection stays so,
      keeps its protocol and holds nothing new; the others do not change. */
  lemma {:induction false} ArrivalSettles(w: World, view: PacketView, now: int, settings: map<u16, Settings>)
    requires Arrive(w, view, now, settings).Done?
    ensures var w' := Arrive(w, view, now, settings).value;
      && KeyOf(view) in w'.conns && w.log <= w'.log
      && Settles(ConnAt(w.conns, KeyOf(view)), view, settings, w'.conns[KeyOf(view)], w'.log[|w.log|..])
      && forall k :: k in w.conns && k != KeyOf(view) ==> k in w'.conns && w'.conns[k] == w.conns[k]
  {
    hide Decide; hide TrackTcp; hide Settles;
    var was := ConnAt(w.conns, KeyOf(view));
    var c := Track(was, view, now).value;
    var (c', emitted) := Decide(c, view, settings).value;
    DecideSettles(c, view, settings);
    assert (w.log + emitted)[|w.log|..] == emitted;
    SameSettling(was, c, view, settings, c', emitted);
  }

  lemma {:induction false} SameSettling(a: Conn, b: Conn, view: PacketView, settings: map<u16, Settings>, c: Conn, emitted: seq<Emission>)
    requires Settles(b, view, settings, c, emitted) && a.segs == b.segs && a.done == b.done && a.proto == b.proto
    ensures Settles(a, view, settings, c, emitted)
  {
  }

  /** What the arrival that completes a request puts out: the held packets and the new one through the
      pipeline of the profile for its destination port, for the protocol found and with the MSS that
      the connection has after this packet. */
  lemma {:induction false} CompletionPutsOut(w: World, view: PacketView, now: int, settings: map<u16, Settings>)
    requires Arrive(w, view, now, settings).Done? && view.payload != [] && view.tcp.dest in settings
    requires !ConnAt(w.conns, KeyOf(view)).done
    requires Combine(settings[view.tcp.dest].kinds, Payloads(Inserted(ConnAt(w.conns, KeyOf(view)).segs, view))).0 == Finished
    ensures var w' := Arrive(w, view, now, settings).value;
      var c' := ConnAt(w'.conns, KeyOf(view));
      var out := Modify(settings[view.tcp.dest].config, Inserted(ConnAt(w.conns, KeyOf(view)).segs, view), c'.proto, c'.tcp.mss);
      out.Done? && Emit(out.value).Done? && w'.log == w.log + Emit(out.value).value
  {
    hide Combine; hide Modify; hide Emit; hide Inserted; hide Payloads; hide TrackTcp;
    var c := Track(ConnAt(w.conns, KeyOf(view)), view, now).value;
    assert Decide(c, view, settings).value.0.tcp == c.tcp;
  }

  // ----- connections do not mix -----

  /** Two packets meet in one connection exactly if both endpoints are the same, addresses and ports. */
  lemma {:induction false} KeysExactly(a: PacketView, b: PacketView)
    ensures KeyOf(a) == KeyOf(b)
      <==> a.ip.saddr == b.ip.saddr && a.tcp.source == b.tcp.source && a.ip.daddr == b.ip.daddr && a.tcp.dest == b.tcp.dest
  {
  }

  ghost predicate Elsewhere(e: Event, v: PacketView) {
    e.Arrival? && (e.view.ip.saddr != v.ip.saddr || e.view.tcp.source != v.tcp.source
                   || e.view.ip.daddr != v.ip.daddr || e.view.tcp.dest != v.tcp.dest)
  }

  /** Arrivals that differ in an address or a port leave a connection alone, its state and its buffer,
      however many there are. */
  lemma {:induction false} OthersUntouched(es: seq<Event>, more: seq<Event>, settings: map<u16, Settings>, v: PacketView)
    requires Run(es + more, settings).Done? && forall i :: 0 <= i < |more| ==> Elsewhere(more[i], v)
    ensures Run(es, settings).Done?
    ensures ConnAt(Run(es + more, settings).value.conns, KeyOf(v)) == ConnAt(Run(es, settings).value.conns, KeyOf(v))
    decreases |more|
  {
    hide Arrive; hide Run; hide ConnAt;
    if more == [] {
      assert es + more == es;
    } else {
      var n := |more| - 1;
      var init, e := more[..n], more[n];
      assert es + more == es + init + [e];
      RunSnoc(es + init, e, settings);
      OthersUntouched(es, init, settings, v);
      KeysExactly(e.view, v);
      hide KeyOf;
      ArrivalElsewhere(Run(es + init, settings).value, e.view, e.now, settings, KeyOf(v));
    }
  }

  lemma {:induction false} ArrivalElsewhere(w: World, view: PacketView, now: int, settings: map<u16, Settings>, key: Key)
    requires Arrive(w, view, now, settings).Done? && KeyOf(view) != key
    ensures ConnAt(Arrive(w, view, now, settings).value.conns, key) == ConnAt(w.conns, key)
  {
    hide Decide; hide Track;
  }

  /** When the last packet of a connection came. */
  ghost function LastArrival(es: seq<Event>, key: Key): Option<int> {
    if es == [] then None
    else
      match es[|es| - 1]
      case Arrival(view, now) => if KeyOf(view) == key then Some(now) else LastArrival(es[..|es| - 1], key)
      case _ => LastArrival(es[..|es| - 1], key)
  }

  /** The clock of the sweep: a connection in the table is as old as its last packet, whatever came
      for others and however often the table was swept. */
  lemma {:induction false} LastSeen(es: seq<Event>, settings: map<u16, Settings>, key: Key)
    requires Run(es, settings).Done? && key in Run(es, settings).value.conns
    ensures LastArrival(es, key) == Some(Run(es, settings).value.conns[key].lastTime)
    decreases |es|
  {
    hide Step; hide KeyOf;
    if es == [] {
    } else {
      var init, e := es[..|es| - 1], es[|es| - 1];
      TimeKept(Run(init, settings).value, e, settings, key);
      if key in Run(init, settings).value.conns {
        LastSeen(init, settings, key);
      }
    }
  }

  lemma {:induction false} TimeKept(w: World, e: Event, settings: map<u16, Settings>, key: Key)
    requires Step(w, e, settings).Done? && key in Step(w, e, settings).value.conns
    ensures var time := Step(w, e, settings).value.conns[key].lastTime;
      if e.Arrival? && KeyOf(e.view) == key then time == e.now else key in w.conns && time == w.conns[key].lastTime
  {
    hide Combine; hide Modify; hide Emit; hide Inserted; hide Payloads; hide TrackTcp; hide KeyOf;
    match e {
      case Arrival(view, now) =>
        var c := Track(ConnAt(w.conns, KeyOf(view)), view, now).value;
        assert Decide(c, view, settings).value.0.lastTime == now;
      case Sweeping(now, order) => SweptTable(w, now, order);
    }
  }

  ghost predicate Settled(w: World) {
    forall k :: k in w.conns && w.conns[k].done ==> w.conns[k].segs == []
  }

  /** Over all runs a decided connection holds nothing. */
  lemma {:induction false} DoneHoldsNothing(es: seq<Event>, settings: map<u16, Settings>)
    requires Run(es, settings).Done?
    ensures Settled(Run(es, settings).value)
    decreases |es|
  {
    hide Arrive; hide Sweep;
    if es == [] {
    } else {
      var init, e := es[..|es| - 1], es[|es| - 1];
      DoneHoldsNothing(init, settings);
      var w := Run(init, settings).value;
      match e {
        case Arrival(view, now) => ArrivalSettled(w, view, now, settings);
        case Sweeping(now, order) => SweptTable(w, now, order);
      }
    }
  }

  lemma {:induction false} ArrivalSettled(w: World, view: PacketView, now: int, settings: map<u16, Settings>)
    requires Arrive(w, view, now, settings).Done? && Settled(w)
    ensures Settled(Arrive(w, view, now, settings).value)
  {
    ArrivalSettles(w, view, now, settings);
    var w' := Arrive(w, view, now, settings).value;
    forall k | k in w'.conns && w'.conns[k].done ensures w'.conns[k].segs == [] {
      TableOf(w, view, now, settings, k);
    }
  }

  lemma {:induction false} TableOf(w: World, view: PacketView, now: int, settings: map<u16, Settings>, k: Key)
    requires Arrive(w, view, now, settings).Done?
    ensures k in Arrive(w, view, now, settings).value.conns <==> k in w.conns || k == KeyOf(view)
  {
    hide Decide; hide Track;
  }

  /** The connection stays in the table through all of `more`. */
  ghost predicate Stays(es: seq<Event>, more: seq<Event>, settings: map<u16, Settings>, key: Key) {
    forall i :: 0 <= i <= |more| ==>
      Run(es + more[..i], settings).Done? && key in Run(es + more[..i], settings).value.conns
  }

  /** The i-th event of `more` is no packet of this connection, or is accepted at once. */
  ghost predicate AcceptedAtOnce(es: seq<Event>, more: seq<Event>, i: nat, settings: map<u16, Settings>, key: Key)
    requires i < |more| && Run(es + more[..i], settings).Done? && Run(es + more[..i + 1], settings).Done?
  {
    more[i].Arrival? && KeyOf(more[i].view) == key ==>
      Run(es + more[..i + 1], settings).value.log == Run(es + more[..i], settings).value.log + [Verdict(more[i].view.packetId, true)]
  }

  lemma {:induction false} RunSnoc(es: seq<Event>, e: Event, settings: map<u16, Settings>)
    requires Run(es + [e], settings).Done?
    ensures Run(es, settings).Done? && Run(es + [e], settings) == Step(Run(es, settings).value, e, settings)
  {
    assert (es + [e])[..|es|] == es;
  }

  lemma {:induction false} StepKeepsDone(w: World, e: Event, settings: map<u16, Settings>, key: Key)
    requires Step(w, e, settings).Done? && key in w.conns && w.conns[key].done && key in Step(w, e, settings).value.conns
    ensures Step(w, e, settings).value.conns[key].done
    ensures e.Arrival? && KeyOf(e.view) == key ==>
      Step(w, e, settings).value.log == w.log + [Verdict(e.view.packetId, true)]
  {
    match e {
      case Arrival(view, now) =>
        hide Settles; hide TrackTcp; hide Combine; hide Modify; hide Emit; hide Inserted; hide Payloads;
        ArrivalSettles(w, view, now, settings);
        if KeyOf(view) == key {
          DoneIsSettled(w.conns[key], view, settings, Step(w, e, settings).value.conns[key], Step(w, e, settings).value.log[|w.log|..]);
        }
      case Sweeping(now, order) => SweptTable(w, now, order);
    }
  }

  lemma {:induction false} DoneIsSettled(c: Conn, view: PacketView, settings: map<u16, Settings>, c': Conn, emitted: seq<Emission>)
    requires Settles(c, view, settings, c', emitted) && c.done
    ensures c'.done
  {
  }

  /** Along a run a connection is rewritten at most once before it expires: once decided, as long as
      it stays in the table, it stays decided and each of its packets is accepted at once. */
  lemma {:induction false} HandledOnce(es: seq<Event>, more: seq<Event>, settings: map<u16, Settings>, key: Key)
    requires Stays(es, more, settings, key)
    requires Run(es + more[..0], settings).value.conns[key].done
    ensures Run(es + more[..|more|], settings).value.conns[key].done
    ensures forall i :: 0 <= i < |more| ==> AcceptedAtOnce(es, more, i, settings, key)
    decreases |more|
  {
    hide Step; hide Run;
    if more == [] {
    } else {
      var n := |more| - 1;
      var init := more[..n];
      forall i | 0 <= i <= n ensures init[..i] == more[..i] {
      }
      HandledOnce(es, init, settings, key);
      assert es + more[..n + 1] == es + more[..n] + [more[n]];
      RunSnoc(es + more[..n], more[n], settings);
      StepKeepsDone(Run(es + more[..n], settings).value, more[n], settings, key);
      forall i | 0 <= i < |more| ensures AcceptedAtOnce(es, more, i, settings, key) {
        if i < n {
          assert AcceptedAtOnce(es, init, i, settings, key);
          assert init[..i] == more[..i] && init[..i + 1] == more[..i + 1];
        }
      }
    }
  }
}
