/** The connection table and the packet callback as the program runs them. */
module Engine {
  import opened Base
  import opened Packets
  import opened Classify
  import opened Modifiers
  import opened Conntrack
  import opened Ledger
  import opened Rewriter

  // ----- the table -----

  class ConnTracker {
    var conns: map<Key, Connection>

    constructor ()
      ensures Valid() && conns == map[]
    {
      conns := map[];
    }

    /** Different keys have connections of their own. */
    ghost predicate Valid()
      reads this
    {
      forall j, k :: j in conns && k in conns && j != k ==> conns[j] != conns[k]
    }

    ghost function Table(): map<Key, Conn>
      reads this, conns.Values
    {
      map k | k in conns :: conns[k].Value()
    }

    /** `get_conn`. */
    method GetConn(key: Key) returns (conn: Connection)
      requires Valid()
      modifies this
      ensures Valid() && key in conns && conns[key] == conn
      ensures Table() == old(Table())[key := ConnAt(old(Table()), key)]
      ensures conns == old(conns)[key := conn] && (conn in old(conns.Values) || fresh(conn))
    {
      if key !in conns {
        var added := new Connection();
        conns := conns[key := added];
      }
      conn := conns[key];
    }

    /** Looking the connection up and tracking the packet on it. */
    method TrackOne(packet: PacketView, now: int) returns (conn: Connection)
      requires Valid() && Track(ConnAt(Table(), KeyOf(packet)), packet, now).Done?
      modifies this, conns.Values
      ensures Valid() && KeyOf(packet) in conns && conns[KeyOf(packet)] == conn
      ensures conn in old(conns.Values) || fresh(conn)
      ensures conns == old(conns)[KeyOf(packet) := conn]
      ensures Done(conn.Value()) == Track(ConnAt(old(Table()), KeyOf(packet)), packet, now)
      ensures Table() == old(Table())[KeyOf(packet) := conn.Value()]
    {
      hide Track;
      ghost var table := Table();
      conn := GetConn(KeyOf(packet));
      assert Table()[KeyOf(packet)] == conn.Value() == ConnAt(table, KeyOf(packet));
      label Found:
      conn.TrackPacket(packet, now);
      TableAfter@Found(KeyOf(packet));
    }

    /** Changing one connection changes one entry of the table. */
    twostate lemma {:induction false} TableAfter(key: Key)
      requires old(Valid()) && conns == old(conns) && key in conns
      requires forall k :: k in conns && k != key ==> unchanged(conns[k])
      ensures Table() == old(Table())[key := conns[key].Value()]
    {
    }

    /** One turn of the sweep: an expired connection is removed and its packets accepted. */
    method SweepOne(key: Key, now: int) returns (released: seq<Emission>)
      requires Valid() && key in conns
      modifies `conns
      ensures Valid() && (conns == old(conns) || conns == old(conns) - {key})
      ensures World(Table(), released) == Sweep(World(old(Table()), []), now, [key])
    {
      var conn := conns[key];
      released := [];
      if Expired(conn.Value(), now) {
        released := ReleaseAll(conn.segs);
        conns := conns - {key};
        assert Table() == old(Table()) - {key};
      }
      hide Expired;
      assert Sweep(World(old(Table()), []), now, [key])
          == if Expired(conn.Value(), now) then World(old(Table()) - {key}, Release(conn.segs)) else World(old(Table()), []);
    }

    /** `clear_dead_connections`: the released packets, in the order in which the table was walked. */
    method ClearDeadConnections(now: int) returns (released: seq<Emission>, ghost order: seq<Key>)
      requires Valid()
      modifies `conns
      ensures Valid() && conns.Values <= old(conns.Values)
      ensures forall k :: k in old(conns) ==> k in order
      ensures World(Table(), released) == Sweep(World(old(Table()), []), now, order)
    {
      hide Sweep; hide Expired;
      released, order := [], [];
      var left := conns.Keys;
      ghost var start := World(Table(), []);
      SweepNothing(start, now);
      while left != {}
        invariant Valid() && left <= conns.Keys
        invariant forall k :: k in conns ==> k in old(conns) && conns[k] == old(conns[k])
        invariant forall k :: k in old(conns) ==> k in order || k in left
        invariant World(Table(), released) == Sweep(start, now, order)
        decreases |left|
      {
        var key :| key in left;
        left := left - {key};
        ghost var before := Table();
        var more := SweepOne(key, now);
        SweepSnoc(start, now, order, key);
        SweepAppends(World(before, []), released, now, [key]);
        assert released + [] == released;
        order := order + [key];
        released := released + more;
      }
    }
  }

  /** The verdicts for the packets of an expired connection. */
  method ReleaseAll(segs: seq<Packet>) returns (released: seq<Emission>)
    ensures released == Release(segs)
  {
    released := [];
    for i := 0 to |segs|
      invariant released + Release(segs[i..]) == Release(segs)
    {
      assert Release(segs[i..]) == [Verdict(segs[i].id, true)] + Release(segs[i + 1..]);
      released := released + [Verdict(segs[i].id, true)];
    }
  }

  lemma {:induction false} SweepNothing(w: World, now: int)
    ensures Sweep(w, now, []) == w
  {
  }

  /** The sweep only appends to the log and never reads it. */
  lemma {:induction false} SweepAppends(w: World, log: seq<Emission>, now: int, order: seq<Key>)
    ensures Sweep(World(w.conns, log + w.log), now, order)
         == World(Sweep(w, now, order).conns, log + Sweep(w, now, order).log)
    decreases order
  {
    hide Expired;
    if order == [] {
    } else {
      var k := order[0];
      if k in w.conns && Expired(w.conns[k], now) {
        var r := Release(w.conns[k].segs);
        assert log + w.log + r == log + (w.log + r);
        SweepAppends(World(w.conns - {k}, w.log + r), log, now, order[1..]);
      } else {
        SweepAppends(w, log, now, order[1..]);
      }
    }
  }

  /** One key more at the end of the walk. */
  lemma {:induction false} SweepSnoc(w: World, now: int, order: seq<Key>, key: Key)
    ensures Sweep(w, now, order + [key]) == Sweep(Sweep(w, now, order), now, [key])
    decreases order
  {
    if order == [] {
      assert order + [key] == [key];
    } else {
      assert (order + [key])[1..] == order[1..] + [key];
      if order[0] in w.conns && Expired(w.conns[order[0]], now) {
        SweepSnoc(World(w.conns - {order[0]}, w.log + Release(w.conns[order[0]].segs)), now, order[1..], key);
      } else {
        SweepSnoc(w, now, order[1..], key);
      }
    }
  }

  // ----- the callback -----

  class Profile {
    const classifier: Classifier
    const modifier: Modifier

    constructor (classifier: Classifier, modifier: Modifier)
      ensures this.classifier == classifier && this.modifier == modifier
    {
      this.classifier := classifier;
      this.modifier := modifier;
    }

    function Value(): Settings
      reads classifier
    {
      Settings(classifier.classifiers, modifier.config)
    }
  }

  method EmitPacket(p: Packet) returns (emitted: seq<Emission>)
    requires EmitOne(p).Done?
    ensures Done(emitted) == EmitOne(p)
  {
    match p.action {
      case Accept => emitted := [Verdict(p.id, true)];
      case Drop => emitted := [Verdict(p.id, false)];
      case DropAndSend =>
        emitted := [Verdict(p.id, false)];
        emitted := emitted + [Sent(p)];
      case Send => emitted := [Sent(p)];
    }
    assert emitted == EmitOne(p).value;
  }

  /** The verdict loop. */
  method EmitAll(packets: seq<Packet>) returns (emitted: seq<Emission>)
    requires Emit(packets).Done?
    ensures Done(emitted) == Emit(packets)
  {
    hide EmitOne;
    emitted := [];
    assert packets[0..] == packets && emitted + Emit(packets).value == Emit(packets).value;
    for i := 0 to |packets|
      invariant Emit(packets[i..]).Done? && Done(emitted + Emit(packets[i..]).value) == Emit(packets)
    {
      assert packets[i..][1..] == packets[i + 1..];
      var more := EmitPacket(packets[i]);
      ghost var rest := Emit(packets[i + 1..]).value;
      assert emitted + (more + rest) == emitted + more + rest;
      emitted := emitted + more;
    }
    assert packets[|packets|..] == [] && emitted + [] == emitted;
  }

  lemma {:induction false} DecideAtOnce(c: Conn, view: PacketView, settings: map<u16, Settings>)
    requires view.payload == [] || c.done
    ensures Decide(c, view, settings) == Done((c, [Verdict(view.packetId, true)]))
  {
  }

  lemma {:induction false} ArriveIs(w: World, view: PacketView, now: int, settings: map<u16, Settings>, c: Conn)
    requires Arrive(w, view, now, settings).Done? && Track(ConnAt(w.conns, KeyOf(view)), view, now) == Done(c)
    ensures Decide(c, view, settings).Done?
    ensures var (c', emitted) := Decide(c, view, settings).value;
      Arrive(w, view, now, settings) == Done(World(w.conns[KeyOf(view) := c'], w.log + emitted))
  {
    hide Decide; hide Track;
  }

  class Callback {
    const profiles: map<u16, Profile>
    const tracker: ConnTracker
    var log: seq<Emission>

    constructor (profiles: map<u16, Profile>, tracker: ConnTracker)
      ensures this.profiles == profiles && this.tracker == tracker && log == []
    {
      this.profiles, this.tracker, log := profiles, tracker, [];
    }

    ghost function State(): World
      reads this, tracker, tracker.conns.Values
    {
      World(tracker.Table(), log)
    }

    ghost function AllSettings(): map<u16, Settings>
      reads set port | port in profiles :: profiles[port].classifier
    {
      map port | port in profiles :: profiles[port].Value()
    }

    /** What happens to an undecided connection's data packet. */
    method Handle(conn: Connection, packet: PacketView)
      requires Decide(conn.Value(), packet, AllSettings()).Done? && packet.payload != [] && !conn.done
      modifies `log, conn
      ensures var decision := Decide(old(conn.Value()), packet, old(AllSettings())).value;
        conn.Value() == decision.0 && log == old(log) + decision.1
    {
      hide Modify; hide Combine; hide Emit; hide Inserted;
      var profile := profiles[packet.tcp.dest];
      conn.ReasmInsert(packet);
      var packets := conn.segs;
      var res := profile.classifier.Classify(packets);
      match res.0 {
        case Finished =>
          conn.proto := res.1.value;
          conn.ReasmReset();
          var vector := new PacketVector(packets);
          profile.modifier.ModifyPackets(vector, conn.proto, conn.tcp.mss);
          var emitted := EmitAll(vector.items);
          log := log + emitted;
          conn.done := true;
        case Reassembling =>
        case Error =>
          conn.ReasmReset();
          conn.done := true;
          var released := ReleaseAll(conn.segs);
          log := log + released;
          log := log + [Verdict(packet.packetId, true)];
      }
    }

    /** The branch on payload and done flag. */
    method Act(conn: Connection, packet: PacketView)
      requires Decide(conn.Value(), packet, AllSettings()).Done?
      modifies `log, conn
      ensures var decision := Decide(old(conn.Value()), packet, old(AllSettings())).value;
        conn.Value() == decision.0 && log == old(log) + decision.1
    {
      hide Decide;
      if packet.payload != [] && !conn.done {
        Handle(conn, packet);
      } else {
        DecideAtOnce(conn.Value(), packet, AllSettings());
        log := log + [Verdict(packet.packetId, true)];
      }
    }

    /** `cb_loop`. */
    method CbLoop(packet: PacketView, now: int)
      requires tracker.Valid() && Arrive(State(), packet, now, AllSettings()).Done?
      modifies `log, tracker, tracker.conns.Values
      ensures tracker.Valid() && fresh(tracker.conns.Values - old(tracker.conns.Values))
      ensures Done(State()) == Arrive(old(State()), packet, now, old(AllSettings()))
    {
      hide Decide; hide Track; hide ConnAt; hide ConnTracker.Table;
      ghost var table, key := old(tracker.Table()), KeyOf(packet);
      hide KeyOf;
      assert Track(ConnAt(table, key), packet, now).Done?;
      hide Arrive;
      var conn := tracker.TrackOne(packet, now);
      ghost var c, settings := conn.Value(), AllSettings();
      assert settings == old(AllSettings());
      ArriveIs(old(State()), packet, now, settings, c);
      label Tracked:
      Act(conn, packet);
      tracker.TableAfter@Tracked(key);
      assert tracker.Table() == table[key := conn.Value()];
    }

    /** The periodic sweep. */
    method RunSweep(now: int) returns (ghost order: seq<Key>)
      requires tracker.Valid()
      modifies `log, tracker
      ensures tracker.Valid() && tracker.conns.Values <= old(tracker.conns.Values)
      ensures forall k :: k in old(tracker.conns) ==> k in order
      ensures State() == Sweep(old(State()), now, order)
    {
      var released: seq<Emission>;
      released, order := tracker.ClearDeadConnections(now);
      SweepAppends(World(old(tracker.Table()), []), log, now, order);
      assert log + [] == log;
      log := log + released;
    }
  }
}
