/** The verdict ledger: the packet callback and the sweep as steps over connections and a log of
    everything sent to the kernel and to the wire (src/main.cpp, src/conntrack/conn_tracker.cpp). */
module Ledger {
  import opened Base
  import opened Packets
  import opened Reassembly
  import opened Classify
  import opened Modifiers
  import opened Conntrack

  /** TCP connections are looked up by both endpoints. */
  datatype Key = Key(saddr: Address, source: u16, daddr: Address, dest: u16)

  function KeyOf(view: PacketView): Key {
    Key(view.ip.saddr, view.tcp.source, view.ip.daddr, view.tcp.dest)
  }

  /** A profile: which classifiers to ask and which modifiers to run. */
  datatype Settings = Settings(kinds: seq<Kind>, config: Config)

  datatype Emission = Verdict(id: u32, accept: bool) | Sent(packet: Packet)

  datatype World = World(conns: map<Key, Conn>, log: seq<Emission>)

  const NEW_WORLD := World(map[], [])

  /** What one packet of the verdict loop causes; an accepted packet must have an id. */
  function EmitOne(p: Packet): Outcome<seq<Emission>> {
    match p.action
    case Accept => if p.id == 0 then Fault else Done([Verdict(p.id, true)])
    case Drop => Done([Verdict(p.id, false)])
    case DropAndSend => Done([Verdict(p.id, false), Sent(p)])
    case Send => Done([Sent(p)])
  }

  /** The verdict loop after modification. */
  function Emit(ps: seq<Packet>): Outcome<seq<Emission>> {
    if ps == [] then Done([])
    else
      var first :- EmitOne(ps[0]);
      var rest :- Emit(ps[1..]);
      Done(first + rest)
  }

  function ConnAt(conns: map<Key, Conn>, key: Key): Conn {
    if key in conns then conns[key] else NEW_CONN
  }

  /** The new state of the connection and what the callback emits, once the packet is tracked. */
  function Decide(c: Conn, view: PacketView, settings: map<u16, Settings>): Outcome<(Conn, seq<Emission>)> {
    if view.payload == [] || c.done then Done((c, [Verdict(view.packetId, true)]))
    else if view.tcp.dest !in settings then Fault
    else
      var profile, segs := settings[view.tcp.dest], Inserted(c.segs, view);
      var (verdict, proto) := Combine(profile.kinds, Payloads(segs));
      match verdict
      case Reassembling => Done((c.(segs := segs), []))
      case Error => Done((c.(segs := [], done := true), [Verdict(view.packetId, true)]))
      case Finished =>
        if proto.None? then Fault
        else
          var packets :- Modify(profile.config, segs, proto.value, c.tcp.mss);
          var emitted :- Emit(packets);
          Done((c.(proto := proto.value, segs := [], done := true), emitted))
  }

  /** `cb_loop`. */
  function Arrive(w: World, view: PacketView, now: int, settings: map<u16, Settings>): Outcome<World> {
    var c :- Track(ConnAt(w.conns, KeyOf(view)), view, now);
    var (c', emitted) :- Decide(c, view, settings);
    Done(World(w.conns[KeyOf(view) := c'], w.log + emitted))
  }

  function Release(segs: seq<Packet>): seq<Emission> {
    if segs == [] then [] else [Verdict(segs[0].id, true)] + Release(segs[1..])
  }

  /** `clear_dead_connections` with the table walked in a given order. */
  function Sweep(w: World, now: int, order: seq<Key>): World
    decreases order
  {
    if order == [] then w
    else if order[0] in w.conns && Expired(w.conns[order[0]], now) then
      Sweep(World(w.conns - {order[0]}, w.log + Release(w.conns[order[0]].segs)), now, order[1..])
    else Sweep(w, now, order[1..])
  }

  // ----- ids -----

  function Ids(segs: seq<Packet>): multiset<u32> {
    if segs == [] then multiset{} else multiset{segs[0].id} + Ids(segs[1..])
  }

  function Decided(log: seq<Emission>): multiset<u32> {
    if log == [] then multiset{}
    else (if log[0].Verdict? then multiset{log[0].id} else multiset{}) + Decided(log[1..])
  }

  ghost function Pick(keys: set<Key>): Key
    requires keys != {}
  {
    var k :| k in keys;
    k
  }

  ghost function HeldOver(conns: map<Key, Conn>, keys: set<Key>): multiset<u32>
    requires keys <= conns.Keys
  {
    if keys == {} then multiset{}
    else var k := Pick(keys); Ids(conns[k].segs) + HeldOver(conns, keys - {k})
  }

  /** The ids of all held packets, each as often as it is held. */
  ghost function Held(conns: map<Key, Conn>): multiset<u32> {
    HeldOver(conns, conns.Keys)
  }

  /** The ids that one arrival leaves neither held nor decided. A repeated sequence number is not
      held, and unless classification fails it gets no verdict; when classification fails, the
      buffer is cleared before the loop that would release it. */
  function LostFrom(c: Conn, view: PacketView, settings: map<u16, Settings>): multiset<u32> {
    if view.payload == [] || c.done || view.tcp.dest !in settings then multiset{}
    else
      var verdict := Combine(settings[view.tcp.dest].kinds, Payloads(Inserted(c.segs, view))).0;
      if verdict == Error then Ids(c.segs)
      else if Duplicate(c.segs, view) then multiset{view.packetId}
      else multiset{}
  }

  function LostBy(w: World, view: PacketView, settings: map<u16, Settings>): multiset<u32> {
    LostFrom(ConnAt(w.conns, KeyOf(view)), view, settings)
  }

  // ----- runs -----

  datatype Event = Arrival(view: PacketView, now: int) | Sweeping(now: int, order: seq<Key>)

  function Step(w: World, e: Event, settings: map<u16, Settings>): Outcome<World> {
    match e
    case Arrival(view, now) => Arrive(w, view, now, settings)
    case Sweeping(now, order) => Done(Sweep(w, now, order))
  }

  function Run(es: seq<Event>, settings: map<u16, Settings>): Outcome<World> {
    if es == [] then Done(NEW_WORLD)
    else
      match Run(es[..|es| - 1], settings)
      case Fault => Fault
      case Done(w) => Step(w, es[|es| - 1], settings)
  }

  function Arrived(es: seq<Event>): multiset<u32> {
    if es == [] then multiset{}
    else Arrived(es[..|es| - 1]) + (match es[|es| - 1] case Arrival(view, _) => multiset{view.packetId} case _ => multiset{})
  }

  function Lost(es: seq<Event>, settings: map<u16, Settings>): multiset<u32> {
    if es == [] then multiset{}
    else
      var before := Run(es[..|es| - 1], settings);
      Lost(es[..|es| - 1], settings)
      + match es[|es| - 1] case Arrival(view, _) => (if before.Done? then LostBy(before.value, view, settings) else multiset{}) case _ => multiset{}
  }
}
