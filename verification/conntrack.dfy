/** Connection state: the TCP guess, the reassembly buffer, timeouts (src/conntrack). */
module Conntrack {
  import opened Base
  import opened Serial
  import opened Sorting
  import opened Packets
  import opened Segmentation
  import opened Markers

  // ----- the TCP state guess -----

  datatype TcpState = NoState | Syn | Estab | Fin | Closed {
    function Rank(): nat {
      match this
      case NoState => 0
      case Syn => 1
      case Estab => 2
      case Fin => 3
      case Closed => 4
    }
  }

  datatype Tcp = Tcp(state: TcpState, curSeq: u32, expectedSeq: u32, mss: nat)

  const NEW_TCP := Tcp(NoState, 0, 0, 536)

  const MSS_OPT_KIND: byte := 2
  const MSS_OPT_SIZE: byte := 4

  /** `parse_mss_opt`: `None` is "keep the old value". Its error returns say `false` where the
      type is an optional number, so they mean the number zero. */
  function ParseMss(o: Options): Outcome<Option<nat>> {
    if o == [] then Done(Some(0))
    else
      match ScanOption(o, MSS_OPT_KIND, 0)
      case Absent => Done(None)
      case Malformed => Done(Some(0))
      case Stuck => Fault
      case Found(at) =>
        if o[at + 1] != MSS_OPT_SIZE then Done(Some(0))
        else if |o| < at + 4 then Fault
        else Done(Some(ReadBe16(o, at + 2)))
  }

  /** The state changes of one packet: handshake, then FIN, then RST. */
  function Advance(t: Tcp, h: TcpHeader): Tcp {
    var greeted :=
      if t.state == NoState && h.Syn() && !h.Ack() then t.(state := Syn, expectedSeq := Wrap(h.seqNo + 1))
      else if t.state == Syn && h.Ack() && h.seqNo == t.expectedSeq then t.(state := Estab, expectedSeq := 0)
      else if t.state == NoState && h.Syn() && h.Ack() then t.(state := Estab)
      else t;
    var ending := if greeted.state == Estab && h.Fin() then greeted.(state := Fin) else greeted;
    (if h.Rst() then ending.(state := Closed) else ending).(curSeq := h.seqNo)
  }

  function TrackTcp(t: Tcp, h: TcpHeader): Outcome<Tcp> {
    var mss :- if h.Syn() then ParseMss(h.options) else Done(None);
    Done(Advance(if mss.Some? then t.(mss := mss.value) else t, h))
  }

  method ParseMssOpt(o: Options) returns (r: Option<nat>)
    requires ParseMss(o).Done?
    ensures Done(r) == ParseMss(o)
  {
    if o == [] {
      return Some(0);
    }
    var at := 0;
    while at < |o|
      invariant at <= |o|
      invariant ScanOption(o, MSS_OPT_KIND, 0) == ScanOption(o, MSS_OPT_KIND, at)
    {
      if |o| - at < 2 {
        return Some(0);
      }
      var kind := o[at];
      if kind == 1 {
        at := at + 1;
        continue;
      }
      var size := o[at + 1];
      if kind != MSS_OPT_KIND {
        if |o| - at < size {
          return Some(0);
        }
        at := at + size;
        continue;
      }
      if size != MSS_OPT_SIZE {
        return Some(0);
      }
      return Some(ReadBe16(o, at + 2));
    }
    return None;
  }

  // ----- the reassembly buffer -----

  predicate Duplicate(segs: seq<Packet>, view: PacketView) {
    exists i :: 0 <= i < |segs| && segs[i].tcp.seqNo == view.tcp.seqNo
  }

  function SerialBefore(): (Packet, Packet) -> bool {
    (a: Packet, b: Packet) => Before(a.tcp.seqNo, b.tcp.seqNo)
  }

  /** `reasm_sort`. */
  function Sorted(segs: seq<Packet>): seq<Packet> {
    StableSort(segs, SerialBefore())
  }

  /** The test of the fast path adds in 64 bits, so it does not see a wrap. */
  predicate Follows(last: Packet, view: PacketView) {
    last.tcp.seqNo as int + |last.payload| == view.tcp.seqNo
  }

  /** `reasm_insert`. */
  function Inserted(segs: seq<Packet>, view: PacketView): (r: seq<Packet>)
    ensures r != []
  {
    if segs == [] then [CreatePacket(view)]
    else if Duplicate(segs, view) then segs
    else if Follows(segs[|segs| - 1], view) then segs + [CreatePacket(view)]
    else
      SortMembers(segs + [CreatePacket(view)], SerialBefore());
      Sorted(segs + [CreatePacket(view)])
  }

  // ----- the connection -----

  datatype Conn = Conn(tcp: Tcp, segs: seq<Packet>, proto: L7Proto, done: bool, lastTime: int, bytes: u64, packets: u64)

  const NEW_CONN := Conn(NEW_TCP, [], L7Proto.Unknown, false, 0, 0, 0)

  /** `track`: state, time and counters; the buffer is not touched. */
  function Track(c: Conn, view: PacketView, now: int): Outcome<Conn> {
    var tcp :- TrackTcp(c.tcp, view.tcp);
    Done(c.(tcp := tcp, lastTime := now, bytes := Wrap64(c.bytes + |view.payload|), packets := Wrap64(c.packets + 1)))
  }

  class Connection {
    var tcp: Tcp
    var segs: seq<Packet>
    var proto: L7Proto
    var done: bool
    var lastTime: int
    var bytes: u64
    var packets: u64

    function Value(): Conn
      reads this
    {
      Conn(tcp, segs, proto, done, lastTime, bytes, packets)
    }

    constructor ()
      ensures Value() == NEW_CONN
    {
      tcp, segs, proto, done, lastTime, bytes, packets := NEW_TCP, [], L7Proto.Unknown, false, 0, 0, 0;
    }

    method TrackTransport(h: TcpHeader)
      requires TrackTcp(tcp, h).Done?
      modifies `tcp
      ensures Done(tcp) == TrackTcp(old(tcp), h)
    {
      hide ParseMss;
      if h.Syn() {
        var mss := ParseMssOpt(h.options);
        if mss.Some? {
          tcp := tcp.(mss := mss.value);
        }
      }
      tcp := tcp.(curSeq := h.seqNo);
      if tcp.state == NoState && h.Syn() && !h.Ack() {
        tcp := tcp.(state := Syn, expectedSeq := Wrap(tcp.curSeq + 1));
      } else if tcp.state == Syn && h.Ack() && h.seqNo == tcp.expectedSeq {
        tcp := tcp.(state := Estab, expectedSeq := 0);
      } else if tcp.state == NoState && h.Syn() && h.Ack() {
        tcp := tcp.(state := Estab);
      }
      if tcp.state == Estab && h.Fin() {
        tcp := tcp.(state := Fin);
      }
      if h.Rst() {
        tcp := tcp.(state := Closed);
      }
    }

    method TrackPacket(view: PacketView, now: int)
      requires Track(Value(), view, now).Done?
      modifies this
      ensures Done(Value()) == Track(old(Value()), view, now)
    {
      hide Advance; hide ParseMss;
      TrackTransport(view.tcp);
      lastTime := now;
      bytes := Wrap64(bytes + |view.payload|);
      packets := Wrap64(packets + 1);
    }

    method IsDuplicate(view: PacketView) returns (dup: bool)
      ensures dup <==> Duplicate(segs, view)
    {
      for i := 0 to |segs|
        invariant forall k :: 0 <= k < i ==> segs[k].tcp.seqNo != view.tcp.seqNo
      {
        if segs[i].tcp.seqNo == view.tcp.seqNo {
          return true;
        }
      }
      return false;
    }

    method ReasmInsert(view: PacketView)
      modifies `segs
      ensures segs == Inserted(old(segs), view)
    {
      if segs == [] {
        segs := segs + [CreatePacket(view)];
      } else {
        var dup := IsDuplicate(view);
        if !dup {
          if Follows(segs[|segs| - 1], view) {
            segs := segs + [CreatePacket(view)];
          } else {
            segs := segs + [CreatePacket(view)];
            segs := Sorted(segs);
          }
        }
      }
    }

    method ReasmReset()
      modifies `segs
      ensures segs == []
    {
      segs := [];
    }
  }

  // ----- timeouts -----

  const DEFAULT_CONNECTION_TIMEOUT_SECS := 60
  const SYN_TCP_CONNECTION_TIMEOUT_SECS := 15
  const ESTAB_TCP_CONNECTION_TIMEOUT_SECS := 6000
  const FIN_TCP_CONNECTION_TIMEOUT_SECS := 15
  const CLOSE_TCP_CONNECTION_TIMEOUT_SECS := 0

  function TimeoutFor(state: TcpState): int {
    match state
    case Syn => SYN_TCP_CONNECTION_TIMEOUT_SECS
    case Estab => ESTAB_TCP_CONNECTION_TIMEOUT_SECS
    case Fin => FIN_TCP_CONNECTION_TIMEOUT_SECS
    case Closed => CLOSE_TCP_CONNECTION_TIMEOUT_SECS
    case NoState => DEFAULT_CONNECTION_TIMEOUT_SECS
  }

  const TICKS_PER_SECOND := 1_000_000_000

  /** `duration_cast` to seconds truncates towards zero. */
  function Seconds(ticks: int): int {
    if ticks >= 0 then ticks / TICKS_PER_SECOND else -(-ticks / TICKS_PER_SECOND)
  }

  predicate Expired(c: Conn, now: int) {
    Seconds(now - c.lastTime) >= TimeoutFor(c.tcp.state)
  }

  /** Truncation in nanoseconds: a live state expires exactly when its whole timeout has passed; a closed
      connection goes with the next sweep unless the clock stepped back by a second or more. */
  lemma {:induction false} ExpiresExactly(c: Conn, now: int)
    ensures Expired(c, now)
      <==> match c.tcp.state
           case NoState => now - c.lastTime >= 60_000_000_000
           case Syn => now - c.lastTime >= 15_000_000_000
           case Estab => now - c.lastTime >= 6_000_000_000_000
           case Fin => now - c.lastTime >= 15_000_000_000
           case Closed => now - c.lastTime > -1_000_000_000
  {
    var ticks := now - c.lastTime;
    if ticks >= 0 {
      WholeSeconds(ticks, TimeoutFor(c.tcp.state));
    } else {
      WholeSeconds(-ticks, 1);
    }
  }

  lemma {:induction false} WholeSeconds(ticks: nat, timeout: nat)
    ensures ticks / TICKS_PER_SECOND >= timeout <==> ticks >= timeout * TICKS_PER_SECOND
  {
  }
}
