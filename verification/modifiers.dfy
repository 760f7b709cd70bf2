/** The splitter and disorder modifiers and the pipeline that runs them (src/modify). */
module Modifiers {
  import opened Base
  import opened Serial
  import opened Packets
  import opened Checksum
  import opened Reassembly
  import opened Splitting
  import opened Segmentation
  import opened Markers

  // ----- configuration -----

  /** The marker a position names; any other string means an absolute offset. */
  datatype Arg = HostStart | HostMid | HostEnd | SniExt | Other

  datatype Operation = NoOperation | Add | Subtract

  datatype Position = Position(arg: Arg, operation: Operation, offset: u64)

  datatype Args = Args(
    splits: seq<Position>, fakeBlob: Option<seq<byte>>, badcksum: bool, seqOffset: Option<int>,
    tsOffset: Option<int>, ipv4Ttl: Option<byte>, l7Payload: Option<L7Proto>, seqovlPattern: Option<seq<byte>>)

  datatype Mod =
    | Splitter(args: Args, overlap: Option<nat>)
    | Disorder(args: Args, overlapAt: Option<Position>)

  /** What a modifier reads of the connection and of the first pass over the payload. */
  datatype Context = Context(marks: Marks, proto: L7Proto, mss: nat)

  // ----- positions -----

  /** `do_operation` on `size_t`. */
  function DoOperation(start: nat, operation: Operation, offset: u64): u64 {
    match operation
    case NoOperation => Wrap64(start)
    case Add => Wrap64(start + offset)
    case Subtract => Wrap64(start - offset)
  }

  function FromMark(mark: Option<nat>, pos: Position): Option<nat> {
    match mark
    case None => None
    case Some(start) => Some(DoOperation(start, pos.operation, pos.offset))
  }

  /** The offset a split position stands for; `None` when its marker was not found. */
  function SplitTarget(pos: Position, ctx: Context): Option<nat> {
    if ctx.proto != Http && ctx.proto != Tls then Some(pos.offset)
    else
      match pos.arg
      case HostStart => FromMark(ctx.marks.hoststart, pos)
      case HostEnd => FromMark(ctx.marks.hostend, pos)
      case HostMid => FromMark(ctx.marks.hostmid, pos)
      case SniExt => if ctx.proto == Tls then FromMark(ctx.marks.sniext, pos) else Some(pos.offset)
      case Other => Some(pos.offset)
  }

  /** `split`: the HTTP and TLS branches dereference the iterator even when nothing was found. */
  function Split(ps: seq<Packet>, pos: Position, ctx: Context): Outcome<seq<Packet>> {
    match SplitTarget(pos, ctx)
    case None => Done(ps)
    case Some(target) =>
      match FindPacketByOffset(ps, target)
      case None => if ctx.proto == Http || ctx.proto == Tls then Fault else Done(ps)
      case Some(at) => Done(SplitAt(ps, at))
  }

  function SplitAll(ps: seq<Packet>, splits: seq<Position>, ctx: Context): Outcome<seq<Packet>>
    decreases |splits|
  {
    if splits == [] then Done(ps)
    else
      match Split(ps, splits[0], ctx)
      case Fault => Fault
      case Done(next) => SplitAll(next, splits[1..], ctx)
  }

  method SplitPackets(packets: PacketVector, pos: Position, ctx: Context)
    requires Split(packets.items, pos, ctx).Done?
    modifies packets
    ensures Done(packets.items) == Split(old(packets.items), pos, ctx)
  {
    var target := SplitTarget(pos, ctx);
    if target.None? {
      return;
    }
    var found := FindPacket(packets.items, target.value);
    if found.Some? {
      SplitAndInsert(packets, found.value);
    }
  }

  // ----- passes over the fakes or over the originals -----

  function Pass(ps: seq<Packet>, fakes: bool, f: Packet -> Packet): seq<Packet> {
    if ps == [] then []
    else [if ps[0].isFake == fakes then f(ps[0]) else ps[0]] + Pass(ps[1..], fakes, f)
  }

  function StampPass(ps: seq<Packet>, fakes: bool, offset: int): Outcome<seq<Packet>> {
    if ps == [] then Done([])
    else if ps[0].isFake != fakes then
      var rest :- StampPass(ps[1..], fakes, offset);
      Done([ps[0]] + rest)
    else
      var first :- Restamp(ps[0], offset);
      var rest :- StampPass(ps[1..], fakes, offset);
      Done([first] + rest)
  }

  function TtlSetter(ttl: byte): Packet -> Packet {
    (p: Packet) => SetTtl(p, ttl)
  }

  function Resequencer(offset: int): Packet -> Packet {
    (p: Packet) => Resequence(p, offset)
  }

  function Spoiler(): Packet -> Packet {
    (p: Packet) => Spoil(p)
  }

  function TtlPass(ps: seq<Packet>, fakes: bool, ttl: Option<byte>): seq<Packet> {
    match ttl
    case None => ps
    case Some(value) => Pass(ps, fakes, TtlSetter(value))
  }

  function SeqPass(ps: seq<Packet>, fakes: bool, offset: Option<int>): seq<Packet> {
    match offset
    case None => ps
    case Some(value) => Pass(ps, fakes, Resequencer(value))
  }

  function TsPass(ps: seq<Packet>, fakes: bool, offset: Option<int>): Outcome<seq<Packet>> {
    match offset
    case None => Done(ps)
    case Some(value) => StampPass(ps, fakes, value)
  }

  function BadPass(ps: seq<Packet>, fakes: bool, badcksum: bool): seq<Packet> {
    if badcksum then Pass(ps, fakes, Spoiler()) else ps
  }

  lemma {:induction false} PassAt(ps: seq<Packet>, fakes: bool, f: Packet -> Packet)
    ensures |Pass(ps, fakes, f)| == |ps|
    ensures forall i :: 0 <= i < |ps| ==> Pass(ps, fakes, f)[i] == if ps[i].isFake == fakes then f(ps[i]) else ps[i]
  {
    if ps == [] {
    } else {
      PassAt(ps[1..], fakes, f);
    }
  }

  ghost predicate Stamped(ps: seq<Packet>, to: seq<Packet>, i: nat, fakes: bool, offset: int)
    requires |to| == |ps| && i < |ps|
  {
    if ps[i].isFake == fakes then Restamp(ps[i], offset) == Done(to[i]) else to[i] == ps[i]
  }

  lemma {:induction false} StampPassAt(ps: seq<Packet>, fakes: bool, offset: int)
    requires StampPass(ps, fakes, offset).Done?
    ensures var to := StampPass(ps, fakes, offset).value;
      |to| == |ps| && forall i :: 0 <= i < |ps| ==> Stamped(ps, to, i, fakes, offset)
  {
    hide Restamp;
    if ps == [] {
    } else {
      var to, rest := StampPass(ps, fakes, offset).value, StampPass(ps[1..], fakes, offset).value;
      StampPassAt(ps[1..], fakes, offset);
      forall i | 0 < i < |ps| ensures Stamped(ps, to, i, fakes, offset) {
        assert Stamped(ps[1..], rest, i - 1, fakes, offset);
      }
    }
  }

  method Ipv4Ttl(packets: PacketVector, fakes: bool, ttl: byte)
    modifies packets
    ensures packets.items == Pass(old(packets.items), fakes, TtlSetter(ttl))
  {
    ghost var was := packets.items;
    PassAt(was, fakes, TtlSetter(ttl));
    for i := 0 to |packets.items|
      invariant |packets.items| == |was|
      invariant forall k :: 0 <= k < i ==> packets.items[k] == Pass(was, fakes, TtlSetter(ttl))[k]
      invariant forall k :: i <= k < |was| ==> packets.items[k] == was[k]
    {
      if packets.items[i].isFake == fakes {
        packets.items := packets.items[i := SetTtl(packets.items[i], ttl)];
      }
    }
  }

  method SequenceOffset(packets: PacketVector, fakes: bool, offset: int)
    modifies packets
    ensures packets.items == Pass(old(packets.items), fakes, Resequencer(offset))
  {
    ghost var was := packets.items;
    PassAt(was, fakes, Resequencer(offset));
    for i := 0 to |packets.items|
      invariant |packets.items| == |was|
      invariant forall k :: 0 <= k < i ==> packets.items[k] == Pass(was, fakes, Resequencer(offset))[k]
      invariant forall k :: i <= k < |was| ==> packets.items[k] == was[k]
    {
      if packets.items[i].isFake == fakes {
        var p := ResequenceOne(packets.items[i], offset);
        packets.items := packets.items[i := p];
      }
    }
  }

  method ResequenceOne(p: Packet, offset: int) returns (q: Packet)
    ensures q == Resequence(p, offset)
  {
    q := CalcPacketChecksum(WithSeq(p, Wrap(p.tcp.seqNo + offset)));
  }

  method BadChecksum(packets: PacketVector, fakes: bool)
    modifies packets
    ensures packets.items == Pass(old(packets.items), fakes, Spoiler())
  {
    ghost var was := packets.items;
    PassAt(was, fakes, Spoiler());
    for i := 0 to |packets.items|
      invariant |packets.items| == |was|
      invariant forall k :: 0 <= k < i ==> packets.items[k] == Pass(was, fakes, Spoiler())[k]
      invariant forall k :: i <= k < |was| ==> packets.items[k] == was[k]
    {
      if packets.items[i].isFake == fakes {
        packets.items := packets.items[i := WithCheck(packets.items[i], 0)];
      }
    }
  }

  method RestampOne(p: Packet, offset: int) returns (q: Packet)
    requires Restamp(p, offset).Done?
    ensures Restamp(p, offset) == Done(q)
  {
    var options := TimestampValOffset(p.tcp.options, offset);
    q := CalcPacketChecksum(WithOptions(p, options));
  }

  method TimestampOffset(packets: PacketVector, fakes: bool, offset: int)
    requires StampPass(packets.items, fakes, offset).Done?
    modifies packets
    ensures Done(packets.items) == StampPass(old(packets.items), fakes, offset)
  {
    hide Restamp;
    ghost var was := packets.items;
    ghost var to := StampPass(was, fakes, offset).value;
    StampPassAt(was, fakes, offset);
    for i := 0 to |packets.items|
      invariant |packets.items| == |was|
      invariant forall k :: 0 <= k < i ==> packets.items[k] == to[k]
      invariant forall k :: i <= k < |was| ==> packets.items[k] == was[k]
    {
      assert Stamped(was, to, i, fakes, offset);
      if packets.items[i].isFake == fakes {
        var p := RestampOne(packets.items[i], offset);
        packets.items := packets.items[i := p];
      }
    }
    assert packets.items == to;
  }

  // ----- sequence overlap -----

  /** The bytes put in front: zeros, or the pattern over and over, cut to length. */
  function Padding(length: nat, pattern: Option<seq<byte>>): (pad: seq<byte>)
    requires pattern != Some([])
    ensures |pad| == length
  {
    match pattern
    case None => seq(length, i => 0)
    case Some(bytes) =>
      if length == 0 then []
      else
        var n := Min(|bytes|, length);
        bytes[..n] + Padding(length - n, pattern)
  }

  lemma {:induction false} PaddingStep(pad: seq<byte>, length: nat, bytes: seq<byte>)
    requires bytes != []
    ensures pad + Padding(0, Some(bytes)) == pad
    ensures length > 0 ==>
      var n := Min(|bytes|, length); pad + bytes[..n] + Padding(length - n, Some(bytes)) == pad + Padding(length, Some(bytes))
  {
    if length > 0 {
      var n := Min(|bytes|, length);
      var rest := Padding(length - n, Some(bytes));
      assert Padding(length, Some(bytes)) == bytes[..n] + rest;
      hide Padding;
      Associative(pad, bytes[..n], rest);
    }
  }

  lemma {:induction false} Associative(a: seq<byte>, b: seq<byte>, c: seq<byte>)
    ensures a + b + c == a + (b + c)
  {
  }

  lemma {:induction false} ZeroPadding(length: nat)
    ensures Padding(length, None) == seq(length, i => 0)
  {
  }

  method FillPadding(length: nat, pattern: Option<seq<byte>>) returns (pad: seq<byte>)
    requires pattern != Some([])
    ensures pad == Padding(length, pattern)
  {
    hide Padding;
    if pattern.None? {
      ZeroPadding(length);
      return seq(length, i => 0);
    }
    pad := [];
    var whole := length;
    assert pad + Padding(whole, pattern) == Padding(length, pattern);
    while whole > 0
      invariant 0 <= whole
      invariant pad + Padding(whole, pattern) == Padding(length, pattern)
    {
      var chunkSize := if |pattern.value| < whole then |pattern.value| else whole;
      PaddingStep(pad, whole, pattern.value);
      pad := pad + pattern.value[..chunkSize];
      whole := whole - chunkSize;
    }
    PaddingStep(pad, 0, pattern.value);
  }

  /** The padding starts like the pattern and repeats with its period. */
  lemma {:induction false} PaddingRepeats(length: nat, bytes: seq<byte>, k: nat)
    requires bytes != [] && k < length
    ensures Padding(length, Some(bytes))[k] == if k < |bytes| then bytes[k] else Padding(length, Some(bytes))[k - |bytes|]
    decreases length
  {
    var n, pad := Min(|bytes|, length), Padding(length, Some(bytes));
    var rest := Padding(length - n, Some(bytes));
    assert pad == bytes[..n] + rest;
    hide Padding;
    if k < |bytes| {
    } else {
      PaddingRepeats(length - n, bytes, k - n);
      assert pad[k] == rest[k - n];
    }
  }

  /** The payload room: the connection's MSS less the option bytes, in `size_t` arithmetic.
      `tcpBase` is what the code takes for the fixed TCP header. */
  function PayloadRoom(mss: nat, p: Packet, tcpBase: nat): u64 {
    Wrap64(mss - (p.ip.Length() - 20) - (p.tcp.Length() - tcpBase))
  }

  /** The splitter writes `sizeof` of the header pointer, eight bytes, where the disorder
      modifier writes `sizeof` of the header itself. */
  const SPLITTER_TCP_BASE: nat := 8
  const DISORDER_TCP_BASE: nat := 20

  /** One packet around the longer payload, starting earlier, with the duty of the packet it replaces. */
  function Overlapped(p: Packet, payload: seq<byte>, startSeq: u32): Packet {
    var q := CreatePacketFrom(ViewOf(p), payload);
    Checksummed(WithSeq(q.(isFake := p.isFake, action := if p.action == Send then Send else DropAndSend, id := p.id), startSeq))
  }

  /** There is room for some of the longer payload, or there is no payload. */
  predicate HasRoom(p: Packet, length: nat, room: u64) {
    room > 0 || length + |p.payload| == 0
  }

  /** The packets that replace packet i: its payload behind `pad`, re-segmented when it outgrows `room`. */
  function Widened(p: Packet, pad: seq<byte>, room: u64): (r: Outcome<seq<Packet>>)
    ensures r.Done? <==> HasRoom(p, |pad|, room)
  {
    var payload, startSeq := pad + p.payload, Wrap(p.tcp.seqNo - Wrap(|pad|));
    if |payload| <= room then Done([Overlapped(p, payload, startSeq)])
    else if room == 0 then Fault
    else Done(Segmentize(payload, room, p, startSeq))
  }

  /** An empty pattern makes the fill loop run forever. */
  predicate Widenable(p: Packet, length: nat, pattern: Option<seq<byte>>, room: u64) {
    (pattern == Some([]) ==> length == 0) && HasRoom(p, length, room)
  }

  function Overlap(ps: seq<Packet>, i: nat, length: nat, pattern: Option<seq<byte>>, room: u64): (r: Outcome<seq<Packet>>)
    requires i < |ps|
    ensures r.Done? <==> Widenable(ps[i], length, pattern, room)
  {
    if pattern == Some([]) && length > 0 then Fault
    else
      match Widened(ps[i], if length == 0 then [] else Padding(length, pattern), room)
      case Fault => Fault
      case Done(mid) => Done(ps[..i] + mid + ps[i + 1..])
  }

  method OverlapPacket(packets: PacketVector, i: nat, length: nat, pattern: Option<seq<byte>>, room: u64)
    requires i < |packets.items| && Widenable(packets.items[i], length, pattern, room)
    modifies packets
    ensures Done(packets.items) == Overlap(old(packets.items), i, length, pattern, room)
  {
    var packet := packets.items[i];
    var pad: seq<byte> := [];
    if length > 0 {
      pad := FillPadding(length, pattern);
    }
    var mid := Widen(packet, pad, room);
    packets.items := packets.items[..i] + mid + packets.items[i + 1..];
  }

  method Widen(packet: Packet, pad: seq<byte>, room: u64) returns (mid: seq<Packet>)
    requires HasRoom(packet, |pad|, room)
    ensures Done(mid) == Widened(packet, pad, room)
  {
    var newPayload := pad + packet.payload;
    var startSeq := Wrap(packet.tcp.seqNo - Wrap(|pad|));
    if |newPayload| > room {
      mid := SegmentizePayload(newPayload, room, packet, startSeq);
    } else {
      var newPacket := CreatePacketFrom(ViewOf(packet), newPayload);
      newPacket := newPacket.(isFake := packet.isFake);
      if packet.action == Send {
        newPacket := newPacket.(action := Send, id := packet.id);
      } else {
        newPacket := newPacket.(action := DropAndSend, id := packet.id);
      }
      newPacket := CalcPacketChecksum(WithSeq(newPacket, startSeq));
      mid := [newPacket];
    }
  }

  /** The position of the first packet that is not a fake, or the length of the list. */
  function FirstOriginal(ps: seq<Packet>): (i: nat)
    ensures i <= |ps| && (i < |ps| ==> !ps[i].isFake)
    ensures forall j :: 0 <= j < i ==> ps[j].isFake
  {
    if ps == [] || !ps[0].isFake then 0 else 1 + FirstOriginal(ps[1..])
  }

  function SplitterOverlap(ps: seq<Packet>, length: nat, args: Args, ctx: Context): Outcome<seq<Packet>> {
    var i := FirstOriginal(ps);
    if i == |ps| then Done(ps)
    else Overlap(ps, i, length, args.seqovlPattern, PayloadRoom(ctx.mss, ps[i], SPLITTER_TCP_BASE))
  }

  /** `calculate_seqovl_off`: the sniext branch tests hostend and then throws if sniext is missing. */
  function OverlapLength(pos: Position, marks: Marks): Outcome<Option<nat>> {
    match pos.arg
    case HostStart => Done(FromMark(marks.hoststart, pos))
    case HostEnd => Done(FromMark(marks.hostend, pos))
    case HostMid => Done(FromMark(marks.hostmid, pos))
    case SniExt =>
      if marks.hostend.None? then Done(None)
      else if marks.sniext.None? then Fault
      else Done(FromMark(marks.sniext, pos))
    case Other => Done(Some(pos.offset))
  }

  /** Widens the packet after the first original, unless the overlap reaches the size of the
      packet at the very front. The iterator is dereferenced even at the end of the list. */
  function DisorderOverlap(ps: seq<Packet>, pos: Position, args: Args, ctx: Context): Outcome<seq<Packet>> {
    match OverlapLength(pos, ctx.marks)
    case Fault => Fault
    case Done(None) => Done(ps)
    case Done(Some(length)) =>
      var i := FirstOriginal(ps);
      if i == |ps| || length >= |ps[0].payload| then Done(ps)
      else if i + 1 == |ps| then Fault
      else Overlap(ps, i + 1, length, args.seqovlPattern, PayloadRoom(ctx.mss, ps[i + 1], DISORDER_TCP_BASE))
  }

  // ----- the two modifiers -----

  function MarkFake(ps: seq<Packet>): seq<Packet> {
    if ps == [] then [] else [ps[0].(isFake := true)] + MarkFake(ps[1..])
  }

  /** A decoy: the front packet's headers around the blob, sent by the program itself. */
  function FakePacket(front: Packet, blob: seq<byte>): Packet {
    Checksummed(CreatePacketFrom(ViewOf(front), blob).(action := Send, id := 0, isFake := true))
  }

  function SplitterFakes(fakes: seq<Packet>, args: Args): Outcome<seq<Packet>> {
    var timed :- TsPass(TtlPass(fakes, true, args.ipv4Ttl), true, args.tsOffset);
    Done(BadPass(SeqPass(timed, true, args.seqOffset), true, args.badcksum))
  }

  function SplitterOriginals(ps: seq<Packet>, args: Args, overlap: Option<nat>, ctx: Context): Outcome<seq<Packet>> {
    var cut :- SplitAll(ps, args.splits, ctx);
    var timed :- TsPass(TtlPass(cut, false, args.ipv4Ttl), false, args.tsOffset);
    var wide :- if overlap.None? then Done(timed) else SplitterOverlap(timed, overlap.value, args, ctx);
    Done(BadPass(SeqPass(wide, false, args.seqOffset), false, args.badcksum))
  }

  function ModifySplitter(ps: seq<Packet>, args: Args, overlap: Option<nat>, ctx: Context): Outcome<seq<Packet>> {
    match args.fakeBlob
    case None => SplitterOriginals(ps, args, overlap, ctx)
    case Some(blob) =>
      if ps == [] then Fault
      else
        var fakes :- SplitterFakes([FakePacket(ps[0], blob)], args);
        Done(MarkFake(fakes) + ps)
  }

  function DisorderFakes(fakes: seq<Packet>, args: Args): Outcome<seq<Packet>> {
    var timed :- TsPass(SeqPass(fakes, true, args.seqOffset), true, args.tsOffset);
    Done(BadPass(TtlPass(timed, true, args.ipv4Ttl), true, args.badcksum))
  }

  function DisorderOriginals(ps: seq<Packet>, args: Args, overlap: Option<Position>, ctx: Context): Outcome<seq<Packet>> {
    var cut :- SplitAll(ps, args.splits, ctx);
    var timed :- TsPass(SeqPass(cut, false, args.seqOffset), false, args.tsOffset);
    var lived := TtlPass(timed, false, args.ipv4Ttl);
    var wide :- if overlap.None? then Done(lived) else DisorderOverlap(lived, overlap.value, args, ctx);
    Done(BadPass(BadPass(wide, false, args.badcksum), false, args.badcksum))
  }

  function Reverse<T>(s: seq<T>): (r: seq<T>)
    ensures |r| == |s|
  {
    if s == [] then [] else Reverse(s[1..]) + [s[0]]
  }

  /** Fakes stay where they are; the other places take `originals` in order. */
  function Weave(ps: seq<Packet>, originals: seq<Packet>): seq<Packet>
    requires |originals| == |Originals(ps)|
  {
    if ps == [] then []
    else if ps[0].isFake then [ps[0]] + Weave(ps[1..], originals)
    else [originals[0]] + Weave(ps[1..], originals[1..])
  }

  /** `std::reverse` over the view of the originals. */
  function FilteredReverse(ps: seq<Packet>): seq<Packet> {
    Weave(ps, Reverse(Originals(ps)))
  }

  function ModifyDisorder(ps: seq<Packet>, args: Args, overlap: Option<Position>, ctx: Context): Outcome<seq<Packet>> {
    match args.fakeBlob
    case None =>
      var out :- DisorderOriginals(ps, args, overlap, ctx);
      Done(FilteredReverse(out))
    case Some(blob) =>
      if ps == [] then Fault
      else
        var fakes :- DisorderFakes([FakePacket(ps[0], blob)], args);
        Done(FilteredReverse(MarkFake(fakes) + ps))
  }

  function ModifyOne(m: Mod, ps: seq<Packet>, ctx: Context): Outcome<seq<Packet>> {
    match m
    case Splitter(args, overlap) => ModifySplitter(ps, args, overlap, ctx)
    case Disorder(args, overlapAt) => ModifyDisorder(ps, args, overlapAt, ctx)
  }

  predicate Matches(m: Mod, proto: L7Proto) {
    m.args.l7Payload.None? || m.args.l7Payload.value == proto
  }

  // ----- the pipeline -----

  datatype Config = Config(mods: seq<Mod>, hosts: Option<set<seq<byte>>>, ips: Option<set<Address>>)

  function ModifyAll(mods: seq<Mod>, ps: seq<Packet>, ctx: Context): Outcome<seq<Packet>>
    decreases |mods|
  {
    if mods == [] then Done(ps)
    else if !Matches(mods[0], ctx.proto) then ModifyAll(mods[1..], ps, ctx)
    else
      match ModifyOne(mods[0], ps, ctx)
      case Fault => Fault
      case Done(next) => ModifyAll(mods[1..], next, ctx)
  }

  /** The allow-lists; without host markers the host list lets everything through. */
  function Allowed(config: Config, ps: seq<Packet>, full: seq<byte>, marks: Marks): Outcome<bool> {
    if config.ips.Some? && ps == [] then Fault
    else if config.ips.Some? && ps[0].ip.saddr !in config.ips.value then Done(false)
    else if config.hosts.None? || marks.hoststart.None? || marks.hostend.None? then Done(true)
    else if marks.hoststart.value <= marks.hostend.value <= |full| then
      Done(full[marks.hoststart.value..marks.hostend.value] in config.hosts.value)
    else Fault
  }

  /** `Modifier::modify`: markers are looked up once, in the reassembled originals. */
  function Modify(config: Config, ps: seq<Packet>, proto: L7Proto, mss: nat): Outcome<seq<Packet>> {
    var full := Reassemble(OriginalSegments(ps));
    match FindMarkers(full, proto)
    case Fault => Fault
    case Done(None) => Done(ps)
    case Done(Some(marks)) =>
      match Allowed(config, ps, full, marks)
      case Fault => Fault
      case Done(allowed) => if allowed then ModifyAll(config.mods, ps, Context(marks, proto, mss)) else Done(ps)
  }

  // ----- which modifiers run -----

  /** A modifier runs exactly if it names no protocol or this one. */
  lemma {:induction false} RunsExactly(m: Mod, ps: seq<Packet>, ctx: Context)
    ensures ModifyAll([m], ps, ctx)
         == if m.args.l7Payload == None || m.args.l7Payload == Some(ctx.proto) then ModifyOne(m, ps, ctx) else Done(ps)
  {
    hide ModifyOne;
    assert [m][1..] == [];
    assert forall next :: ModifyAll([], next, ctx) == Done(next);
  }

  /** One list after the other. */
  lemma {:induction false} RunsInTurn(a: seq<Mod>, b: seq<Mod>, ps: seq<Packet>, ctx: Context)
    ensures ModifyAll(a + b, ps, ctx)
         == if ModifyAll(a, ps, ctx).Fault? then Fault else ModifyAll(b, ModifyAll(a, ps, ctx).value, ctx)
    decreases |a|
  {
    hide ModifyOne; hide Matches;
    if a == [] {
      assert a + b == b;
    } else {
      assert (a + b)[1..] == a[1..] + b;
      if !Matches(a[0], ctx.proto) {
        RunsInTurn(a[1..], b, ps, ctx);
      } else if ModifyOne(a[0], ps, ctx).Done? {
        RunsInTurn(a[1..], b, ModifyOne(a[0], ps, ctx).value, ctx);
      }
    }
  }

  // ----- what runs, and how far it moves the originals -----

  function Offset(args: Args): int {
    if args.seqOffset.Some? then args.seqOffset.value else 0
  }

  /** A modifier with a decoy leaves the originals alone. */
  function Displacement(m: Mod): int {
    if m.args.fakeBlob.None? then Offset(m.args) else 0
  }

  /** The sum over the modifiers that match the protocol. */
  function Moved(mods: seq<Mod>, proto: L7Proto): int {
    if mods == [] then 0
    else (if Matches(mods[0], proto) then Displacement(mods[0]) else 0) + Moved(mods[1..], proto)
  }

  /** The modifiers the pipeline runs: all of them, or none when markers are missing or an allow-list refuses. */
  function Running(config: Config, ps: seq<Packet>, proto: L7Proto): seq<Mod> {
    var full := Reassemble(OriginalSegments(ps));
    match FindMarkers(full, proto)
    case Done(Some(marks)) => if Allowed(config, ps, full, marks) == Done(true) then config.mods else []
    case _ => []
  }

  function RunContext(ps: seq<Packet>, proto: L7Proto, mss: nat): Context {
    match FindMarkers(Reassemble(OriginalSegments(ps)), proto)
    case Done(Some(marks)) => Context(marks, proto, mss)
    case _ => Context(NO_MARKS, proto, mss)
  }

  lemma {:induction false} ModifyRuns(config: Config, ps: seq<Packet>, proto: L7Proto, mss: nat)
    ensures Modify(config, ps, proto, mss).Done? ==>
      Modify(config, ps, proto, mss) == ModifyAll(Running(config, ps, proto), ps, RunContext(ps, proto, mss))
  {
    hide FindMarkers; hide Reassemble; hide Allowed; hide OriginalSegments; hide ModifyOne;
  }
}
