/** When a sequence overlap faults: no pattern to repeat, no room for a payload, no packet to widen,
    no extension to start from. */
module OverlapFaults {
  import opened Base
  import opened Packets
  import opened Segmentation
  import opened Markers
  import opened Modifiers

  /** The room is zero for one MSS only: in 64 bits a smaller one leaves room for anything. */
  lemma {:induction false} NoRoomExactly(mss: nat, p: Packet, tcpBase: nat)
    requires mss < 0x1_0000 && tcpBase <= 20
    ensures PayloadRoom(mss, p, tcpBase) == 0 <==> mss + 20 + tcpBase == p.HeaderLength()
  {
  }

  /** No pattern to repeat, or bytes to send and no room for any. */
  ghost predicate CannotWiden(p: Packet, length: nat, pattern: Option<seq<byte>>, mss: nat, tcpBase: nat) {
    || (pattern == Some([]) && length > 0)
    || (mss + 20 + tcpBase == p.HeaderLength() && length + |p.payload| > 0)
  }

  lemma {:induction false} OverlapFaultsExactly(ps: seq<Packet>, i: nat, length: nat, pattern: Option<seq<byte>>,
                                                mss: nat, tcpBase: nat)
    requires i < |ps| && mss < 0x1_0000 && tcpBase <= 20
    ensures Overlap(ps, i, length, pattern, PayloadRoom(mss, ps[i], tcpBase)).Fault?
      <==> CannotWiden(ps[i], length, pattern, mss, tcpBase)
  {
    NoRoomExactly(mss, ps[i], tcpBase);
    hide PayloadRoom; hide Segmentize; hide Overlapped;
  }

  /** The splitter's overlap, which widens the first original. Its room formula takes the size of a
      pointer for the TCP header, so an MSS of twelve more than the option bytes leaves nothing. */
  lemma {:induction false} SplitterOverlapFaultsExactly(ps: seq<Packet>, length: nat, args: Args, ctx: Context)
    requires ctx.mss < 0x1_0000
    ensures SplitterOverlap(ps, length, args, ctx).Fault?
      <==> exists i :: 0 <= i < |ps| && !ps[i].isFake && (forall j :: 0 <= j < i ==> ps[j].isFake)
             && CannotWiden(ps[i], length, args.seqovlPattern, ctx.mss, SPLITTER_TCP_BASE)
  {
    hide CannotWiden; hide Overlap; hide PayloadRoom;
    var i := FirstOriginal(ps);
    if i < |ps| {
      OverlapFaultsExactly(ps, i, length, args.seqovlPattern, ctx.mss, SPLITTER_TCP_BASE);
    }
  }

  /** Where the disorder modifier looks for a packet to widen: behind the first original, once the
      overlap is shorter than the front packet. */
  ghost predicate CannotWidenSecond(ps: seq<Packet>, i: nat, length: nat, args: Args, ctx: Context) {
    && i < |ps| && length < |ps[0].payload|
    && (i + 1 == |ps| || CannotWiden(ps[i + 1], length, args.seqovlPattern, ctx.mss, DISORDER_TCP_BASE))
  }

  lemma {:induction false} DisorderOverlapFaultsExactly(ps: seq<Packet>, pos: Position, args: Args, ctx: Context)
    requires ctx.mss < 0x1_0000
    ensures DisorderOverlap(ps, pos, args, ctx).Fault?
      <==> (OverlapLength(pos, ctx.marks).Fault?
            || exists length :: OverlapLength(pos, ctx.marks) == Done(Some(length))
                 && CannotWidenSecond(ps, FirstOriginal(ps), length, args, ctx))
  {
    hide OverlapLength; hide Overlap; hide PayloadRoom; hide CannotWiden;
    var i := FirstOriginal(ps);
    if i + 1 < |ps| {
      match OverlapLength(pos, ctx.marks) {
        case Done(Some(length)) => OverlapFaultsExactly(ps, i + 1, length, args.seqovlPattern, ctx.mss, DISORDER_TCP_BASE);
        case _ =>
      }
    }
  }

  /** The overlap position `sniext` throws on every HTTP request in which a host was found, and never otherwise. */
  lemma {:induction false} LengthFaultsExactly(pos: Position, full: seq<byte>, proto: L7Proto)
    requires FindMarkers(full, proto).Done? && FindMarkers(full, proto).value.Some?
    ensures OverlapLength(pos, FindMarkers(full, proto).value.value).Fault? <==> pos.arg == SniExt && proto == Http
  {
    hide FindMarkersTls; hide FindMarkersHttp; hide FromMark;
    if proto == Tls {
      TlsMarkersInside(full);
    } else if proto == Http {
      HttpMarkersInside(full);
    }
  }
}
