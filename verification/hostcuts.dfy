/** What positions mean in the bytes: splits land where the host name says, the allow-lists look at the
    host name itself, and overlaps are as long as the place they name. */
module HostCuts {
  import opened Base
  import opened Packets
  import opened Reassembly
  import opened Splitting
  import opened Searching
  import opened Markers
  import opened Hello
  import opened Modifiers
  import Tiling

  /** The offset a position names in a payload whose host name is `length` bytes long and starts at
      `at`: the host name's first byte, its middle, the byte behind it, the type of the server_name
      extension nine bytes before it, or an absolute offset; moved by the operation, except for an
      absolute offset. */
  ghost function Pointed(pos: Position, at: nat, length: nat): int {
    match pos.arg
    case HostStart => at + Added(pos)
    case HostMid => at + length / 2 + Added(pos)
    case HostEnd => at + length + Added(pos)
    case SniExt => at - 9 + Added(pos)
    case Other => pos.offset
  }

  ghost function Added(pos: Position): int {
    match pos.operation
    case NoOperation => 0
    case Add => pos.offset
    case Subtract => 0 - pos.offset as int
  }

  /** The markers of a host name in a ClientHello or in a request. */
  ghost predicate Located(ctx: Context, at: nat, length: nat) {
    || (ctx.proto == Tls && at >= 9 && ctx.marks == HostMarks(at, length, Some(at - 9)))
    || (ctx.proto == Http && ctx.marks == HostMarks(at, length, None))
  }

  lemma {:induction false} OperationMoves(start: nat, pos: Position)
    ensures 0 <= start + Added(pos) < 0x1_0000_0000_0000_0000 ==> DoOperation(start, pos.operation, pos.offset) == start + Added(pos)
  {
  }

  /** Splits and overlaps resolve a position to the offset it names. In a request there is no
      extension: a split there takes the position's number, an overlap throws. */
  lemma {:induction false} TargetIs(pos: Position, ctx: Context, at: nat, length: nat)
    requires Located(ctx, at, length) && 0 <= Pointed(pos, at, length) < 0x1_0000_0000_0000_0000
    ensures ctx.proto == Tls || pos.arg != SniExt ==>
      SplitTarget(pos, ctx) == Some(Pointed(pos, at, length)) && OverlapLength(pos, ctx.marks) == Done(Some(Pointed(pos, at, length)))
  {
    hide DoOperation;
    OperationMoves(at, pos);
    OperationMoves(at + length / 2, pos);
    OperationMoves(at + length, pos);
    if at >= 9 {
      OperationMoves(at - 9, pos);
    }
  }

  ghost predicate InRange(splits: seq<Position>, ctx: Context, at: nat, length: nat, size: nat) {
    forall i :: 0 <= i < |splits| ==>
      0 <= Pointed(splits[i], at, length) < size && (ctx.proto == Tls || splits[i].arg != SniExt)
  }

  /** On packets that tile a payload, splits cut exactly at the named places, and only there. */
  lemma {:induction false} SplitsHit(ps: seq<Packet>, splits: seq<Position>, ctx: Context, at: nat, length: nat,
                                     stream: seq<byte>, origin: u32)
    requires Tiling.Tiles(ps, stream, origin) && Located(ctx, at, length) && InRange(splits, ctx, at, length, |stream|)
    ensures SplitAll(ps, splits, ctx).Done?
    ensures var out := SplitAll(ps, splits, ctx).value;
      && Tiling.Tiles(out, stream, origin) && |out| == |ps| + |splits|
      && (forall i :: 0 <= i < |splits| ==> Tiling.Boundary(out, Pointed(splits[i], at, length), origin))
      && forall b :: Tiling.Boundary(ps, b, origin) ==> Tiling.Boundary(out, b, origin)
    decreases |splits|
  {
    hide Located; hide SplitTarget; hide OverlapLength; hide SplitAt; hide FindPacketByOffset; hide Pointed;
    hide Tiling.Boundary; hide Tiling.Tiles; hide Tiling.CutAt;
    if splits == [] {
    } else {
      var k, rest := Pointed(splits[0], at, length), splits[1..];
      SmallStream(ps, stream, origin);
      TargetIs(splits[0], ctx, at, length);
      Tiling.SplitRefinesCut(ps, k, stream, origin);
      var next := SplitAt(ps, FindPacketByOffset(ps, k).value);
      assert InRange(rest, ctx, at, length, |stream|);
      SplitsHit(next, rest, ctx, at, length, stream, origin);
      forall b ensures Tiling.Boundary(next, k, origin) && (Tiling.Boundary(ps, b, origin) ==> Tiling.Boundary(next, b, origin)) {
        Tiling.CutKeepsBoundary(ps, next, k, b, origin);
      }
      CutAdds(ps, next, k, origin);
      assert forall i :: 0 < i < |splits| ==> splits[i] == rest[i - 1];
    }
  }

  lemma {:induction false} SmallStream(ps: seq<Packet>, stream: seq<byte>, origin: u32)
    requires Tiling.Tiles(ps, stream, origin)
    ensures |stream| <= 0x8000_0000
  {
  }

  lemma {:induction false} CutAdds(ps: seq<Packet>, next: seq<Packet>, k: int, origin: u32)
    requires Tiling.CutAt(ps, next, k, origin)
    ensures |next| == |ps| + 1
  {
  }

  /** Captured originals that tile a payload are seen as that payload by the pipeline. */
  lemma {:induction false} SeenWhole(ps: seq<Packet>, stream: seq<byte>, origin: u32, proto: L7Proto, mss: nat, marks: Marks)
    requires Tiling.Tiles(ps, stream, origin) && stream != [] && forall i :: 0 <= i < |ps| ==> !ps[i].isFake
    requires FindMarkers(stream, proto) == Done(Some(marks))
    ensures Reassemble(OriginalSegments(ps)) == stream && RunContext(ps, proto, mss) == Context(marks, proto, mss)
  {
    hide Tiling.Tiles; hide FindMarkers; hide Reassemble;
    AllOriginal(ps);
    Tiling.TilesReassemble(ps, stream, origin);
  }

  /** A ClientHello in any segmentation: each split position lands on the place in the bytes that it
      names, counted from the host name. */
  lemma {:induction false} HelloCut(h: ClientHello, trailing: seq<byte>, ps: seq<Packet>, splits: seq<Position>, mss: nat, origin: u32)
    returns (at: nat)
    requires Valid(h) && Tiling.Tiles(ps, Record(h) + trailing, origin) && forall i :: 0 <= i < |ps| ==> !ps[i].isFake
    ensures var stream := Record(h) + trailing;
      at + |h.host| <= |stream| && stream[at..at + |h.host|] == h.host && Located(RunContext(ps, Tls, mss), at, |h.host|)
    ensures var stream, ctx := Record(h) + trailing, RunContext(ps, Tls, mss);
      InRange(splits, ctx, at, |h.host|, |stream|) ==>
        && SplitAll(ps, splits, ctx).Done? && Tiling.Tiles(SplitAll(ps, splits, ctx).value, stream, origin)
        && |SplitAll(ps, splits, ctx).value| == |ps| + |splits|
        && forall i :: 0 <= i < |splits| ==> Tiling.Boundary(SplitAll(ps, splits, ctx).value, Pointed(splits[i], at, |h.host|), origin)
  {
    hide Record; hide Valid; hide Tiling.Tiles; hide RunContext; hide InRange; hide SplitAll; hide Pointed; hide Tiling.Boundary;
    hide FindMarkersTls; hide ExtensionsAt; hide ExtensionsBytes; hide HostMarks;
    var stream, ctx := Record(h) + trailing, RunContext(ps, Tls, mss);
    var sniext := ExtensionsAt(h) + |ExtensionsBytes(h.before)|;
    at := sniext + 9;
    ClientHelloRoundTrip(h, trailing);
    SeenWhole(ps, stream, origin, Tls, mss, HostMarks(at, |h.host|, Some(sniext)));
    if InRange(splits, ctx, at, |h.host|, |stream|) {
      SplitsHit(ps, splits, ctx, at, |h.host|, stream, origin);
    }
  }

  /** The same for a request with a Host line. */
  lemma {:induction false} RequestCut(before: seq<byte>, separator: byte, host: seq<byte>, rest: seq<byte>,
                                      ps: seq<Packet>, splits: seq<Position>, mss: nat, origin: u32)
    requires separator != 13 && 13 !in host
    requires forall j :: 0 <= j < |before| ==> !MatchesAt(RequestHead(before, separator, host, rest), HOST_HEADER_NAME, Lower, j)
    requires Tiling.Tiles(ps, RequestHead(before, separator, host, rest), origin) && forall i :: 0 <= i < |ps| ==> !ps[i].isFake
    ensures Located(RunContext(ps, Http, mss), |before| + 6, |host|)
    ensures var stream, ctx, at := RequestHead(before, separator, host, rest), RunContext(ps, Http, mss), |before| + 6;
      InRange(splits, ctx, at, |host|, |stream|) ==>
        && SplitAll(ps, splits, ctx).Done? && Tiling.Tiles(SplitAll(ps, splits, ctx).value, stream, origin)
        && |SplitAll(ps, splits, ctx).value| == |ps| + |splits|
        && forall i :: 0 <= i < |splits| ==> Tiling.Boundary(SplitAll(ps, splits, ctx).value, Pointed(splits[i], at, |host|), origin)
  {
    hide Tiling.Tiles; hide RunContext; hide InRange; hide SplitAll; hide Pointed; hide Tiling.Boundary; hide RequestHead;
    hide FindMarkersHttp; hide HostMarks;
    var stream, ctx, at := RequestHead(before, separator, host, rest), RunContext(ps, Http, mss), |before| + 6;
    HostLineRoundTrip(before, separator, host, rest);
    RequestBytes(before, separator, host, rest);
    SeenWhole(ps, stream, origin, Http, mss, HostMarks(at, |host|, None));
    if InRange(splits, ctx, at, |host|, |stream|) {
      SplitsHit(ps, splits, ctx, at, |host|, stream, origin);
    }
  }

  /** The allow-lists, by the bytes: a captured ClientHello is rewritten exactly if its source address
      is on the address list and its host name on the host list, where there are such lists. */
  lemma {:induction false} HelloFiltered(h: ClientHello, trailing: seq<byte>, ps: seq<Packet>, config: Config, mss: nat, origin: u32)
    requires Valid(h) && Tiling.Tiles(ps, Record(h) + trailing, origin) && forall i :: 0 <= i < |ps| ==> !ps[i].isFake
    ensures ps != []
    ensures var listed := (config.ips.None? || ps[0].ip.saddr in config.ips.value) && (config.hosts.None? || h.host in config.hosts.value);
      Modify(config, ps, Tls, mss) == if listed then ModifyAll(config.mods, ps, RunContext(ps, Tls, mss)) else Done(ps)
  {
    hide Record; hide Valid; hide Tiling.Tiles; hide FindMarkersTls; hide ExtensionsAt; hide ExtensionsBytes; hide ModifyAll; hide Reassemble;
    hide OriginalSegments;
    var stream := Record(h) + trailing;
    var sniext := ExtensionsAt(h) + |ExtensionsBytes(h.before)|;
    ClientHelloRoundTrip(h, trailing);
    SeenWhole(ps, stream, origin, Tls, mss, HostMarks(sniext + 9, |h.host|, Some(sniext)));
    TilesSome(ps, stream, origin);
  }

  lemma {:induction false} TilesSome(ps: seq<Packet>, stream: seq<byte>, origin: u32)
    requires Tiling.Tiles(ps, stream, origin) && stream != []
    ensures ps != []
  {
    assert Tiling.Occupied(ps, 0, origin);
  }
}
