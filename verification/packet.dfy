/** Captured packets: IPv4 and TCP headers, payload and the verdict attached to them. */
module Packets {
  import opened Base

  /** Header options come in whole 32-bit words, at most ten of them. */
  type Options = s: seq<byte> | |s| % 4 == 0 && |s| <= 40

  /** An IPv4 address as two 16-bit words, the way headers and the pseudo header carry it. */
  datatype Address = Address(high: u16, low: u16)

  datatype IpHeader = IpHeader(
    version: n4, tos: byte, totLen: u16, ident: u16, fragment: u16, ttl: byte, protocol: byte,
    check: u16, saddr: Address, daddr: Address, options: Options)
  {
    /** `ihl * 4`. */
    function Length(): nat {
      20 + |options|
    }
  }

  datatype TcpHeader = TcpHeader(
    source: u16, dest: u16, seqNo: u32, ackNo: u32, reserved: n4, flags: byte, window: u16, check: u16,
    urgent: u16, options: Options)
  {
    /** `doff * 4`. */
    function Length(): nat {
      20 + |options|
    }

    predicate Fin() {
      flags % 2 == 1
    }

    predicate Syn() {
      flags / 2 % 2 == 1
    }

    predicate Rst() {
      flags / 4 % 2 == 1
    }

    predicate Ack() {
      flags / 16 % 2 == 1
    }
  }

  type n4 = n: int | 0 <= n < 16

  const IPPROTO_TCP: byte := 6

  datatype Action = Accept | Drop | DropAndSend | Send

  datatype Packet = Packet(ip: IpHeader, tcp: TcpHeader, payload: seq<byte>, action: Action, id: u32, isFake: bool) {
    function HeaderLength(): nat {
      ip.Length() + tcp.Length()
    }

    /** The number of bytes of the packet. */
    function Size(): nat {
      HeaderLength() + |payload|
    }
  }

  /** What the queue delivers: a parsed packet and the kernel's id for it. */
  datatype PacketView = PacketView(ip: IpHeader, tcp: TcpHeader, payload: seq<byte>, packetId: u32)

  /** The packet vector that the modifiers edit in place. */
  class PacketVector {
    var items: seq<Packet>

    constructor (items: seq<Packet>)
      ensures this.items == items
    {
      this.items := items;
    }
  }

  function ViewOf(p: Packet): PacketView {
    PacketView(p.ip, p.tcp, p.payload, p.id)
  }

  function CreatePacket(view: PacketView): Packet {
    Packet(view.ip, view.tcp, view.payload, if view.packetId != 0 then Accept else Send, view.packetId, false)
  }

  /** A copy of the headers around another payload; the length field keeps 16 bits. */
  function CreatePacketFrom(view: PacketView, payload: seq<byte>): Packet {
    var p := CreatePacket(view);
    p.(payload := payload,
       ip := p.ip.(totLen := Narrow(view.ip.Length() + view.tcp.Length() + |payload|)))
  }

  // ----- bytes on the wire -----

  function Hi(n: u16): byte {
    n / 0x100
  }

  function Lo(n: u16): byte {
    n % 0x100
  }

  /** The 16-bit word with these two bytes, most significant first. */
  function Word(hi: byte, lo: byte): u16 {
    (hi as int) * 0x100 + lo
  }

  function High(n: u32): u16 {
    n / 0x1_0000
  }

  function Low(n: u32): u16 {
    n % 0x1_0000
  }

  function Quad(high: u16, low: u16): u32 {
    (high as int) * 0x1_0000 + low
  }

  /** 16-bit words in network byte order. */
  function Bytes(words: seq<u16>): (s: seq<byte>)
    ensures |s| == 2 * |words|
  {
    if words == [] then [] else [Hi(words[0]), Lo(words[0])] + Bytes(words[1..])
  }

  function ReadBe16(s: seq<byte>, at: nat): u16
    requires at + 2 <= |s|
  {
    Word(s[at], s[at + 1])
  }

  function ReadBe32(s: seq<byte>, at: nat): u32
    requires at + 4 <= |s|
  {
    Quad(ReadBe16(s, at), ReadBe16(s, at + 2))
  }

  /** The fixed part of the IPv4 header; the first byte holds version and length, the ninth the TTL. */
  function IpWords(h: IpHeader): seq<u16> {
    [Word(h.version * 16 + h.Length() / 4, h.tos), h.totLen, h.ident, h.fragment, Word(h.ttl, h.protocol), h.check,
     h.saddr.high, h.saddr.low, h.daddr.high, h.daddr.low]
  }

  function TcpWords(h: TcpHeader): seq<u16> {
    [h.source, h.dest, High(h.seqNo), Low(h.seqNo), High(h.ackNo), Low(h.ackNo),
     Word(h.Length() / 4 * 16 + h.reserved, h.flags), h.window, h.check, h.urgent]
  }

  function IpBytes(h: IpHeader): seq<byte> {
    Bytes(IpWords(h)) + h.options
  }

  function TcpBytes(h: TcpHeader): seq<byte> {
    Bytes(TcpWords(h)) + h.options
  }

  function WireBytes(p: Packet): seq<byte> {
    IpBytes(p.ip) + TcpBytes(p.tcp) + p.payload
  }

  function ReadIpHeader(s: seq<byte>): (h: IpHeader)
    requires |s| >= 20 && 5 <= s[0] % 16 && s[0] % 16 * 4 <= |s|
  {
    IpHeader(s[0] / 16, s[1], ReadBe16(s, 2), ReadBe16(s, 4), ReadBe16(s, 6), s[8], s[9],
             ReadBe16(s, 10), Address(ReadBe16(s, 12), ReadBe16(s, 14)), Address(ReadBe16(s, 16), ReadBe16(s, 18)),
             s[20..s[0] % 16 * 4])
  }

  function ReadTcpHeader(s: seq<byte>): (h: TcpHeader)
    requires |s| >= 20 && 5 <= s[12] / 16 && s[12] / 16 * 4 <= |s|
  {
    TcpHeader(ReadBe16(s, 0), ReadBe16(s, 2), ReadBe32(s, 4), ReadBe32(s, 8), s[12] % 16, s[13],
              ReadBe16(s, 14), ReadBe16(s, 16), ReadBe16(s, 18), s[20..s[12] / 16 * 4])
  }

  /** `parse_packet_view` on captured bytes: headers are read at offsets that the bytes themselves name. */
  function ParsePacketView(s: seq<byte>, packetId: u32): Outcome<PacketView> {
    if |s| < 20 || s[0] % 16 < 5 || |s| < s[0] % 16 * 4 + 20 || s[9] != IPPROTO_TCP then Fault
    else
      var ip := ReadIpHeader(s);
      var t := s[ip.Length()..];
      if t[12] / 16 < 5 || |t| < t[12] / 16 * 4 then Fault
      else
        var tcp := ReadTcpHeader(t);
        Done(PacketView(ip, tcp, t[tcp.Length()..], packetId))
  }

  // ----- reading undoes writing -----

  lemma {:induction false} HalvesOfWord(hi: byte, lo: byte)
    ensures Hi(Word(hi, lo)) == hi && Lo(Word(hi, lo)) == lo
  {
  }

  lemma {:induction false} WordOfHalves(n: u16)
    ensures Word(Hi(n), Lo(n)) == n
  {
  }

  lemma {:induction false} HalvesOfQuad(high: u16, low: u16)
    ensures High(Quad(high, low)) == high && Low(Quad(high, low)) == low
  {
  }

  lemma {:induction false} QuadOfHalves(n: u32)
    ensures Quad(High(n), Low(n)) == n
  {
  }

  lemma {:induction false} SplitNibbles(high: n4, length: int)
    requires length % 4 == 0 && 0 <= length < 64
    ensures (high * 16 + length / 4) % 16 * 4 == length && (high * 16 + length / 4) / 16 == high
    ensures (length / 4 * 16 + high) / 16 * 4 == length && (length / 4 * 16 + high) % 16 == high
  {
  }

  lemma {:induction false} JoinNibbles(b: byte)
    ensures b / 16 * 16 + b % 16 * 4 / 4 == b && b / 16 * 4 / 4 * 16 + b % 16 == b
  {
  }

  lemma {:induction false} BytesAt(words: seq<u16>, i: nat)
    requires i < |words|
    ensures Bytes(words)[2 * i] == Hi(words[i]) && Bytes(words)[2 * i + 1] == Lo(words[i])
  {
    if i == 0 {
    } else {
      BytesAt(words[1..], i - 1);
    }
  }

  lemma {:induction false} ReadWord(words: seq<u16>, rest: seq<byte>, i: nat)
    requires i < |words|
    ensures var s := Bytes(words) + rest;
      s[2 * i] == Hi(words[i]) && s[2 * i + 1] == Lo(words[i]) && ReadBe16(s, 2 * i) == words[i]
  {
    BytesAt(words, i);
    WordOfHalves(words[i]);
  }

  /** Words read from the front of a byte string write it back. */
  lemma {:induction false} WriteRead(words: seq<u16>, s: seq<byte>)
    requires 2 * |words| <= |s|
    requires forall i :: 0 <= i < |words| ==> words[i] == ReadBe16(s, 2 * i)
    ensures Bytes(words) == s[..2 * |words|]
  {
    if words == [] {
    } else {
      assert words[0] == ReadBe16(s, 0);
      HalvesOfWord(s[0], s[1]);
      forall i | 0 <= i < |words[1..]| ensures words[1..][i] == ReadBe16(s[2..], 2 * i) {
        assert words[i + 1] == ReadBe16(s, 2 * (i + 1));
      }
      WriteRead(words[1..], s[2..]);
    }
  }

  /** Ten words at the front of a byte string, read back. */
  lemma {:induction false} ReadTenWords(w: seq<u16>, rest: seq<byte>)
    requires |w| == 10
    ensures var s := Bytes(w) + rest;
      && |s| >= 20
      && ReadBe16(s, 0) == w[0] && ReadBe16(s, 2) == w[1] && ReadBe16(s, 4) == w[2] && ReadBe16(s, 6) == w[3]
      && ReadBe16(s, 8) == w[4] && ReadBe16(s, 10) == w[5] && ReadBe16(s, 12) == w[6] && ReadBe16(s, 14) == w[7]
      && ReadBe16(s, 16) == w[8] && ReadBe16(s, 18) == w[9]
      && s[0] == Hi(w[0]) && s[1] == Lo(w[0]) && s[8] == Hi(w[4]) && s[9] == Lo(w[4])
      && s[12] == Hi(w[6]) && s[13] == Lo(w[6])
  {
    hide Bytes; hide Hi; hide Lo; hide ReadBe16;
    ReadWord(w, rest, 0); ReadWord(w, rest, 1); ReadWord(w, rest, 2); ReadWord(w, rest, 3); ReadWord(w, rest, 4);
    ReadWord(w, rest, 5); ReadWord(w, rest, 6); ReadWord(w, rest, 7); ReadWord(w, rest, 8); ReadWord(w, rest, 9);
  }

  lemma {:induction false} OptionsBehind(w: seq<u16>, options: Options, rest: seq<byte>)
    requires |w| == 10
    ensures var s := Bytes(w) + (options + rest); s[20..20 + |options|] == options
  {
    hide Bytes;
  }

  lemma {:induction false} IpHeaderRoundTrip(h: IpHeader, rest: seq<byte>)
    ensures var s := IpBytes(h) + rest; s[0] % 16 * 4 == h.Length() && ReadIpHeader(s) == h
  {
    hide Bytes; hide Hi; hide Lo; hide ReadBe16; hide Word;
    var w, s := IpWords(h), IpBytes(h) + rest;
    assert s == Bytes(w) + (h.options + rest);
    ReadTenWords(w, h.options + rest);
    OptionsBehind(w, h.options, rest);
    HalvesOfWord(h.version * 16 + h.Length() / 4, h.tos);
    HalvesOfWord(h.ttl, h.protocol);
    SplitNibbles(h.version, h.Length());
  }

  lemma {:induction false} TcpHeaderRoundTrip(h: TcpHeader, rest: seq<byte>)
    ensures var s := TcpBytes(h) + rest; s[12] / 16 * 4 == h.Length() && ReadTcpHeader(s) == h
  {
    hide Bytes; hide Hi; hide Lo; hide ReadBe16; hide Word; hide Quad; hide High; hide Low;
    var w, s := TcpWords(h), TcpBytes(h) + rest;
    assert s == Bytes(w) + (h.options + rest);
    ReadTenWords(w, h.options + rest);
    OptionsBehind(w, h.options, rest);
    HalvesOfWord(h.Length() / 4 * 16 + h.reserved, h.flags);
    SplitNibbles(h.reserved, h.Length());
    QuadOfHalves(h.seqNo);
    QuadOfHalves(h.ackNo);
  }

  /** The fields of a packet record are what the code reads back from the packet's bytes. */
  lemma {:induction false} ParseOfWire(p: Packet)
    requires p.ip.protocol == IPPROTO_TCP
    ensures |WireBytes(p)| == p.Size()
    ensures ParsePacketView(WireBytes(p), p.id) == Done(ViewOf(p))
  {
    var s := WireBytes(p);
    var rest := TcpBytes(p.tcp) + p.payload;
    assert s == IpBytes(p.ip) + rest;
    IpHeaderRoundTrip(p.ip, rest);
    assert s[p.ip.Length()..] == rest;
    TcpHeaderRoundTrip(p.tcp, p.payload);
    assert rest[p.tcp.Length()..] == p.payload;
    var w := IpWords(p.ip);
    HalvesOfWord(p.ip.ttl, p.ip.protocol);
    BytesAt(w, 4);
    assert s[9] == Bytes(w)[2 * 4 + 1];
  }

  /** The layout on the wire (section 3.1 of RFC 791, section 3.1 of RFC 9293). */
  lemma {:induction false} WireLayout(p: Packet)
    ensures var s, h := WireBytes(p), p.ip.Length();
      && |s| == h + p.tcp.Length() + |p.payload| && s[0] / 16 == p.ip.version && s[0] % 16 * 4 == h
      && ReadBe16(s, 2) == p.ip.totLen && s[8] == p.ip.ttl && s[9] == p.ip.protocol
      && p.ip.saddr == Address(ReadBe16(s, 12), ReadBe16(s, 14)) && p.ip.daddr == Address(ReadBe16(s, 16), ReadBe16(s, 18))
      && s[20..h] == p.ip.options
    ensures var s, h := WireBytes(p), p.ip.Length();
      var t := s[h..];
      && ReadBe16(t, 0) == p.tcp.source && ReadBe16(t, 2) == p.tcp.dest
      && ReadBe32(t, 4) == p.tcp.seqNo && ReadBe32(t, 8) == p.tcp.ackNo && t[12] / 16 * 4 == p.tcp.Length()
      && t[13] == p.tcp.flags && ReadBe16(t, 14) == p.tcp.window && ReadBe16(t, 16) == p.tcp.check
      && t[20..p.tcp.Length()] == p.tcp.options && t[p.tcp.Length()..] == p.payload
  {
    hide Bytes; hide IpWords; hide TcpWords; hide ReadBe16; hide ReadBe32;
    var rest := TcpBytes(p.tcp) + p.payload;
    HeaderSizes(p.ip, p.tcp);
    assert WireBytes(p) == IpBytes(p.ip) + rest && (IpBytes(p.ip) + rest)[p.ip.Length()..] == rest;
    hide IpBytes; hide TcpBytes;
    IpHeaderRoundTrip(p.ip, rest);
    TcpHeaderRoundTrip(p.tcp, p.payload);
  }

  lemma {:induction false} HeaderSizes(ip: IpHeader, tcp: TcpHeader)
    ensures |IpBytes(ip)| == ip.Length() && |TcpBytes(tcp)| == tcp.Length()
  {
    hide Bytes;
  }

  lemma {:induction false} IpHeaderBytes(s: seq<byte>)
    requires |s| >= 20 && 5 <= s[0] % 16 && s[0] % 16 * 4 <= |s|
    ensures IpBytes(ReadIpHeader(s)) == s[..s[0] % 16 * 4]
  {
    var w := IpWords(ReadIpHeader(s));
    JoinNibbles(s[0]);
    WriteRead(w, s);
  }

  lemma {:induction false} TcpHeaderBytes(s: seq<byte>)
    requires |s| >= 20 && 5 <= s[12] / 16 && s[12] / 16 * 4 <= |s|
    ensures TcpBytes(ReadTcpHeader(s)) == s[..s[12] / 16 * 4]
  {
    var w := TcpWords(ReadTcpHeader(s));
    JoinNibbles(s[12]);
    HalvesOfQuad(ReadBe16(s, 4), ReadBe16(s, 6));
    HalvesOfQuad(ReadBe16(s, 8), ReadBe16(s, 10));
    WriteRead(w, s);
  }

  /** Parsing loses nothing: the bytes of the parsed packet are the captured bytes. */
  lemma {:induction false} WireOfParse(s: seq<byte>, packetId: u32)
    requires ParsePacketView(s, packetId).Done?
    ensures WireBytes(CreatePacket(ParsePacketView(s, packetId).value)) == s
  {
    var v := ParsePacketView(s, packetId).value;
    var t := s[v.ip.Length()..];
    IpHeaderBytes(s);
    TcpHeaderBytes(t);
    Rejoin(s, v.ip.Length(), v.tcp.Length());
  }

  lemma {:induction false} Rejoin(s: seq<byte>, a: nat, b: nat)
    requires a + b <= |s|
    ensures s[..a] + s[a..][..b] + s[a..][b..] == s
  {
  }
}
