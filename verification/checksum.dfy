/** The Internet checksum of a TCP segment (section 2 of RFC 1071, section 3.1 of RFC 9293). */
module Checksum {
  import opened Base
  import opened Serial
  import opened Packets

  /** Sum of the big-endian 16-bit words; an odd last byte is padded with zero on the right. */
  function WordSum(s: seq<byte>): nat {
    if s == [] then 0
    else if |s| == 1 then Word(s[0], 0)
    else Word(s[0], s[1]) + WordSum(s[2..])
  }

  /** `while (sum >> 16) sum = (sum & 0xFFFF) + (sum >> 16)`. */
  function Fold(sum: nat): u16 {
    if sum < 0x1_0000 then sum else Fold(sum % 0x1_0000 + sum / 0x1_0000)
  }

  /** Addresses, a zero byte, the protocol number and the segment length in 16 bits. */
  function PseudoHeaderOf(p: Packet): seq<byte> {
    Bytes([p.ip.saddr.high, p.ip.saddr.low, p.ip.daddr.high, p.ip.daddr.low, Word(0, IPPROTO_TCP),
           Narrow(p.tcp.Length() + |p.payload|)])
  }

  /** The sum over pseudo header, TCP header and payload as one byte string. */
  function SegmentSum(p: Packet): nat {
    WordSum(PseudoHeaderOf(p) + TcpBytes(p.tcp) + p.payload)
  }

  /** What an accumulator of 32 bits keeps of a sum. */
  function Accumulated(sum: nat): u32 {
    if sum < 0x1_0000_0000 then sum else Accumulated(sum - 0x1_0000_0000)
  }

  /** The value `calc_tcp_checksum` returns. */
  function TcpChecksum(p: Packet): u16 {
    0xFFFF - Fold(Accumulated(SegmentSum(p)))
  }

  function WithCheck(p: Packet, check: u16): Packet {
    p.(tcp := p.tcp.(check := check))
  }

  /** `calc_packet_checksum`: the field is zeroed, then filled. */
  function Checksummed(p: Packet): Packet {
    WithCheck(p, TcpChecksum(WithCheck(p, 0)))
  }

  /** What a receiver adds up over the bytes of an IPv4 packet: both addresses, the protocol number
      of TCP, the length of the segment, and the segment with its stored checksum (section 3.1 of
      RFC 9293). */
  function ReceiverSum(s: seq<byte>): nat
    requires |s| >= 20 && s[0] % 16 * 4 <= |s|
  {
    var h := s[0] % 16 * 4;
    WordSum(s[12..20]) + 6 + (|s| - h) + WordSum(s[h..])
  }

  /** A receiver's test on the bytes: the sum folds to all ones. */
  predicate Verifies(s: seq<byte>) {
    |s| >= 20 && s[0] % 16 * 4 <= |s| && Fold(ReceiverSum(s)) == 0xFFFF
  }

  // ----- folding -----

  /** Folding is the residue modulo 0xFFFF, with 0xFFFF instead of 0 for positive sums. */
  lemma {:induction false} FoldIsResidue(sum: nat)
    ensures Fold(sum) == if sum == 0 then 0 else (sum - 1) % 0xFFFF + 1
    decreases sum
  {
    if sum < 0x1_0000 {
    } else {
      var next := sum % 0x1_0000 + sum / 0x1_0000;
      assert sum - 1 == (next - 1) + 0xFFFF * (sum / 0x1_0000);
      SameResidue(next - 1, sum / 0x1_0000);
      FoldIsResidue(next);
    }
  }

  lemma {:induction false} SameResidue(n: nat, k: nat)
    ensures (n + 0xFFFF * k) % 0xFFFF == n % 0xFFFF
  {
  }

  // ----- sums -----

  lemma {:induction false} WordSumConcat(a: seq<byte>, b: seq<byte>)
    requires |a| % 2 == 0
    ensures WordSum(a + b) == WordSum(a) + WordSum(b)
  {
    if a == [] {
      assert a + b == b;
    } else {
      assert (a + b)[2..] == a[2..] + b;
      WordSumConcat(a[2..], b);
    }
  }

  lemma {:induction false} WordSumBound(s: seq<byte>)
    ensures WordSum(s) <= (|s| + 1) / 2 * 0xFFFF
  {
    if |s| <= 1 {
    } else {
      WordSumBound(s[2..]);
      assert (|s| + 1) / 2 == (|s[2..]| + 1) / 2 + 1;
    }
  }

  function SumOf(words: seq<u16>): nat {
    if words == [] then 0 else words[0] + SumOf(words[1..])
  }

  lemma {:induction false} WordSumOfBytes(words: seq<u16>)
    ensures WordSum(Bytes(words)) == SumOf(words)
  {
    if words == [] {
    } else {
      WordOfHalves(words[0]);
      assert Bytes(words)[2..] == Bytes(words[1..]);
      WordSumOfBytes(words[1..]);
    }
  }

  lemma {:induction false} SumOfUpdate(words: seq<u16>, i: nat, w: u16)
    requires i < |words|
    ensures words[i] <= SumOf(words)
    ensures SumOf(words[i := w]) == SumOf(words) - words[i] + w
  {
    if i == 0 {
      assert words[0 := w][1..] == words[1..];
    } else {
      assert words[i := w][1..] == words[1..][i - 1 := w];
      SumOfUpdate(words[1..], i - 1, w);
    }
  }

  lemma {:induction false} SumOfBound(words: seq<u16>)
    ensures SumOf(words) <= |words| * 0xFFFF
  {
    if words == [] {
    } else {
      SumOfBound(words[1..]);
    }
  }

  lemma {:induction false} PseudoBound(p: Packet)
    ensures 6 <= WordSum(PseudoHeaderOf(p)) <= 6 * 0xFFFF
  {
    hide Narrow; hide WordSum; hide Bytes; hide SumOf;
    var pseudo := [p.ip.saddr.high, p.ip.saddr.low, p.ip.daddr.high, p.ip.daddr.low, Word(0, IPPROTO_TCP),
                   Narrow(p.tcp.Length() + |p.payload|)];
    assert PseudoHeaderOf(p) == Bytes(pseudo) && pseudo[4] == 6;
    WordSumOfBytes(pseudo);
    SumOfUpdate(pseudo, 4, 0);
    SumOfBound(pseudo);
  }

  lemma {:induction false} PartBound(s: seq<byte>, words: nat)
    requires |s| <= 2 * words
    ensures WordSum(s) <= words * 0xFFFF
  {
    hide WordSum;
    WordSumBound(s);
    assert (|s| + 1) / 2 <= words;
  }

  /** For a segment of at most 65535 bytes the 32-bit accumulator never wraps. */
  lemma {:induction false} AccumulatorFits(p: Packet)
    requires p.Size() <= 0xFFFF
    ensures 6 <= SegmentSum(p) < 0x1_0000_0000
  {
    hide WordSum; hide PseudoHeaderOf; hide Bytes; hide SegmentSum;
    SumInParts(p);
    PseudoBound(p);
    PartBound(TcpBytes(p.tcp), 30);
    PartBound(p.payload, 32768);
  }

  /** The code adds up three parts; all but the last have even length. */
  lemma {:induction false} SumInParts(p: Packet)
    ensures SegmentSum(p) == WordSum(PseudoHeaderOf(p)) + WordSum(TcpBytes(p.tcp)) + WordSum(p.payload)
  {
    hide WordSum;
    WordSumConcat(PseudoHeaderOf(p) + TcpBytes(p.tcp), p.payload);
    WordSumConcat(PseudoHeaderOf(p), TcpBytes(p.tcp));
  }

  lemma {:induction false} CheckInHeader(h: TcpHeader, check: u16)
    ensures WordSum(TcpBytes(h.(check := check))) == WordSum(TcpBytes(h.(check := 0))) + check
  {
    var zero, with := TcpWords(h.(check := 0)), TcpWords(h.(check := check));
    assert with == zero[8 := check];
    SumOfUpdate(zero, 8, check);
    WordSumOfBytes(zero);
    WordSumOfBytes(with);
    WordSumConcat(Bytes(zero), h.options);
    WordSumConcat(Bytes(with), h.options);
  }

  lemma {:induction false} SumWithCheck(p: Packet, check: u16)
    ensures SegmentSum(WithCheck(p, check)) == SegmentSum(WithCheck(p, 0)) + check
  {
    hide WordSum;
    CheckInHeader(p.tcp, check);
    SumInParts(WithCheck(p, check));
    SumInParts(WithCheck(p, 0));
  }

  lemma {:induction false} BytesConcat(a: seq<u16>, b: seq<u16>)
    ensures Bytes(a + b) == Bytes(a) + Bytes(b)
  {
    hide Hi; hide Lo;
    if a == [] {
      assert a + b == b;
    } else {
      assert (a + b)[1..] == a[1..] + b;
      BytesConcat(a[1..], b);
    }
  }

  lemma {:induction false} AddressBytes(h: IpHeader, rest: seq<byte>)
    ensures var s := IpBytes(h) + rest; s[12..20] == Bytes([h.saddr.high, h.saddr.low, h.daddr.high, h.daddr.low])
  {
    hide Bytes;
    var w, addresses := IpWords(h), [h.saddr.high, h.saddr.low, h.daddr.high, h.daddr.low];
    assert w == w[..6] + addresses;
    BytesConcat(w[..6], addresses);
  }

  lemma {:induction false} WireParts(p: Packet)
    ensures var s := WireBytes(p);
      && |s| == p.Size() && s[0] % 16 * 4 == p.ip.Length()
      && s[12..20] == Bytes([p.ip.saddr.high, p.ip.saddr.low, p.ip.daddr.high, p.ip.daddr.low])
      && s[p.ip.Length()..] == TcpBytes(p.tcp) + p.payload
  {
    hide Bytes; hide IpWords; hide TcpWords;
    var rest := TcpBytes(p.tcp) + p.payload;
    HeaderSizes(p.ip, p.tcp);
    hide IpBytes; hide TcpBytes;
    assert WireBytes(p) == IpBytes(p.ip) + rest;
    IpHeaderRoundTrip(p.ip, rest);
    AddressBytes(p.ip, rest);
  }

  /** The receiver takes from the bytes what the sender takes from the packet. */
  lemma {:induction false} ReceiverSums(p: Packet)
    requires p.Size() <= 0xFFFF
    ensures var s := WireBytes(p); |s| >= 20 && s[0] % 16 * 4 <= |s| && ReceiverSum(s) == SegmentSum(p)
  {
    hide Bytes; hide WordSum; hide Narrow; hide PseudoHeaderOf; hide SegmentSum; hide WireBytes;
    WireParts(p);
    HeaderSizes(p.ip, p.tcp);
    hide TcpBytes;
    WordSumConcat(TcpBytes(p.tcp), p.payload);
    SumInParts(p);
    PseudoSum(p);
  }

  lemma {:induction false} PseudoSum(p: Packet)
    requires p.Size() <= 0xFFFF
    ensures WordSum(PseudoHeaderOf(p))
         == WordSum(Bytes([p.ip.saddr.high, p.ip.saddr.low, p.ip.daddr.high, p.ip.daddr.low])) + 6 + p.tcp.Length() + |p.payload|
  {
    hide Bytes; hide WordSum; hide Narrow; hide SumOf;
    var addresses := [p.ip.saddr.high, p.ip.saddr.low, p.ip.daddr.high, p.ip.daddr.low];
    var others := [Word(0, IPPROTO_TCP), Narrow(p.tcp.Length() + |p.payload|)];
    assert addresses + others == [addresses[0], addresses[1], addresses[2], addresses[3], others[0], others[1]];
    assert PseudoHeaderOf(p) == Bytes(addresses + others);
    BytesConcat(addresses, others);
    WordSumConcat(Bytes(addresses), Bytes(others));
    WordSumOfBytes(others);
    NarrowSmall(p.tcp.Length() + |p.payload|);
    SumOfTwo(6, others[1]);
  }

  lemma {:induction false} SumOfTwo(a: u16, b: u16)
    ensures SumOf([a, b]) == a + b
  {
    assert [a, b][1..] == [b] && [b][1..] == [];
    assert SumOf([b]) == b + SumOf([]);
  }

  /** Which checksum values a receiver accepts: the computed one, up to the two zeros of
      one's complement arithmetic. */
  lemma {:induction false} VerifiesExactly(p: Packet, check: u16)
    requires p.Size() <= 0xFFFF
    ensures Verifies(WireBytes(WithCheck(p, check))) <==> check % 0xFFFF == TcpChecksum(WithCheck(p, 0)) % 0xFFFF
  {
    hide SegmentSum; hide Fold; hide ReceiverSum; hide WireBytes;
    ReceiverSums(WithCheck(p, check));
    var sum := SegmentSum(WithCheck(p, 0));
    AccumulatorFits(WithCheck(p, 0));
    SumWithCheck(p, check);
    FoldWithComplement(sum, check);
  }

  lemma {:induction false} FoldWithComplement(sum: nat, check: u16)
    requires sum > 0
    ensures Fold(sum + check) == 0xFFFF <==> check % 0xFFFF == (0xFFFF - Fold(sum)) % 0xFFFF
  {
    FoldIsResidue(sum);
    FoldIsResidue(sum + check);
    var q, r := (sum - 1) / 0xFFFF, (sum - 1) % 0xFFFF;
    SameResidue(r + check, q);
    ComplementResidue(r, check);
  }

  lemma {:induction false} ComplementResidue(r: nat, check: u16)
    requires r < 0xFFFF
    ensures (r + check) % 0xFFFF == 0xFFFE <==> check % 0xFFFF == (0xFFFF - (r + 1)) % 0xFFFF
  {
  }

  /** What the program checksums, a receiver accepts. */
  lemma {:induction false} ChecksummedVerifies(p: Packet)
    requires p.Size() <= 0xFFFF
    ensures Verifies(WireBytes(Checksummed(p)))
  {
    hide Verifies; hide WireBytes;
    VerifiesExactly(p, TcpChecksum(WithCheck(p, 0)));
  }

  /** Computing the checksum again, whatever the field holds, gives the same packet. */
  lemma {:induction false} ChecksummedIdempotent(p: Packet, check: u16)
    ensures Checksummed(WithCheck(p, check)) == Checksummed(p)
  {
    assert WithCheck(WithCheck(p, check), 0) == WithCheck(p, 0);
  }

  // ----- the loops -----

  lemma {:induction false} AccumulatedIsWrap(sum: nat)
    ensures Accumulated(sum) == Wrap(sum)
  {
    if sum < 0x1_0000_0000 {
    } else {
      AccumulatedIsWrap(sum - 0x1_0000_0000);
    }
  }

  lemma {:induction false} WordSumSnoc(s: seq<byte>, hi: byte, lo: byte)
    requires |s| % 2 == 0
    ensures WordSum(s + [hi, lo]) == WordSum(s) + Word(hi, lo)
  {
    WordSumConcat(s, [hi, lo]);
  }

  lemma {:induction false} WordSumEnds(last: byte)
    ensures WordSum([]) == 0 && WordSum([last]) == Word(last, 0)
  {
  }

  method AddBytes(sum: u32, data: seq<byte>) returns (r: u32)
    ensures r == Wrap(sum + WordSum(data))
  {
    hide WordSum; hide Word; hide Wrap;
    r := sum;
    WrapSmall(sum);
    WordSumEnds(0);
    var i := 0;
    while i + 1 < |data|
      invariant 0 <= i <= |data| && i % 2 == 0
      invariant r == Wrap(sum + WordSum(data[..i]))
    {
      WordSumSnoc(data[..i], data[i], data[i + 1]);
      assert data[..i + 2] == data[..i] + [data[i], data[i + 1]];
      WrapSum(sum + WordSum(data[..i]), Word(data[i], data[i + 1]));
      r := Wrap(r + Word(data[i], data[i + 1]));
      i := i + 2;
    }
    if i < |data| {
      WordSumConcat(data[..i], [data[i]]);
      WordSumEnds(data[i]);
      assert data == data[..i] + [data[i]];
      WrapSum(sum + WordSum(data[..i]), Word(data[i], 0));
      r := Wrap(r + Word(data[i], 0));
    } else {
      assert data == data[..i];
    }
  }

  method FoldCarries(sum: u32) returns (r: u16)
    ensures r == Fold(sum)
  {
    var s: u32 := sum;
    while s >= 0x1_0000
      invariant Fold(s) == Fold(sum)
      decreases s
    {
      s := s % 0x1_0000 + s / 0x1_0000;
    }
    r := s;
  }

  method AddSegment(p: Packet) returns (sum: u32)
    ensures sum == Accumulated(SegmentSum(p))
  {
    hide WordSum;
    ghost var pseudo, header := WordSum(PseudoHeaderOf(p)), WordSum(TcpBytes(p.tcp));
    SumInParts(p);
    sum := AddBytes(0, PseudoHeaderOf(p));
    sum := AddBytes(sum, TcpBytes(p.tcp));
    WrapSum(pseudo, header);
    sum := AddBytes(sum, p.payload);
    WrapSum(pseudo + header, WordSum(p.payload));
    AccumulatedIsWrap(SegmentSum(p));
  }

  method CalcTcpChecksum(p: Packet) returns (check: u16)
    ensures check == TcpChecksum(p)
  {
    var sum := AddSegment(p);
    sum := FoldCarries(sum);
    check := 0xFFFF - sum;
  }

  /** `calc_packet_checksum`. */
  method CalcPacketChecksum(p: Packet) returns (q: Packet)
    ensures q == Checksummed(p)
  {
    var check := CalcTcpChecksum(WithCheck(p, 0));
    q := WithCheck(p, check);
  }
}
