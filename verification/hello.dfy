/** Serializers for what the marker parsers read: a TLS ClientHello record (sections 4.1.2 and 4.2
    of RFC 8446, section 3 of RFC 6066) and an HTTP request head with a Host line (section 7.2 of
    RFC 9110). The parsers invert them. */
module Hello {
  import opened Base
  import opened Packets
  import opened Searching
  import opened Markers

  datatype Extension = Extension(kind: u16, body: seq<byte>)

  datatype ClientHello = ClientHello(
    recordVersion: u16, legacyVersion: u16, random: seq<byte>, sessionId: seq<byte>, ciphers: seq<byte>,
    compression: byte, before: seq<Extension>, host: seq<byte>, after: seq<Extension>)

  ghost predicate ValidExtension(e: Extension) {
    |e.body| < 0x1_0000
  }

  /** Every length fits its field, and the first server_name extension is the one with the host. */
  ghost predicate Valid(h: ClientHello) {
    && |h.random| == 32 && |h.sessionId| < 0x100 && |h.ciphers| < 0x1_0000
    && |h.host| + 5 < 0x1_0000
    && (forall i :: 0 <= i < |h.before| ==> ValidExtension(h.before[i]) && h.before[i].kind != 0)
    && (forall i :: 0 <= i < |h.after| ==> ValidExtension(h.after[i]))
    && |AllExtensions(h)| < 0x1_0000
    && |Handshake(h)| < 0x1_0000
  }

  function ExtensionBytes(e: Extension): seq<byte> {
    Bytes([e.kind, Narrow(|e.body|)]) + e.body
  }

  function ExtensionsBytes(es: seq<Extension>): seq<byte> {
    if es == [] then [] else ExtensionBytes(es[0]) + ExtensionsBytes(es[1..])
  }

  /** A server_name extension whose list holds one host_name entry. */
  function ServerNameBytes(host: seq<byte>): seq<byte> {
    Bytes([0, Narrow(|host| + 5), Narrow(|host| + 3)]) + [0] + Bytes([Narrow(|host|)]) + host
  }

  function AllExtensions(h: ClientHello): seq<byte> {
    ExtensionsBytes(h.before) + (ServerNameBytes(h.host) + ExtensionsBytes(h.after))
  }

  function ExtensionBlock(h: ClientHello): seq<byte> {
    Bytes([Narrow(|AllExtensions(h)|)]) + AllExtensions(h)
  }

  function CipherBlock(h: ClientHello): seq<byte> {
    Bytes([Narrow(|h.ciphers|)]) + h.ciphers + [1, h.compression]
  }

  function SessionBlock(h: ClientHello): seq<byte> {
    [|h.sessionId| % 0x100] + h.sessionId
  }

  function HelloBody(h: ClientHello): seq<byte> {
    Bytes([h.legacyVersion]) + h.random + (SessionBlock(h) + (CipherBlock(h) + ExtensionBlock(h)))
  }

  /** The handshake message: type client_hello and a 24-bit length. */
  function Handshake(h: ClientHello): seq<byte> {
    [1] + [|HelloBody(h)| / 0x1_0000 % 0x100] + Bytes([Narrow(|HelloBody(h)|)]) + HelloBody(h)
  }

  /** The record: content type handshake, version, length. */
  function Record(h: ClientHello): seq<byte> {
    [0x16] + Bytes([h.recordVersion, Narrow(|Handshake(h)|)]) + Handshake(h)
  }

  lemma {:induction false} ReadAt(p: seq<byte>, at: nat, words: seq<u16>, i: nat, rest: seq<byte>)
    requires at <= |p| && p[at..] == Bytes(words) + rest && i < |words|
    ensures at + 2 * i + 2 <= |p| && ReadBe16(p, at + 2 * i) == words[i]
  {
    ReadWord(words, rest, i);
    assert p[at..][2 * i] == p[at + 2 * i] && p[at..][2 * i + 1] == p[at + 2 * i + 1];
  }

  lemma {:induction false} DropAt(p: seq<byte>, at: nat, a: seq<byte>, b: seq<byte>)
    requires at <= |p| && p[at..] == a + b
    ensures at + |a| <= |p| && p[at + |a|..] == b && p[at..at + |a|] == a
  {
    assert p[at + |a|..] == p[at..][|a|..];
    assert p[at..at + |a|] == p[at..][..|a|];
  }

  lemma {:induction false} ExtensionHeader(p: seq<byte>, at: nat, e: Extension, others: seq<byte>)
    requires at <= |p| && p[at..] == ExtensionBytes(e) + others && ValidExtension(e)
    ensures at + 4 <= |p| && ReadBe16(p, at) == e.kind && ReadBe16(p, at + 2) == |e.body| && |ExtensionBytes(e)| == 4 + |e.body|
  {
    var w, rest := [e.kind, Narrow(|e.body|)], e.body + others;
    NarrowSmall(|e.body|);
    assert p[at..] == Bytes(w) + rest;
    hide ReadBe16; hide Bytes; hide Narrow;
    ReadAt(p, at, w, 0, rest);
    ReadAt(p, at, w, 1, rest);
  }

  lemma {:induction false} SkipExtension(p: seq<byte>, at: nat, e: Extension, others: seq<byte>)
    requires at <= |p| && p[at..] == ExtensionBytes(e) + others && ValidExtension(e) && e.kind != 0
    ensures at + |ExtensionBytes(e)| <= |p| && p[at + |ExtensionBytes(e)|..] == others
    ensures ScanExtensions(p, at) == ScanExtensions(p, at + |ExtensionBytes(e)|)
  {
    ExtensionHeader(p, at, e, others);
    hide ReadBe16; hide ExtensionBytes;
    DropAt(p, at, ExtensionBytes(e), others);
  }

  lemma {:induction false} HostLayout(p: seq<byte>, at: nat, host: seq<byte>, rest: seq<byte>)
    requires at <= |p| && p[at..] == ServerNameBytes(host) + rest && |host| + 5 < 0x1_0000
    ensures at + 9 + |host| <= |p| && p[at + 9..at + 9 + |host|] == host
    ensures ReadBe16(p, at) == 0 && p[at + 6] == 0 && ReadBe16(p, at + 7) == |host|
  {
    hide Bytes;
    hide ReadBe16;
    var head, name := [0, Narrow(|host| + 5), Narrow(|host| + 3)], [Narrow(|host|)];
    var named := Bytes(name) + (host + rest);
    NarrowSmall(|host|);
    assert p[at..] == Bytes(head) + ([0] + named);
    ReadAt(p, at, head, 0, [0] + named);
    DropAt(p, at, Bytes(head), [0] + named);
    assert p[at + 6] == p[at + 6..][0];
    DropAt(p, at + 6, [0], named);
    ReadAt(p, at + 7, name, 0, host + rest);
    DropAt(p, at + 7, Bytes(name), host + rest);
    DropAt(p, at + 9, host, rest);
  }

  lemma {:induction false} ScanHost(p: seq<byte>, at: nat, host: seq<byte>, rest: seq<byte>)
    requires at <= |p| && p[at..] == ServerNameBytes(host) + rest && |host| + 5 < 0x1_0000
    ensures ScanExtensions(p, at) == Some(HostMarks(at + 9, |host|, Some(at)))
    ensures at + 9 + |host| <= |p| && p[at + 9..at + 9 + |host|] == host
  {
    hide ServerNameBytes;
    hide ReadBe16;
    HostLayout(p, at, host, rest);
  }

  lemma {:induction false} ExtensionsCons(before: seq<Extension>, more: seq<byte>)
    requires before != []
    ensures ExtensionsBytes(before) + more == ExtensionBytes(before[0]) + (ExtensionsBytes(before[1..]) + more)
    ensures |ExtensionsBytes(before)| == |ExtensionBytes(before[0])| + |ExtensionsBytes(before[1..])|
  {
  }

  /** The parser reaches the host name behind any extensions of other types. */
  lemma {:induction false} ScanServerName(p: seq<byte>, at: nat, before: seq<Extension>, host: seq<byte>, rest: seq<byte>)
    requires at <= |p| && p[at..] == ExtensionsBytes(before) + (ServerNameBytes(host) + rest)
    requires |host| + 5 < 0x1_0000
    requires forall i :: 0 <= i < |before| ==> ValidExtension(before[i]) && before[i].kind != 0
    ensures var sniext := at + |ExtensionsBytes(before)|;
      && ScanExtensions(p, at) == Some(HostMarks(sniext + 9, |host|, Some(sniext)))
      && sniext + 9 + |host| <= |p| && p[sniext + 9..sniext + 9 + |host|] == host
    decreases before
  {
    hide ServerNameBytes;
    hide ScanExtensions;
    hide ExtensionBytes;
    if before == [] {
      assert p[at..] == ServerNameBytes(host) + rest;
      ScanHost(p, at, host, rest);
    } else {
      var e, size := before[0], |ExtensionBytes(before[0])|;
      var others := ExtensionsBytes(before[1..]) + (ServerNameBytes(host) + rest);
      ExtensionsCons(before, ServerNameBytes(host) + rest);
      SkipExtension(p, at, e, others);
      ScanServerName(p, at + size, before[1..], host, rest);
    }
  }

  /** Where the extensions start, counted from the record's first byte. */
  function ExtensionsAt(h: ClientHello): nat {
    43 + |SessionBlock(h)| + |CipherBlock(h)| + 2
  }

  lemma {:induction false} HelloLayout(h: ClientHello, trailing: seq<byte>)
    requires |h.random| == 32
    ensures var p := Record(h) + trailing;
      && |p| >= 43 && p[5] == 1 && p[43..] == SessionBlock(h) + (CipherBlock(h) + (ExtensionBlock(h) + trailing))
  {
    var p := Record(h) + trailing;
    var front := [0x16] + Bytes([h.recordVersion, Narrow(|Handshake(h)|)]);
    var head := [1] + [|HelloBody(h)| / 0x1_0000 % 0x100] + Bytes([Narrow(|HelloBody(h)|)]);
    var tail := SessionBlock(h) + (CipherBlock(h) + ExtensionBlock(h));
    var fixed := Bytes([h.legacyVersion]) + h.random;
    assert p == front + (head + (fixed + tail)) + trailing;
    assert |front| == 5 && |head| == 4 && |fixed| == 34;
    assert p[5] == head[0];
    assert p[43..] == tail + trailing;
  }

  /** The round trip: on every serialized hello, followed by anything, the parser succeeds and its
      markers delimit exactly the host name; the SNI extension starts nine bytes before it. */
  lemma {:induction false} ClientHelloRoundTrip(h: ClientHello, trailing: seq<byte>)
    requires Valid(h)
    ensures var p, sniext := Record(h) + trailing, ExtensionsAt(h) + |ExtensionsBytes(h.before)|;
      && FindMarkersTls(p) == Done(Some(HostMarks(sniext + 9, |h.host|, Some(sniext))))
      && sniext + 9 + |h.host| <= |p| && p[sniext + 9..sniext + 9 + |h.host|] == h.host
  {
    HelloLayout(h, trailing);
    var p := Record(h) + trailing;
    hide Record;
    hide ServerNameBytes;
    ParseLayout(h, p, trailing);
  }

  /** The same for any payload with the hello's layout from byte 43 on. */
  lemma {:induction false} ParseLayout(h: ClientHello, p: seq<byte>, trailing: seq<byte>)
    requires |h.sessionId| < 0x100 && |h.ciphers| < 0x1_0000 && |h.host| + 5 < 0x1_0000
    requires forall i :: 0 <= i < |h.before| ==> ValidExtension(h.before[i]) && h.before[i].kind != 0
    requires |p| >= 43 && p[5] == 1 && p[43..] == SessionBlock(h) + (CipherBlock(h) + (ExtensionBlock(h) + trailing))
    ensures var sniext := ExtensionsAt(h) + |ExtensionsBytes(h.before)|;
      && FindMarkersTls(p) == Done(Some(HostMarks(sniext + 9, |h.host|, Some(sniext))))
      && sniext + 9 + |h.host| <= |p| && p[sniext + 9..sniext + 9 + |h.host|] == h.host
  {
    hide ServerNameBytes;
    hide FindMarkersTls;
    hide ScanExtensions;
    hide ReadBe16;
    hide HostMarks;
    SessionLayout(h, p, ExtensionBlock(h) + trailing);
    hide SessionBlock;
    hide CipherBlock;
    var blockAt := 43 + |SessionBlock(h)| + |CipherBlock(h)|;
    ExtensionLayout(h, p, blockAt, trailing);
    hide ExtensionBlock;
    TlsReachesExtensions(p, |h.sessionId|, |h.ciphers|);
    ScanServerName(p, blockAt + 2, h.before, h.host, ExtensionsBytes(h.after) + trailing);
  }

  lemma {:induction false} TlsReachesExtensions(p: seq<byte>, session: nat, ciphers: nat)
    requires |p| >= 50 + session + ciphers && p[5] == 1 && p[43] == session && ReadBe16(p, 44 + session) == ciphers
    ensures FindMarkersTls(p) == Done(ScanExtensions(p, 50 + session + ciphers))
  {
  }

  lemma {:induction false} SessionLayout(h: ClientHello, p: seq<byte>, more: seq<byte>)
    requires |h.sessionId| < 0x100 && |h.ciphers| < 0x1_0000
    requires |p| >= 43 && p[43..] == SessionBlock(h) + (CipherBlock(h) + more)
    ensures |p| >= 46 + |h.sessionId| && p[43] == |h.sessionId| && ReadBe16(p, 44 + |h.sessionId|) == |h.ciphers|
    ensures |SessionBlock(h)| == 1 + |h.sessionId| && |CipherBlock(h)| == 4 + |h.ciphers|
    ensures var at := 43 + |SessionBlock(h)| + |CipherBlock(h)|; at <= |p| && p[at..] == more
  {
    assert p[43] == SessionBlock(h)[0] == |h.sessionId| by {
      assert p[43] == p[43..][0];
    }
    hide CipherBlock; hide ReadBe16;
    DropAt(p, 43, SessionBlock(h), CipherBlock(h) + more);
    CipherLayout(h, p, 44 + |h.sessionId|, more);
  }

  lemma {:induction false} CipherLayout(h: ClientHello, p: seq<byte>, at: nat, more: seq<byte>)
    requires |h.ciphers| < 0x1_0000
    requires at <= |p| && p[at..] == CipherBlock(h) + more
    ensures |p| >= at + 2 && ReadBe16(p, at) == |h.ciphers| && |CipherBlock(h)| == 4 + |h.ciphers|
    ensures at + |CipherBlock(h)| <= |p| && p[at + |CipherBlock(h)|..] == more
  {
    NarrowSmall(|h.ciphers|);
    var lengthWord, rest := [Narrow(|h.ciphers|)], h.ciphers + [1, h.compression] + more;
    assert p[at..] == Bytes(lengthWord) + rest;
    ReadAt(p, at, lengthWord, 0, rest);
    DropAt(p, at, CipherBlock(h), more);
  }

  lemma {:induction false} ExtensionLayout(h: ClientHello, p: seq<byte>, at: nat, trailing: seq<byte>)
    requires at <= |p| && p[at..] == ExtensionBlock(h) + trailing
    ensures at + 2 <= |p|
    ensures p[at + 2..] == ExtensionsBytes(h.before) + (ServerNameBytes(h.host) + (ExtensionsBytes(h.after) + trailing))
  {
    hide ServerNameBytes;
    hide Narrow;
    var count := Bytes([Narrow(|AllExtensions(h)|)]);
    assert p[at..] == count + (AllExtensions(h) + trailing);
    DropAt(p, at, count, AllExtensions(h) + trailing);
  }

  // ----- HTTP -----

  /** Anything up to the Host line, the header name, one separator byte, the host, the line end. */
  function RequestHead(before: seq<byte>, separator: byte, host: seq<byte>, rest: seq<byte>): seq<byte> {
    before + HOST_HEADER_NAME + [separator] + host + CRLF + rest
  }

  /** The HTTP parser finds the host of the first Host line. */
  lemma {:induction false} HostLineRoundTrip(before: seq<byte>, separator: byte, host: seq<byte>, rest: seq<byte>)
    requires separator != 13 && 13 !in host
    requires forall j :: 0 <= j < |before| ==> !MatchesAt(RequestHead(before, separator, host, rest), HOST_HEADER_NAME, Lower, j)
    ensures var p, start := RequestHead(before, separator, host, rest), |before| + 6;
      && FindMarkersHttp(p) == Done(Some(HostMarks(start, |host|, None)))
      && p[start..start + |host|] == host
  {
    var p, at := RequestHead(before, separator, host, rest), |before|;
    var end := at + 6 + |host|;
    RequestBytes(before, separator, host, rest);
    hide RequestHead;
    forall k | 0 <= k < 5 ensures Lower(p[at + k]) == Lower(HOST_HEADER_NAME[k]) {
      assert p[at..at + 5][k] == p[at + k];
    }
    SearchIs(p, HOST_HEADER_NAME, Lower, 0, at);
    forall j | at <= j < end ensures !MatchesAt(p, CRLF, Same, j) {
      assert p[j] == if j < at + 5 then p[at..at + 5][j - at] else if j == at + 5 then separator else p[at + 6..end][j - at - 6];
      assert MatchesAt(p, CRLF, Same, j) ==> Same(p[j + 0]) == Same(CRLF[0]);
    }
    assert MatchesAt(p, CRLF, Same, end);
    SearchIs(p, CRLF, Same, at, end);
  }

  lemma {:induction false} RequestBytes(before: seq<byte>, separator: byte, host: seq<byte>, rest: seq<byte>)
    ensures var p, at, end := RequestHead(before, separator, host, rest), |before|, |before| + 6 + |host|;
      && end + 2 <= |p| && p[at..at + 5] == HOST_HEADER_NAME && p[at + 5] == separator && p[at + 6..end] == host
      && p[end] == 13 && p[end + 1] == 10
  {
  }
}
