/** Host-name positions in a TLS ClientHello or an HTTP request (src/modify/markers.cpp). */
module Markers {
  import opened Base
  import opened Packets
  import opened Searching

  datatype L7Proto = Unknown | Empty | Http | Tls | Quic

  datatype Marks = Marks(hoststart: Option<nat>, hostmid: Option<nat>, hostend: Option<nat>, sniext: Option<nat>)

  const NO_MARKS := Marks(None, None, None, None)

  /** The half-open range of the host name; the middle rounds down. */
  function HostMarks(start: nat, length: nat, sniext: Option<nat>): Marks {
    Marks(Some(start), Some(start + length / 2), Some(start + length), sniext)
  }

  // ----- TLS -----

  /** Walks the extensions from `at` to the first server_name extension. */
  function ScanExtensions(p: seq<byte>, at: nat): Option<Marks>
    requires at <= |p|
    decreases |p| - at
  {
    if |p| < at + 4 then None
    else
      var length := ReadBe16(p, at + 2);
      if ReadBe16(p, at) != 0 then
        if |p| < at + 4 + length then None else ScanExtensions(p, at + 4 + length)
      else if |p| < at + 9 || p[at + 6] != 0 then None
      else
        var name := ReadBe16(p, at + 7);
        if |p| < at + 9 + name then None else Some(HostMarks(at + 9, name, Some(at)))
  }

  /** `Fault` where the code reads a byte behind the end; `Done(None)` is its error return. */
  function FindMarkersTls(p: seq<byte>): Outcome<Option<Marks>> {
    if |p| <= 5 then Fault
    else if p[5] != 1 || |p| < 43 then Done(None)
    else if |p| == 43 then Fault
    else
      var ciphersAt := 44 + p[43] as int;
      if |p| < ciphersAt + 2 then Done(None)
      else
        var extensionsAt := ciphersAt + 2 + ReadBe16(p, ciphersAt) + 2;
        if |p| < extensionsAt + 2 then Done(None)
        else Done(ScanExtensions(p, extensionsAt + 2))
  }

  /** `safe_subspan`. */
  method SafeSubspan(span: seq<byte>, offset: nat) returns (ok: bool, rest: seq<byte>)
    ensures ok <==> offset <= |span|
    ensures rest == if ok then span[offset..] else span
  {
    if |span| < offset {
      return false, span;
    }
    return true, span[offset..];
  }

  method FindTls(initial: seq<byte>) returns (r: Option<Marks>)
    requires FindMarkersTls(initial).Done?
    ensures Done(r) == FindMarkersTls(initial)
  {
    hide ReadBe16; hide ScanExtensions;
    var ok: bool;
    var payload := initial[5..];
    if payload[0] != 0x01 {
      return None;
    }
    ok, payload := SafeSubspan(payload, 38);
    if !ok {
      return None;
    }
    var sessionIdLength := payload[0];
    ok, payload := SafeSubspan(payload, 1 + sessionIdLength as int);
    if !ok || |payload| < 2 {
      return None;
    }
    assert payload == initial[44 + sessionIdLength as int..];
    SuffixRead(initial, payload, 0);
    var ciphersLength := ReadBe16(payload, 0);
    ok, payload := SafeSubspan(payload, 2 + ciphersLength as int + 2);
    if !ok || |payload| < 2 {
      return None;
    }
    payload := payload[2..];
    r := FindServerName(initial, payload);
  }

  ghost predicate SuffixOf(rest: seq<byte>, initial: seq<byte>) {
    |rest| <= |initial| && rest == initial[|initial| - |rest|..]
  }

  lemma {:induction false} SuffixDrop(initial: seq<byte>, rest: seq<byte>, k: nat)
    requires SuffixOf(rest, initial) && k <= |rest|
    ensures SuffixOf(rest[k..], initial) && |rest| <= |initial|
  {
  }

  lemma {:induction false} SuffixRead(initial: seq<byte>, rest: seq<byte>, k: nat)
    requires SuffixOf(rest, initial) && k + 2 <= |rest|
    ensures ReadBe16(rest, k) == ReadBe16(initial, |initial| - |rest| + k)
  {
  }

  /** The extension loop; each round leaves a strictly shorter rest. */
  method FindServerName(initial: seq<byte>, rest: seq<byte>) returns (r: Option<Marks>)
    requires SuffixOf(rest, initial)
    ensures r == ScanExtensions(initial, |initial| - |rest|)
  {
    hide ReadBe16;
    var payload := rest;
    while payload != []
      invariant |payload| <= |initial| && SuffixOf(payload, initial)
      invariant ScanExtensions(initial, |initial| - |rest|) == ScanExtensions(initial, |initial| - |payload|)
      decreases |payload|
    {
      hide SuffixOf;
      if |payload| < 2 {
        return None;
      }
      SuffixRead(initial, payload, 0);
      var extType := ReadBe16(payload, 0);
      SuffixDrop(initial, payload, 2);
      payload := payload[2..];
      if |payload| < 2 {
        return None;
      }
      SuffixRead(initial, payload, 0);
      var extLength := ReadBe16(payload, 0);
      if extType == 0 {
        SuffixDrop(initial, payload, 2);
        r := ReadServerName(initial, payload[2..]);
        return;
      }
      var ok: bool;
      var skip := 2 + extLength as int;
      if skip <= |payload| {
        SuffixDrop(initial, payload, skip);
      }
      ok, payload := SafeSubspan(payload, skip);
      if !ok {
        return None;
      }
    }
    return None;
  }

  /** The body of a server_name extension; its header is the four bytes before it. */
  method ReadServerName(initial: seq<byte>, body: seq<byte>) returns (r: Option<Marks>)
    requires SuffixOf(body, initial) && |initial| >= |body| + 4
    requires ReadBe16(initial, |initial| - |body| - 4) == 0
    ensures r == ScanExtensions(initial, |initial| - |body| - 4)
  {
    if |body| < 3 || body[2] != 0 {
      return None;
    }
    var payload := body[3..];
    if |payload| < 2 {
      return None;
    }
    SuffixRead(initial, body, 3);
    var nameLength := ReadBe16(payload, 0);
    if |payload| < 2 + nameLength as int {
      return None;
    }
    return Some(HostMarks(|initial| - |payload| + 2, nameLength, Some(|initial| - |body| - 4)));
  }

  // ----- HTTP -----

  const HOST_HEADER_NAME: seq<byte> := [72, 111, 115, 116, 58]

  /** A header line with nothing between the colon and the line end makes the code build a
      string view of negative length. */
  function FindMarkersHttp(p: seq<byte>): Outcome<Option<Marks>> {
    match Search(p, HOST_HEADER_NAME, Lower, 0)
    case None => Done(None)
    case Some(at) =>
      match Search(p, CRLF, Same, at)
      case None => Done(None)
      case Some(end) => if end < at + 6 then Fault else Done(Some(HostMarks(at + 6, end - (at + 6), None)))
  }

  function FindMarkers(p: seq<byte>, proto: L7Proto): Outcome<Option<Marks>> {
    match proto
    case Tls => FindMarkersTls(p)
    case Http => FindMarkersHttp(p)
    case _ => Done(Some(NO_MARKS))
  }

  // ----- what success means -----

  /** The markers enclose a range of the payload; the middle one halves it, rounding down. */
  ghost predicate Ordered(m: Marks, length: nat) {
    && m.hoststart.Some? && m.hostmid.Some? && m.hostend.Some?
    && m.hoststart.value <= m.hostmid.value <= m.hostend.value <= length
    && m.hostmid.value == m.hoststart.value + (m.hostend.value - m.hoststart.value) / 2
  }

  lemma {:induction false} ScanExtensionsMarks(p: seq<byte>, at: nat)
    requires at <= |p| && ScanExtensions(p, at).Some?
    ensures var m := ScanExtensions(p, at).value;
      && Ordered(m, |p|) && m.sniext.Some? && at <= m.sniext.value && m.hoststart.value == m.sniext.value + 9
      && ReadBe16(p, m.sniext.value) == 0
      && ReadBe16(p, m.hoststart.value - 2) == m.hostend.value - m.hoststart.value
    decreases |p| - at
  {
    if ReadBe16(p, at) == 0 {
    } else {
      ScanExtensionsMarks(p, at + 4 + ReadBe16(p, at + 2));
    }
  }

  /** TLS markers are ordered, inside the payload, and nine bytes after the extension they name. */
  lemma {:induction false} TlsMarkersInside(p: seq<byte>)
    requires FindMarkersTls(p).Done? && FindMarkersTls(p).value.Some?
    ensures var m := FindMarkersTls(p).value.value;
      && Ordered(m, |p|) && m.sniext.Some? && m.hoststart.value == m.sniext.value + 9
      && ReadBe16(p, m.sniext.value) == 0
      && ReadBe16(p, m.hoststart.value - 2) == m.hostend.value - m.hoststart.value
  {
    var ciphersAt := 44 + p[43] as int;
    ScanExtensionsMarks(p, ciphersAt + 4 + ReadBe16(p, ciphersAt) + 2);
  }

  /** The TLS parser leaves its input on exactly these lengths. */
  lemma {:induction false} TlsFaultsExactly(p: seq<byte>)
    ensures FindMarkersTls(p).Fault? <==> |p| <= 5 || (|p| == 43 && p[5] == 1)
  {
  }

  /** HTTP markers enclose the rest of the first Host line, which ends at the first CRLF after it. */
  lemma {:induction false} HttpMarkersInside(p: seq<byte>)
    requires FindMarkersHttp(p).Done? && FindMarkersHttp(p).value.Some?
    ensures var m := FindMarkersHttp(p).value.value;
      && Ordered(m, |p|) && m.sniext.None? && m.hoststart.value >= 6 && m.hostend.value + 2 <= |p|
      && MatchesAt(p, HOST_HEADER_NAME, Lower, m.hoststart.value - 6)
      && (forall j :: 0 <= j < m.hoststart.value - 6 ==> !MatchesAt(p, HOST_HEADER_NAME, Lower, j))
      && MatchesAt(p, CRLF, Same, m.hostend.value)
      && forall j :: m.hoststart.value <= j < m.hostend.value ==> !MatchesAt(p, CRLF, Same, j)
  {
  }

  lemma {:induction false} NoCrlfInHostName(p: seq<byte>, at: nat, j: nat)
    requires MatchesAt(p, HOST_HEADER_NAME, Lower, at) && at <= j < at + 5
    ensures !MatchesAt(p, CRLF, Same, j)
  {
    assert Lower(p[at + (j - at)]) == Lower(HOST_HEADER_NAME[j - at]);
    assert MatchesAt(p, CRLF, Same, j) ==> Same(p[j + 0]) == Same(CRLF[0]);
  }

  /** The HTTP parser goes wrong exactly when the first Host line is empty to the last byte. */
  lemma {:induction false} HttpFaultsExactly(p: seq<byte>)
    ensures FindMarkersHttp(p).Fault?
      <==> var host := Search(p, HOST_HEADER_NAME, Lower, 0); host.Some? && MatchesAt(p, CRLF, Same, host.value + 5)
  {
    var host := Search(p, HOST_HEADER_NAME, Lower, 0);
    if host.Some? {
      forall j | host.value <= j < host.value + 5 ensures !MatchesAt(p, CRLF, Same, j) {
        NoCrlfInHostName(p, host.value, j);
      }
      if MatchesAt(p, CRLF, Same, host.value + 5) {
        SearchIs(p, CRLF, Same, host.value, host.value + 5);
      }
    }
  }
}
