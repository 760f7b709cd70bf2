/** When captured bytes are recognised: a ClientHello exactly when its record is complete, a request
    exactly when its head is. */
module Recognition {
  import opened Base
  import opened Packets
  import opened Searching
  import opened Hello
  import opened Classify

  lemma {:induction false} RecordHeader(h: ClientHello, trailing: seq<byte>)
    requires Valid(h)
    ensures var s := Record(h) + trailing;
      |Record(h)| == 5 + |Handshake(h)| && s[0] == 0x16 && ReadBe16(s, 1) == h.recordVersion && ReadBe16(s, 3) == |Handshake(h)|
  {
    hide Handshake; hide ReadBe16; hide Bytes;
    var w, s := [h.recordVersion, Narrow(|Handshake(h)|)], Record(h) + trailing;
    NarrowSmall(|Handshake(h)|);
    assert s[1..] == Bytes(w) + (Handshake(h) + trailing);
    ReadAt(s, 1, w, 0, Handshake(h) + trailing);
    ReadAt(s, 1, w, 1, Handshake(h) + trailing);
  }

  lemma {:induction false} SameHeader(s: seq<byte>, n: nat)
    requires 5 <= n <= |s|
    ensures s[..n][0] == s[0] && ReadBe16(s[..n], 1) == ReadBe16(s, 1) && ReadBe16(s[..n], 3) == ReadBe16(s, 3)
  {
  }

  lemma {:induction false} VersionBytes(p: seq<byte>)
    requires |p| >= 5 && (ReadBe16(p, 1) == 0x0301 || ReadBe16(p, 1) == 0x0303)
    ensures p[1] == 0x03 && (p[2] == 0x01 || p[2] == 0x03)
  {
  }

  /** Of a ClientHello that arrives in pieces the program waits, from the fifth byte on, for exactly
      the last byte of the record, whatever follows it. */
  lemma {:induction false} HelloRecognized(h: ClientHello, trailing: seq<byte>, n: nat)
    requires Valid(h) && (h.recordVersion == 0x0301 || h.recordVersion == 0x0303)
    requires 5 <= n <= |Record(h) + trailing|
    ensures ClassifyTls((Record(h) + trailing)[..n]) == if n < |Record(h)| then Reassembling else Finished
  {
    hide Record; hide Handshake; hide ReadBe16;
    RecordHeader(h, trailing);
    SameHeader(Record(h) + trailing, n);
    VersionBytes((Record(h) + trailing)[..n]);
  }


  lemma {:induction false} FoundExactly(s: seq<byte>, pat: seq<byte>)
    ensures Search(s, pat, Same, 0).Some? <==> exists j: nat :: MatchesAt(s, pat, Same, j)
  {
  }

  /** A payload is taken for HTTP exactly by its first line: the version there, then a wait for the
      empty line; without the version, or while the line has no end, it is not. */
  lemma {:induction false} RequestRecognized(line: seq<byte>, rest: seq<byte>)
    requires 13 !in line
    ensures var p := line + CRLF + rest;
      ClassifyHttp(p) == if !(exists j: nat :: MatchesAt(line, HTTP_NAME, Same, j)) then Error
                         else if exists j: nat :: MatchesAt(p, HEADER_END, Same, j) then Finished else Reassembling
  {
    var p := line + CRLF + rest;
    forall j | 0 <= j < |line| ensures !MatchesAt(p, CRLF, Same, j) {
      assert p[j] == line[j] && line[j] in line;
      assert MatchesAt(p, CRLF, Same, j) ==> Same(p[j + 0]) == Same(CRLF[0]);
    }
    assert MatchesAt(p, CRLF, Same, |line|);
    SearchIs(p, CRLF, Same, 0, |line|);
    assert p[..|line|] == line;
    hide MatchesAt;
    FoundExactly(line, HTTP_NAME);
    FoundExactly(p, HEADER_END);
  }
}
