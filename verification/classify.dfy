/** Payload classifiers and their ordered combination (src/classify). */
module Classify {
  import opened Base
  import opened Packets
  import opened Reassembly
  import opened Searching
  import opened Markers

  datatype Classification = Finished | Reassembling | Error

  /** The sub-classifiers a profile can list. */
  datatype Kind = TlsHandshake | HttpRequest {
    function Protocol(): L7Proto {
      match this
      case TlsHandshake => Tls
      case HttpRequest => Http
    }
  }

  const TLS_HDR_LEN: nat := 5
  const HTTP_NAME: seq<byte> := [72, 84, 84, 80, 47]
  const HEADER_END: seq<byte> := [13, 10, 13, 10]

  function ClassifyTls(p: seq<byte>): Classification {
    if |p| < TLS_HDR_LEN then Error
    else if p[0] != 0x16 || p[1] != 0x03 || (p[2] != 0x01 && p[2] != 0x03) then Error
    else if |p| < ReadBe16(p, 3) as int + TLS_HDR_LEN then Reassembling
    else Finished
  }

  function ClassifyHttp(p: seq<byte>): Classification {
    match Search(p, CRLF, Same, 0)
    case None => Error
    case Some(eol) =>
      if Search(p[..eol], HTTP_NAME, Same, 0).None? then Error
      else if Search(p, HEADER_END, Same, 0).None? then Reassembling
      else Finished
  }

  function ClassifyOne(kind: Kind, p: seq<byte>): Classification {
    match kind
    case TlsHandshake => ClassifyTls(p)
    case HttpRequest => ClassifyHttp(p)
  }

  /** The first classifier that finishes names the protocol; otherwise one that waits is enough to wait. */
  function Combine(kinds: seq<Kind>, p: seq<byte>): (Classification, Option<L7Proto>) {
    if kinds == [] then (Error, None)
    else
      var first, rest := ClassifyOne(kinds[0], p), Combine(kinds[1..], p);
      if first.Finished? then (Finished, Some(kinds[0].Protocol()))
      else if rest.0.Error? then (first, None)
      else rest
  }

  class Classifier {
    var classifiers: seq<Kind>

    constructor ()
      ensures classifiers == []
    {
      classifiers := [];
    }

    method Add(kind: Kind)
      modifies this
      ensures classifiers == old(classifiers) + [kind]
    {
      classifiers := classifiers + [kind];
    }

    method Classify(packets: seq<Packet>) returns (r: (Classification, Option<L7Proto>))
      ensures r == Combine(classifiers, Payloads(packets))
    {
      var fullPayload := ConcatSorted(packets);
      var reasmCounter := 0;
      for i := 0 to |classifiers|
        invariant reasmCounter >= 0
        invariant Combine(classifiers, fullPayload) == Pending(reasmCounter > 0, Combine(classifiers[i..], fullPayload))
      {
        var res := ClassifyOne(classifiers[i], fullPayload);
        if res == Finished {
          return (Finished, Some(classifiers[i].Protocol()));
        }
        if res == Reassembling {
          reasmCounter := reasmCounter + 1;
        }
      }
      if reasmCounter > 0 {
        return (Reassembling, None);
      }
      return (Error, None);
    }
  }

  /** The verdict of the remaining classifiers, given that an earlier one waits. */
  function Pending(waiting: bool, rest: (Classification, Option<L7Proto>)): (Classification, Option<L7Proto>) {
    if waiting && rest.0.Error? then (Reassembling, None) else rest
  }

  // ----- when the combination waits -----

  ghost predicate Says(kinds: seq<Kind>, p: seq<byte>, answer: Classification) {
    exists kind :: kind in kinds && ClassifyOne(kind, p) == answer
  }

  lemma {:induction false} SaysCons(kinds: seq<Kind>, p: seq<byte>, answer: Classification)
    requires kinds != []
    ensures Says(kinds, p, answer) <==> ClassifyOne(kinds[0], p) == answer || Says(kinds[1..], p, answer)
  {
    hide ClassifyOne;
    assert kinds == [kinds[0]] + kinds[1..];
    if kind :| kind in kinds && ClassifyOne(kind, p) == answer {
      assert kind == kinds[0] || kind in kinds[1..];
    }
  }

  /** The combination finishes exactly if one of the classifiers does, waits exactly if none does and
      one of them waits, and gives up exactly if all of them do. */
  lemma {:induction false} CombineExactly(kinds: seq<Kind>, p: seq<byte>)
    ensures Combine(kinds, p).0 == Finished <==> Says(kinds, p, Finished)
    ensures Combine(kinds, p).0 == Reassembling <==> !Says(kinds, p, Finished) && Says(kinds, p, Reassembling)
    ensures Combine(kinds, p).0 == Error <==> forall kind :: kind in kinds ==> ClassifyOne(kind, p) == Error
  {
    hide ClassifyOne;
    if kinds == [] {
    } else {
      CombineExactly(kinds[1..], p);
      SaysCons(kinds, p, Finished);
      SaysCons(kinds, p, Reassembling);
      assert kinds == [kinds[0]] + kinds[1..];
    }
  }

  // ----- classification only moves forward -----

  /** Finishing is final, and a payload worth waiting for never becomes an error. */
  ghost predicate Forward(before: Classification, after: Classification) {
    (before.Finished? ==> after.Finished?) && (before.Reassembling? ==> !after.Error?)
  }

  lemma {:induction false} TlsForward(p: seq<byte>, q: seq<byte>)
    ensures Forward(ClassifyTls(p), ClassifyTls(p + q))
    ensures |p| >= TLS_HDR_LEN && ClassifyTls(p).Error? ==> ClassifyTls(p + q).Error?
  {
    if |p| >= 5 {
      assert (p + q)[..5] == p[..5];
      assert forall i :: 0 <= i < 5 ==> (p + q)[i] == p[i];
    }
  }

  lemma {:induction false} HttpForward(p: seq<byte>, q: seq<byte>)
    ensures Forward(ClassifyHttp(p), ClassifyHttp(p + q))
  {
    var eol := Search(p, CRLF, Same, 0);
    if eol.Some? {
      SearchExtend(p, q, CRLF, Same, 0);
      assert (p + q)[..eol.value] == p[..eol.value];
      if Search(p, HEADER_END, Same, 0).Some? {
        SearchExtend(p, q, HEADER_END, Same, 0);
      }
    }
  }

  /** Appending bytes moves the combined verdict forward too, whatever classifiers are listed in whatever order. */
  lemma {:induction false} CombineForward(kinds: seq<Kind>, p: seq<byte>, q: seq<byte>)
    ensures Forward(Combine(kinds, p).0, Combine(kinds, p + q).0)
  {
    hide ClassifyTls;
    hide ClassifyHttp;
    if kinds == [] {
    } else {
      TlsForward(p, q);
      HttpForward(p, q);
      CombineForward(kinds[1..], p, q);
    }
  }

  // ----- the protocol may change -----

  ghost predicate FinishesFirst(kinds: seq<Kind>, p: seq<byte>, i: nat) {
    && i < |kinds| && ClassifyOne(kinds[i], p).Finished?
    && forall j :: 0 <= j < i ==> !ClassifyOne(kinds[j], p).Finished?
  }

  lemma {:induction false} CombineFirst(kinds: seq<Kind>, p: seq<byte>, i: nat)
    requires FinishesFirst(kinds, p, i)
    ensures Combine(kinds, p) == (Finished, Some(kinds[i].Protocol()))
  {
    hide ClassifyOne;
    if i == 0 {
    } else {
      assert FinishesFirst(kinds[1..], p, i - 1);
      CombineFirst(kinds[1..], p, i - 1);
    }
  }

  /** A finished classification keeps its protocol on a longer payload exactly when no classifier
      listed before the winner finishes on the longer payload. */
  lemma {:induction false} ProtocolKeptExactly(kinds: seq<Kind>, p: seq<byte>, q: seq<byte>, i: nat)
    requires FinishesFirst(kinds, p, i)
    ensures Combine(kinds, p + q).1 == Combine(kinds, p).1
      <==> forall j :: 0 <= j < i ==> !ClassifyOne(kinds[j], p + q).Finished?
  {
    TlsForward(p, q);
    HttpForward(p, q);
    hide ClassifyTls;
    hide ClassifyHttp;
    CombineFirst(kinds, p, i);
    assert forall j :: 0 <= j < i ==> kinds[j] != kinds[i];
    if j: nat :| j < i && ClassifyOne(kinds[j], p + q).Finished? {
      var first := EarliestFinish(kinds, p + q, j);
      CombineFirst(kinds, p + q, first);
    } else {
      CombineFirst(kinds, p + q, i);
    }
  }

  /** A TLS handshake record of this many bytes begins here. */
  ghost predicate BeginsRecord(p: seq<byte>, length: nat) {
    |p| >= TLS_HDR_LEN && p[0] == 0x16 && p[1] == 0x03 && (p[2] == 0x01 || p[2] == 0x03) && TLS_HDR_LEN + ReadBe16(p, 3) == length
  }

  lemma {:induction false} RequestLength(p: seq<byte>)
    requires ClassifyHttp(p).Finished?
    ensures |p| >= TLS_HDR_LEN
  {
    var eol := Search(p, CRLF, Same, 0).value;
    assert Search(p[..eol], HTTP_NAME, Same, 0).Some? && |p[..eol]| >= |HTTP_NAME|;
  }

  lemma {:induction false} RecordEnds(p: seq<byte>, q: seq<byte>)
    requires |p| >= TLS_HDR_LEN
    ensures ClassifyTls(p + q).Finished? <==> exists n: nat :: BeginsRecord(p, n) && n <= |p| + |q|
  {
    assert forall i :: 0 <= i < 5 ==> (p + q)[i] == p[i];
    assert ReadBe16(p + q, 3) == ReadBe16(p, 3);
    assert ClassifyTls(p + q).Finished? ==> BeginsRecord(p, TLS_HDR_LEN + ReadBe16(p, 3));
  }

  /** For a request: the protocol changes exactly if its first five bytes also begin a TLS record that
      ends within the longer payload, and TLS is listed before HTTP. */
  lemma {:induction false} RequestKeptExactly(kinds: seq<Kind>, p: seq<byte>, q: seq<byte>, i: nat)
    requires FinishesFirst(kinds, p, i) && kinds[i] == HttpRequest
    ensures Combine(kinds, p + q).1 != Combine(kinds, p).1
      <==> TlsHandshake in kinds[..i] && exists n: nat :: BeginsRecord(p, n) && n <= |p| + |q|
  {
    hide ClassifyTls; hide ClassifyHttp; hide BeginsRecord; hide Combine;
    RequestLength(p);
    RecordEnds(p, q);
    ProtocolKeptExactly(kinds, p, q, i);
    assert forall j :: 0 <= j < i ==> kinds[j] == TlsHandshake;
    assert i > 0 ==> kinds[..i][0] == kinds[0];
  }

  lemma {:induction false} EarliestFinish(kinds: seq<Kind>, p: seq<byte>, j: nat) returns (i: nat)
    requires j < |kinds| && ClassifyOne(kinds[j], p).Finished?
    ensures i <= j && FinishesFirst(kinds, p, i)
  {
    hide ClassifyOne;
    if k: nat :| k < j && ClassifyOne(kinds[k], p).Finished? {
      i := EarliestFinish(kinds, p, k);
    } else {
      i := j;
    }
  }

  /** It does change: this payload is HTTP until one more byte completes a TLS record around it. */
  lemma {:induction false} ProtocolCanChange()
    ensures var kinds, p := [TlsHandshake, HttpRequest], [0x16, 3, 1, 0, 10] + HTTP_NAME + HEADER_END;
      Combine(kinds, p) == (Finished, Some(Http)) && Combine(kinds, p + [0]) == (Finished, Some(Tls))
  {
    hide ClassifyHttp; hide ClassifyTls; hide Combine;
    var kinds, p := [TlsHandshake, HttpRequest], [0x16, 3, 1, 0, 10] + HTTP_NAME + HEADER_END;
    RequestIn10(p);
    RecordOf10(p);
    assert FinishesFirst(kinds, p, 1);
    CombineFirst(kinds, p, 1);
    CombineFirst(kinds, p + [0], 0);
  }

  lemma {:induction false} RequestIn10(p: seq<byte>)
    requires p == [0x16, 3, 1, 0, 10] + HTTP_NAME + HEADER_END
    ensures ClassifyHttp(p).Finished?
  {
    assert p == [0x16, 3, 1, 0, 10, 72, 84, 84, 80, 47, 13, 10, 13, 10];
    FirstAt10(p);
  }

  lemma {:induction false} RecordOf10(p: seq<byte>)
    requires |p| == 14 && p[0] == 0x16 && p[1] == 3 && p[2] == 1 && p[3] == 0 && p[4] == 10
    ensures ClassifyTls(p).Reassembling? && ClassifyTls(p + [0]).Finished?
  {
    assert ReadBe16(p, 3) == ReadBe16(p + [0], 3) == 10;
  }

  lemma {:induction false} FirstAt10(p: seq<byte>)
    requires p == [0x16, 3, 1, 0, 10, 72, 84, 84, 80, 47, 13, 10, 13, 10]
    ensures Search(p, CRLF, Same, 0) == Some(10) && Search(p, HEADER_END, Same, 0).Some?
    ensures Search(p[..10], HTTP_NAME, Same, 0).Some?
  {
    forall j | 0 <= j < 10 ensures !MatchesAt(p, CRLF, Same, j) {
      assert MatchesAt(p, CRLF, Same, j) ==> Same(p[j + 0]) == Same(CRLF[0]);
    }
    SearchIs(p, CRLF, Same, 0, 10);
    assert MatchesAt(p, HEADER_END, Same, 10);
    assert MatchesAt(p[..10], HTTP_NAME, Same, 5);
  }
}
