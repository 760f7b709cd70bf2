/** First occurrence of a byte pattern: `string_view::find` and `ranges::search`. */
module Searching {
  import opened Base

  const CRLF: seq<byte> := [13, 10]

  function Same(b: byte): byte {
    b
  }

  /** `tolower` on ASCII. */
  function Lower(b: byte): byte {
    if 65 <= b <= 90 then b + 32 else b
  }

  predicate MatchesAt(s: seq<byte>, pat: seq<byte>, norm: byte -> byte, i: nat) {
    i + |pat| <= |s| && forall k :: 0 <= k < |pat| ==> norm(s[i + k]) == norm(pat[k])
  }

  function Search(s: seq<byte>, pat: seq<byte>, norm: byte -> byte, from: nat): (found: Option<nat>)
    ensures found.Some? ==> from <= found.value && MatchesAt(s, pat, norm, found.value)
    ensures found.Some? ==> forall j :: from <= j < found.value ==> !MatchesAt(s, pat, norm, j)
    ensures found.None? ==> forall j :: from <= j ==> !MatchesAt(s, pat, norm, j)
    decreases |s| - from
  {
    if from + |pat| > |s| then None
    else if MatchesAt(s, pat, norm, from) then Some(from)
    else Search(s, pat, norm, from + 1)
  }

  lemma {:induction false} SearchIs(s: seq<byte>, pat: seq<byte>, norm: byte -> byte, from: nat, at: nat)
    requires from <= at && MatchesAt(s, pat, norm, at)
    requires forall j :: from <= j < at ==> !MatchesAt(s, pat, norm, j)
    ensures Search(s, pat, norm, from) == Some(at)
  {
  }

  lemma {:induction false} MatchesExtend(s: seq<byte>, more: seq<byte>, pat: seq<byte>, norm: byte -> byte, i: nat)
    requires i + |pat| <= |s|
    ensures MatchesAt(s + more, pat, norm, i) <==> MatchesAt(s, pat, norm, i)
  {
  }

  /** A first occurrence stays the first one when bytes are appended. */
  lemma {:induction false} SearchExtend(s: seq<byte>, more: seq<byte>, pat: seq<byte>, norm: byte -> byte, from: nat)
    requires Search(s, pat, norm, from).Some?
    ensures Search(s + more, pat, norm, from) == Search(s, pat, norm, from)
  {
    var at := Search(s, pat, norm, from).value;
    forall j | from <= j <= at ensures MatchesAt(s + more, pat, norm, j) <==> MatchesAt(s, pat, norm, j) {
      MatchesExtend(s, more, pat, norm, j);
    }
    SearchIs(s + more, pat, norm, from, at);
  }
}
