/** Connection state over whole packet runs. */
module Lifecycle {
  import opened Base
  import opened Serial
  import opened Packets
  import opened Conntrack

  /** The state after a run of packets on a new connection. */
  function TrackRun(hs: seq<TcpHeader>): Outcome<Tcp> {
    if hs == [] then Done(NEW_TCP)
    else
      match TrackRun(hs[..|hs| - 1])
      case Fault => Fault
      case Done(t) => TrackTcp(t, hs[|hs| - 1])
  }

  /** The MSS is the one that the last SYN named, whatever came after it; without any SYN it is 536. */
  lemma {:induction false} MssFromSyn(hs: seq<TcpHeader>, i: nat, mss: nat)
    requires TrackRun(hs).Done? && i <= |hs| && forall j :: i <= j < |hs| ==> !hs[j].Syn()
    requires i > 0 ==> hs[i - 1].Syn() && ParseMss(hs[i - 1].options) == Done(Some(mss))
    ensures TrackRun(hs).value.mss == if i > 0 then mss else 536
    decreases |hs|
  {
    hide ParseMss;
    if |hs| == 0 {
    } else {
      if i < |hs| {
        MssFromSyn(hs[..|hs| - 1], i, mss);
      }
    }
  }

  // ----- what the states stand for, read off the run -----

  ghost predicate FirstSyn(hs: seq<TcpHeader>, i: nat) {
    i < |hs| && hs[i].Syn() && forall j :: 0 <= j < i ==> !hs[j].Syn()
  }

  /** The handshake is seen to succeed at e: the first SYN carries an ACK there, or e acknowledges
      from the sequence number right behind a first SYN without one. */
  ghost predicate Answers(hs: seq<TcpHeader>, i: nat, e: nat) {
    && FirstSyn(hs, i) && i <= e < |hs| && hs[e].Ack()
    && (i == e || (!hs[i].Ack() && hs[e].seqNo == Wrap(hs[i].seqNo + 1)))
  }

  ghost predicate Established(hs: seq<TcpHeader>, e: nat) {
    exists i: nat :: Answers(hs, i, e)
  }

  ghost predicate EverEstablished(hs: seq<TcpHeader>) {
    exists e: nat :: Established(hs, e)
  }

  ghost predicate FinishedAt(hs: seq<TcpHeader>, e: nat, k: nat) {
    e <= k < |hs| && Established(hs, e) && hs[k].Fin()
  }

  ghost predicate EverFinished(hs: seq<TcpHeader>) {
    exists e: nat, k: nat :: FinishedAt(hs, e, k)
  }

  ghost predicate EverReset(hs: seq<TcpHeader>) {
    exists i :: 0 <= i < |hs| && hs[i].Rst()
  }

  ghost predicate EverSyn(hs: seq<TcpHeader>) {
    exists i: nat :: FirstSyn(hs, i)
  }

  /** The state in terms of the whole run, without stepping through it. */
  ghost function StateOf(hs: seq<TcpHeader>): TcpState {
    if EverReset(hs) then Closed
    else if EverFinished(hs) then Fin
    else if EverEstablished(hs) then Estab
    else if EverSyn(hs) then Syn
    else NoState
  }

  // ----- one packet more -----

  lemma {:induction false} FirstSynSnoc(hs: seq<TcpHeader>, h: TcpHeader, i: nat)
    ensures FirstSyn(hs + [h], i) <==> FirstSyn(hs, i) || (i == |hs| && h.Syn() && !EverSyn(hs))
  {
    var more := hs + [h];
    assert more[|hs|] == h && forall j :: 0 <= j < |hs| ==> more[j] == hs[j];
    if j: nat :| j < |hs| && hs[j].Syn() {
      EarliestSyn(hs, j);
      assert more[j].Syn();
    }
  }

  lemma {:induction false} EarliestSyn(hs: seq<TcpHeader>, j: nat)
    requires j < |hs| && hs[j].Syn()
    ensures EverSyn(hs)
  {
    if k: nat :| k < j && hs[k].Syn() {
      EarliestSyn(hs, k);
    } else {
      assert FirstSyn(hs, j);
    }
  }

  lemma {:induction false} EstablishedSnoc(hs: seq<TcpHeader>, h: TcpHeader, e: nat)
    ensures Established(hs + [h], e) <==> Established(hs, e) || (e == |hs| && Opens(hs, h))
  {
    forall i: nat
      ensures Answers(hs + [h], i, e) <==> Answers(hs, i, e) || (e == |hs| && OpensFrom(hs, h, i))
    {
      FirstSynSnoc(hs, h, i);
    }
    assert Established(hs, e) ==> exists i: nat :: Answers(hs, i, e);
    if e == |hs| && Opens(hs, h) {
      var i: nat :| OpensFrom(hs, h, i);
      assert Answers(hs + [h], i, e);
    }
    if Established(hs, e) {
      var i: nat :| Answers(hs, i, e);
      assert Answers(hs + [h], i, e);
    }
  }

  ghost predicate OpensFrom(hs: seq<TcpHeader>, h: TcpHeader, i: nat) {
    && h.Ack()
    && ((i == |hs| && h.Syn() && !EverSyn(hs))
        || (FirstSyn(hs, i) && !hs[i].Ack() && h.seqNo == Wrap(hs[i].seqNo + 1)))
  }

  /** The next packet is one that establishes. */
  ghost predicate Opens(hs: seq<TcpHeader>, h: TcpHeader) {
    exists i: nat :: OpensFrom(hs, h, i)
  }

  lemma {:induction false} EverSnoc(hs: seq<TcpHeader>, h: TcpHeader)
    ensures EverReset(hs + [h]) <==> EverReset(hs) || h.Rst()
    ensures EverSyn(hs + [h]) <==> EverSyn(hs) || h.Syn()
    ensures EverEstablished(hs + [h]) <==> EverEstablished(hs) || Opens(hs, h)
    ensures EverFinished(hs + [h])
      <==> EverFinished(hs) || (h.Fin() && EverEstablished(hs + [h]))
  {
    var more := hs + [h];
    assert more[|hs|] == h && forall i :: 0 <= i < |hs| ==> more[i] == hs[i];
    ResetSnoc(hs, h);
    SynSnoc(hs, h);
    forall e: nat ensures Established(more, e) <==> Established(hs, e) || (e == |hs| && Opens(hs, h)) {
      EstablishedSnoc(hs, h, e);
    }
    FinishedSnoc(hs, h);
    if Opens(hs, h) {
      assert Established(more, |hs|);
    }
  }

  lemma {:induction false} ResetSnoc(hs: seq<TcpHeader>, h: TcpHeader)
    ensures EverReset(hs + [h]) <==> EverReset(hs) || h.Rst()
  {
    var more := hs + [h];
    if EverReset(hs) {
      var i :| 0 <= i < |hs| && hs[i].Rst();
      assert more[i].Rst();
    }
    if h.Rst() {
      assert more[|hs|].Rst();
    }
  }

  lemma {:induction false} SynSnoc(hs: seq<TcpHeader>, h: TcpHeader)
    ensures EverSyn(hs + [h]) <==> EverSyn(hs) || h.Syn()
  {
    forall i: nat ensures FirstSyn(hs + [h], i) <==> FirstSyn(hs, i) || (i == |hs| && h.Syn() && !EverSyn(hs)) {
      FirstSynSnoc(hs, h, i);
    }
    if h.Syn() && !EverSyn(hs) {
      assert FirstSyn(hs + [h], |hs|);
    }
  }

  lemma {:induction false} FinishedSnoc(hs: seq<TcpHeader>, h: TcpHeader)
    requires forall e: nat :: Established(hs + [h], e) <==> Established(hs, e) || (e == |hs| && Opens(hs, h))
    ensures EverFinished(hs + [h])
      <==> EverFinished(hs) || (h.Fin() && EverEstablished(hs + [h]))
  {
    hide Established;
    var more := hs + [h];
    EstablishedInside(hs);
    EstablishedInside(more);
    if EverFinished(hs) {
      var e: nat, k: nat :| FinishedAt(hs, e, k);
      assert FinishedAt(more, e, k);
    }
    if h.Fin() && EverEstablished(more) {
      var e: nat :| Established(more, e);
      assert FinishedAt(more, e, |hs|);
    }
    if EverFinished(more) {
      var e: nat, k: nat :| FinishedAt(more, e, k);
      if k < |hs| {
        assert FinishedAt(hs, e, k);
      }
    }
  }

  lemma {:induction false} EstablishedInside(hs: seq<TcpHeader>)
    ensures forall e: nat :: Established(hs, e) ==> e < |hs|
  {
    forall e: nat | Established(hs, e) ensures e < |hs| {
      var i: nat :| Answers(hs, i, e);
    }
  }

  // ----- the machine agrees with the run -----

  /** While a SYN waits for its answer, the expected number is the one behind it. */
  ghost predicate Awaits(t: Tcp, hs: seq<TcpHeader>) {
    t.state == Syn ==> forall i: nat :: FirstSyn(hs, i) ==> !hs[i].Ack() && t.expectedSeq == Wrap(hs[i].seqNo + 1)
  }

  /** In the waiting state the next packet establishes exactly if it acknowledges from the expected number. */
  lemma {:induction false} OpensExactly(t: Tcp, hs: seq<TcpHeader>, h: TcpHeader)
    requires Awaits(t, hs)
    requires t.state == Syn ==> EverSyn(hs)
    requires t.state == NoState ==> !EverSyn(hs)
    ensures t.state == Syn ==> (Opens(hs, h) <==> h.Ack() && h.seqNo == t.expectedSeq)
    ensures t.state == NoState ==> (Opens(hs, h) <==> h.Ack() && h.Syn())
  {
    if t.state == Syn {
      var i: nat :| FirstSyn(hs, i);
      assert OpensFrom(hs, h, i) <==> h.Ack() && h.seqNo == t.expectedSeq;
    }
    if t.state == NoState {
      assert OpensFrom(hs, h, |hs|) <==> h.Ack() && h.Syn();
    }
  }

  /** The five-state machine computes exactly what the run as a whole says: closed after any RST;
      otherwise finished, established or waiting as the handshake and a later FIN were seen. */
  lemma {:induction false} StateIsReadOff(hs: seq<TcpHeader>)
    requires TrackRun(hs).Done?
    ensures TrackRun(hs).value.state == StateOf(hs)
    ensures Awaits(TrackRun(hs).value, hs)
    decreases |hs|
  {
    hide StateOf;
    if hs == [] {
      NothingYet();
    } else {
      var init, h := hs[..|hs| - 1], hs[|hs| - 1];
      StateIsReadOff(init);
      assert hs == init + [h];
      StepAgrees(TrackRun(init).value, init, h);
    }
  }

  lemma {:induction false} NothingYet()
    ensures StateOf([]) == NoState
  {
    EstablishedInside([]);
  }

  lemma {:induction false} Implied(hs: seq<TcpHeader>)
    ensures EverFinished(hs) ==> EverEstablished(hs)
    ensures EverEstablished(hs) ==> EverSyn(hs)
  {
    if EverFinished(hs) {
      var e: nat, k: nat :| FinishedAt(hs, e, k);
    }
    if EverEstablished(hs) {
      var e: nat :| Established(hs, e);
      var i: nat :| Answers(hs, i, e);
    }
  }

  lemma {:induction false} StepAgrees(t: Tcp, hs: seq<TcpHeader>, h: TcpHeader)
    requires t.state == StateOf(hs) && Awaits(t, hs) && TrackTcp(t, h).Done?
    ensures TrackTcp(t, h).value.state == StateOf(hs + [h])
    ensures Awaits(TrackTcp(t, h).value, hs + [h])
  {
    Implied(hs);
    hide EverReset; hide EverFinished; hide EverEstablished; hide EverSyn; hide Opens;
    hide ParseMss; hide Wrap;
    hide TcpHeader.Fin; hide TcpHeader.Syn; hide TcpHeader.Rst; hide TcpHeader.Ack;
    OpensExactly(t, hs, h);
    EverSnoc(hs, h);
    AwaitsStep(t, hs, h);
  }

  lemma {:induction false} AwaitsStep(t: Tcp, hs: seq<TcpHeader>, h: TcpHeader)
    requires Awaits(t, hs) && TrackTcp(t, h).Done?
    requires t.state == NoState ==> !EverSyn(hs)
    requires t.state == Syn ==> EverSyn(hs)
    ensures Awaits(TrackTcp(t, h).value, hs + [h])
  {
    hide ParseMss;
    hide TcpHeader.Fin; hide TcpHeader.Rst; hide TcpHeader.Ack;
    var t' := TrackTcp(t, h).value;
    if t'.state == Syn {
      forall i: nat | FirstSyn(hs + [h], i)
        ensures !(hs + [h])[i].Ack() && t'.expectedSeq == Wrap((hs + [h])[i].seqNo + 1)
      {
        FirstSynSnoc(hs, h, i);
      }
    }
  }

  // ----- consequences over runs -----

  /** Along any run the rank never falls, so a closed connection stays closed. */
  lemma {:induction false} RankNeverFalls(hs: seq<TcpHeader>, more: seq<TcpHeader>)
    requires TrackRun(hs + more).Done?
    ensures TrackRun(hs).Done?
    ensures TrackRun(hs).value.state.Rank() <= TrackRun(hs + more).value.state.Rank()
    ensures TrackRun(hs).value.state == Closed ==> TrackRun(hs + more).value.state == Closed
    decreases |more|
  {
    if more == [] {
      assert hs + more == hs;
    } else {
      var init := more[..|more| - 1];
      assert (hs + more)[..|hs + more| - 1] == hs + init;
      assert (hs + more)[|hs + more| - 1] == more[|more| - 1];
      RankNeverFalls(hs, init);
    }
  }
}
