/** When a run of the ledger goes on: the exact conditions under which one packet takes the program
    out of its contract. */
module Progress {
  import opened Base
  import opened Packets
  import opened Reassembly
  import opened Classify
  import opened Modifiers
  import opened Conntrack
  import opened StreamKept
  import opened Ledger
  import opened Accounts
  import Fitness

  lemma {:induction false} FinishedNames(kinds: seq<Kind>, p: seq<byte>)
    ensures Combine(kinds, p).0.Finished? ==> Combine(kinds, p).1.Some?
  {
    hide ClassifyOne;
    if kinds == [] {
    } else {
      FinishedNames(kinds[1..], p);
    }
  }

  ghost predicate PlainProfiles(settings: map<u16, Settings>) {
    forall port :: port in settings ==>
      forall i :: 0 <= i < |settings[port].config.mods| ==> NoOverlap(settings[port].config.mods[i])
  }

  /** This packet completes a request on which the profile's pipeline faults. */
  ghost predicate CompletesBadly(c: Conn, view: PacketView, settings: map<u16, Settings>)
    requires view.tcp.dest in settings
  {
    var profile, segs := settings[view.tcp.dest], Inserted(c.segs, view);
    var (verdict, proto) := Combine(profile.kinds, Payloads(segs));
    verdict.Finished? && proto.Some? && Fitness.PipelineFaults(profile.config, segs, proto.value, c.tcp.mss)
  }

  /** A SYN whose options cannot be walked, data for a port without a profile, or the end of a
      request on which the pipeline faults. */
  ghost predicate ArrivalFaults(w: World, view: PacketView, now: int, settings: map<u16, Settings>) {
    var tracked := Track(ConnAt(w.conns, KeyOf(view)), view, now);
    || (view.tcp.Syn() && ParseMss(view.tcp.options).Fault?)
    || (tracked.Done? && view.payload != [] && !tracked.value.done
        && (view.tcp.dest !in settings || CompletesBadly(tracked.value, view, settings)))
  }

  lemma {:induction false} TrackFaultsExactly(c: Conn, view: PacketView, now: int)
    ensures Track(c, view, now).Fault? <==> view.tcp.Syn() && ParseMss(view.tcp.options).Fault?
    ensures Track(c, view, now).Done? ==> Track(c, view, now).value.segs == c.segs && Track(c, view, now).value.done == c.done
  {
    hide ParseMss; hide Advance;
  }

  lemma {:induction false} DecideFaultsExactly(c: Conn, view: PacketView, settings: map<u16, Settings>)
    requires Waiting(c.segs) && view.packetId != 0 && PlainProfiles(settings)
    ensures Decide(c, view, settings).Fault?
      <==> view.payload != [] && !c.done && (view.tcp.dest !in settings || CompletesBadly(c, view, settings))
  {
    hide Combine; hide Modify; hide Emit; hide Inserted; hide Payloads; hide Waiting; hide Fitness.PipelineFaults; hide NoOverlap;
    if view.payload != [] && !c.done && view.tcp.dest in settings {
      var profile, segs := settings[view.tcp.dest], Inserted(c.segs, view);
      var (verdict, proto) := Combine(profile.kinds, Payloads(segs));
      FinishedNames(profile.kinds, Payloads(segs));
      if verdict.Finished? {
        WaitingInserted(c.segs, view);
        Fitness.PipelineFaultsExactly(profile.config, segs, proto.value, c.tcp.mss);
        if Modify(profile.config, segs, proto.value, c.tcp.mss).Done? {
          AcceptedHaveIds(profile.config, segs, proto.value, c.tcp.mss);
        }
      }
    }
  }

  lemma {:induction false} ArrivalFaultsExactly(w: World, view: PacketView, now: int, settings: map<u16, Settings>)
    requires AllWaiting(w) && view.packetId != 0 && PlainProfiles(settings)
    ensures Arrive(w, view, now, settings).Fault? <==> ArrivalFaults(w, view, now, settings)
  {
    hide Decide; hide Track; hide ParseMss; hide CompletesBadly; hide PlainProfiles; hide Waiting;
    var c := ConnAt(w.conns, KeyOf(view));
    TrackFaultsExactly(c, view, now);
    NothingHeld();
    if Track(c, view, now).Done? {
      DecideFaultsExactly(Track(c, view, now).value, view, settings);
    }
  }

  // ----- runs -----

  ghost predicate FaultsAt(es: seq<Event>, i: nat, settings: map<u16, Settings>) {
    && i < |es| && es[i].Arrival? && Run(es[..i], settings).Done?
    && ArrivalFaults(Run(es[..i], settings).value, es[i].view, es[i].now, settings)
  }

  /** With profiles without overlap a run faults exactly if one of its packets, met by the state that
      the events before it left, is such a packet. The verdict loop itself never faults. */
  lemma {:induction false} RunFaultsExactly(es: seq<Event>, settings: map<u16, Settings>)
    requires RealIds(es) && PlainProfiles(settings)
    ensures Run(es, settings).Fault? <==> exists i: nat :: FaultsAt(es, i, settings)
    decreases |es|
  {
    hide Arrive; hide Sweep; hide ArrivalFaults; hide PlainProfiles; hide AllWaiting;
    if es == [] {
      assert forall i: nat :: !FaultsAt(es, i, settings);
    } else {
      var n := |es| - 1;
      var init := es[..n];
      RunFaultsExactly(init, settings);
      forall i: nat | i < n ensures FaultsAt(es, i, settings) <==> FaultsAt(init, i, settings) {
        assert init[..i] == es[..i];
      }
      if i: nat :| FaultsAt(init, i, settings) {
        assert FaultsAt(es, i, settings);
      }
      if Run(init, settings).Done? {
        LedgerBalances(init, settings);
        if es[n].Arrival? {
          ArrivalFaultsExactly(Run(init, settings).value, es[n].view, es[n].now, settings);
        }
        assert FaultsAt(es, n, settings) <==> Run(es, settings).Fault?;
        if i: nat :| FaultsAt(es, i, settings) {
          assert i == n || FaultsAt(init, i, settings);
        }
      }
    }
  }
}
