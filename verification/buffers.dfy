/** The reassembly buffer over whole arrival runs. */
module Buffers {
  import opened Base
  import opened Serial
  import opened Sorting
  import opened Packets
  import opened Checksum
  import opened Reassembly
  import opened Tiling
  import opened Conntrack

  /** The buffer after a run of arrivals. */
  function InsertAll(views: seq<PacketView>): seq<Packet> {
    if views == [] then [] else Inserted(InsertAll(views[..|views| - 1]), views[|views| - 1])
  }

  ghost function OffsetFrom(p: Packet, origin: u32): u32 {
    Dist(p.tcp.seqNo, origin)
  }

  /** Sequence numbers strictly increase from the origin on and stay in its half-circle. */
  ghost predicate StrictlyAscending(segs: seq<Packet>, origin: u32) {
    && (forall i :: 0 <= i < |segs| ==> OffsetFrom(segs[i], origin) < 0x8000_0000)
    && forall i, j :: 0 <= i < j < |segs| ==> OffsetFrom(segs[i], origin) < OffsetFrom(segs[j], origin)
  }

  /** A data packet in the window; captured packets are no longer than their 16-bit length field says. */
  ghost predicate Arrives(view: PacketView, origin: u32) {
    Dist(view.tcp.seqNo, origin) < 0x8000_0000 && 0 < |view.payload| <= 0xFFFF
  }

  ghost predicate Sized(segs: seq<Packet>) {
    forall i :: 0 <= i < |segs| ==> 0 < |segs[i].payload| <= 0xFFFF
  }

  ghost predicate NoRepeat(segs: seq<Packet>) {
    forall i, j :: 0 <= i < j < |segs| ==> segs[i].tcp.seqNo != segs[j].tcp.seqNo
  }

  // ----- sorting -----

  lemma {:induction false} PrependStrict(x: Packet, s: seq<Packet>, origin: u32)
    requires StrictlyAscending(s, origin) && OffsetFrom(x, origin) < 0x8000_0000
    requires forall i :: 0 <= i < |s| ==> OffsetFrom(x, origin) < OffsetFrom(s[i], origin)
    ensures StrictlyAscending([x] + s, origin)
  {
    hide OffsetFrom;
  }

  lemma {:induction false} InsertStrict(x: Packet, s: seq<Packet>, origin: u32)
    requires StrictlyAscending(s, origin) && OffsetFrom(x, origin) < 0x8000_0000
    requires forall i :: 0 <= i < |s| ==> s[i].tcp.seqNo != x.tcp.seqNo
    ensures StrictlyAscending(Insert(x, s, SerialBefore()), origin)
  {
    hide Before; hide Dist;
    if s == [] {
      PrependStrict(x, [], origin);
      assert [x] + [] == [x];
    } else {
      BeforeInWindow(s[0].tcp.seqNo, x.tcp.seqNo, origin);
      if Before(s[0].tcp.seqNo, x.tcp.seqNo) {
        var rest := Insert(x, s[1..], SerialBefore());
        InsertStrict(x, s[1..], origin);
        InsertMembers(x, s[1..], SerialBefore());
        forall i | 0 <= i < |rest| ensures OffsetFrom(s[0], origin) < OffsetFrom(rest[i], origin) {
          assert rest[i] in rest;
        }
        hide StrictlyAscending;
        PrependStrict(s[0], rest, origin);
      } else {
        SameDist(s[0].tcp.seqNo, x.tcp.seqNo, origin);
        PrependStrict(x, s, origin);
      }
    }
  }

  lemma {:induction false} SameDist(a: u32, b: u32, origin: u32)
    requires a != b
    ensures Dist(a, origin) != Dist(b, origin)
  {
  }

  lemma {:induction false} SortStrict(s: seq<Packet>, origin: u32)
    requires NoRepeat(s) && forall i :: 0 <= i < |s| ==> OffsetFrom(s[i], origin) < 0x8000_0000
    ensures StrictlyAscending(Sorted(s), origin)
  {
    if s == [] {
    } else {
      var rest := Sorted(s[1..]);
      SortStrict(s[1..], origin);
      SortMembers(s[1..], SerialBefore());
      forall i | 0 <= i < |rest| ensures rest[i].tcp.seqNo != s[0].tcp.seqNo {
        assert rest[i] in s[1..];
      }
      InsertStrict(s[0], rest, origin);
    }
  }

  lemma {:induction false} SortIdleHere(s: seq<Packet>, origin: u32)
    requires StrictlyAscending(s, origin)
    ensures Sorted(s) == s
  {
    var key := (p: Packet) => Dist(p.tcp.seqNo, origin) as int;
    forall p, q | p in s && q in s ensures SerialBefore()(p, q) <==> key(p) < key(q) {
      BeforeInWindow(p.tcp.seqNo, q.tcp.seqNo, origin);
    }
    forall i, j | 0 <= i < j < |s| ensures key(s[i]) <= key(s[j]) {
      assert OffsetFrom(s[i], origin) < OffsetFrom(s[j], origin);
    }
    SortIdle(s, SerialBefore(), key);
  }

  lemma {:induction false} HasMember(s: seq<Packet>)
    ensures s != [] ==> exists p :: p in s
  {
    if s != [] {
      assert s[0] in s;
    }
  }

  /** Two strictly ascending lists with the same members are the same list, so every correct sort
      gives this one. */
  lemma {:induction false} AscendingUnique(a: seq<Packet>, b: seq<Packet>, origin: u32)
    requires StrictlyAscending(a, origin) && StrictlyAscending(b, origin)
    requires forall p :: p in a <==> p in b
    ensures a == b
  {
    if a == [] {
      HasMember(b);
    } else {
      assert a[0] in b && b[0] in a;
      assert a[0] == b[0];
      forall p ensures p in a[1..] <==> p in b[1..] {
        assert p in a[1..] ==> p in a && p != a[0];
        assert p in b[1..] ==> p in b && p != b[0];
      }
      AscendingUnique(a[1..], b[1..], origin);
    }
  }

  // ----- one arrival -----

  /** The fast path fires only behind the last held number. */
  lemma {:induction false} FollowsAhead(last: Packet, view: PacketView, origin: u32)
    requires Follows(last, view) && 0 < |last.payload| <= 0xFFFF
    requires OffsetFrom(last, origin) < 0x8000_0000
    ensures OffsetFrom(last, origin) < Dist(view.tcp.seqNo, origin)
  {
    DistAdd(last.tcp.seqNo, origin, |last.payload|);
    WrapSmall(last.tcp.seqNo + |last.payload|);
  }

  /** The fast path changes nothing: a new arrival is always appended and sorted in. */
  lemma {:induction false} FastPathIsSort(segs: seq<Packet>, view: PacketView, origin: u32)
    requires StrictlyAscending(segs, origin) && Sized(segs) && Arrives(view, origin)
    ensures Inserted(segs, view) == if Duplicate(segs, view) then segs else Sorted(segs + [CreatePacket(view)])
  {
    hide Sorted; hide Follows;
    var p := CreatePacket(view);
    if segs == [] {
      assert segs + [p] == [p];
      SortIdleHere([p], origin);
    } else if Follows(segs[|segs| - 1], view) {
      FollowsAhead(segs[|segs| - 1], view, origin);
      SortIdleHere(segs + [p], origin);
    }
  }

  lemma {:induction false} InsertKeeps(segs: seq<Packet>, view: PacketView, origin: u32)
    requires StrictlyAscending(segs, origin) && Sized(segs) && Arrives(view, origin)
    ensures StrictlyAscending(Inserted(segs, view), origin) && Sized(Inserted(segs, view))
    ensures forall p :: p in Inserted(segs, view) <==> p in segs || (p == CreatePacket(view) && !Duplicate(segs, view))
  {
    FastPathIsSort(segs, view, origin);
    hide Sorted; hide Inserted;
    var more := segs + [CreatePacket(view)];
    if !Duplicate(segs, view) {
      forall i, j | 0 <= i < j < |more| ensures more[i].tcp.seqNo != more[j].tcp.seqNo {
        assert j < |segs| ==> OffsetFrom(segs[i], origin) < OffsetFrom(segs[j], origin);
      }
      SortStrict(more, origin);
      SortedMembers(more);
      var out := Sorted(more);
      forall i | 0 <= i < |out| ensures 0 < |out[i].payload| <= 0xFFFF {
        assert out[i] in more;
      }
    }
  }

  lemma {:induction false} SortedMembers(s: seq<Packet>)
    ensures forall p :: p in Sorted(s) <==> p in s
  {
    SortMembers(s, SerialBefore());
  }

  // ----- whole runs -----

  ghost predicate AllArrive(views: seq<PacketView>, origin: u32) {
    forall i :: 0 <= i < |views| ==> Arrives(views[i], origin)
  }

  /** The first arrival with its sequence number. */
  ghost predicate FirstArrival(views: seq<PacketView>, i: nat) {
    i < |views| && forall j :: 0 <= j < i ==> views[j].tcp.seqNo != views[i].tcp.seqNo
  }

  ghost predicate HeldFrom(views: seq<PacketView>, p: Packet) {
    exists i: nat :: FirstArrival(views, i) && p == CreatePacket(views[i])
  }

  lemma {:induction false} HeldFromSnoc(views: seq<PacketView>, view: PacketView, p: Packet)
    ensures HeldFrom(views + [view], p)
      <==> HeldFrom(views, p) || (p == CreatePacket(view) && forall j :: 0 <= j < |views| ==> views[j].tcp.seqNo != view.tcp.seqNo)
  {
    var more := views + [view];
    assert more[|views|] == view && forall i :: 0 <= i < |views| ==> more[i] == views[i];
    forall i: nat | i < |views| ensures FirstArrival(more, i) <==> FirstArrival(views, i) {
    }
    assert FirstArrival(more, |views|) <==> forall j :: 0 <= j < |views| ==> views[j].tcp.seqNo != view.tcp.seqNo;
    if HeldFrom(views, p) {
      var i: nat :| FirstArrival(views, i) && p == CreatePacket(views[i]);
      assert FirstArrival(more, i) && p == CreatePacket(more[i]);
    }
    if p == CreatePacket(view) && FirstArrival(more, |views|) {
      assert p == CreatePacket(more[|views|]);
    }
    if HeldFrom(more, p) {
      var i: nat :| FirstArrival(more, i) && p == CreatePacket(more[i]);
    }
  }

  lemma {:induction false} EarliestArrival(views: seq<PacketView>, j: nat) returns (i: nat)
    requires j < |views|
    ensures i <= j && FirstArrival(views, i) && views[i].tcp.seqNo == views[j].tcp.seqNo
  {
    if k: nat :| k < j && views[k].tcp.seqNo == views[j].tcp.seqNo {
      i := EarliestArrival(views, k);
    } else {
      i := j;
    }
  }

  /** Whatever the order of arrivals in a half-circle window, the buffer is the list of the first
      arrivals, one per sequence number, in strictly increasing serial order. */
  lemma {:induction false} BufferIsFirstArrivals(views: seq<PacketView>, origin: u32)
    requires AllArrive(views, origin)
    ensures StrictlyAscending(InsertAll(views), origin) && Sized(InsertAll(views))
    ensures forall p :: p in InsertAll(views) <==> HeldFrom(views, p)
    decreases |views|
  {
    if views == [] {
    } else {
      var init, view := views[..|views| - 1], views[|views| - 1];
      var segs := InsertAll(init);
      assert views == init + [view];
      BufferIsFirstArrivals(init, origin);
      InsertKeeps(segs, view, origin);
      DuplicateMeansSeen(init, view, segs);
      hide Inserted; hide InsertAll;
      assert InsertAll(views) == Inserted(segs, view) by {
        InsertAllSnoc(init, view);
      }
      forall p ensures p in Inserted(segs, view) <==> HeldFrom(views, p) {
        HeldFromSnoc(init, view, p);
      }
    }
  }

  lemma {:induction false} InsertAllSnoc(views: seq<PacketView>, view: PacketView)
    ensures InsertAll(views + [view]) == Inserted(InsertAll(views), view)
  {
    assert (views + [view])[..|views|] == views;
  }

  lemma {:induction false} DuplicateMeansSeen(views: seq<PacketView>, view: PacketView, segs: seq<Packet>)
    requires forall p :: p in segs <==> HeldFrom(views, p)
    ensures Duplicate(segs, view) <==> exists j :: 0 <= j < |views| && views[j].tcp.seqNo == view.tcp.seqNo
  {
    if Duplicate(segs, view) {
      var k :| 0 <= k < |segs| && segs[k].tcp.seqNo == view.tcp.seqNo;
      assert segs[k] in segs;
      var i: nat :| FirstArrival(views, i) && segs[k] == CreatePacket(views[i]);
      assert views[i].tcp.seqNo == view.tcp.seqNo;
    }
    if j :| 0 <= j < |views| && views[j].tcp.seqNo == view.tcp.seqNo {
      var i := EarliestArrival(views, j);
      assert HeldFrom(views, CreatePacket(views[i]));
      var k :| 0 <= k < |segs| && segs[k] == CreatePacket(views[i]);
      assert segs[k].tcp.seqNo == view.tcp.seqNo;
    }
  }

  /** Without retransmissions the order of arrival leaves no trace. */
  lemma {:induction false} ArrivalOrderFree(a: seq<PacketView>, b: seq<PacketView>, origin: u32)
    requires AllArrive(a, origin) && AllArrive(b, origin)
    requires forall v :: v in a <==> v in b
    requires forall i, j :: 0 <= i < j < |a| ==> a[i].tcp.seqNo != a[j].tcp.seqNo
    requires forall i, j :: 0 <= i < j < |b| ==> b[i].tcp.seqNo != b[j].tcp.seqNo
    ensures InsertAll(a) == InsertAll(b)
  {
    hide InsertAll;
    BufferIsFirstArrivals(a, origin);
    BufferIsFirstArrivals(b, origin);
    forall p ensures p in InsertAll(a) <==> p in InsertAll(b) {
      HeldMeansArrived(a, p);
      HeldMeansArrived(b, p);
    }
    AscendingUnique(InsertAll(a), InsertAll(b), origin);
  }

  lemma {:induction false} HeldMeansArrived(views: seq<PacketView>, p: Packet)
    requires forall i, j :: 0 <= i < j < |views| ==> views[i].tcp.seqNo != views[j].tcp.seqNo
    ensures HeldFrom(views, p) <==> exists v :: v in views && p == CreatePacket(v)
  {
    if HeldFrom(views, p) {
      var i: nat :| FirstArrival(views, i) && p == CreatePacket(views[i]);
      assert views[i] in views;
    }
    if v :| v in views && p == CreatePacket(v) {
      var i: nat :| i < |views| && views[i] == v;
      assert FirstArrival(views, i);
    }
  }

  // ----- plain concatenation of the held packets -----

  lemma {:induction false} NextStarts(segs: seq<Packet>, i: nat, stream: seq<byte>, origin: u32)
    requires StrictlyAscending(segs, origin) && Sized(segs) && Tiles(segs, stream, origin) && i + 1 < |segs|
    ensures OffsetFrom(segs[i + 1], origin) == OffsetFrom(segs[i], origin) + |segs[i].payload|
  {
    var end, next := OffsetFrom(segs[i], origin) + |segs[i].payload|, OffsetFrom(segs[i + 1], origin);
    assert SliceOf(SegmentOf(segs[i + 1]), stream, origin);
    assert Holds(segs, i + 1, next, origin);
    if next < end {
      assert Holds(segs, i, next, origin);
    }
    if end < next {
      assert Occupied(segs, end, origin);
      var j: int :| Holds(segs, j, end, origin);
      assert OffsetFrom(segs[j], origin) <= end;
      if j < i {
        assert OffsetFrom(segs[j], origin) < OffsetFrom(segs[i], origin);
        assert Holds(segs, j, OffsetFrom(segs[i], origin), origin) && Holds(segs, i, OffsetFrom(segs[i], origin), origin);
      }
    }
  }

  lemma {:induction false} SeqFromDist(a: u32, b: u32, n: nat, origin: u32)
    requires Dist(b, origin) == Dist(a, origin) + n && n < 0x8000_0000
    ensures b == Wrap(a + n)
  {
    DistAdd(a, origin, n);
    if b != Wrap(a + n) {
      SameDist(b, Wrap(a + n), origin);
    }
  }

  /** When the held packets tile a range of the stream, their plain concatenation, which is what
      the classifiers see, is the stream and is what `concat` reassembles. */
  lemma {:induction false} HeldTilingConcatenates(segs: seq<Packet>, stream: seq<byte>, origin: u32)
    requires StrictlyAscending(segs, origin) && Sized(segs) && Tiles(segs, stream, origin)
    requires segs != [] && |stream| < 0x8000_0000
    ensures Contiguous(segs)
    ensures Payloads(segs) == stream == Reassemble(Segments(segs))
  {
    forall i | 0 < i < |segs|
      ensures segs[i].tcp.seqNo == Wrap(segs[i - 1].tcp.seqNo + |segs[i - 1].payload|)
    {
      NextStarts(segs, i - 1, stream, origin);
      SeqFromDist(segs[i - 1].tcp.seqNo, segs[i].tcp.seqNo, |segs[i - 1].payload|, origin);
    }
    EndOf(segs, |segs|, stream, origin);
    TilesReassemble(segs, stream, origin);
    assert segs[..|segs|] == segs;
    ContiguousReassembles(segs);
  }

  lemma {:induction false} EndOf(segs: seq<Packet>, n: nat, stream: seq<byte>, origin: u32)
    requires StrictlyAscending(segs, origin) && Sized(segs) && Tiles(segs, stream, origin)
    requires 0 < n <= |segs|
    ensures stream != []
    ensures |Payloads(segs[..n])| == OffsetFrom(segs[n - 1], origin) + |segs[n - 1].payload| <= |stream|
  {
    assert SliceOf(SegmentOf(segs[n - 1]), stream, origin);
    PayloadSlice(segs, n - 1);
    if n > 1 {
      EndOf(segs, n - 1, stream, origin);
      NextStarts(segs, n - 2, stream, origin);
    } else {
      assert segs[..0] == [];
      assert Occupied(segs, 0, origin);
      var j: int :| Holds(segs, j, 0, origin);
      assert OffsetFrom(segs[j], origin) <= 0;
    }
  }
}
