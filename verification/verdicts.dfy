/** Accept verdicts through the pipeline: for an accepted packet the kernel sends the captured bytes,
    not the edited ones, so the verdict may only be left on packets whose data is untouched. */
module Verdicts {
  import opened Base
  import opened Serial
  import opened Packets
  import opened Checksum
  import opened Reassembly
  import opened Splitting
  import opened Segmentation
  import opened Markers
  import opened Modifiers
  import opened StreamKept
  import Health

  /** An accepted packet and the packet it was: same id, same payload, its place moved by `shift`. */
  ghost predicate Was(q: Packet, p: Packet, shift: int) {
    q.action == Accept && q.id == p.id && q.payload == p.payload && !q.isFake && p.tcp.seqNo == Wrap(q.tcp.seqNo + shift)
  }

  ghost predicate Traced(before: seq<Packet>, p: Packet, shift: int) {
    exists q :: q in before && Was(q, p, shift)
  }

  /** No drop verdict without a replacement, and decoys are only sent. */
  ghost predicate Sober(ps: seq<Packet>) {
    forall i :: 0 <= i < |ps| ==> ps[i].action != Drop && (ps[i].isFake ==> ps[i].action == Send)
  }

  /** The ids of the packets left to the kernel. */
  function AcceptIds(ps: seq<Packet>): multiset<u32> {
    if ps == [] then multiset{}
    else (if ps[0].action == Accept then multiset{ps[0].id} else multiset{}) + AcceptIds(ps[1..])
  }

  /** Some original is sent by the program itself. */
  ghost predicate Loose(ps: seq<Packet>) {
    exists i :: 0 <= i < |ps| && !ps[i].isFake && ps[i].action != Accept
  }

  ghost predicate AllTraced(before: seq<Packet>, after: seq<Packet>, shift: int) {
    forall i :: 0 <= i < |after| && !after[i].isFake && after[i].action == Accept ==> Traced(before, after[i], shift)
  }

  /** Accept verdicts only disappear, and originals come loose exactly when one does. */
  ghost predicate Sheds(before: seq<Packet>, after: seq<Packet>) {
    Sober(before) ==>
      && Sober(after) && AcceptIds(after) <= AcceptIds(before)
      && (Loose(after) <==> Loose(before) || AcceptIds(after) != AcceptIds(before))
  }

  /** What every step keeps: an accept verdict after it was there before, on the same data. */
  ghost predicate Intact(before: seq<Packet>, after: seq<Packet>, shift: int) {
    AllTraced(before, after, shift) && Sheds(before, after)
  }

  // ----- the relation -----

  lemma {:induction false} OwnTrace(ps: seq<Packet>, p: Packet)
    ensures p in ps && p.action == Accept && !p.isFake ==> Traced(ps, p, 0)
  {
    WrapSmall(p.tcp.seqNo);
    if p in ps && p.action == Accept && !p.isFake {
      assert Was(p, p, 0);
    }
  }

  lemma {:induction false} IntactSelf(ps: seq<Packet>)
    ensures Intact(ps, ps, 0)
  {
    forall i | 0 <= i < |ps| && !ps[i].isFake && ps[i].action == Accept ensures Traced(ps, ps[i], 0) {
      OwnTrace(ps, ps[i]);
    }
  }

  lemma {:induction false} TracedTrans(a: seq<Packet>, b: seq<Packet>, p: Packet, s: int, t: int)
    requires AllTraced(a, b, s) && Traced(b, p, t)
    ensures Traced(a, p, s + t)
  {
    hide Wrap;
    var q :| q in b && Was(q, p, t);
    var j :| 0 <= j < |b| && b[j] == q;
    var o :| o in a && Was(o, q, s);
    WrapSum(o.tcp.seqNo + s, t);
    assert Was(o, p, s + t);
  }

  lemma {:induction false} IntactTrans(a: seq<Packet>, b: seq<Packet>, c: seq<Packet>, s: int, t: int)
    requires Intact(a, b, s) && Intact(b, c, t)
    ensures Intact(a, c, s + t)
  {
    hide Traced; hide Sober; hide Loose;
    forall i | 0 <= i < |c| && !c[i].isFake && c[i].action == Accept ensures Traced(a, c[i], s + t) {
      TracedTrans(a, b, c[i], s, t);
    }
    MultisetSandwich(AcceptIds(a), AcceptIds(b), AcceptIds(c));
  }

  lemma {:induction false} MultisetSandwich(a: multiset<u32>, b: multiset<u32>, c: multiset<u32>)
    ensures c <= b && b <= a ==> c <= a && (c == a <==> c == b && b == a)
  {
  }

  // ----- accept verdicts of lists -----

  lemma {:induction false} AcceptConcat(a: seq<Packet>, b: seq<Packet>)
    ensures AcceptIds(a + b) == AcceptIds(a) + AcceptIds(b)
  {
    if a == [] {
      assert a + b == b;
    } else {
      assert (a + b)[1..] == a[1..] + b;
      AcceptConcat(a[1..], b);
    }
  }

  lemma {:induction false} AcceptOfOne(p: Packet)
    ensures AcceptIds([p]) == if p.action == Accept then multiset{p.id} else multiset{}
  {
    assert [p][1..] == [];
  }

  lemma {:induction false} AcceptNone(ps: seq<Packet>)
    requires forall i :: 0 <= i < |ps| ==> ps[i].action != Accept
    ensures AcceptIds(ps) == multiset{}
  {
    if ps == [] {
    } else {
      AcceptNone(ps[1..]);
    }
  }

  lemma {:induction false} AcceptAround(ps: seq<Packet>, i: nat, mid: seq<Packet>)
    requires i < |ps|
    ensures AcceptIds(ps) == AcceptIds(ps[..i]) + AcceptIds([ps[i]]) + AcceptIds(ps[i + 1..])
    ensures AcceptIds(ps[..i] + mid + ps[i + 1..]) == AcceptIds(ps[..i]) + AcceptIds(mid) + AcceptIds(ps[i + 1..])
  {
    assert ps == ps[..i] + [ps[i]] + ps[i + 1..];
    AcceptConcat(ps[..i] + [ps[i]], ps[i + 1..]);
    AcceptConcat(ps[..i], [ps[i]]);
    AcceptConcat(ps[..i] + mid, ps[i + 1..]);
    AcceptConcat(ps[..i], mid);
  }

  /** Replacing a packet takes its accept verdict away and touches no other. */
  lemma {:induction false} AcceptReplaced(ps: seq<Packet>, i: nat, mid: seq<Packet>)
    requires i < |ps| && forall j :: 0 <= j < |mid| ==> mid[j].action != Accept
    ensures AcceptIds(ps) == AcceptIds(ps[..i] + mid + ps[i + 1..])
                             + if ps[i].action == Accept then multiset{ps[i].id} else multiset{}
  {
    hide AcceptIds;
    AcceptAround(ps, i, mid);
    AcceptNone(mid);
    AcceptOfOne(ps[i]);
  }

  lemma {:induction false} AcceptMember(ps: seq<Packet>, id: u32)
    ensures id in AcceptIds(ps) <==> exists i :: 0 <= i < |ps| && ps[i].action == Accept && ps[i].id == id
  {
    if ps == [] {
    } else {
      AcceptMember(ps[1..], id);
      if i :| 0 <= i < |ps| && ps[i].action == Accept && ps[i].id == id {
        assert i > 0 ==> ps[1..][i - 1] == ps[i];
      }
      if j :| 0 <= j < |ps[1..]| && ps[1..][j].action == Accept && ps[1..][j].id == id {
        assert ps[j + 1] == ps[1..][j];
      }
    }
  }

  // ----- replacing one packet -----

  /** What a packet may be replaced by. */
  ghost predicate Stands(p: Packet, mid: seq<Packet>) {
    && mid != []
    && forall j :: 0 <= j < |mid| ==>
         && mid[j].action != Accept && mid[j].isFake == p.isFake
         && (p.action != Drop ==> mid[j].action != Drop) && (p.action == Send ==> mid[j].action == Send)
  }

  lemma {:induction false} ReplaceIntact(ps: seq<Packet>, i: nat, mid: seq<Packet>)
    requires i < |ps| && Stands(ps[i], mid)
    ensures Intact(ps, ps[..i] + mid + ps[i + 1..], 0)
  {
    hide Traced; hide AcceptIds;
    var out := ps[..i] + mid + ps[i + 1..];
    forall j | 0 <= j < |out|
      ensures out[j].action == Accept && !out[j].isFake ==> Traced(ps, out[j], 0)
    {
      OwnTrace(ps, out[j]);
    }
    AcceptReplaced(ps, i, mid);
    if Sober(ps) {
      ReplaceSober(ps, i, mid);
      ReplaceLoose(ps, i, mid);
    }
  }

  lemma {:induction false} ReplaceSober(ps: seq<Packet>, i: nat, mid: seq<Packet>)
    requires i < |ps| && Stands(ps[i], mid) && Sober(ps)
    ensures Sober(ps[..i] + mid + ps[i + 1..])
  {
    var out := ps[..i] + mid + ps[i + 1..];
    forall j | 0 <= j < |out| ensures out[j].action != Drop && (out[j].isFake ==> out[j].action == Send) {
      assert out[j] == if j < i then ps[j] else if j < i + |mid| then mid[j - i] else ps[j - |mid| + 1];
    }
  }

  lemma {:induction false} ReplaceLoose(ps: seq<Packet>, i: nat, mid: seq<Packet>)
    requires i < |ps| && Stands(ps[i], mid) && Sober(ps)
    ensures Loose(ps[..i] + mid + ps[i + 1..]) <==> Loose(ps) || ps[i].action == Accept
  {
    var out := ps[..i] + mid + ps[i + 1..];
    assert out[i] == mid[0];
    if j :| 0 <= j < |ps| && !ps[j].isFake && ps[j].action != Accept {
      assert out[if j < i then j else if j == i then i else j + |mid| - 1] == if j == i then mid[0] else ps[j];
    }
    if j :| 0 <= j < |out| && !out[j].isFake && out[j].action != Accept {
      assert out[j] == if j < i then ps[j] else if j < i + |mid| then mid[j - i] else ps[j - |mid| + 1];
    }
  }

  // ----- splits and overlaps -----

  lemma {:induction false} HalvesStand(p: Packet, at: nat)
    requires at <= |p.payload|
    ensures Stands(p, [FirstPart(p, at), SecondPart(p, at)])
  {
    hide TcpChecksum; hide Narrow; hide Wrap;
  }

  lemma {:induction false} SplitAtIntact(ps: seq<Packet>, at: Place)
    requires at.index < |ps| && at.offset <= |ps[at.index].payload|
    ensures Intact(ps, SplitAt(ps, at), 0)
  {
    hide FirstPart; hide SecondPart; hide Intact; hide Stands;
    var p := ps[at.index];
    HalvesStand(p, at.offset);
    ReplaceIntact(ps, at.index, [FirstPart(p, at.offset), SecondPart(p, at.offset)]);
  }

  lemma {:induction false} SplitIntact(ps: seq<Packet>, pos: Position, ctx: Context)
    requires Split(ps, pos, ctx).Done?
    ensures Intact(ps, Split(ps, pos, ctx).value, 0)
  {
    hide Intact; hide SplitAt; hide FindPacketByOffset; hide SplitTarget;
    IntactSelf(ps);
    var target := SplitTarget(pos, ctx);
    if target.Some? && FindPacketByOffset(ps, target.value).Some? {
      SplitAtIntact(ps, FindPacketByOffset(ps, target.value).value);
    }
  }

  lemma {:induction false} SplitsIntact(ps: seq<Packet>, splits: seq<Position>, ctx: Context)
    requires SplitAll(ps, splits, ctx).Done?
    ensures Intact(ps, SplitAll(ps, splits, ctx).value, 0)
    decreases |splits|
  {
    hide Intact; hide Split;
    if splits == [] {
      IntactSelf(ps);
    } else {
      var next := Split(ps, splits[0], ctx).value;
      SplitIntact(ps, splits[0], ctx);
      SplitsIntact(next, splits[1..], ctx);
      IntactTrans(ps, next, SplitAll(next, splits[1..], ctx).value, 0, 0);
    }
  }

  lemma {:induction false} OverlappedStands(p: Packet, payload: seq<byte>, start: u32)
    ensures Stands(p, [Overlapped(p, payload, start)])
  {
    hide Wrap; hide TcpChecksum; hide Narrow;
  }

  lemma {:induction false} SegmentizeStands(payload: seq<byte>, room: nat, p: Packet, start: u32)
    requires room > 0 && payload != []
    ensures Stands(p, Segmentize(payload, room, p, start))
  {
    hide Chunks;
    var chunks := Chunks(payload, room, p, start);
    ChunksPartition(payload, room, p, start);
    forall i | 0 <= i < |chunks| ensures NoDuty(chunks[i]) && chunks[i].isFake == p.isFake {
      assert ChunkAt(chunks, i, room, p, start);
    }
  }

  lemma {:induction false} OverlapIntact(ps: seq<Packet>, i: nat, length: nat, pattern: Option<seq<byte>>, room: u64)
    requires i < |ps| && Widenable(ps[i], length, pattern, room)
    ensures Intact(ps, Overlap(ps, i, length, pattern, room).value, 0)
  {
    hide Intact; hide Padding; hide Stands; hide Overlapped; hide Segmentize; hide Wrap;
    var p, pad := ps[i], if length == 0 then [] else Padding(length, pattern);
    var payload, start := pad + p.payload, Wrap(p.tcp.seqNo - Wrap(|pad|));
    if |payload| <= room {
      OverlappedStands(p, payload, start);
    } else {
      SegmentizeStands(payload, room, p, start);
    }
    ReplaceIntact(ps, i, Widened(p, pad, room).value);
  }

  // ----- passes over the originals -----

  ghost predicate SameLabels(q: Packet, p: Packet) {
    p.action == q.action && p.id == q.id && p.isFake == q.isFake
  }

  ghost predicate MovedBy(q: Packet, p: Packet, shift: int) {
    SameLabels(q, p) && p.payload == q.payload && p.tcp.seqNo == Wrap(q.tcp.seqNo + shift)
  }

  /** Fakes are untouched; originals keep their verdict fields and their data, and move by `shift`. */
  ghost predicate Shifted(a: seq<Packet>, b: seq<Packet>, shift: int) {
    |a| == |b| && forall i :: 0 <= i < |a| ==> if a[i].isFake then b[i] == a[i] else MovedBy(a[i], b[i], shift)
  }

  lemma {:induction false} ShiftedAccept(a: seq<Packet>, b: seq<Packet>, shift: int)
    requires Shifted(a, b, shift)
    ensures AcceptIds(a) == AcceptIds(b)
  {
    if a == [] {
    } else {
      ShiftedAccept(a[1..], b[1..], shift);
    }
  }

  lemma {:induction false} ShiftedTraced(a: seq<Packet>, b: seq<Packet>, shift: int)
    requires Shifted(a, b, shift)
    ensures AllTraced(a, b, shift) && |b| == |a| && forall i :: 0 <= i < |a| ==> SameLabels(a[i], b[i])
  {
    hide Wrap;
    forall i | 0 <= i < |b| && !b[i].isFake && b[i].action == Accept ensures Traced(a, b[i], shift) {
      assert a[i] in a && Was(a[i], b[i], shift);
    }
  }

  lemma {:induction false} ShiftedIntact(a: seq<Packet>, b: seq<Packet>, shift: int)
    requires Shifted(a, b, shift)
    ensures Intact(a, b, shift)
  {
    ShiftedAccept(a, b, shift);
    ShiftedTraced(a, b, shift);
    hide Shifted; hide AllTraced; hide AcceptIds;
    if i :| 0 <= i < |a| && !a[i].isFake && a[i].action != Accept {
      assert SameLabels(a[i], b[i]);
    }
    if i :| 0 <= i < |b| && !b[i].isFake && b[i].action != Accept {
      assert SameLabels(a[i], b[i]);
    }
  }

  lemma {:induction false} ShiftedSelf(ps: seq<Packet>)
    ensures Shifted(ps, ps, 0)
  {
    forall i | 0 <= i < |ps| ensures MovedBy(ps[i], ps[i], 0) {
      WrapSmall(ps[i].tcp.seqNo);
    }
  }

  lemma {:induction false} ShiftedTrans(a: seq<Packet>, b: seq<Packet>, c: seq<Packet>, s: int, t: int)
    requires Shifted(a, b, s) && Shifted(b, c, t)
    ensures Shifted(a, c, s + t)
  {
    hide Wrap;
    forall i | 0 <= i < |a| && !a[i].isFake ensures MovedBy(a[i], c[i], s + t) {
      assert MovedBy(a[i], b[i], s) && MovedBy(b[i], c[i], t);
      WrapSum(a[i].tcp.seqNo + s, t);
    }
  }

  lemma {:induction false} PassShifted(ps: seq<Packet>, f: Packet -> Packet, shift: int)
    requires forall p :: MovedBy(p, f(p), shift)
    ensures Shifted(ps, Pass(ps, false, f), shift)
  {
    hide MovedBy;
    PassAt(ps, false, f);
  }

  lemma {:induction false} TtlShifted(ps: seq<Packet>, ttl: Option<byte>)
    ensures Shifted(ps, TtlPass(ps, false, ttl), 0)
  {
    ShiftedSelf(ps);
    if ttl.Some? {
      forall p ensures MovedBy(p, TtlSetter(ttl.value)(p), 0) {
        WrapSmall(p.tcp.seqNo);
      }
      PassShifted(ps, TtlSetter(ttl.value), 0);
    }
  }

  lemma {:induction false} BadShifted(ps: seq<Packet>, badcksum: bool)
    ensures Shifted(ps, BadPass(ps, false, badcksum), 0)
  {
    ShiftedSelf(ps);
    if badcksum {
      forall p ensures MovedBy(p, Spoiler()(p), 0) {
        WrapSmall(p.tcp.seqNo);
      }
      PassShifted(ps, Spoiler(), 0);
    }
  }

  lemma {:induction false} ResequenceMoves(p: Packet, offset: int)
    ensures MovedBy(p, Resequence(p, offset), offset)
  {
    hide TcpChecksum; hide Wrap;
  }

  lemma {:induction false} SeqShifted(ps: seq<Packet>, args: Args)
    ensures Shifted(ps, SeqPass(ps, false, args.seqOffset), Offset(args))
  {
    ShiftedSelf(ps);
    hide MovedBy; hide Resequence;
    if args.seqOffset.Some? {
      var offset := args.seqOffset.value;
      forall p ensures MovedBy(p, Resequencer(offset)(p), offset) {
        ResequenceMoves(p, offset);
      }
      PassShifted(ps, Resequencer(offset), offset);
    }
  }

  lemma {:induction false} RestampMoves(p: Packet, offset: int)
    requires Restamp(p, offset).Done?
    ensures MovedBy(p, Restamp(p, offset).value, 0)
  {
    WrapSmall(p.tcp.seqNo);
    hide TcpChecksum; hide ShiftTimestamp; hide Wrap;
  }

  lemma {:induction false} TsShifted(ps: seq<Packet>, offset: Option<int>)
    requires TsPass(ps, false, offset).Done?
    ensures Shifted(ps, TsPass(ps, false, offset).value, 0)
  {
    ShiftedSelf(ps);
    hide Restamp; hide MovedBy;
    if offset.Some? {
      var to := StampPass(ps, false, offset.value).value;
      StampPassAt(ps, false, offset.value);
      forall i | 0 <= i < |ps| ensures if ps[i].isFake then to[i] == ps[i] else MovedBy(ps[i], to[i], 0) {
        assert Stamped(ps, to, i, false, offset.value);
        if !ps[i].isFake {
          RestampMoves(ps[i], offset.value);
        }
      }
    }
  }

  // ----- reversal and decoys -----

  lemma {:induction false} AcceptByKind(ps: seq<Packet>)
    ensures AcceptIds(ps) == AcceptIds(Fakes(ps)) + AcceptIds(Originals(ps))
  {
    if ps == [] {
    } else {
      AcceptByKind(ps[1..]);
      AcceptConcat(if ps[0].isFake then [ps[0]] else [], Fakes(ps[1..]));
      AcceptConcat(if ps[0].isFake then [] else [ps[0]], Originals(ps[1..]));
      AcceptOfOne(ps[0]);
    }
  }

  lemma {:induction false} AcceptReversed(s: seq<Packet>)
    ensures AcceptIds(Reverse(s)) == AcceptIds(s)
  {
    if s == [] {
    } else {
      AcceptReversed(s[1..]);
      AcceptConcat(Reverse(s[1..]), [s[0]]);
      AcceptOfOne(s[0]);
    }
  }

  lemma {:induction false} ReverseAccept(ps: seq<Packet>)
    ensures AcceptIds(FilteredReverse(ps)) == AcceptIds(ps)
  {
    FilteredReverseParts(ps);
    hide FilteredReverse;
    AcceptByKind(ps);
    AcceptByKind(FilteredReverse(ps));
    AcceptReversed(Originals(ps));
  }

  lemma {:induction false} MembersIntact(a: seq<Packet>, b: seq<Packet>)
    requires (forall p :: p in a <==> p in b) && AcceptIds(a) == AcceptIds(b)
    ensures Intact(a, b, 0)
  {
    hide Traced; hide AcceptIds;
    forall i | 0 <= i < |b| && !b[i].isFake && b[i].action == Accept ensures Traced(a, b[i], 0) {
      assert b[i] in b;
      OwnTrace(a, b[i]);
    }
    if Sober(a) {
      forall i | 0 <= i < |b| ensures b[i].action != Drop && (b[i].isFake ==> b[i].action == Send) {
        assert b[i] in b;
      }
    }
    LooseMembers(a, b);
    LooseMembers(b, a);
  }

  lemma {:induction false} LooseMembers(a: seq<Packet>, b: seq<Packet>)
    requires forall p :: p in a <==> p in b
    ensures Loose(a) ==> Loose(b)
  {
    if i :| 0 <= i < |a| && !a[i].isFake && a[i].action != Accept {
      assert a[i] in b;
    }
  }

  lemma {:induction false} ReverseIntact(ps: seq<Packet>)
    ensures Intact(ps, FilteredReverse(ps), 0)
  {
    FilteredReverseParts(ps);
    hide FilteredReverse; hide Intact;
    var out := FilteredReverse(ps);
    ReverseAccept(ps);
    ReverseMembers(Originals(ps));
    forall p ensures p in ps <==> p in out {
      Health.MembersByKind(ps, p);
      Health.MembersByKind(out, p);
    }
    MembersIntact(ps, out);
  }

  lemma {:induction false} NoDutyNoAccept(ps: seq<Packet>)
    requires Health.Duties(ps) == multiset{}
    ensures forall i :: 0 <= i < |ps| ==> ps[i].action == Send
  {
    if ps == [] {
    } else {
      assert Health.Duties(ps)[ps[0].id] == 0;
      NoDutyNoAccept(ps[1..]);
    }
  }

  lemma {:induction false} AllMarked(ps: seq<Packet>)
    ensures |MarkFake(ps)| == |ps| && forall i :: 0 <= i < |ps| ==> MarkFake(ps)[i].isFake
  {
    if ps == [] {
    } else {
      AllMarked(ps[1..]);
    }
  }

  lemma {:induction false} DecoysAccept(front: Packet, blob: seq<byte>, fakes: seq<Packet>, ps: seq<Packet>)
    requires Health.Keeps([FakePacket(front, blob)], fakes, false)
    ensures var marked := MarkFake(fakes);
      && AcceptIds(marked + ps) == AcceptIds(ps)
      && forall i :: 0 <= i < |marked| ==> marked[i].isFake && marked[i].action == Send
  {
    hide FakePacket; hide MarkFake; hide Health.Keeps; hide Health.Duties; hide AcceptIds;
    var marked := MarkFake(fakes);
    Health.FakesOnly(fakes, blob, front, false);
    NoDutyNoAccept(marked);
    AllMarked(fakes);
    AcceptNone(marked);
    AcceptConcat(marked, ps);
  }

  lemma {:induction false} DecoysIntact(front: Packet, blob: seq<byte>, fakes: seq<Packet>, ps: seq<Packet>)
    requires Health.Keeps([FakePacket(front, blob)], fakes, false)
    ensures Intact(ps, MarkFake(fakes) + ps, 0)
  {
    hide FakePacket; hide MarkFake; hide Health.Keeps; hide Health.Duties; hide AcceptIds;
    DecoysAccept(front, blob, fakes, ps);
    PrependIntact(MarkFake(fakes), ps);
  }

  lemma {:induction false} PrependIntact(marked: seq<Packet>, ps: seq<Packet>)
    requires forall i :: 0 <= i < |marked| ==> marked[i].isFake && marked[i].action == Send
    requires AcceptIds(marked + ps) == AcceptIds(ps)
    ensures Intact(ps, marked + ps, 0)
  {
    hide Traced; hide AcceptIds;
    var out := marked + ps;
    forall i | 0 <= i < |out| ensures out[i].action == Accept && !out[i].isFake ==> Traced(ps, out[i], 0) {
      OwnTrace(ps, out[i]);
    }
    if i :| 0 <= i < |ps| && !ps[i].isFake && ps[i].action != Accept {
      assert out[|marked| + i] == ps[i];
    }
  }

  // ----- the modifiers -----

  lemma {:induction false} SplitterIntact(ps: seq<Packet>, args: Args, overlap: Option<nat>, ctx: Context)
    requires SplitterOriginals(ps, args, overlap, ctx).Done?
    ensures Intact(ps, SplitterOriginals(ps, args, overlap, ctx).value, Offset(args))
  {
    hide SplitAll; hide TtlPass; hide TsPass; hide SeqPass; hide BadPass; hide Intact; hide Shifted; hide SplitterOverlap;
    var cut := SplitAll(ps, args.splits, ctx).value;
    SplitsIntact(ps, args.splits, ctx);
    var lived := TtlPass(cut, false, args.ipv4Ttl);
    TtlShifted(cut, args.ipv4Ttl);
    ShiftedIntact(cut, lived, 0);
    IntactTrans(ps, cut, lived, 0, 0);
    var timed := TsPass(lived, false, args.tsOffset).value;
    TsShifted(lived, args.tsOffset);
    ShiftedIntact(lived, timed, 0);
    IntactTrans(ps, lived, timed, 0, 0);
    var wide := if overlap.None? then timed else SplitterOverlap(timed, overlap.value, args, ctx).value;
    IntactSelf(timed);
    if overlap.Some? {
      SplitterOverlapIntact(timed, overlap.value, args, ctx);
    }
    IntactTrans(ps, timed, wide, 0, 0);
    var shifted := SeqPass(wide, false, args.seqOffset);
    SeqShifted(wide, args);
    ShiftedIntact(wide, shifted, Offset(args));
    IntactTrans(ps, wide, shifted, 0, Offset(args));
    BadShifted(shifted, args.badcksum);
    ShiftedIntact(shifted, BadPass(shifted, false, args.badcksum), 0);
    IntactTrans(ps, shifted, BadPass(shifted, false, args.badcksum), Offset(args), 0);
  }

  lemma {:induction false} SplitterOverlapIntact(ps: seq<Packet>, length: nat, args: Args, ctx: Context)
    requires SplitterOverlap(ps, length, args, ctx).Done?
    ensures Intact(ps, SplitterOverlap(ps, length, args, ctx).value, 0)
  {
    hide Intact; hide Overlap;
    var i := FirstOriginal(ps);
    IntactSelf(ps);
    if i < |ps| {
      OverlapIntact(ps, i, length, args.seqovlPattern, PayloadRoom(ctx.mss, ps[i], SPLITTER_TCP_BASE));
    }
  }

  lemma {:induction false} DisorderOverlapIntact(ps: seq<Packet>, pos: Position, args: Args, ctx: Context)
    requires DisorderOverlap(ps, pos, args, ctx).Done?
    ensures Intact(ps, DisorderOverlap(ps, pos, args, ctx).value, 0)
  {
    hide Intact; hide Overlap; hide OverlapLength;
    var i, length := FirstOriginal(ps), OverlapLength(pos, ctx.marks).value;
    IntactSelf(ps);
    if i + 1 < |ps| && length.Some? {
      if length.value < |ps[0].payload| {
        OverlapIntact(ps, i + 1, length.value, args.seqovlPattern, PayloadRoom(ctx.mss, ps[i + 1], DISORDER_TCP_BASE));
      }
    }
  }

  lemma {:induction false} DisorderIntact(ps: seq<Packet>, args: Args, overlap: Option<Position>, ctx: Context)
    requires DisorderOriginals(ps, args, overlap, ctx).Done?
    ensures Intact(ps, DisorderOriginals(ps, args, overlap, ctx).value, Offset(args))
  {
    hide SplitAll; hide TtlPass; hide TsPass; hide SeqPass; hide BadPass; hide Intact; hide Shifted; hide DisorderOverlap;
    var d := Offset(args);
    var cut := SplitAll(ps, args.splits, ctx).value;
    SplitsIntact(ps, args.splits, ctx);
    var shifted := SeqPass(cut, false, args.seqOffset);
    SeqShifted(cut, args);
    ShiftedIntact(cut, shifted, d);
    IntactTrans(ps, cut, shifted, 0, d);
    var timed := TsPass(shifted, false, args.tsOffset).value;
    TsShifted(shifted, args.tsOffset);
    ShiftedIntact(shifted, timed, 0);
    IntactTrans(ps, shifted, timed, d, 0);
    var lived := TtlPass(timed, false, args.ipv4Ttl);
    TtlShifted(timed, args.ipv4Ttl);
    ShiftedIntact(timed, lived, 0);
    IntactTrans(ps, timed, lived, d, 0);
    var wide := if overlap.None? then lived else DisorderOverlap(lived, overlap.value, args, ctx).value;
    IntactSelf(lived);
    if overlap.Some? {
      DisorderOverlapIntact(lived, overlap.value, args, ctx);
    }
    IntactTrans(ps, lived, wide, d, 0);
    var bad := BadPass(wide, false, args.badcksum);
    BadShifted(wide, args.badcksum);
    ShiftedIntact(wide, bad, 0);
    IntactTrans(ps, wide, bad, d, 0);
    BadShifted(bad, args.badcksum);
    ShiftedIntact(bad, BadPass(bad, false, args.badcksum), 0);
    IntactTrans(ps, bad, BadPass(bad, false, args.badcksum), d, 0);
  }

  lemma {:induction false} ModifyOneIntact(m: Mod, ps: seq<Packet>, ctx: Context)
    requires ModifyOne(m, ps, ctx).Done?
    ensures Intact(ps, ModifyOne(m, ps, ctx).value, Displacement(m))
  {
    hide Intact; hide FakePacket; hide SplitterOriginals; hide DisorderOriginals; hide SplitterFakes; hide DisorderFakes;
    hide FilteredReverse; hide Health.Keeps; hide Offset;
    var args := m.args;
    match m {
      case Splitter(_, overlap) =>
        if args.fakeBlob.None? {
          SplitterIntact(ps, args, overlap, ctx);
        } else {
          var fake := FakePacket(ps[0], args.fakeBlob.value);
          Health.SplitterFakesKeep([fake], args, false);
          DecoysIntact(ps[0], args.fakeBlob.value, SplitterFakes([fake], args).value, ps);
        }
      case Disorder(_, overlapAt) =>
        if args.fakeBlob.None? {
          var out := DisorderOriginals(ps, args, overlapAt, ctx).value;
          DisorderIntact(ps, args, overlapAt, ctx);
          ReverseIntact(out);
          IntactTrans(ps, out, FilteredReverse(out), Offset(args), 0);
        } else {
          var fake := FakePacket(ps[0], args.fakeBlob.value);
          var out := MarkFake(DisorderFakes([fake], args).value) + ps;
          Health.DisorderFakesKeep([fake], args, false);
          DecoysIntact(ps[0], args.fakeBlob.value, DisorderFakes([fake], args).value, ps);
          ReverseIntact(out);
          IntactTrans(ps, out, FilteredReverse(out), 0, 0);
        }
    }
  }

  lemma {:induction false} ModifyAllIntact(mods: seq<Mod>, ps: seq<Packet>, ctx: Context)
    requires ModifyAll(mods, ps, ctx).Done?
    ensures Intact(ps, ModifyAll(mods, ps, ctx).value, Moved(mods, ctx.proto))
    decreases |mods|
  {
    hide Intact; hide ModifyOne; hide Displacement;
    if mods == [] {
      IntactSelf(ps);
    } else if !Matches(mods[0], ctx.proto) {
      ModifyAllIntact(mods[1..], ps, ctx);
    } else {
      var next := ModifyOne(mods[0], ps, ctx).value;
      ModifyOneIntact(mods[0], ps, ctx);
      ModifyAllIntact(mods[1..], next, ctx);
      IntactTrans(ps, next, ModifyAll(mods[1..], next, ctx).value, Displacement(mods[0]), Moved(mods[1..], ctx.proto));
    }
  }

  /** Whatever the modifiers do, overlaps and decoys included: an original they leave to be accepted
      came in to be accepted, with its id and its whole payload, and its number moved by exactly the
      sum of their offsets; accept verdicts only disappear, and the program sends originals itself
      exactly when one did. */
  lemma {:induction false} AcceptedAreIntact(config: Config, ps: seq<Packet>, proto: L7Proto, mss: nat)
    requires Modify(config, ps, proto, mss).Done?
    ensures Intact(ps, Modify(config, ps, proto, mss).value, Moved(Running(config, ps, proto), proto))
  {
    hide ModifyAll; hide Modify; hide Intact; hide Running; hide Moved;
    ModifyRuns(config, ps, proto, mss);
    assert RunContext(ps, proto, mss).proto == proto;
    hide RunContext;
    ModifyAllIntact(Running(config, ps, proto), ps, RunContext(ps, proto, mss));
  }
}
