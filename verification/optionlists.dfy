/** TCP option lists as option by option (section 3.2 of RFC 9293, section 3.2 of RFC 7323), and
    what the option walkers make of them. */
module OptionLists {
  import opened Base
  import opened Serial
  import opened Packets
  import opened Segmentation
  import opened Conntrack

  datatype TcpOption = NoOp | Other(kind: byte, body: seq<byte>)

  function LowByte(n: nat): byte {
    n % 0x100
  }

  function OptionBytes(e: TcpOption): (s: seq<byte>)
    ensures s != []
  {
    match e
    case NoOp => [1]
    case Other(kind, body) => [kind, LowByte(|body| + 2)] + body
  }

  function ListBytes(es: seq<TcpOption>): seq<byte> {
    if es == [] then [] else OptionBytes(es[0]) + ListBytes(es[1..])
  }

  /** Lengths fit their byte and none of the options is of the wanted kind. */
  ghost predicate Without(es: seq<TcpOption>, kind: byte) {
    forall i :: 0 <= i < |es| && es[i].Other? ==> es[i].kind != kind && es[i].kind != 1 && |es[i].body| + 2 < 0x100
  }

  lemma {:induction false} SkipOne(o: seq<byte>, kind: byte, at: nat, e: TcpOption, rest: seq<byte>)
    requires at <= |o| && o[at..] == OptionBytes(e) + rest && Without([e], kind) && kind != 1
    requires e.NoOp? ==> rest != []
    ensures at + |OptionBytes(e)| <= |o| && o[at + |OptionBytes(e)|..] == rest
    ensures ScanOption(o, kind, at) == ScanOption(o, kind, at + |OptionBytes(e)|)
  {
    hide ScanOption;
    DropHead(o, at, OptionBytes(e), rest);
    if e.NoOp? {
      SkipNoOp(o, kind, at);
    } else {
      assert [e][0] == e;
      SmallByte(|e.body| + 2);
      SkipOther(o, kind, at, |e.body| + 2);
    }
  }

  lemma {:induction false} DropHead(o: seq<byte>, at: nat, head: seq<byte>, rest: seq<byte>)
    requires at <= |o| && o[at..] == head + rest
    ensures at + |head| <= |o| && o[at + |head|..] == rest
    ensures forall k :: 0 <= k < |head| ==> o[at + k] == head[k]
  {
    assert o[at + |head|..] == o[at..][|head|..];
    assert forall k :: 0 <= k < |head| ==> o[at + k] == o[at..][k];
  }

  lemma {:induction false} SmallByte(n: nat)
    requires n < 0x100
    ensures LowByte(n) == n
  {
  }

  lemma {:induction false} SkipNoOp(o: seq<byte>, kind: byte, at: nat)
    requires at + 2 <= |o| && o[at] == 1
    ensures ScanOption(o, kind, at) == ScanOption(o, kind, at + 1)
  {
  }

  lemma {:induction false} SkipOther(o: seq<byte>, kind: byte, at: nat, size: nat)
    requires 2 <= size && at + size <= |o| && o[at] != 1 && o[at] != kind && o[at + 1] == size
    ensures ScanOption(o, kind, at) == ScanOption(o, kind, at + size)
  {
  }

  /** The walk passes over options of other kinds. */
  lemma {:induction false} SkipList(o: seq<byte>, kind: byte, at: nat, es: seq<TcpOption>, rest: seq<byte>)
    requires at <= |o| && o[at..] == ListBytes(es) + rest && Without(es, kind) && kind != 1 && rest != []
    ensures at + |ListBytes(es)| <= |o| && o[at + |ListBytes(es)|..] == rest
    ensures ScanOption(o, kind, at) == ScanOption(o, kind, at + |ListBytes(es)|)
    decreases es
  {
    hide OptionBytes; hide ScanOption;
    if es == [] {
    } else {
      var others := ListBytes(es[1..]) + rest;
      assert ListBytes(es) + rest == OptionBytes(es[0]) + others;
      assert Without([es[0]], kind);
      SkipOne(o, kind, at, es[0], others);
      SkipList(o, kind, at + |OptionBytes(es[0])|, es[1..], rest);
    }
  }

  lemma {:induction false} ListSnoc(es: seq<TcpOption>, e: TcpOption)
    ensures ListBytes(es + [e]) == ListBytes(es) + OptionBytes(e)
  {
    hide OptionBytes;
    if es == [] {
      assert es + [e] == [e];
    } else {
      assert (es + [e])[1..] == es[1..] + [e];
      ListSnoc(es[1..], e);
    }
  }

  /** A list without the wanted kind is walked to its end, except that a trailing no-op reads as
      a broken option. */
  lemma {:induction false} LastBytes(last: TcpOption)
    ensures OptionBytes(last) != []
  {
  }

  lemma {:induction false} LastOption(o: seq<byte>, kind: byte, at: nat, last: TcpOption)
    requires at <= |o| && o[at..] == OptionBytes(last) && Without([last], kind) && kind != 1
    ensures ScanOption(o, kind, at) == if last.NoOp? then Malformed else Absent
  {
    hide OptionBytes; hide ScanOption;
    if last.Other? {
      assert OptionBytes(last) + [] == OptionBytes(last);
      SkipOne(o, kind, at, last, []);
      AtEnd(o, kind);
    } else {
      OneNoOp();
      OneByteLeft(o, kind, at);
    }
  }

  lemma {:induction false} WithoutParts(init: seq<TcpOption>, last: TcpOption, kind: byte)
    requires Without(init + [last], kind)
    ensures Without(init, kind) && Without([last], kind)
  {
    var es := init + [last];
    assert es[|init|] == last && forall i :: 0 <= i < |init| ==> es[i] == init[i];
  }

  lemma {:induction false} ScanSnoc(init: seq<TcpOption>, last: TcpOption, kind: byte)
    requires Without(init, kind) && Without([last], kind) && kind != 1
    ensures ScanOption(ListBytes(init) + OptionBytes(last), kind, 0) == if last.NoOp? then Malformed else Absent
  {
    hide *;
    var a, b := ListBytes(init), OptionBytes(last);
    var o := a + b;
    assert o[0..] == o && o[|a|..] == b;
    LastBytes(last);
    SkipList(o, kind, 0, init, b);
    LastOption(o, kind, |a|, last);
  }

  lemma {:induction false} ScanWithout(es: seq<TcpOption>, kind: byte)
    requires Without(es, kind) && kind != 1
    ensures ScanOption(ListBytes(es), kind, 0) == if es != [] && es[|es| - 1].NoOp? then Malformed else Absent
  {
    if es == [] {
    } else {
      hide *;
      var init, last := es[..|es| - 1], es[|es| - 1];
      assert es == init + [last];
      ListSnoc(init, last);
      WithoutParts(init, last, kind);
      ScanSnoc(init, last, kind);
    }
  }

  lemma {:induction false} OneNoOp()
    ensures |OptionBytes(NoOp)| == 1
  {
  }

  lemma {:induction false} AtEnd(o: seq<byte>, kind: byte)
    ensures ScanOption(o, kind, |o|) == Absent
  {
  }

  lemma {:induction false} OneByteLeft(o: seq<byte>, kind: byte, at: nat)
    requires at + 1 == |o|
    ensures ScanOption(o, kind, at) == Malformed
  {
  }

  /** The walk finds the first option of the wanted kind behind any others. */
  lemma {:induction false} ScanFinds(before: seq<TcpOption>, kind: byte, size: byte, rest: seq<byte>)
    requires Without(before, kind) && kind != 1
    ensures ScanOption(ListBytes(before) + ([kind, size] + rest), kind, 0) == Found(|ListBytes(before)|)
  {
    var o, at := ListBytes(before) + ([kind, size] + rest), |ListBytes(before)|;
    assert o[0..] == o;
    SkipList(o, kind, 0, before, [kind, size] + rest);
    assert o[at] == kind;
  }

  // ----- maximum segment size -----

  /** A maximum-segment-size option behind any others gives its value. */
  lemma {:induction false} MssRoundTrip(before: seq<TcpOption>, mss: u16, rest: seq<byte>, o: Options)
    requires Without(before, MSS_OPT_KIND)
    requires o == ListBytes(before) + ([MSS_OPT_KIND, MSS_OPT_SIZE] + (Bytes([mss]) + rest))
    ensures ParseMss(o) == Done(Some(mss))
  {
    var at := |ListBytes(before)|;
    ScanFinds(before, MSS_OPT_KIND, MSS_OPT_SIZE, Bytes([mss]) + rest);
    ReadWord([mss], rest, 0);
    assert o[at + 2] == (Bytes([mss]) + rest)[0] && o[at + 3] == (Bytes([mss]) + rest)[1];
  }

  /** Without the option the old value survives exactly on a list that is not empty and does not
      end with a no-op; otherwise the value becomes zero, not the default. */
  lemma {:induction false} MssMissing(es: seq<TcpOption>, o: Options)
    requires Without(es, MSS_OPT_KIND) && o == ListBytes(es)
    ensures ParseMss(o) == if es == [] || es[|es| - 1].NoOp? then Done(Some(0)) else Done(None)
  {
    ScanWithout(es, MSS_OPT_KIND);
  }

  // ----- timestamps -----

  /** A complete timestamp option. */
  function TimestampBytes(value: u32, echo: u32): (s: seq<byte>)
    ensures |s| == 10
  {
    [TS_OPT_KIND, TS_OPT_SIZE] + (FieldOf(value) + FieldOf(echo))
  }

  /** On a well-formed list the shift moves both numbers of the first timestamp option and leaves
      every other byte alone. */
  lemma {:induction false} TimestampShifted(before: seq<TcpOption>, value: u32, echo: u32, rest: seq<byte>, o: Options, offset: int)
    requires Without(before, TS_OPT_KIND)
    requires o == ListBytes(before) + (TimestampBytes(value, echo) + rest)
    ensures ShiftTimestamp(o, offset).Done?
    ensures ShiftTimestamp(o, offset).value
         == ListBytes(before) + (TimestampBytes(Wrap(value + offset), Wrap(echo + offset)) + rest)
  {
    hide FieldOf; hide Wrap; hide ReadBe32; hide ListBytes; hide ShiftField;
    var fields, front := FieldOf(value) + FieldOf(echo) + rest, ListBytes(before) + [TS_OPT_KIND, TS_OPT_SIZE];
    assert o == ListBytes(before) + ([TS_OPT_KIND, TS_OPT_SIZE] + fields);
    ScanFinds(before, TS_OPT_KIND, TS_OPT_SIZE, fields);
    ShiftFields(o, front, value, echo, rest, offset);
    hide ScanOption;
    assert o[|front| - 1] == TS_OPT_SIZE;
  }

  lemma {:induction false} ShiftOne(front: seq<byte>, value: u32, back: seq<byte>, o: seq<byte>, offset: int)
    requires o == front + FieldOf(value) + back
    ensures ShiftField(o, |front|, offset) == front + FieldOf(Wrap(value + offset)) + back
  {
    hide Wrap; hide ReadBe32; hide FieldOf;
    assert Splice(o, |front|, FieldOf(value)) == o;
    ReadField(o, |front|, value);
  }

  lemma {:induction false} ShiftFields(o: seq<byte>, front: seq<byte>, value: u32, echo: u32, rest: seq<byte>, offset: int)
    requires o == front + (FieldOf(value) + FieldOf(echo) + rest)
    ensures ShiftField(ShiftField(o, |front|, offset), |front| + 4, offset)
         == front + (FieldOf(Wrap(value + offset)) + FieldOf(Wrap(echo + offset)) + rest)
  {
    hide Wrap; hide ReadBe32; hide FieldOf; hide ShiftField;
    assert o == front + FieldOf(value) + (FieldOf(echo) + rest);
    ShiftOne(front, value, FieldOf(echo) + rest, o, offset);
    var m := ShiftField(o, |front|, offset);
    assert m == front + FieldOf(Wrap(value + offset)) + FieldOf(echo) + rest;
    ShiftOne(front + FieldOf(Wrap(value + offset)), echo, rest, m, offset);
  }
}
