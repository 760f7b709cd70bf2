/** 32-bit serial-number arithmetic (section 3.2 of RFC 1982, section 3.4 of RFC 9293). */
module Serial {
  import opened Base

  /** Conversion to `uint32_t`. */
  function Wrap(n: int): u32 {
    n % 0x1_0000_0000
  }

  lemma {:induction false} WrapSmall(n: nat)
    requires n < 0x1_0000_0000
    ensures Wrap(n) == n
  {
  }

  lemma {:induction false} WrapSum(a: int, b: int)
    ensures Wrap(Wrap(a) + b) == Wrap(a + b)
  {
    var q := a / 0x1_0000_0000;
    assert a + b == Wrap(a) + b + q * 0x1_0000_0000;
  }

  lemma {:induction false} WrapAdd(a: u32, n: int)
    ensures Wrap(a + Wrap(n)) == Wrap(a + n)
  {
    WrapSum(n, a);
  }

  /** The `uint32_t` difference a - b: how far a lies ahead of b on the circle. */
  function Dist(a: u32, b: u32): u32 {
    if a >= b then a - b else a - b + 0x1_0000_0000
  }

  /** `static_cast<int32_t>(a - b) < 0`. */
  predicate Before(a: u32, b: u32) {
    Dist(a, b) >= 0x8000_0000
  }

  /** Moving ahead by n moves the distance from any origin by n, if nothing laps the circle. */
  lemma {:induction false} DistAdd(a: u32, origin: u32, n: int)
    requires 0 <= Dist(a, origin) + n < 0x1_0000_0000
    ensures Dist(Wrap(a + n), origin) == Dist(a, origin) + n
  {
  }

  /** Distances do not see a common shift of both ends. */
  lemma {:induction false} DistShift(a: u32, b: u32, d: int)
    ensures Dist(Wrap(a + d), Wrap(b + d)) == Dist(a, b)
  {
    var qa, qb := (a + d) / 0x1_0000_0000, (b + d) / 0x1_0000_0000;
    assert Wrap(a + d) == a + d - qa * 0x1_0000_0000;
    assert Wrap(b + d) == b + d - qb * 0x1_0000_0000;
  }

  /** Distances from a point that is itself ahead of the origin. */
  lemma {:induction false} DistRebase(a: u32, b: u32, origin: u32)
    requires Dist(b, origin) <= Dist(a, origin)
    ensures Dist(a, b) == Dist(a, origin) - Dist(b, origin)
  {
  }

  /** In a half-circle window the comparator is the order of the offsets, so a strict weak order. */
  lemma {:induction false} BeforeInWindow(a: u32, b: u32, origin: u32)
    requires Dist(a, origin) < 0x8000_0000 && Dist(b, origin) < 0x8000_0000
    ensures Before(a, b) <==> Dist(a, origin) < Dist(b, origin)
  {
  }

  /** Without the window it is not even transitive: these three numbers chase each other. */
  lemma {:induction false} BeforeCycle()
    ensures Before(0, 0x6000_0000) && Before(0x6000_0000, 0xC000_0000) && Before(0xC000_0000, 0)
  {
  }
}
