/** Shared value types: bytes, fixed-width unsigned integers and the two result shapes. */
module Base {

  type byte = n: int | 0 <= n < 0x100
  type u16 = n: int | 0 <= n < 0x1_0000
  type u32 = n: int | 0 <= n < 0x1_0000_0000
  type u64 = n: int | 0 <= n < 0x1_0000_0000_0000_0000

  datatype Option<+T> = None | Some(value: T)

  /** `Fault` stands for every way the C++ code leaves its contract: reading outside a
      buffer, dereferencing an end iterator, an uncaught exception, a loop that never ends. */
  datatype Outcome<+T> = Done(value: T) | Fault {
    predicate IsFailure() {
      Fault?
    }

    function PropagateFailure<U>(): Outcome<U>
      requires Fault?
    {
      Fault
    }

    function Extract(): T
      requires Done?
    {
      value
    }
  }

  /** Conversion to `uint16_t`. */
  function Narrow(n: nat): u16 {
    n % 0x1_0000
  }

  lemma {:induction false} NarrowSmall(n: nat)
    requires n < 0x1_0000
    ensures Narrow(n) == n
  {
  }

  /** Conversion to `size_t`: 64-bit wrap-around. */
  function Wrap64(n: int): u64 {
    n % 0x1_0000_0000_0000_0000
  }
}
