/** Small shared datatypes and the widths of the program's integers. */
module Base {
  datatype Option<+T> = None | Some(value: T)

  type U64 = x: int | 0 <= x < 0x1_0000_0000_0000_0000

  /** Increment of a uint64, with its wrap-around. */
  function Inc64(n: U64): U64 { if n == 0xffff_ffff_ffff_ffff then 0 else n + 1 }

  /** One more than the greatest 32-bit unsigned integer. */
  const LIMIT32: nat := 0x1_0000_0000

  /** The conversion to uint32. */
  function Truncate32(n: nat): (r: nat)
    ensures n < LIMIT32 ==> r == n
  {
    n % LIMIT32
  }

  /** Increment and decrement of a uint32 counter, with its wrap-around. */
  function Inc32(n: nat): nat { (n + 1) % LIMIT32 }

  function Dec32(n: nat): nat { if n == 0 then LIMIT32 - 1 else n - 1 }
}
