/** What several components share: optional results and the limits of the C types. */
module Common {

  datatype Option<T> = None | Some(value: T)

  const INT_MAX: nat := 0x7FFF_FFFF
  const TWO32: nat := 0x1_0000_0000
  const SSIZE_MAX: nat := 0x7FFF_FFFF_FFFF_FFFF
  const SIZE_MAX: nat := 0xFFFF_FFFF_FFFF_FFFF

  /** A size, or a 32-bit number, returned as an int. */
  function AsInt(n: nat): (r: int)
    ensures -0x8000_0000 <= r <= INT_MAX && (n <= INT_MAX ==> r == n)
    ensures n < TWO32 ==> (r == -1 <==> n == TWO32 - 1) && (0 <= r <==> n <= INT_MAX)
  {
    var low := n % TWO32;
    if low <= INT_MAX then low else low - TWO32
  }

  function Min(a: int, b: int): int {
    if a < b then a else b
  }
}
