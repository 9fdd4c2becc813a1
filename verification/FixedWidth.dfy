/** The 64-bit signed integers of the source, as far as their wrap-around matters. */
module FixedWidth {
  const MAX_INT64: int := 0x7fff_ffff_ffff_ffff

  predicate Int64(x: int) {
    -MAX_INT64 - 1 <= x <= MAX_INT64
  }

  // Two's complement wrap-around of a 64-bit sum or product.
  function Wrap64(x: int): (w: int)
    ensures Int64(w)
    ensures Int64(x) ==> w == x
  {
    (x + 0x8000_0000_0000_0000) % 0x1_0000_0000_0000_0000 - 0x8000_0000_0000_0000
  }
}
