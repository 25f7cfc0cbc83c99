/** Integer grid points and the small arithmetic helpers shared by the rasterisers. */
module Geometry {

  /** A pixel position on the logical grid; any sign is allowed. */
  datatype Point = Point(x: int, y: int)

  function Abs(n: int): nat
  {
    if n < 0 then -n else n
  }

  function Max(a: int, b: int): int
  {
    if a < b then b else a
  }

  /** `v` lies in the closed interval spanned by `a` and `b`, whichever is larger. */
  predicate Between(a: int, v: int, b: int)
  {
    if a <= b then a <= v <= b else b <= v <= a
  }
}
