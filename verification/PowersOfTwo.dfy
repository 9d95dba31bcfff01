/** Powers of two, for heights of trees and for bit fields. */
module PowersOfTwo {

  function Pow2(n: nat): (p: nat)
    ensures p > 0
  {
    if n == 0 then 1 else 2 * Pow2(n - 1)
  }
}
