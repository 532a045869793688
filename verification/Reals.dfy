/** Signs of products of reals. */
module Reals {
  lemma NotNegative(a: real, b: real)
    requires a >= 0.0 && b >= 0.0
    ensures a * b >= 0.0 && (a * b == 0.0 ==> a == 0.0 || b == 0.0)
  {
  }
}
