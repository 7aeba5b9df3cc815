// Small functions shared by several components.
module Basics {

  function Min(a: int, b: int): int {
    if a <= b then a else b
  }

  function Max(a: int, b: int): int {
    if a >= b then a else b
  }

  /** slice(0, n) */
  function Take<T>(xs: seq<T>, n: nat): (front: seq<T>)
    ensures |front| <= n
  {
    if |xs| <= n then xs else xs[..n]
  }
}
