/**
 * Python's `collections.Counter` restricted to what the engine uses: a
 * missing key reads as 0, `c[k] += d` increments one key, and `a += b`
 * adds pointwise and then keeps only the keys whose count is positive.
 */
module Counters {
  import opened Base

  type Counter = map<PlayerId, nat>

  /** `c[k]` on a Counter: 0 for a missing key. */
  function Get(c: Counter, k: PlayerId): nat
  {
    if k in c then c[k] else 0
  }

  /** Every stored count is positive, as after `+=` on Counters. */
  predicate Positive(c: Counter)
  {
    forall k :: k in c ==> c[k] > 0
  }

  /** `c[k] += d`. */
  function Inc(c: Counter, k: PlayerId, d: nat): (r: Counter)
    ensures Get(r, k) == Get(c, k) + d
    ensures forall j :: j != k ==> Get(r, j) == Get(c, j)
    ensures Positive(c) && d > 0 ==> Positive(r)
  {
    c[k := Get(c, k) + d]
  }

  /** `a += b`: pointwise sum, dropping the keys whose sum is not positive. */
  function Add(a: Counter, b: Counter): (r: Counter)
    ensures forall k :: Get(r, k) == Get(a, k) + Get(b, k)
    ensures Positive(r)
  {
    map k | k in a.Keys + b.Keys && Get(a, k) + Get(b, k) > 0 :: Get(a, k) + Get(b, k)
  }
}
