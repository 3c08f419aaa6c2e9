/**
 * `random.shuffle`, with the random source made a parameter. CPython's
 * shuffle walks i from the last index down to 1, draws j uniformly in
 * [0, i] and swaps positions i and j. Here the j drawn at step i is
 * `draws[i] % (i + 1)`, so every sequence of draws is allowed and the only
 * thing the model promises is what the engine relies on: the result is a
 * permutation of the input.
 */
module Shuffling {

  method Shuffle<T>(s: seq<T>, draws: seq<nat>) returns (r: seq<T>)
    requires |draws| == |s|
    ensures |r| == |s|
    ensures multiset(r) == multiset(s)
  {
    r := s;
    var i := |r|;
    while i > 1
      invariant 0 <= i <= |r| == |s|
      invariant multiset(r) == multiset(s)
    {
      i := i - 1;
      var j := draws[i] % (i + 1);
      var ri, rj := r[i], r[j];
      r := r[i := rj][j := ri];
    }
  }
}
