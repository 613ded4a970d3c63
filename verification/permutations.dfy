/** Index ranges and permutations of them, as produced by Go's `rand.Perm(n)`. */
module Permutations {

  /** The indices 0, 1, ..., n-1 in increasing order. */
  function Range(n: nat): (r: seq<int>)
    ensures |r| == n
    ensures forall k :: 0 <= k < n ==> r[k] == k
    decreases n
  {
    if n == 0 then [] else Range(n - 1) + [n - 1]
  }

  /** `p` is a rearrangement of 0, 1, ..., n-1. */
  ghost predicate IsPermutation(p: seq<int>, n: nat) {
    multiset(p) == multiset(Range(n))
  }

  /** Every index below n occurs once in the range, and nothing else occurs. */
  lemma {:induction false} RangeMultiplicity(n: nat, x: int)
    ensures multiset(Range(n))[x] == if 0 <= x < n then 1 else 0
    decreases n
  {
    if n > 0 {
      RangeMultiplicity(n - 1, x);
      assert Range(n) == Range(n - 1) + [n - 1];
    }
  }

  /** A permutation of 0..n-1 has n entries, all in range, each index exactly once. */
  lemma PermutationFacts(p: seq<int>, n: nat)
    requires IsPermutation(p, n)
    ensures |p| == n
    ensures forall k :: 0 <= k < |p| ==> 0 <= p[k] < n
    ensures forall x :: 0 <= x < n ==> multiset(p)[x] == 1
  {
    assert |multiset(p)| == |multiset(Range(n))|;
    forall k | 0 <= k < |p|
      ensures 0 <= p[k] < n
    {
      assert p[k] in multiset(p);
      RangeMultiplicity(n, p[k]);
    }
    forall x | 0 <= x < n
      ensures multiset(p)[x] == 1
    {
      RangeMultiplicity(n, x);
    }
  }
}
