/** Shuffles. Both games shuffle with `sort(() => Math.random() - 0.5)`;
    the model takes the resulting order as an input, a permutation of the
    positions, and promises nothing about its distribution. */
module Perms {

  /** `p` lists each of `0 .. n-1` exactly once. */
  predicate IsPermutation(p: seq<nat>, n: nat) {
    && |p| == n
    && (forall i :: 0 <= i < n ==> p[i] < n)
    && (forall i, j :: 0 <= i < j < n ==> p[i] != p[j])
    && (forall v :: 0 <= v < n ==> v in p)
  }

  /** The identity order `0, 1, .., n-1`. */
  function Identity(n: nat): (p: seq<nat>)
    ensures IsPermutation(p, n)
  {
    var p := seq(n, i requires 0 <= i < n => i);
    assert forall v :: 0 <= v < n ==> v in p by {
      forall v | 0 <= v < n
        ensures v in p
      {
        assert p[v] == v;
      }
    }
    p
  }

  /** `xs` rearranged so that position `i` holds `xs[p[i]]`. */
  function Permute<T>(xs: seq<T>, p: seq<nat>): (r: seq<T>)
    requires IsPermutation(p, |xs|)
    ensures |r| == |xs|
  {
    seq(|xs|, i requires 0 <= i < |xs| => xs[p[i]])
  }

  /** Every position of the source lands at exactly one position of the
      shuffled sequence. */
  lemma PreimageOf(p: seq<nat>, n: nat, v: nat) returns (i: nat)
    requires IsPermutation(p, n) && v < n
    ensures i < n && p[i] == v
    ensures forall k :: 0 <= k < n && p[k] == v ==> k == i
  {
    assert v in p;
    i :| 0 <= i < |p| && p[i] == v;
  }
}
