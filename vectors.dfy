/** Plain integer vector arithmetic: the reference sums and dot products
    that NumPy's `np.sum` and `np.dot` compute in the source. */
module Vectors {

  /** `np.sum`: folded from the left, so a loop over a prefix extends it by one term. */
  function Sum(s: seq<int>): int
  {
    if |s| == 0 then 0 else Sum(s[..|s| - 1]) + s[|s| - 1]
  }

  /** `np.dot` of two vectors of the same length. */
  function Dot(a: seq<int>, b: seq<int>): int
    requires |a| == |b|
  {
    if |a| == 0 then 0 else Dot(a[..|a| - 1], b[..|b| - 1]) + a[|a| - 1] * b[|b| - 1]
  }

  /** The coordinate-wise products of `a` and `b`. */
  function Termwise(a: seq<int>, b: seq<int>): (z: seq<int>)
    requires |a| == |b|
    ensures |z| == |a| && forall i :: 0 <= i < |a| ==> z[i] == a[i] * b[i]
  {
    seq(|a|, i requires 0 <= i < |a| => a[i] * b[i])
  }

  /** A dot product is the sum of the coordinate-wise products. */
  lemma {:induction false} DotIsSumOfProducts(a: seq<int>, b: seq<int>)
    requires |a| == |b|
    ensures Dot(a, b) == Sum(Termwise(a, b))
  {
    if |a| > 0 {
      var n := |a| - 1;
      DotIsSumOfProducts(a[..n], b[..n]);
      assert Termwise(a, b)[..n] == Termwise(a[..n], b[..n]);
    }
  }
}
