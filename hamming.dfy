/** Masked binary codes (main_hamming_distance.py): the two Hamming
    distance formulas, the {-1, 0, +1} encoding of a code under its mask,
    and the comparison of a masked dot product against a threshold. */
module Hamming {
  import opened Wrappers
  import opened Vectors

  /** A code or mask bit, as `np.random.randint(0, 2, n)` draws it. */
  type Bit = b: int | 0 <= b <= 1

  /** The number of positions where `a` and `b` differ. */
  function DiffCount(a: seq<int>, b: seq<int>): (n: nat)
    requires |a| == |b|
    ensures n <= |a|
  {
    if |a| == 0 then 0
    else DiffCount(a[..|a| - 1], b[..|b| - 1]) + (if a[|a| - 1] != b[|b| - 1] then 1 else 0)
  }

  /** `hamming_distance_binary`: the count of differing positions. */
  function HammingDistanceBinary(a: seq<int>, b: seq<int>): (r: Result<int>)
    ensures r.Err? <==> |a| != |b|
    ensures r.Err? ==> r.error == LengthMismatch
    ensures r.Ok? ==> 0 <= r.value <= |a|
  {
    if |a| != |b| then Err(LengthMismatch) else Ok(DiffCount(a, b))
  }

  /** `hamming_distance_ring`: `sum(a) + sum(b) - 2 * dot(a, b)`. */
  function HammingDistanceRing(a: seq<int>, b: seq<int>): (r: Result<int>)
    ensures r.Err? <==> |a| != |b|
    ensures r.Err? ==> r.error == LengthMismatch
  {
    if |a| != |b| then Err(LengthMismatch) else Ok(Sum(a) + Sum(b) - 2 * Dot(a, b))
  }

  /** A code is at distance zero from itself, and the count ignores order. */
  lemma {:induction false} DiffCountLaws(a: seq<int>, b: seq<int>)
    requires |a| == |b|
    ensures DiffCount(a, a) == 0
    ensures DiffCount(a, b) == DiffCount(b, a)
    ensures DiffCount(a, b) == 0 <==> a == b
  {
    if |a| > 0 {
      var n := |a| - 1;
      DiffCountLaws(a[..n], b[..n]);
      if a[..n] == b[..n] && a[n] == b[n] {
        assert a == a[..n] + [a[n]] && b == b[..n] + [b[n]];
      }
    }
  }

  /** On bit vectors the ring formula computes the binary distance. */
  lemma {:induction false} RingDistanceIsBinary(a: seq<Bit>, b: seq<Bit>)
    ensures HammingDistanceRing(a, b) == HammingDistanceBinary(a, b)
  {
    if |a| == |b| && |a| > 0 {
      var n := |a| - 1;
      RingDistanceIsBinary(a[..n], b[..n]);
    }
  }

  // ---------------------------------------------------------------------
  // Masked codes
  // ---------------------------------------------------------------------

  /** `np.bitwise_and` of two bits. */
  function And(a: Bit, b: Bit): (r: Bit)
    ensures r == 1 <==> a == 1 && b == 1
  {
    if a == 1 && b == 1 then 1 else 0
  }

  /** `mask_bits`: `mask - 2 * (vector & mask)`, coordinate by coordinate. */
  function MaskBits(v: seq<Bit>, mask: seq<Bit>): (r: seq<int>)
    requires |v| == |mask|
    ensures |r| == |v|
    ensures forall i :: 0 <= i < |v| ==>
      r[i] == (if mask[i] == 0 then 0 else if v[i] == 0 then 1 else -1)
  {
    seq(|v|, i requires 0 <= i < |v| => mask[i] - 2 * And(v[i], mask[i]))
  }

  /** `np.sum(np.bitwise_and(m1, m2))`: the positions both masks keep. */
  function MaskOnes(m1: seq<Bit>, m2: seq<Bit>): (n: nat)
    requires |m1| == |m2|
    ensures n <= |m1|
  {
    if |m1| == 0 then 0
    else MaskOnes(m1[..|m1| - 1], m2[..|m2| - 1]) + And(m1[|m1| - 1], m2[|m2| - 1])
  }

  /** The positions both masks keep where the two codes disagree. */
  function Disagreements(a: seq<Bit>, ma: seq<Bit>, b: seq<Bit>, mb: seq<Bit>): (n: nat)
    requires |a| == |ma| == |b| == |mb|
  {
    if |a| == 0 then 0
    else
      var k := |a| - 1;
      Disagreements(a[..k], ma[..k], b[..k], mb[..k]) + (if ma[k] == 1 && mb[k] == 1 && a[k] != b[k] then 1 else 0)
  }

  /** The masks' common positions bound the disagreements among them. */
  lemma {:induction false} DisagreementsBounded(a: seq<Bit>, ma: seq<Bit>, b: seq<Bit>, mb: seq<Bit>)
    requires |a| == |ma| == |b| == |mb|
    ensures Disagreements(a, ma, b, mb) <= MaskOnes(ma, mb)
  {
    if |a| > 0 {
      var k := |a| - 1;
      DisagreementsBounded(a[..k], ma[..k], b[..k], mb[..k]);
    }
  }

  /** A code compared with itself disagrees nowhere, whatever the masks. */
  lemma {:induction false} NoSelfDisagreement(a: seq<Bit>, ma: seq<Bit>, mb: seq<Bit>)
    requires |a| == |ma| == |mb|
    ensures Disagreements(a, ma, a, mb) == 0
  {
    if |a| > 0 {
      var k := |a| - 1;
      NoSelfDisagreement(a[..k], ma[..k], mb[..k]);
    }
  }

  /** With both masks keeping every position, the disagreements are the
      binary Hamming distance of the codes. */
  lemma {:induction false} FullMasksGiveHamming(a: seq<Bit>, ma: seq<Bit>, b: seq<Bit>, mb: seq<Bit>)
    requires |a| == |ma| == |b| == |mb|
    requires forall i :: 0 <= i < |a| ==> ma[i] == 1 && mb[i] == 1
    ensures HammingDistanceBinary(a, b) == Ok(Disagreements(a, ma, b, mb))
    ensures MaskOnes(ma, mb) == |a|
  {
    if |a| > 0 {
      var k := |a| - 1;
      FullMasksGiveHamming(a[..k], ma[..k], b[..k], mb[..k]);
    }
  }

  /** The dot product of two masked codes: each common position counts +1
      where the codes agree and -1 where they disagree; other positions
      count 0. */
  lemma {:induction false} MaskedDotProduct(a: seq<Bit>, ma: seq<Bit>, b: seq<Bit>, mb: seq<Bit>)
    requires |a| == |ma| == |b| == |mb|
    ensures Dot(MaskBits(a, ma), MaskBits(b, mb)) == MaskOnes(ma, mb) - 2 * Disagreements(a, ma, b, mb)
  {
    if |a| > 0 {
      var k := |a| - 1;
      MaskedDotProduct(a[..k], ma[..k], b[..k], mb[..k]);
      assert MaskBits(a, ma)[..k] == MaskBits(a[..k], ma[..k]);
      assert MaskBits(b, mb)[..k] == MaskBits(b[..k], mb[..k]);
    }
  }

  /** Hence the masked dot product lies between `-mask_ones` and `mask_ones`,
      and reaches `mask_ones` exactly when no common position disagrees. */
  lemma MaskedDotBounds(a: seq<Bit>, ma: seq<Bit>, b: seq<Bit>, mb: seq<Bit>)
    requires |a| == |ma| == |b| == |mb|
    ensures -(MaskOnes(ma, mb) as int) <= Dot(MaskBits(a, ma), MaskBits(b, mb)) <= MaskOnes(ma, mb)
    ensures Dot(MaskBits(a, ma), MaskBits(b, mb)) == MaskOnes(ma, mb) <==> Disagreements(a, ma, b, mb) == 0
  {
    MaskedDotProduct(a, ma, b, mb);
    DisagreementsBounded(a, ma, b, mb);
  }

  // ---------------------------------------------------------------------
  // The match decision
  // ---------------------------------------------------------------------

  /** `(1 - 2 * match_ratio) * mask_ones`, in exact arithmetic. */
  function Threshold(matchRatio: real, maskOnes: nat): real
  {
    (1.0 - 2.0 * matchRatio) * (maskOnes as real)
  }

  /** `dp > threshold`: the test that reports a match. */
  predicate IsMatch(dp: int, matchRatio: real, maskOnes: nat)
  {
    dp as real > Threshold(matchRatio, maskOnes)
  }

  /** A dot product of `n - 2 * d` passes the threshold exactly when
      `d < ratio * n`. */
  lemma ThresholdTest(dp: int, n: nat, d: int, matchRatio: real)
    requires dp == n - 2 * d
    ensures IsMatch(dp, matchRatio, n) <==> (d as real) < matchRatio * (n as real)
  {
    var N, D := n as real, d as real;
    assert Threshold(matchRatio, n) == N - 2.0 * (matchRatio * N);
    assert dp as real == N - 2.0 * D;
  }

  /** Two masked codes match exactly when they disagree on fewer than
      `match_ratio * mask_ones` of the positions both masks keep.  The dot
      product, the mask count and the disagreements are named `dp`, `ones`
      and `d`. */
  lemma MatchIffFewDisagreements(a: seq<Bit>, ma: seq<Bit>, b: seq<Bit>, mb: seq<Bit>, matchRatio: real,
                                 dp: int, ones: nat, d: nat)
    requires |a| == |ma| == |b| == |mb|
    requires dp == Dot(MaskBits(a, ma), MaskBits(b, mb))
    requires ones == MaskOnes(ma, mb) && d == Disagreements(a, ma, b, mb)
    ensures IsMatch(dp, matchRatio, ones) <==> (d as real) < matchRatio * (ones as real)
  {
    MaskedDotProduct(a, ma, b, mb);
    ThresholdTest(dp, ones, d, matchRatio);
  }

  /** A code always matches itself under any positive ratio, provided the
      two masks share a position; with no shared position nothing matches. */
  lemma SelfMatch(a: seq<Bit>, ma: seq<Bit>, mb: seq<Bit>, matchRatio: real, dp: int, ones: nat)
    requires |a| == |ma| == |mb|
    requires matchRatio > 0.0
    requires dp == Dot(MaskBits(a, ma), MaskBits(a, mb)) && ones == MaskOnes(ma, mb)
    ensures dp == ones
    ensures IsMatch(dp, matchRatio, ones) == (ones > 0)
  {
    NoSelfDisagreement(a, ma, mb);
    MaskedDotProduct(a, ma, a, mb);
    FullAgreementTest(dp, ones, matchRatio);
  }

  /** A dot product equal to the mask count passes any positive ratio's
      threshold exactly when the count is positive. */
  lemma FullAgreementTest(dp: int, ones: nat, matchRatio: real)
    requires dp == ones && matchRatio > 0.0
    ensures IsMatch(dp, matchRatio, ones) == (ones > 0)
  {
    ThresholdTest(dp, ones, 0, matchRatio);
    if ones > 0 {
      PositiveProduct(matchRatio, ones as real);
    } else {
      assert matchRatio * (ones as real) == 0.0;
    }
  }

  lemma PositiveProduct(x: real, y: real)
    requires x > 0.0 && y > 0.0
    ensures x * y > 0.0
  {
  }
}
