/** Powers of two and the modular arithmetic facts the sharing proofs use.
    Python's `%` with a positive modulus agrees with Dafny's Euclidean `%`. */
module Arith {

  /** A modulus: every order the scheme builds is at least 1. */
  type Modulus = n: int | n >= 1 witness 1

  function Pow2(k: nat): (r: int)
    ensures r >= 1
  {
    if k == 0 then 1 else 2 * Pow2(k - 1)
  }

  /** Exact power-of-two test (the source tests `math.log2(order).is_integer()`). */
  predicate IsPowerOfTwo(n: int)
    decreases if n > 0 then n else 0
  {
    n == 1 || (n >= 2 && n % 2 == 0 && IsPowerOfTwo(n / 2))
  }

  function Log2(n: int): (k: nat)
    requires IsPowerOfTwo(n)
    ensures Pow2(k) == n
    decreases if n > 0 then n else 0
  {
    if n == 1 then 0 else Log2(n / 2) + 1
  }

  lemma {:induction false} Pow2IsPowerOfTwo(k: nat)
    ensures IsPowerOfTwo(Pow2(k))
  {
    if k > 0 {
      Pow2IsPowerOfTwo(k - 1);
      assert Pow2(k) / 2 == Pow2(k - 1);
    }
  }

  /** The recursive test agrees with "is 2 to some power". */
  lemma PowerOfTwoIff(n: int)
    ensures IsPowerOfTwo(n) <==> exists k: nat :: Pow2(k) == n
  {
    if IsPowerOfTwo(n) {
      assert Pow2(Log2(n)) == n;
    }
    if exists k: nat :: Pow2(k) == n {
      var k: nat :| Pow2(k) == n;
      Pow2IsPowerOfTwo(k);
    }
  }

  /** Multiplication distributes over a difference and over a sum. */
  lemma MulDiff(a: int, b: int, m: int)
    ensures (a - b) * m == a * m - b * m
  {
  }

  /** A positive multiple of the modulus is at least the modulus. */
  lemma MultipleAtLeast(d: int, m: Modulus)
    requires d >= 1
    ensures d * m >= m
  {
    MulDiff(d, 1, m);
    assert (d - 1) * m >= 0;
  }

  /** The quotient-remainder decomposition is unique. */
  lemma ModUnique(x: int, m: Modulus, q: int, r: int)
    requires 0 <= r < m
    requires x == q * m + r
    ensures x % m == r
  {
    var q0, r0 := x / m, x % m;
    assert x == q0 * m + r0 && 0 <= r0 < m;
    MulDiff(q0, q, m);
    var d := q0 - q;
    assert d * m == r - r0;
    if d > 0 {
      MultipleAtLeast(d, m);
    } else if d < 0 {
      MultipleAtLeast(-d, m);

    }
  }

  lemma MulSum(a: int, b: int, m: int)
    ensures (a + b) * m == a * m + b * m
  {
  }

  /** Adding a multiple of the modulus does not change the residue. */
  lemma ModAddMultiple(x: int, k: int, m: Modulus)
    ensures (x + k * m) % m == x % m
  {
    var q, r := x / m, x % m;
    assert x == q * m + r && 0 <= r < m;
    MulSum(q, k, m);
    ModUnique(x + k * m, m, q + k, r);
  }

  /** The residue of a sum, from decompositions of the summands. */
  lemma AddDecomposed(a: int, b: int, m: Modulus, qa: int, ra: int, qb: int, rb: int)
    requires a == qa * m + ra && b == qb * m + rb
    ensures (a + b) % m == (ra + rb) % m
  {
    MulSum(qa, qb, m);
    ModAddMultiple(ra + rb, qa + qb, m);
  }

  /** Residues of a sum depend only on the residues of the summands. */
  lemma ModAdd(a: int, b: int, m: Modulus)
    ensures (a + b) % m == (a % m + b % m) % m
  {
    AddDecomposed(a, b, m, a / m, a % m, b / m, b % m);
  }

  /** Replacing the summands by congruent ones keeps the sum congruent. */
  lemma ModAddCongruent(a: int, b: int, x: int, y: int, m: Modulus)
    requires a % m == x % m && b % m == y % m
    ensures (a + b) % m == (x + y) % m
  {
    ModAdd(a, b, m);
    ModAdd(x, y, m);
  }

  /** The product of two decompositions, regrouped around the modulus. */
  lemma MulExpand(qa: int, ra: int, qb: int, rb: int, m: int)
    ensures (qa * m + ra) * (qb * m + rb) == ra * rb + (qa * rb + ra * qb + qa * qb * m) * m
  {
  }

  /** The residue of a product, from decompositions of the factors. */
  lemma MulDecomposed(a: int, b: int, m: Modulus, qa: int, ra: int, qb: int, rb: int)
    requires a == qa * m + ra && b == qb * m + rb
    ensures (a * b) % m == (ra * rb) % m
  {
    MulExpand(qa, ra, qb, rb, m);
    ModAddMultiple(ra * rb, qa * rb + ra * qb + qa * qb * m, m);
  }

  /** Residues of a product depend only on the residues of the factors. */
  lemma ModMul(a: int, b: int, m: Modulus)
    ensures (a * b) % m == ((a % m) * (b % m)) % m
  {
    MulDecomposed(a, b, m, a / m, a % m, b / m, b % m);
  }

  /** Reducing twice is reducing once. */
  lemma ModMod(a: int, m: Modulus)
    ensures (a % m) % m == a % m
  {
    ModUnique(a % m, m, 0, a % m);
  }
}
