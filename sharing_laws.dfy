/** What the scheme promises: any two holdings of a sharing give the secret
    back, one holding does not, local addition is homomorphic, and the three
    partial products (or partial dot products) reshare to the product (or
    the dot product) of the shared values. */
module SharingLaws {
  import opened Wrappers
  import opened Arith
  import opened Vectors
  import opened Shares
  import opened Scheme

  // ---------------------------------------------------------------------
  // Reconstruction
  // ---------------------------------------------------------------------

  /** Under the sharing invariant, any two distinct parties between them
      hold slot `s`, and the rule picks the slot's common value. */
  lemma PickIsSlotValue(t: Parties, order: Modulus, i: nat, j: nat, s: nat)
    requires ValidSharing(t, order) && i < 3 && j < 3 && i != j && s < 3
    ensures Pick(Party(t, i).slots, Party(t, j).slots, s) == Some(SlotValue(t, s))
  {
    assert HolderCount(t, s) == 2;
    var k: nat := if Party(t, i).slots[s].Some? then i else j;
    assert Party(t, k).slots[s].Some?;
    if t.p1.slots[s].Some? {
      assert Party(t, k).slots[s] == Party(t, 0).slots[s];
    } else {
      assert Party(t, k).slots[s] == Party(t, 1).slots[s];
    }
  }

  /** Any two distinct holdings of a valid sharing reconstruct its secret,
      in either order. */
  lemma ReconstructAnyPair(mpc: Mpc, t: Parties, i: nat, j: nat)
    requires ValidSharing(t, mpc.order) && i < 3 && j < 3 && i != j
    ensures Reconstruct(mpc, Party(t, i), Party(t, j)) == Ok(SecretOf(t) % mpc.order)
  {
    PickIsSlotValue(t, mpc.order, i, j, 0);
    PickIsSlotValue(t, mpc.order, i, j, 1);
    PickIsSlotValue(t, mpc.order, i, j, 2);
  }

  /** One holding alone never suffices: the slot it lacks stays uncovered. */
  lemma OneHoldingIsNotEnough(mpc: Mpc, t: Parties, i: nat)
    requires ValidSharing(t, mpc.order) && i < 3
    ensures Reconstruct(mpc, Party(t, i), Party(t, i)) == Err(NonFinite)
  {
    var s := FirstAbsent(Party(t, i).slots).value;
    assert !(Party(t, i).slots[s].Some?);
  }

  /** Split round trip: any two of the three holdings give `secret mod order`,
      for every pair of draws and for negative secrets too. */
  lemma SplitRoundTrip(mpc: Mpc, secret: int, r1: int, r2: int, i: nat, j: nat)
    requires 1 <= r1 <= mpc.order && 1 <= r2 <= mpc.order
    requires i < 3 && j < 3 && i != j
    ensures Reconstruct(mpc, Party(Split(mpc, secret, r1, r2), i), Party(Split(mpc, secret, r1, r2), j))
         == Ok(secret % mpc.order)
  {
    ReconstructAnyPair(mpc, Split(mpc, secret, r1, r2), i, j);
  }

  /** Resharing round trip: any two of the three holdings give the sum of
      the three values, reduced. */
  lemma ReshareRoundTrip(mpc: Mpc, share1: int, share2: int, share3: int, i: nat, j: nat)
    requires i < 3 && j < 3 && i != j
    ensures Reconstruct(mpc, Party(Resharing(mpc, share1, share2, share3), i),
                             Party(Resharing(mpc, share1, share2, share3), j))
         == Ok((share1 + share2 + share3) % mpc.order)
  {
    ReconstructAnyPair(mpc, Resharing(mpc, share1, share2, share3), i, j);
  }

  /** The coordinate-wise reduction `[v[0] % order, v[1] % order, ...]`. */
  function Reduced(v: seq<int>, order: Modulus): (r: seq<int>)
    ensures |r| == |v| && forall c :: 0 <= c < |v| ==> r[c] == v[c] % order
  {
    seq(|v|, c requires 0 <= c < |v| => v[c] % order)
  }

  /** Vector round trip: any two holdings of a split vector give the vector
      back, reduced, with its length and order. */
  lemma VectorRoundTrip(mpc: Mpc, v: seq<int>, draws: seq<Draw>, i: nat, j: nat)
    requires |draws| == |v| && DrawsIn(draws, mpc.order) && |v| > 0
    requires i < 3 && j < 3 && i != j
    ensures ReconstructVector(mpc, Party(SplitVector(mpc, v, draws).value, i),
                                   Party(SplitVector(mpc, v, draws).value, j))
         == Ok(Reduced(v, mpc.order))
  {
    var t := SplitVector(mpc, v, draws).value;
    var a, b := Party(t, i), Party(t, j);
    forall c | 0 <= c < |v|
      ensures a.items[c] == Party(Split(mpc, v[c], draws[c].r1, draws[c].r2), i)
      ensures b.items[c] == Party(Split(mpc, v[c], draws[c].r1, draws[c].r2), j)
      ensures Reconstruct(mpc, a.items[c], b.items[c]) == Ok(v[c] % mpc.order)
    {
      SplitRoundTrip(mpc, v[c], draws[c].r1, draws[c].r2, i, j);
    }
    var r := ReconstructVector(mpc, a, b);
    assert r.Ok?;
    assert r.value == Reduced(v, mpc.order);
  }

  // ---------------------------------------------------------------------
  // Addition
  // ---------------------------------------------------------------------

  /** Each party adds its own two holdings, as `shares_x_p1.LocalAddition(shares_y_p1)` does. */
  function AddParties(x: Parties, y: Parties): Result<Parties>
  {
    match AddShares(x.p1, y.p1)
    case Err(e) => Err(e)
    case Ok(s1) =>
      match AddShares(x.p2, y.p2)
      case Err(e) => Err(e)
      case Ok(s2) =>
        match AddShares(x.p3, y.p3)
        case Err(e) => Err(e)
        case Ok(s3) => Ok(Parties(s1, s2, s3))
  }

  /** Adding two resharings party by party is the resharing of the slot-wise sums. */
  lemma AddResharings(mpc: Mpc, u1: int, u2: int, u3: int, v1: int, v2: int, v3: int)
    ensures AddParties(Resharing(mpc, u1, u2, u3), Resharing(mpc, v1, v2, v3))
         == Ok(Resharing(mpc, (u1 + v1) % mpc.order, (u2 + v2) % mpc.order, (u3 + v3) % mpc.order))
  {
  }

  /** Additive homomorphism: the party-wise sums of two splits form a valid
      sharing, and any two of them reconstruct `(x + y) mod order`. */
  lemma AdditiveHomomorphism(mpc: Mpc, x: int, y: int, a1: int, a2: int, b1: int, b2: int, i: nat, j: nat)
    requires 1 <= a1 <= mpc.order && 1 <= a2 <= mpc.order
    requires 1 <= b1 <= mpc.order && 1 <= b2 <= mpc.order
    requires i < 3 && j < 3 && i != j
    ensures AddParties(Split(mpc, x, a1, a2), Split(mpc, y, b1, b2)).Ok?
    ensures ValidSharing(AddParties(Split(mpc, x, a1, a2), Split(mpc, y, b1, b2)).value, mpc.order)
    ensures Reconstruct(mpc, Party(AddParties(Split(mpc, x, a1, a2), Split(mpc, y, b1, b2)).value, i),
                             Party(AddParties(Split(mpc, x, a1, a2), Split(mpc, y, b1, b2)).value, j))
         == Ok((x + y) % mpc.order)
  {
    var o := mpc.order;
    var X, Y := Split(mpc, x, a1, a2), Split(mpc, y, b1, b2);
    var u3, v3 := (x - a1 - a2) % o, (y - b1 - b2) % o;
    assert X == Resharing(mpc, a1, a2, u3);
    assert Y == Resharing(mpc, b1, b2, v3);
    AddResharings(mpc, a1, a2, u3, b1, b2, v3);
    var S := Resharing(mpc, (a1 + b1) % o, (a2 + b2) % o, (u3 + v3) % o);
    ReconstructAnyPair(mpc, S, i, j);
    assert SecretOf(X) == a1 + a2 + u3 && SecretOf(Y) == b1 + b2 + v3;
    SumOfSums(a1, a2, u3, b1, b2, v3, x, y, o);
  }

  /** Slot-wise sums of two triples summing to `x` and to `y` (modulo `m`)
      sum to `x + y` (modulo `m`), however each slot is reduced. */
  lemma SumOfSums(a1: int, a2: int, a3: int, b1: int, b2: int, b3: int, x: int, y: int, m: Modulus)
    requires (a1 + a2 + a3) % m == x % m && (b1 + b2 + b3) % m == y % m
    ensures ((a1 + b1) % m + (a2 + b2) % m + (a3 + b3) % m) % m == (x + y) % m
  {
    SumOfResidues((a1 + b1) % m, (a2 + b2) % m, (a3 + b3) % m, a1 + b1, a2 + b2, a3 + b3,
                  (a1 + a2 + a3) + (b1 + b2 + b3), m);
    ModAddCongruent(a1 + a2 + a3, b1 + b2 + b3, x, y, m);
  }

  /** Reducing each of three terms first does not change the residue of their sum. */
  lemma ModSum3(a: int, b: int, c: int, m: Modulus)
    ensures (a % m + b % m + c % m) % m == (a + b + c) % m
  {
    ModAdd(a + b, c, m);
    ModAdd(a, b, m);
    ModAdd(a % m + b % m, c, m);
    ModMod(c, m);
    ModAdd(a % m + b % m, c % m, m);
    ModMod(a % m + b % m, m);
  }

  // ---------------------------------------------------------------------
  // Multiplication
  // ---------------------------------------------------------------------

  /** The three unreduced partial products of a resharing of `u` and one of
      `v` add up to the product of the totals, plus the three blinds. */
  lemma PartialProductIdentity(u1: int, u2: int, u3: int, v1: int, v2: int, v3: int)
    ensures ((u1 + u3) * (v1 + v3) - u3 * v3) + ((u2 + u1) * (v2 + v1) - u1 * v1)
          + ((u3 + u2) * (v3 + v2) - u2 * v2)
         == (u1 + u2 + u3) * (v1 + v2 + v3)
  {
  }

  /** `t` holds `s1, s2, s3` in the layout `Resharing` produces. */
  predicate Dealt(t: Parties, order: Modulus, s1: int, s2: int, s3: int)
  {
    && t.p1 == Scalar(order, [Some(s1), None, Some(s3)])
    && t.p2 == Scalar(order, [Some(s1), Some(s2), None])
    && t.p3 == Scalar(order, [None, Some(s2), Some(s3)])
  }

  /** Party 1 uses slots 0 and 2, party 2 slots 1 and 0, party 3 slots 2
      and 1, each adding its blind. */
  lemma PartialProductsOf(X: Parties, Y: Parties, order: Modulus, u1: int, u2: int, u3: int,
                          v1: int, v2: int, v3: int, r1: int, r2: int, r3: int)
    requires Dealt(X, order, u1, u2, u3) && Dealt(Y, order, v1, v2, v3)
    ensures MulShare(X.p1, Y.p1, r1) == Ok(((u1 + u3) * (v1 + v3) - u3 * v3 + r1) % order)
    ensures MulShare(X.p2, Y.p2, r2) == Ok(((u2 + u1) * (v2 + v1) - u1 * v1 + r2) % order)
    ensures MulShare(X.p3, Y.p3, r3) == Ok(((u3 + u2) * (v3 + v2) - u2 * v2 + r3) % order)
  {
    PartialProductOfParty(X.p1, Y.p1, r1, 0, 2, u1, u3, v1, v3);
    PartialProductOfParty(X.p2, Y.p2, r2, 1, 0, u2, u1, v2, v1);
    PartialProductOfParty(X.p3, Y.p3, r3, 2, 1, u3, u2, v3, v2);
  }

  /** Three residues of terms that add up to `t` add up to the residue of `t`. */
  lemma SumOfResidues(m1: int, m2: int, m3: int, e1: int, e2: int, e3: int, t: int, o: Modulus)
    requires m1 == e1 % o && m2 == e2 % o && m3 == e3 % o
    requires e1 + e2 + e3 == t
    ensures (m1 + m2 + m3) % o == t % o
  {
    ModSum3(e1, e2, e3, o);
  }

  /** The three partial products of two dealt sharings sum to `p + (r1 +
      r2 + r3)`, where `p` is the product of the two totals. */
  lemma PartialProductsSum(X: Parties, Y: Parties, order: Modulus, u1: int, u2: int, u3: int,
                           v1: int, v2: int, v3: int, r1: int, r2: int, r3: int, p: int)
    requires Dealt(X, order, u1, u2, u3) && Dealt(Y, order, v1, v2, v3)
    requires p == (u1 + u2 + u3) * (v1 + v2 + v3)
    ensures MulShare(X.p1, Y.p1, r1).Ok? && MulShare(X.p2, Y.p2, r2).Ok? && MulShare(X.p3, Y.p3, r3).Ok?
    ensures (MulShare(X.p1, Y.p1, r1).value + MulShare(X.p2, Y.p2, r2).value + MulShare(X.p3, Y.p3, r3).value) % order
         == (p + (r1 + r2 + r3)) % order
  {
    PartialProductsOf(X, Y, order, u1, u2, u3, v1, v2, v3, r1, r2, r3);
    PartialProductIdentity(u1, u2, u3, v1, v2, v3);
    SumOfResidues(MulShare(X.p1, Y.p1, r1).value, MulShare(X.p2, Y.p2, r2).value, MulShare(X.p3, Y.p3, r3).value,
                  (u1 + u3) * (v1 + v3) - u3 * v3 + r1, (u2 + u1) * (v2 + v1) - u1 * v1 + r2,
                  (u3 + u2) * (v3 + v2) - u2 * v2 + r3, p + (r1 + r2 + r3), order);
  }

  /** A party that lacks slot `a` and holds `xi, xj` in slots
      `i = (a + 2) % 3` and `j = (a + 1) % 3`, facing a holding with `yi, yj`
      there, computes `(xi + xj) * (yi + yj) - xj * yj + r`, reduced. */
  lemma PartialProductOfParty(x: ShareSet, y: ShareSet, r: int, i: nat, j: nat, xi: int, xj: int, yi: int, yj: int)
    requires x.Scalar? && y.Scalar? && x.order == y.order
    requires i < 3 && j < 3 && i != j
    requires FirstAbsent(x.slots) == Some(3 - i - j) && (3 - i - j + 2) % 3 == i
    requires x.slots[i] == Some(xi) && x.slots[j] == Some(xj) && y.slots[i] == Some(yi) && y.slots[j] == Some(yj)
    ensures MulShare(x, y, r) == Ok(((xi + xj) * (yi + yj) - xj * yj + r) % x.order)
  {
  }

  /** The multiplication protocol: each party multiplies its own holdings,
      the three results are reshared, and any two holdings of the resharing
      give `(x * y + (r1 + r2 + r3)) mod order`. */
  lemma MultiplicationProtocol(mpc: Mpc, x: int, y: int, a1: int, a2: int, b1: int, b2: int,
                               r1: int, r2: int, r3: int, i: nat, j: nat)
    requires 1 <= a1 <= mpc.order && 1 <= a2 <= mpc.order
    requires 1 <= b1 <= mpc.order && 1 <= b2 <= mpc.order
    requires i < 3 && j < 3 && i != j
    ensures var X, Y := Split(mpc, x, a1, a2), Split(mpc, y, b1, b2);
      && MulShare(X.p1, Y.p1, r1).Ok? && MulShare(X.p2, Y.p2, r2).Ok? && MulShare(X.p3, Y.p3, r3).Ok?
      && var R := Resharing(mpc, MulShare(X.p1, Y.p1, r1).value, MulShare(X.p2, Y.p2, r2).value,
                            MulShare(X.p3, Y.p3, r3).value);
         Reconstruct(mpc, Party(R, i), Party(R, j)) == Ok((x * y + (r1 + r2 + r3)) % mpc.order)
  {
    var o := mpc.order;
    var X, Y := Split(mpc, x, a1, a2), Split(mpc, y, b1, b2);
    var u3, v3 := (x - a1 - a2) % o, (y - b1 - b2) % o;
    assert Dealt(X, o, a1, a2, u3) && Dealt(Y, o, b1, b2, v3);
    var p := (a1 + a2 + u3) * (b1 + b2 + v3);
    PartialProductsSum(X, Y, o, a1, a2, u3, b1, b2, v3, r1, r2, r3, p);
    var m1, m2, m3 := MulShare(X.p1, Y.p1, r1).value, MulShare(X.p2, Y.p2, r2).value, MulShare(X.p3, Y.p3, r3).value;
    ReshareRoundTrip(mpc, m1, m2, m3, i, j);
    assert SecretOf(X) == a1 + a2 + u3 && SecretOf(Y) == b1 + b2 + v3;
    ProductOfCongruent(a1 + a2 + u3, x, b1 + b2 + v3, y, p, x * y, o);
    ModAddCongruent(p, r1 + r2 + r3, x * y, r1 + r2 + r3, o);
  }

  /** Replacing the factors by congruent ones keeps their product congruent. */
  lemma ProductOfCongruent(a: int, x: int, b: int, y: int, p: int, q: int, m: Modulus)
    requires a % m == x % m && b % m == y % m
    requires p == a * b && q == x * y
    ensures p % m == q % m
  {
    ModMul(a, b, m);
    ModMul(x, y, m);
  }

  /** With blinds that sum to zero (`0, 0, 0` at every call site of the
      source), the protocol yields `(x * y) mod order`. */
  lemma MultiplicationCorrect(mpc: Mpc, x: int, y: int, a1: int, a2: int, b1: int, b2: int,
                              r1: int, r2: int, r3: int, i: nat, j: nat)
    requires 1 <= a1 <= mpc.order && 1 <= a2 <= mpc.order
    requires 1 <= b1 <= mpc.order && 1 <= b2 <= mpc.order
    requires i < 3 && j < 3 && i != j
    requires r1 + r2 + r3 == 0
    ensures var X, Y := Split(mpc, x, a1, a2), Split(mpc, y, b1, b2);
      var R := Resharing(mpc, MulShare(X.p1, Y.p1, r1).value, MulShare(X.p2, Y.p2, r2).value,
                         MulShare(X.p3, Y.p3, r3).value);
      Reconstruct(mpc, Party(R, i), Party(R, j)) == Ok((x * y) % mpc.order)
  {
    MultiplicationProtocol(mpc, x, y, a1, a2, b1, b2, r1, r2, r3, i, j);
  }

  // ---------------------------------------------------------------------
  // Dot product
  // ---------------------------------------------------------------------

  /** `t` is a sharing of `s`: three scalar holdings in the layout
      `Resharing` produces whose shares add up to `s` modulo `order`. */
  predicate SharedAs(t: Parties, order: Modulus, s: int)
  {
    && t.p1.Scalar? && t.p2.Scalar?
    && t.p1.slots[0].Some? && t.p2.slots[1].Some? && t.p1.slots[2].Some?
    && Dealt(t, order, t.p1.slots[0].value, t.p2.slots[1].value, t.p1.slots[2].value)
    && (t.p1.slots[0].value + t.p2.slots[1].value + t.p1.slots[2].value) % order == s % order
  }

  /** `SplitSecret` deals a sharing of its secret. */
  lemma SplitIsShared(mpc: Mpc, secret: int, r1: int, r2: int)
    requires 1 <= r1 <= mpc.order && 1 <= r2 <= mpc.order
    ensures SharedAs(Split(mpc, secret, r1, r2), mpc.order, secret)
  {
    var t := Split(mpc, secret, r1, r2);
    assert SecretOf(t) == t.p1.slots[0].value + t.p2.slots[1].value + t.p1.slots[2].value;
  }

  /** The sharings of a vector's coordinates, held party by party. */
  predicate VectorShared(q: Parties, order: Modulus, v: seq<int>)
  {
    && q.p1.Vector? && q.p2.Vector? && q.p3.Vector?
    && q.p1.order == q.p2.order == q.p3.order == order
    && |q.p1.items| == |q.p2.items| == |q.p3.items| == |v|
    && forall c :: 0 <= c < |v| ==> SharedAs(Parties(q.p1.items[c], q.p2.items[c], q.p3.items[c]), order, v[c])
  }

  /** Coordinate `c` of each party's holding of a split vector is that
      party's holding of the split of `v[c]`. */
  lemma SplitVectorItem(mpc: Mpc, v: seq<int>, draws: seq<Draw>, c: nat)
    requires |draws| == |v| && DrawsIn(draws, mpc.order) && c < |v|
    ensures var t, s := SplitVector(mpc, v, draws).value, Split(mpc, v[c], draws[c].r1, draws[c].r2);
      && t.p1.Vector? && t.p2.Vector? && t.p3.Vector?
      && |t.p1.items| == |t.p2.items| == |t.p3.items| == |v|
      && t.p1.order == t.p2.order == t.p3.order == mpc.order
      && t.p1.items[c] == s.p1 && t.p2.items[c] == s.p2 && t.p3.items[c] == s.p3
  {
  }

  /** `SplitVectorSecret` deals a sharing of every coordinate. */
  lemma SplitVectorShares(mpc: Mpc, v: seq<int>, draws: seq<Draw>, q: Parties)
    requires |draws| == |v| && DrawsIn(draws, mpc.order)
    requires SplitVector(mpc, v, draws) == Ok(q)
    ensures VectorShared(q, mpc.order, v)
  {
    SplitVectorItem(mpc, v, draws, 0);
    forall c | 0 <= c < |v|
      ensures SharedAs(Coordinate(q, c), mpc.order, v[c])
    {
      SplitVectorItem(mpc, v, draws, c);
      SplitIsShared(mpc, v[c], draws[c].r1, draws[c].r2);
      assert Coordinate(q, c) == Split(mpc, v[c], draws[c].r1, draws[c].r2);
    }
  }

  /** One coordinate: the three parties' unblinded partial products of two
      sharings are defined. */
  lemma CoordinateDefined(X: Parties, Y: Parties, order: Modulus, x: int, y: int)
    requires SharedAs(X, order, x) && SharedAs(Y, order, y)
    ensures MulShare(X.p1, Y.p1, 0).Ok? && MulShare(X.p2, Y.p2, 0).Ok? && MulShare(X.p3, Y.p3, 0).Ok?
  {
    var u1, u2, u3 := X.p1.slots[0].value, X.p2.slots[1].value, X.p1.slots[2].value;
    var v1, v2, v3 := Y.p1.slots[0].value, Y.p2.slots[1].value, Y.p1.slots[2].value;
    PartialProductsOf(X, Y, order, u1, u2, u3, v1, v2, v3, 0, 0, 0);
  }

  /** One coordinate: the three parties' unblinded partial products
      `p1, p2, p3` of two sharings add up to `z`, the product of the two
      shared values. */
  lemma CoordinatePartials(X: Parties, Y: Parties, order: Modulus, x: int, y: int, z: int, p1: int, p2: int, p3: int)
    requires SharedAs(X, order, x) && SharedAs(Y, order, y) && z == x * y
    requires MulShare(X.p1, Y.p1, 0) == Ok(p1) && MulShare(X.p2, Y.p2, 0) == Ok(p2) && MulShare(X.p3, Y.p3, 0) == Ok(p3)
    ensures (p1 + p2 + p3) % order == z % order
  {
    var u1, u2, u3 := X.p1.slots[0].value, X.p2.slots[1].value, X.p1.slots[2].value;
    var v1, v2, v3 := Y.p1.slots[0].value, Y.p2.slots[1].value, Y.p1.slots[2].value;
    var p := (u1 + u2 + u3) * (v1 + v2 + v3);
    PartialProductsSum(X, Y, order, u1, u2, u3, v1, v2, v3, 0, 0, 0, p);
    ProductOfCongruent(u1 + u2 + u3, x, v1 + v2 + v3, y, p, z, order);
  }

  /** Coordinate `c` of a vector sharing. */
  function Coordinate(q: Parties, c: nat): Parties
    requires q.p1.Vector? && q.p2.Vector? && q.p3.Vector?
    requires c < |q.p1.items| && c < |q.p2.items| && c < |q.p3.items|
  {
    Parties(q.p1.items[c], q.p2.items[c], q.p3.items[c])
  }

  /** Every party's partial products of two vector sharings are defined. */
  lemma SharedProductsDefined(q: Parties, d: Parties, order: Modulus, x: seq<int>, y: seq<int>)
    requires |x| == |y| && VectorShared(q, order, x) && VectorShared(d, order, y)
    ensures Products(q.p1.items, d.p1.items, |x|).Ok?
    ensures Products(q.p2.items, d.p2.items, |x|).Ok?
    ensures Products(q.p3.items, d.p3.items, |x|).Ok?
  {
    forall c | 0 <= c < |x|
      ensures MulShare(q.p1.items[c], d.p1.items[c], 0).Ok?
      ensures MulShare(q.p2.items[c], d.p2.items[c], 0).Ok?
      ensures MulShare(q.p3.items[c], d.p3.items[c], 0).Ok?
    {
      CoordinateDefined(Coordinate(q, c), Coordinate(d, c), order, x[c], y[c]);
    }
  }

  /** Every coordinate of two vector sharings: the three partial products
      add up to the product of the coordinates. */
  lemma SharedCoordinates(q: Parties, d: Parties, order: Modulus, x: seq<int>, y: seq<int>,
                          ps1: seq<int>, ps2: seq<int>, ps3: seq<int>)
    requires |x| == |y| && VectorShared(q, order, x) && VectorShared(d, order, y)
    requires |ps1| == |ps2| == |ps3| == |x|
    requires forall c :: 0 <= c < |x| ==> MulShare(q.p1.items[c], d.p1.items[c], 0) == Ok(ps1[c])
    requires forall c :: 0 <= c < |x| ==> MulShare(q.p2.items[c], d.p2.items[c], 0) == Ok(ps2[c])
    requires forall c :: 0 <= c < |x| ==> MulShare(q.p3.items[c], d.p3.items[c], 0) == Ok(ps3[c])
    ensures forall c :: 0 <= c < |x| ==> (ps1[c] + ps2[c] + ps3[c]) % order == Termwise(x, y)[c] % order
  {
    var z := Termwise(x, y);
    forall c | 0 <= c < |x|
      ensures (ps1[c] + ps2[c] + ps3[c]) % order == z[c] % order
    {
      CoordinatePartials(Coordinate(q, c), Coordinate(d, c), order, x[c], y[c], z[c], ps1[c], ps2[c], ps3[c]);
    }
  }

  /** Summing coordinate-wise congruences: if the three terms at each
      coordinate add up to `z[c]`, the three sums add up to the sum of `z`. */
  lemma {:induction false} SumsCongruent(p1: seq<int>, p2: seq<int>, p3: seq<int>, z: seq<int>, m: Modulus)
    requires |p1| == |p2| == |p3| == |z|
    requires forall c :: 0 <= c < |z| ==> (p1[c] + p2[c] + p3[c]) % m == z[c] % m
    ensures (Sum(p1) + Sum(p2) + Sum(p3)) % m == Sum(z) % m
  {
    if |z| > 0 {
      var n := |z| - 1;
      SumsCongruent(p1[..n], p2[..n], p3[..n], z[..n], m);
      var head := Sum(p1[..n]) + Sum(p2[..n]) + Sum(p3[..n]);
      var last := p1[n] + p2[n] + p3[n];
      calc {
        (Sum(p1) + Sum(p2) + Sum(p3)) % m;
        (head + last) % m;
        { ModAdd(head, last, m); }
        (head % m + last % m) % m;
        (Sum(z[..n]) % m + z[n] % m) % m;
        { ModAdd(Sum(z[..n]), z[n], m); }
        (Sum(z[..n]) + z[n]) % m;
        Sum(z) % m;
      }
    }
  }

  /** A partial dot product is the partial products summed and reduced. */
  lemma DotShareOfProducts(X: ShareSet, Y: ShareSet, ps: seq<int>)
    requires X.Vector? && Y.Vector? && X.order == Y.order
    requires Products(X.items, Y.items, |X.items|) == Ok(ps)
    ensures DotShare(X, Y) == Ok(Sum(ps) % X.order)
  {
  }

  /** The three parties' partial products of two vector sharings, summed
      over the coordinates, add up to the dot product of the shared vectors. */
  lemma SharedProductsSum(q: Parties, d: Parties, order: Modulus, x: seq<int>, y: seq<int>,
                          ps1: seq<int>, ps2: seq<int>, ps3: seq<int>)
    requires |x| == |y| && VectorShared(q, order, x) && VectorShared(d, order, y)
    requires Products(q.p1.items, d.p1.items, |x|) == Ok(ps1)
    requires Products(q.p2.items, d.p2.items, |x|) == Ok(ps2)
    requires Products(q.p3.items, d.p3.items, |x|) == Ok(ps3)
    ensures (Sum(ps1) + Sum(ps2) + Sum(ps3)) % order == Dot(x, y) % order
  {
    SharedCoordinates(q, d, order, x, y, ps1, ps2, ps3);
    SumsCongruent(ps1, ps2, ps3, Termwise(x, y), order);
    DotIsSumOfProducts(x, y);
  }

  /** The three parties' partial dot products of two vector sharings, as
      the residues of three unreduced sums that add up to the dot product. */
  lemma PartialDotSums(q: Parties, d: Parties, order: Modulus, x: seq<int>, y: seq<int>) returns (s1: int, s2: int, s3: int)
    requires |x| == |y| && VectorShared(q, order, x) && VectorShared(d, order, y)
    ensures DotShare(q.p1, d.p1) == Ok(s1 % order)
    ensures DotShare(q.p2, d.p2) == Ok(s2 % order)
    ensures DotShare(q.p3, d.p3) == Ok(s3 % order)
    ensures (s1 + s2 + s3) % order == Dot(x, y) % order
  {
    var n := |x|;
    SharedProductsDefined(q, d, order, x, y);
    var ps1 := Products(q.p1.items, d.p1.items, n).value;
    var ps2 := Products(q.p2.items, d.p2.items, n).value;
    var ps3 := Products(q.p3.items, d.p3.items, n).value;
    SharedProductsSum(q, d, order, x, y, ps1, ps2, ps3);
    DotShareOfProducts(q.p1, d.p1, ps1);
    DotShareOfProducts(q.p2, d.p2, ps2);
    DotShareOfProducts(q.p3, d.p3, ps3);
    s1, s2, s3 := Sum(ps1), Sum(ps2), Sum(ps3);
  }

  /** Resharing three residues of terms whose sum is congruent to `t`
      reconstructs `t mod order` from any two holdings. */
  lemma ReshareResidues(mpc: Mpc, m1: int, m2: int, m3: int, e1: int, e2: int, e3: int, t: int, i: nat, j: nat)
    requires m1 == e1 % mpc.order && m2 == e2 % mpc.order && m3 == e3 % mpc.order
    requires (e1 + e2 + e3) % mpc.order == t % mpc.order
    requires i < 3 && j < 3 && i != j
    ensures Reconstruct(mpc, Party(Resharing(mpc, m1, m2, m3), i), Party(Resharing(mpc, m1, m2, m3), j))
         == Ok(t % mpc.order)
  {
    ReshareRoundTrip(mpc, m1, m2, m3, i, j);
    SumOfResidues(m1, m2, m3, e1, e2, e3, e1 + e2 + e3, mpc.order);
  }

  /** The dot-product protocol: each party computes its partial dot product,
      the three are reshared, and any two holdings of the resharing give
      `(x . y) mod order`. */
  lemma DotProductProtocol(mpc: Mpc, q: Parties, d: Parties, x: seq<int>, y: seq<int>, i: nat, j: nat)
    requires |x| == |y| && VectorShared(q, mpc.order, x) && VectorShared(d, mpc.order, y)
    requires i < 3 && j < 3 && i != j
    ensures DotShare(q.p1, d.p1).Ok? && DotShare(q.p2, d.p2).Ok? && DotShare(q.p3, d.p3).Ok?
    ensures var R := Resharing(mpc, DotShare(q.p1, d.p1).value, DotShare(q.p2, d.p2).value, DotShare(q.p3, d.p3).value);
      Reconstruct(mpc, Party(R, i), Party(R, j)) == Ok(Dot(x, y) % mpc.order)
  {
    var s1, s2, s3 := PartialDotSums(q, d, mpc.order, x, y);
    ReshareResidues(mpc, DotShare(q.p1, d.p1).value, DotShare(q.p2, d.p2).value, DotShare(q.p3, d.p3).value,
                    s1, s2, s3, Dot(x, y), i, j);
  }
}
