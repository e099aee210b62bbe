/** The scheme object (`MPC` in MPC.py): the modulus, splitting a secret
    into three holdings, reading it back from any two of them, the vector
    versions of both, and resharing three partial results. */
module Scheme {
  import opened Wrappers
  import opened Arith
  import opened Shares

  /** An `MPC` object.  It is never changed after construction. */
  datatype Mpc = Mpc(order: Modulus, k: nat)

  /** `MPC(k, order)`: an explicit order must be a power of two.  The
      source tests that with `math.log2`, which rejects an order that is
      not positive with a math domain error. */
  function NewMpc(k: nat, order: Option<int>): (r: Result<Mpc>)
    ensures order.None? ==> r == Ok(Mpc(Pow2(k), k))
    ensures order.Some? ==> (r.Ok? <==> IsPowerOfTwo(order.value))
    ensures order.Some? && order.value <= 0 ==> r == Err(MathDomain)
    ensures order.Some? && r.Ok? ==> r.value.order == order.value
    ensures r.Ok? ==> r.value.order == Pow2(r.value.k)
  {
    match order
    case None => Ok(Mpc(Pow2(k), k))
    case Some(o) =>
      if o <= 0 then Err(MathDomain)
      else if IsPowerOfTwo(o) then Ok(Mpc(o, Log2(o)))
      else Err(NotPowerOfTwo)
  }

  /** The three holdings one split or resharing hands out, one per party. */
  datatype Parties = Parties(p1: ShareSet, p2: ShareSet, p3: ShareSet)

  function Party(t: Parties, p: nat): ShareSet
    requires p < 3
  {
    if p == 0 then t.p1 else if p == 1 then t.p2 else t.p3
  }

  /** How many of the three holdings hold slot `s`. */
  function HolderCount(t: Parties, s: nat): nat
    requires t.p1.Scalar? && t.p2.Scalar? && t.p3.Scalar? && s < 3
  {
    (if t.p1.slots[s].Some? then 1 else 0) + (if t.p2.slots[s].Some? then 1 else 0)
      + (if t.p3.slots[s].Some? then 1 else 0)
  }

  /** The sharing invariant: three scalar holdings under one order, each
      missing exactly one slot, each slot held by exactly two parties, and
      the two holders of a slot agreeing on its value. */
  predicate ValidSharing(t: Parties, order: Modulus)
  {
    && t.p1.Scalar? && t.p2.Scalar? && t.p3.Scalar?
    && t.p1.order == order && t.p2.order == order && t.p3.order == order
    && (forall p :: 0 <= p < 3 ==> AbsentCount(Party(t, p).slots) == 1)
    && (forall s :: 0 <= s < 3 ==> HolderCount(t, s) == 2)
    && (forall p, q, s ::
          (0 <= p < 3 && 0 <= q < 3 && 0 <= s < 3 &&
           Party(t, p).slots[s].Some? && Party(t, q).slots[s].Some?) ==>
            Party(t, p).slots[s] == Party(t, q).slots[s])
  }

  /** The value of slot `s`, from whichever party holds it. */
  function SlotValue(t: Parties, s: nat): int
    requires t.p1.Scalar? && t.p2.Scalar? && t.p3.Scalar? && s < 3
  {
    if t.p1.slots[s].Some? then t.p1.slots[s].value
    else if t.p2.slots[s].Some? then t.p2.slots[s].value
    else if t.p3.slots[s].Some? then t.p3.slots[s].value
    else 0
  }

  /** The secret a sharing stands for, before reduction. */
  function SecretOf(t: Parties): int
    requires t.p1.Scalar? && t.p2.Scalar? && t.p3.Scalar?
  {
    SlotValue(t, 0) + SlotValue(t, 1) + SlotValue(t, 2)
  }

  /** `MPC.Resharing`: hands three values out in the fixed layout
      party 1 `[s1, -, s3]`, party 2 `[s1, s2, -]`, party 3 `[-, s2, s3]`.
      The values are not reduced. */
  function Resharing(mpc: Mpc, share1: int, share2: int, share3: int): (t: Parties)
    ensures ValidSharing(t, mpc.order)
    ensures SecretOf(t) == share1 + share2 + share3
    ensures t.p1.slots[1].None? && t.p2.slots[2].None? && t.p3.slots[0].None?
    ensures t.p1.slots[0] == t.p2.slots[0] == Some(share1)
    ensures t.p2.slots[1] == t.p3.slots[1] == Some(share2)
    ensures t.p1.slots[2] == t.p3.slots[2] == Some(share3)
  {
    Parties(
      Scalar(mpc.order, [Some(share1), None, Some(share3)]),
      Scalar(mpc.order, [Some(share1), Some(share2), None]),
      Scalar(mpc.order, [None, Some(share2), Some(share3)]))
  }

  /** `MPC.SplitSecret`, given the two values `random.randint(1, order)`
      drew.  Those are stored unreduced; the third share is reduced. */
  function Split(mpc: Mpc, secret: int, r1: int, r2: int): (t: Parties)
    requires 1 <= r1 <= mpc.order && 1 <= r2 <= mpc.order
    ensures ValidSharing(t, mpc.order)
    ensures SecretOf(t) % mpc.order == secret % mpc.order
    ensures t.p1.slots[1].None? && t.p2.slots[2].None? && t.p3.slots[0].None?
    ensures t.p1.slots[0] == Some(r1) && t.p2.slots[1] == Some(r2)
    ensures t.p1.slots[2].Some? && 0 <= t.p1.slots[2].value < mpc.order
  {
    var share3 := (secret - r1 - r2) % mpc.order;
    ThirdShareCompletes(secret, r1 + r2, mpc.order);
    Resharing(mpc, r1, r2, share3)
  }

  /** Reducing the third share does not change the residue of the total. */
  lemma ThirdShareCompletes(secret: int, drawn: int, order: Modulus)
    ensures (drawn + (secret - drawn) % order) % order == secret % order
  {
    ModAdd(drawn, secret - drawn, order);
    ModAdd(drawn, (secret - drawn) % order, order);
    ModMod(secret - drawn, order);
  }

  /** What `ReconstructSecret(A, B)` returns: the picked shares summed and
      reduced.  A vector operand has `shares == None`, which the first
      index expression fails on; a slot neither holds makes the sum NaN.
      The scheme's own order is used, not the holdings'. */
  function Reconstruct(mpc: Mpc, a: ShareSet, b: ShareSet): (r: Result<int>)
    ensures r.Ok? <==> a.Scalar? && b.Scalar? && forall s :: 0 <= s < 3 ==> a.slots[s].Some? || b.slots[s].Some?
    ensures r.Ok? ==> 0 <= r.value < mpc.order
  {
    if a.Vector? || b.Vector? then Err(TypeMismatch)
    else match CoveredSum(a.slots, b.slots)
      case None => Err(NonFinite)
      case Some(x) => Ok(x % mpc.order)
  }

  /** `MPC.ReconstructSecret`: accumulates one picked share per slot. */
  method ReconstructSecret(mpc: Mpc, a: ShareSet, b: ShareSet) returns (res: Result<int>)
    ensures res == Reconstruct(mpc, a, b)
  {
    if a.Vector? || b.Vector? {
      return Err(TypeMismatch);
    }
    var sharesA, sharesB := a.slots, b.slots;
    var secret := 0;
    for s := 0 to 3
      invariant forall t :: 0 <= t < s ==> Pick(sharesA, sharesB, t).Some?
      invariant secret == (if s > 0 then Pick(sharesA, sharesB, 0).value else 0)
                        + (if s > 1 then Pick(sharesA, sharesB, 1).value else 0)
                        + (if s > 2 then Pick(sharesA, sharesB, 2).value else 0)
    {
      if sharesA[s].None? {
        if sharesB[s].None? {
          // the infinity marker enters the sum, which stays non-finite
          return Err(NonFinite);
        }
        secret := secret + sharesB[s].value;
      } else if sharesB[s].None? {
        secret := secret + sharesA[s].value;
      } else {
        secret := secret + sharesA[s].value;
      }
    }
    return Ok(secret % mpc.order);
  }

  // ---------------------------------------------------------------------
  // Vectors
  // ---------------------------------------------------------------------

  /** The two values `SplitSecret` draws for one coordinate. */
  datatype Draw = Draw(r1: int, r2: int)

  /** The range `random.randint(1, order)` draws from. */
  predicate DrawsIn(draws: seq<Draw>, order: Modulus)
  {
    forall i :: 0 <= i < |draws| ==> 1 <= draws[i].r1 <= order && 1 <= draws[i].r2 <= order
  }

  /** What `SplitVectorSecret(v)` returns: each coordinate split on its own,
      party by party.  An empty vector fails in the MPC_Shares constructor,
      which looks at `shares[0]`. */
  function SplitVector(mpc: Mpc, v: seq<int>, draws: seq<Draw>): (r: Result<Parties>)
    requires |draws| == |v| && DrawsIn(draws, mpc.order)
    ensures r.Ok? <==> |v| > 0
  {
    if |v| == 0 then Err(EmptyShares)
    else Ok(Parties(
      Vector(mpc.order, seq(|v|, i requires 0 <= i < |v| => Split(mpc, v[i], draws[i].r1, draws[i].r2).p1)),
      Vector(mpc.order, seq(|v|, i requires 0 <= i < |v| => Split(mpc, v[i], draws[i].r1, draws[i].r2).p2)),
      Vector(mpc.order, seq(|v|, i requires 0 <= i < |v| => Split(mpc, v[i], draws[i].r1, draws[i].r2).p3))))
  }

  /** `MPC.SplitVectorSecret`: appends each coordinate's three holdings to
      three lists. */
  method SplitVectorSecret(mpc: Mpc, v: seq<int>, draws: seq<Draw>) returns (res: Result<Parties>)
    requires |draws| == |v| && DrawsIn(draws, mpc.order)
    ensures res == SplitVector(mpc, v, draws)
  {
    var ps1: seq<ShareSet> := [];
    var ps2: seq<ShareSet> := [];
    var ps3: seq<ShareSet> := [];
    for i := 0 to |v|
      invariant |ps1| == |ps2| == |ps3| == i
      invariant forall c :: 0 <= c < i ==>
        Parties(ps1[c], ps2[c], ps3[c]) == Split(mpc, v[c], draws[c].r1, draws[c].r2)
    {
      var shares := Split(mpc, v[i], draws[i].r1, draws[i].r2);
      ps1 := ps1 + [shares.p1];
      ps2 := ps2 + [shares.p2];
      ps3 := ps3 + [shares.p3];
    }
    if |v| == 0 {
      return Err(EmptyShares);
    }
    assert ps1 == seq(|v|, i requires 0 <= i < |v| => Split(mpc, v[i], draws[i].r1, draws[i].r2).p1);
    assert ps2 == seq(|v|, i requires 0 <= i < |v| => Split(mpc, v[i], draws[i].r1, draws[i].r2).p2);
    assert ps3 == seq(|v|, i requires 0 <= i < |v| => Split(mpc, v[i], draws[i].r1, draws[i].r2).p3);
    return Ok(Parties(Vector(mpc.order, ps1), Vector(mpc.order, ps2), Vector(mpc.order, ps3)));
  }

  /** The list `ReconstructVectorSecret` has built after `n` rounds, or the
      failure that stopped it. */
  function Gather(mpc: Mpc, xs: seq<ShareSet>, b: ShareSet, n: nat): (r: Result<seq<int>>)
    requires n <= |xs|
    ensures r.Ok? ==> |r.value| == n
    ensures r.Ok? ==> forall i :: 0 <= i < n ==> b.Vector? && i < |b.items| && Reconstruct(mpc, xs[i], b.items[i]) == Ok(r.value[i])
    ensures r.Ok? <==> n == 0 || (b.Vector? && n <= |b.items| && forall i :: 0 <= i < n ==> Reconstruct(mpc, xs[i], b.items[i]).Ok?)
  {
    if n == 0 then Ok([])
    else match Gather(mpc, xs, b, n - 1)
      case Err(e) => Err(e)
      case Ok(vs) =>
        if b.Scalar? then Err(TypeMismatch)
        else if n - 1 >= |b.items| then Err(IndexOutOfRange)
        else match Reconstruct(mpc, xs[n - 1], b.items[n - 1])
          case Err(e) => Err(e)
          case Ok(x) => Ok(vs + [x])
  }

  lemma {:induction false} GatherFailureStays(mpc: Mpc, xs: seq<ShareSet>, b: ShareSet, n: nat, m: nat)
    requires n <= m <= |xs|
    requires Gather(mpc, xs, b, n).Err?
    ensures Gather(mpc, xs, b, m) == Gather(mpc, xs, b, n)
    decreases m
  {
    if m > n {
      GatherFailureStays(mpc, xs, b, n, m - 1);
    }
  }

  /** What `ReconstructVectorSecret(A, B)` returns.  `len(None)` fails when
      A is a scalar. */
  function ReconstructVector(mpc: Mpc, a: ShareSet, b: ShareSet): (r: Result<seq<int>>)
    ensures r.Ok? ==> a.Vector? && |r.value| == |a.items|
  {
    if a.Scalar? then Err(TypeMismatch) else Gather(mpc, a.items, b, |a.items|)
  }

  /** `MPC.ReconstructVectorSecret`: reconstructs coordinate by coordinate. */
  method ReconstructVectorSecret(mpc: Mpc, a: ShareSet, b: ShareSet) returns (res: Result<seq<int>>)
    ensures res == ReconstructVector(mpc, a, b)
  {
    if a.Scalar? {
      return Err(TypeMismatch);
    }
    var recovered: seq<int> := [];
    for i := 0 to |a.items|
      invariant Gather(mpc, a.items, b, i) == Ok(recovered)
    {
      if b.Scalar? || i >= |b.items| {
        GatherFailureStays(mpc, a.items, b, i + 1, |a.items|);
        return Gather(mpc, a.items, b, i + 1);
      }
      var secret := ReconstructSecret(mpc, a.items[i], b.items[i]);
      if secret.Err? {
        GatherFailureStays(mpc, a.items, b, i + 1, |a.items|);
        return Err(secret.error);
      }
      recovered := recovered + [secret.value];
    }
    return Ok(recovered);
  }
}
