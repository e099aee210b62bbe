/** One party's holding in the three-party replicated additive scheme
    (`MPC_Shares` in MPC.py) and the operations a party runs on its own
    holdings without talking to anyone. */
module Shares {
  import opened Wrappers
  import opened Arith
  import opened Vectors

  /** One slot of a party's holding: a residue, or `None` where the source
      stores the `inf` marker for "not held". */
  type Share = Option<int>

  /** The three slots of a scalar holding. */
  type Slots = s: seq<Share> | |s| == 3 witness [None, None, None]

  /** A party's holding: the shares of one secret, or one holding per
      coordinate of a shared vector.  The Python class tells the two apart
      by the type of its first element; here the kind is fixed by the
      constructor. */
  datatype ShareSet =
    | Scalar(order: Modulus, slots: Slots)
    | Vector(order: Modulus, items: seq<ShareSet>)

  /** How many slots are not held. */
  function AbsentCount(s: Slots): (n: nat)
    ensures n <= 3
  {
    (if s[0].None? then 1 else 0) + (if s[1].None? then 1 else 0) + (if s[2].None? then 1 else 0)
  }

  /** The slot the "Party ID" loop stops at: the first absent one. */
  function FirstAbsent(s: Slots): (r: Option<nat>)
    ensures r.Some? ==> r.value < 3 && s[r.value].None? && forall t :: 0 <= t < r.value ==> s[t].Some?
    ensures r.None? <==> AbsentCount(s) == 0
  {
    if s[0].None? then Some(0) else if s[1].None? then Some(1) else if s[2].None? then Some(2) else None
  }

  /** Python list indexing, where index -1 is the last element. */
  function PyIndex(s: Slots, i: int): Share
    requires -3 <= i < 3
  {
    if i < 0 then s[3 + i] else s[i]
  }

  // ---------------------------------------------------------------------
  // LocalAddition
  // ---------------------------------------------------------------------

  /** The slot rule of LocalAddition: the sum where both operands hold the slot. */
  function AddSlot(a: Share, b: Share, order: Modulus): Share
  {
    if a.Some? && b.Some? then Some((a.value + b.value) % order) else None
  }

  /** What `x.LocalAddition(y)` returns.  When `y` is a vector its `shares`
      is `None`, and the source only indexes it for a slot that `x` holds. */
  function AddShares(x: ShareSet, y: ShareSet): (r: Result<ShareSet>)
    ensures x.Vector? ==> r == Err(NotScalar)
    ensures x.Scalar? && x.order != y.order ==> r == Err(OrderMismatch)
    ensures x.Scalar? && x.order == y.order && y.Vector? ==> (r.Err? <==> AbsentCount(x.slots) < 3)
    ensures x.Scalar? && y.Scalar? && x.order == y.order ==> r.Ok?
    ensures r.Ok? ==> r.value.Scalar? && r.value.order == x.order
    ensures r.Ok? ==> forall s :: 0 <= s < 3 && r.value.slots[s].Some? ==> 0 <= r.value.slots[s].value < x.order
  {
    if x.Vector? then Err(NotScalar)
    else if x.order != y.order then Err(OrderMismatch)
    else if y.Vector? then
      (if AbsentCount(x.slots) == 3 then Ok(Scalar(x.order, [None, None, None])) else Err(TypeMismatch))
    else Ok(Scalar(x.order, [AddSlot(x.slots[0], y.slots[0], x.order),
                             AddSlot(x.slots[1], y.slots[1], x.order),
                             AddSlot(x.slots[2], y.slots[2], x.order)]))
  }

  /** `MPC_Shares.LocalAddition`: fills the result slot by slot. */
  method LocalAddition(x: ShareSet, y: ShareSet) returns (res: Result<ShareSet>)
    ensures res == AddShares(x, y)
  {
    if x.Vector? {
      return Err(NotScalar);
    }
    if x.order != y.order {
      return Err(OrderMismatch);
    }
    var sum: Slots := [None, None, None];
    for s := 0 to 3
      invariant y.Vector? ==> sum == [None, None, None] && forall t :: 0 <= t < s ==> x.slots[t].None?
      invariant y.Scalar? ==> forall t :: 0 <= t < s ==> sum[t] == AddSlot(x.slots[t], y.slots[t], x.order)
      invariant forall t :: s <= t < 3 ==> sum[t] == None
    {
      if x.slots[s].Some? {
        if y.Vector? {
          return Err(TypeMismatch);
        }
        if y.slots[s].Some? {
          sum := sum[s := Some((x.slots[s].value + y.slots[s].value) % x.order)];
        }
      }
    }
    if y.Vector? {
      assert AbsentCount(x.slots) == 3;
    } else {
      assert sum == [sum[0], sum[1], sum[2]];
    }
    return Ok(Scalar(x.order, sum));
  }

  // ---------------------------------------------------------------------
  // LocalMultiplication
  // ---------------------------------------------------------------------

  /** What `x.LocalMultiplication(y, r)` returns.  With `a` the first slot
      `x` does not hold, the source's indices `a - 1` and `a - 2` (Python
      wraps negative indices) are the slots `(a + 2) % 3` and `(a + 1) % 3`.
      Any absent slot among the four operands makes the float arithmetic
      NaN. */
  function MulShare(x: ShareSet, y: ShareSet, r: int): (p: Result<int>)
    ensures p.Ok? <==>
      x.Scalar? && y.Scalar? && x.order == y.order && AbsentCount(x.slots) == 1 &&
      forall s :: 0 <= s < 3 && x.slots[s].Some? ==> y.slots[s].Some?
    ensures p.Ok? ==> 0 <= p.value < x.order
  {
    if x.Vector? then Err(NotScalar)
    else if x.order != y.order then Err(OrderMismatch)
    else match FirstAbsent(x.slots)
      case None => Err(NoAbsentSlot)
      case Some(a) =>
        if y.Vector? then Err(TypeMismatch)
        else
          var i, j := (a + 2) % 3, (a + 1) % 3;
          if x.slots[i].None? || x.slots[j].None? || y.slots[i].None? || y.slots[j].None? then Err(NonFinite)
          else
            Ok(((x.slots[i].value + x.slots[j].value) * (y.slots[i].value + y.slots[j].value)
                - x.slots[j].value * y.slots[j].value + r) % x.order)
  }

  /** `MPC_Shares.LocalMultiplication`: one party's partial product, blinded by `r`. */
  method LocalMultiplication(x: ShareSet, y: ShareSet, r: int) returns (res: Result<int>)
    ensures res == MulShare(x, y, r)
  {
    if x.Vector? {
      return Err(NotScalar);
    }
    if x.order != y.order {
      return Err(OrderMismatch);
    }
    var shares1 := x.slots;
    // Party ID: search for the slot this party does not hold.
    var a := 0;
    while a < 3 && shares1[a].Some?
      invariant 0 <= a <= 3
      invariant forall t :: 0 <= t < a ==> shares1[t].Some?
    {
      a := a + 1;
    }
    if a == 3 {
      // the loop ran without `break`: `j` is never bound
      return Err(NoAbsentSlot);
    }
    // `i = i - 1 % 3` parses as `i - 1`; so does `j = i - 1 % 3`
    var i := a - 1;
    var j := i - 1;
    if y.Vector? {
      return Err(TypeMismatch);
    }
    var shares2 := y.slots;
    var u1, u2, v1, v2 := PyIndex(shares1, i), PyIndex(shares1, j), PyIndex(shares2, i), PyIndex(shares2, j);
    if u1.None? || u2.None? || v1.None? || v2.None? {
      return Err(NonFinite);
    }
    return Ok(((u1.value + u2.value) * (v1.value + v2.value) - u2.value * v2.value + r) % x.order);
  }

  // ---------------------------------------------------------------------
  // LocalDotProduct
  // ---------------------------------------------------------------------

  /** The list `products` after the first `n` rounds of LocalDotProduct's
      first loop, which multiplies coordinate by coordinate with no blind
      and stops at the first failure.  Only `xs` fixes the number of rounds:
      a shorter `ys` fails with an index error, a longer one is cut short. */
  function Products(xs: seq<ShareSet>, ys: seq<ShareSet>, n: nat): (r: Result<seq<int>>)
    requires n <= |xs|
    ensures r.Ok? ==> |r.value| == n && n <= |ys|
    ensures r.Ok? ==> forall i {:trigger MulShare(xs[i], ys[i], 0)} :: 0 <= i < n ==> MulShare(xs[i], ys[i], 0) == Ok(r.value[i])
    ensures r.Ok? <==> n <= |ys| && forall i {:trigger MulShare(xs[i], ys[i], 0)} :: 0 <= i < n ==> MulShare(xs[i], ys[i], 0).Ok?
  {
    if n == 0 then Ok([])
    else match Products(xs, ys, n - 1)
      case Err(e) => Err(e)
      case Ok(ps) =>
        if n - 1 >= |ys| then Err(IndexOutOfRange)
        else match MulShare(xs[n - 1], ys[n - 1], 0)
          case Err(e) => Err(e)
          case Ok(p) => Ok(ps + [p])
  }

  /** Once a round fails, the loop has stopped: later rounds report the same failure. */
  lemma {:induction false} ProductsFailureStays(xs: seq<ShareSet>, ys: seq<ShareSet>, n: nat, m: nat)
    requires n <= m <= |xs|
    requires Products(xs, ys, n).Err?
    ensures Products(xs, ys, m) == Products(xs, ys, n)
    decreases m
  {
    if m > n {
      ProductsFailureStays(xs, ys, n, m - 1);
    }
  }

  /** What `x.LocalDotProduct(y)` returns: the partial products summed,
      reduced modulo the order. */
  function DotShare(x: ShareSet, y: ShareSet): (r: Result<int>)
    ensures r.Ok? ==> x.Vector? && y.Vector? && x.order == y.order && 0 <= r.value < x.order
  {
    if !(x.Vector? && y.Vector?) then Err(NotVector)
    else if x.order != y.order then Err(OrderMismatch)
    else match Products(x.items, y.items, |x.items|)
      case Err(e) => Err(e)
      case Ok(ps) => Ok(Sum(ps) % x.order)
  }

  /** `MPC_Shares.LocalDotProduct`: collects the partial products, then sums
      them.  The source's own `r` argument is never used, so it is not a
      parameter here. */
  method LocalDotProduct(x: ShareSet, y: ShareSet) returns (res: Result<int>)
    ensures res == DotShare(x, y)
  {
    if !(x.Vector? && y.Vector?) {
      return Err(NotVector);
    }
    if x.order != y.order {
      return Err(OrderMismatch);
    }
    var products: seq<int> := [];
    for i := 0 to |x.items|
      invariant Products(x.items, y.items, i) == Ok(products)
    {
      if i >= |y.items| {
        ProductsFailureStays(x.items, y.items, i + 1, |x.items|);
        return Err(IndexOutOfRange);
      }
      var product := LocalMultiplication(x.items[i], y.items[i], 0);
      if product.Err? {
        ProductsFailureStays(x.items, y.items, i + 1, |x.items|);
        return Err(product.error);
      }
      products := products + [product.value];
    }
    var shareDotProduct := 0;
    for i := 0 to |products|
      invariant shareDotProduct == Sum(products[..i])
    {
      assert products[..i + 1][..i] == products[..i];
      shareDotProduct := shareDotProduct + products[i];
    }
    assert products[..|products|] == products;
    return Ok(shareDotProduct % x.order);
  }

  // ---------------------------------------------------------------------
  // Reading a secret off two holdings
  // ---------------------------------------------------------------------

  /** The reconstruction rule for one slot: B's share where A does not hold
      the slot, A's share otherwise (also when both hold it). */
  function Pick(a: Slots, b: Slots, s: nat): Share
    requires s < 3
  {
    if a[s].None? then b[s] else a[s]
  }

  /** The sum of the three picked shares, or `None` when some slot is held
      by neither holding (the source then adds the infinity marker). */
  function CoveredSum(a: Slots, b: Slots): (r: Option<int>)
    ensures r.Some? <==> forall s :: 0 <= s < 3 ==> a[s].Some? || b[s].Some?
  {
    if Pick(a, b, 0).Some? && Pick(a, b, 1).Some? && Pick(a, b, 2).Some? then
      Some(Pick(a, b, 0).value + Pick(a, b, 1).value + Pick(a, b, 2).value)
    else None
  }
}
