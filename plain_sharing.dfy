/** The unreduced three-party additive scheme of main_3mpc_test.py: the
    shares are plain integers that add up to the secret, and the absent
    slot of each party carries the infinity marker, here `None`. */
module PlainSharing {
  import opened Wrappers
  import opened Shares
  import opened Scheme
  import SharingLaws

  /** The three lists `SplitSecret` returns, party by party. */
  datatype Holdings = Holdings(p1: Slots, p2: Slots, p3: Slots)

  function Holding(h: Holdings, p: nat): Slots
    requires p < 3
  {
    if p == 0 then h.p1 else if p == 1 then h.p2 else h.p3
  }

  /** `SplitSecret(secret)`, with the two values `random.randint(1, secret)`
      draws passed in as `r1` and `r2`.  For a secret below 1 that range is
      empty and `randint` raises. */
  function SplitSecret(secret: int, r1: int, r2: int): (r: Result<Holdings>)
    requires secret >= 1 ==> 1 <= r1 <= secret && 1 <= r2 <= secret
    ensures r.Err? <==> secret < 1
    ensures r.Err? ==> r.error == EmptyRange
    ensures r.Ok? ==> r.value.p1[1].None? && r.value.p2[2].None? && r.value.p3[0].None?
    ensures r.Ok? ==> r.value.p1[0] == r.value.p2[0] == Some(r1)
    ensures r.Ok? ==> r.value.p2[1] == r.value.p3[1] == Some(r2)
    ensures r.Ok? ==> r.value.p1[2] == r.value.p3[2] && r.value.p1[2].Some?
    ensures r.Ok? ==> r1 + r2 + r.value.p1[2].value == secret
  {
    if secret < 1 then Err(EmptyRange)
    else
      var share3 := secret - r1 - r2;
      Ok(Holdings([Some(r1), None, Some(share3)], [Some(r1), Some(r2), None], [None, Some(r2), Some(share3)]))
  }

  /** The running total of `ReconstructSecret` after its first `n` rounds;
      once the infinity marker has been added the total stays infinite. */
  function PickedSum(a: Slots, b: Slots, n: nat): (r: Option<int>)
    requires n <= 3
    ensures r.Some? <==> forall s :: 0 <= s < n ==> Pick(a, b, s).Some?
  {
    if n == 0 then Some(0)
    else match PickedSum(a, b, n - 1)
      case None => None
      case Some(x) => if Pick(a, b, n - 1).Some? then Some(x + Pick(a, b, n - 1).value) else None
  }

  /** `ReconstructSecret(sharesA, sharesB)`: slot by slot, B's share where A
      holds the marker, A's share otherwise. */
  method ReconstructSecret(a: Slots, b: Slots) returns (secret: Option<int>)
    ensures secret == CoveredSum(a, b)
  {
    secret := Some(0);
    for s := 0 to 3
      invariant secret == PickedSum(a, b, s)
    {
      var share: Share;
      if a[s].None? {
        share := b[s];
      } else if b[s].None? {
        share := a[s];
      } else {
        share := a[s];
      }
      secret := if secret.Some? && share.Some? then Some(secret.value + share.value) else None;
    }
    AllRoundsCover(a, b);
  }

  /** After its three rounds the running total is the covered sum. */
  lemma AllRoundsCover(a: Slots, b: Slots)
    ensures PickedSum(a, b, 3) == CoveredSum(a, b)
  {
    assert PickedSum(a, b, 1) == Pick(a, b, 0);
  }

  /** Any two distinct parties recover the secret exactly, in either order. */
  lemma AnyPairRecovers(secret: int, r1: int, r2: int, i: nat, j: nat)
    requires 1 <= r1 <= secret && 1 <= r2 <= secret
    requires i < 3 && j < 3 && i != j
    ensures SplitSecret(secret, r1, r2).Ok?
    ensures CoveredSum(Holding(SplitSecret(secret, r1, r2).value, i), Holding(SplitSecret(secret, r1, r2).value, j))
         == Some(secret)
  {
  }

  /** One party alone is not enough: its own absent slot stays uncovered. */
  lemma OnePartyIsNotEnough(secret: int, r1: int, r2: int, i: nat)
    requires 1 <= r1 <= secret && 1 <= r2 <= secret
    requires i < 3
    ensures SplitSecret(secret, r1, r2).Ok?
    ensures CoveredSum(Holding(SplitSecret(secret, r1, r2).value, i), Holding(SplitSecret(secret, r1, r2).value, i))
         == None
  {
  }

  /** Nothing reduces the shares, so the third share is negative whenever the two
      draws exceed the secret; with the default secret 1 both draws are 1
      and the third share is -1. */
  lemma ThirdShareSign(secret: int, r1: int, r2: int)
    requires 1 <= r1 <= secret && 1 <= r2 <= secret
    ensures SplitSecret(secret, r1, r2).Ok?
    ensures SplitSecret(secret, r1, r2).value.p1[2].value < 0 <==> r1 + r2 > secret
    ensures secret == 1 ==> r1 == r2 == 1 && SplitSecret(secret, r1, r2).value.p1[2] == Some(-1)
  {
  }

  /** The modular split of MPC.py and this plain one, fed the same draws,
      agree: every pair of modular holdings reconstructs the plain result
      reduced modulo the order. */
  lemma ModularAgreesWithPlain(mpc: Mpc, secret: int, r1: int, r2: int, i: nat, j: nat)
    requires 1 <= r1 <= secret && 1 <= r2 <= secret
    requires r1 <= mpc.order && r2 <= mpc.order
    requires i < 3 && j < 3 && i != j
    ensures SplitSecret(secret, r1, r2).Ok?
    ensures CoveredSum(Holding(SplitSecret(secret, r1, r2).value, i), Holding(SplitSecret(secret, r1, r2).value, j)).Some?
    ensures Reconstruct(mpc, Party(Split(mpc, secret, r1, r2), i), Party(Split(mpc, secret, r1, r2), j))
         == Ok(CoveredSum(Holding(SplitSecret(secret, r1, r2).value, i),
                          Holding(SplitSecret(secret, r1, r2).value, j)).value % mpc.order)
  {
    AnyPairRecovers(secret, r1, r2, i, j);
    SharingLaws.SplitRoundTrip(mpc, secret, r1, r2, i, j);
  }
}
