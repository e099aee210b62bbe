# Three-party replicated secret sharing and masked-code matching, in Dafny

This project models a small three-party computation library and the
masked binary-code matching protocol built on it.

- **Secret sharing (MPC.py).** A secret is split into three additive
  shares modulo a power of two. Each of the three parties holds two of
  the three shares: party 1 holds `[s1, -, s3]`, party 2 holds
  `[s1, s2, -]` and party 3 holds `[-, s2, s3]`. Any two parties together
  reconstruct the secret. The parties add sharings locally. They
  multiply them, and take dot products of shared vectors, through local
  partial products that are then reshared.
- **Masked binary codes (main_hamming_distance.py).** Two Hamming
  distance formulas, the `{-1, 0, +1}` encoding of a code under its mask,
  and the threshold test that decides a match.
- **The matching protocol (main_protocol.py, `many_codes_test`).** A
  masked query is shared once. For every database entry, the shared dot
  product is computed, reshared, reconstructed, read as a signed 16-bit
  value and checked against the plaintext dot product. The entry is
  reported as a match when it exceeds `(1 - 2 * match_ratio) * mask_ones`.
- **The unreduced scheme (main_3mpc_test.py).** The same layout over
  plain integers, with no modulus.

Modules, in dependency order:

| module | file | contents |
|---|---|---|
| `Wrappers` | wrappers.dfy | `Option`, `Result` and the error kinds: every Python exception and every NaN outcome of the code |
| `Arith` | arith.dfy | `Pow2`, the power-of-two test, modular arithmetic lemmas |
| `Vectors` | vectors.dfy | `Sum`, `Dot` (the `np.sum` and `np.dot` of the source) |
| `Shares` | shares.dfy | one party's holding (`MPC_Shares`) and its local operations |
| `Scheme` | scheme.dfy | the `MPC` object: split, reconstruct, vector split and reconstruct, resharing |
| `SharingLaws` | sharing_laws.dfy | the round trips, the additive homomorphism, the product and dot-product protocols |
| `Hamming` | hamming.dfy | the distance formulas, masked codes, the match decision |
| `Protocol` | protocol.dfy | the per-entry pipeline and the database scan of `many_codes_test` |
| `PlainSharing` | plain_sharing.dfy | the integer scheme of main_3mpc_test.py and its relation to the modular one |

Modelling choices:

- **Holdings.** A holding is a datatype: three `Option<int>` slots for a
  scalar, or a sequence of holdings for a vector. `None` stands for the
  `inf` marker of an absent slot. `MPC_Shares` objects are never changed
  after they are built, so they are values, not classes. The loops of
  the source are methods with loop invariants. Each method is proved
  equal to a specification function, and the algebra is proved about
  those functions.
- **Errors.**
  - A Python `assert`, a `raise` or an indexing error becomes an `Err`.
  - Arithmetic on `inf` that makes the result NaN becomes
    `Err(NonFinite)`.
  - In main_3mpc_test.py, where nothing is reduced, a sum that stays
    infinite is `None`.
- **Randomness.** The random draws (`random.randint`, `np.random.randint`)
  are parameters, each restricted to its documented range.
- **Arithmetic.**
  - `match_ratio` is an exact `real`.
  - Python's `%` with a positive modulus is Dafny's Euclidean `%`.
- **`signed_integer`.** It comes from utils.py, which is not part of
  this model. `Protocol.SignedInteger` gives it the usual reading, in
  which values from `2^(k-1)` upwards are negative, and the proofs use
  only its contract.

Two behaviours of the code that the model keeps as written:

- **Dot product operand lengths.** `LocalDotProduct` does not check
  operand lengths. It loops over the first operand only, so a shorter
  second operand raises IndexError and the extra coordinates of a longer
  one are ignored (`Shares.Products`).
- **Uncovered reconstruction.** A reconstruction from two holdings that
  leave a slot uncovered returns NaN, here `Err(NonFinite)`.

## Model

| member | source | states |
|---|---|---|
| Arith.PowerOfTwoIff | MPC.py:133-134 | the exact power-of-two test holds exactly for the numbers `2^k`, the orders whose `log2` is an integer |
| Arith.Log2 | MPC.py:133-136 | the `k` an explicit power-of-two order stores satisfies `2^k == order` |
| Shares.AddShares | MPC.py:40-65 | two scalars of the same order always add; the result is a scalar of that order whose held slots are residues in `[0, order)`; a vector `self` is the not-a-scalar error, a differing order the order error, and a vector operand a type error exactly when `self` holds some slot |
| Shares.LocalAddition | MPC.py:52-65 | the slot-by-slot loop returns exactly `AddShares`, including the type error when the other operand is a vector and `self` holds a slot |
| Shares.MulShare | MPC.py:68-98 | a partial product exists exactly when both are scalars of one order, `self` misses exactly one slot, and the other operand holds every slot `self` holds; it is a residue modulo the order |
| Shares.LocalMultiplication | MPC.py:80-98 | the absent-slot search followed by Python's negative indexing (`i - 1 % 3` is `i - 1`) returns exactly `MulShare`, including the missing-absent-slot error |
| Shares.Products | MPC.py:118-121 | the partial-product list has one entry per round, each equal to that coordinate's `MulShare` with blind 0; it exists exactly when the second operand is long enough and every round succeeds |
| Shares.ProductsFailureStays | MPC.py:119-121 | once a round fails, every later round count reports the same failure |
| Shares.DotShare | MPC.py:101-127 | a dot-product share exists only for two vectors of one order, and is a residue modulo the order |
| Shares.LocalDotProduct | MPC.py:115-127 | the two loops (collect products, then sum) return exactly `DotShare` |
| Shares.FirstAbsent | MPC.py:84-88 | the slot the search stops at is absent and every earlier slot is held; there is none exactly when no slot is absent |
| Shares.CoveredSum | MPC.py:166-172 | the picked shares sum to a value exactly when every slot is held by one of the two holdings |
| Scheme.NewMpc | MPC.py:131-139 | without an order, the order is `2^k`; with one, construction succeeds exactly for a power of two, a non-positive order is a math domain error, and `order == 2^k` always holds |
| Scheme.Split | MPC.py:141-157 | the three holdings follow the replicated layout, hold `r1`, `r2` and a reduced third share, and their shares sum to the secret modulo the order |
| Scheme.Resharing | MPC.py:204-216 | the layout holds, the given shares sit in their slots, and the shares sum to `share1 + share2 + share3` |
| Scheme.Reconstruct | MPC.py:160-174 | a result exists exactly when both holdings are scalars that together cover every slot, and it lies in `[0, order)` |
| Scheme.ReconstructSecret | MPC.py:160-174 | the loop that picks A's share unless A misses the slot returns exactly `Reconstruct` |
| Scheme.SplitVector | MPC.py:177-193 | a vector split exists exactly when the vector is non-empty |
| Scheme.SplitVectorSecret | MPC.py:177-193 | the appending loop returns exactly `SplitVector` |
| Scheme.Gather | MPC.py:197-200 | the reconstructed list has one entry per coordinate, each the `Reconstruct` of that coordinate's holdings, and exists exactly when all of those do |
| Scheme.GatherFailureStays | MPC.py:198-200 | once a coordinate fails, the rest of the loop reports the same failure |
| Scheme.ReconstructVector | MPC.py:196-201 | a reconstructed vector has one entry per coordinate of the first holding |
| Scheme.ReconstructVectorSecret | MPC.py:196-201 | the appending loop returns exactly `ReconstructVector` |
| Scheme.ThirdShareCompletes | MPC.py:143-145 | adding the reduced third share to the drawn shares gives back the secret modulo the order |
| SharingLaws.ReconstructAnyPair | MPC.py:160-174 | any two distinct holdings of a valid sharing reconstruct its secret modulo the order |
| SharingLaws.OneHoldingIsNotEnough | MPC.py:166-174 | a holding paired with itself leaves its own absent slot uncovered, which gives NaN |
| SharingLaws.SplitRoundTrip | MPC.py:141-174 | for all draws in `[1, order]` and every secret, negative ones included, any two parties reconstruct `secret mod order` |
| SharingLaws.ReshareRoundTrip | MPC.py:204-216 | any two holdings of `Resharing(a, b, c)` reconstruct `(a + b + c) mod order` |
| SharingLaws.VectorRoundTrip | MPC.py:177-201 | reconstructing any two parties' vector split gives `v` coordinate by coordinate modulo the order, in order and of the same length |
| SharingLaws.AddResharings | MPC.py:52-61 | adding two reshared triples slot by slot is resharing the reduced sums |
| SharingLaws.AdditiveHomomorphism | MPC.py:52-61 | adding two split secrets party by party keeps the layout and reconstructs `(x + y) mod order` |
| SharingLaws.PartialProductIdentity | MPC.py:91-96 | the three parties' partial-product expressions add up to `(u1 + u2 + u3) * (v1 + v2 + v3)` |
| SharingLaws.PartialProductsSum | MPC.py:91-96 | for sharings in the layout, the three partial products exist and sum to the product of the secrets plus the blinds, modulo the order |
| SharingLaws.MultiplicationProtocol | MPC.py:68-98 | multiplying two split secrets locally, resharing and reconstructing from any pair gives `x * y + r1 + r2 + r3` modulo the order |
| SharingLaws.MultiplicationCorrect | MPC.py:68-98 | with blinds that sum to zero, the reconstructed product is `(x * y) mod order` |
| SharingLaws.SplitVectorShares | MPC.py:177-193 | every coordinate of a vector split is a valid sharing of that coordinate |
| SharingLaws.SharedProductsSum | MPC.py:118-125 | the three parties' products, summed over the coordinates, agree with the plaintext dot product modulo the order |
| SharingLaws.PartialDotSums | MPC.py:101-127 | every party's dot-product share exists, and the three add up to the plaintext dot product modulo the order |
| SharingLaws.DotProductProtocol | MPC.py:101-127 | local dot products, resharing and reconstruction from any pair give `dot(x, y) mod order` |
| Hamming.HammingDistanceBinary | main_hamming_distance.py:10-17 | unequal lengths are an error; otherwise the distance lies between 0 and the length |
| Hamming.HammingDistanceRing | main_hamming_distance.py:20-27 | unequal lengths are an error |
| Hamming.DiffCountLaws | main_hamming_distance.py:16 | the count of differing positions is zero on equal codes, symmetric, and zero only for equal codes |
| Hamming.RingDistanceIsBinary | main_hamming_distance.py:10-27 | on 0/1 vectors the ring formula equals the binary distance, errors included |
| Hamming.MaskBits | main_hamming_distance.py:30-32 | mask 0 gives 0, mask 1 with bit 0 gives +1, mask 1 with bit 1 gives -1 |
| Hamming.MaskOnes | main_hamming_distance.py:61-62 | the count of common mask positions is at most the length |
| Hamming.DisagreementsBounded | main_hamming_distance.py:61-62 | the disagreements at common positions are at most the common positions |
| Hamming.FullMasksGiveHamming | main_hamming_distance.py:10-17 | with all-ones masks the disagreements are the binary Hamming distance and `mask_ones` is the length |
| Hamming.MaskedDotProduct | main_hamming_distance.py:48-62 | the masked dot product is `mask_ones - 2 * disagreements` |
| Hamming.MaskedDotBounds | main_hamming_distance.py:48-62 | the masked dot product lies in `[-mask_ones, mask_ones]`, and reaches `mask_ones` exactly when no common position disagrees |
| Hamming.MatchIffFewDisagreements | main_hamming_distance.py:61-70 | two masked codes match exactly when they disagree on fewer than `match_ratio * mask_ones` common positions |
| Hamming.SelfMatch | main_hamming_distance.py:61-70 | a code against itself has dot product `mask_ones`, and matches under a positive ratio exactly when `mask_ones > 0` |
| Protocol.ScriptLengthFits | main_protocol.py:7-9 | the script's vector length 10000 is below `2^15`, half the order |
| Protocol.SignedInteger | main_protocol.py:156 | the signed reading of a residue lies in `[-2^(k-1), 2^(k-1))` and is the residue itself or the residue minus `2^k` |
| Protocol.SignedRecovers | main_protocol.py:155-161 | reading `t mod 2^k` as signed gives back `t` exactly when `-2^(k-1) <= t < 2^(k-1)` |
| Protocol.QueryCode | main_protocol.py:115-121 | without a match index the query is the random code; an index `>= num_codes` is the invalid-index error; a negative index counts from the end as numpy does, and below `-num_codes` it is an index error |
| Protocol.KeptSound | main_protocol.py:171-172 | every kept match comes from an entry below the bound whose outcome it is |
| Protocol.KeptOrdered | main_protocol.py:140-172 | the kept matches appear in strictly increasing index order |
| Protocol.KeptComplete | main_protocol.py:171-172 | every entry below the bound whose outcome is a match is kept |
| Protocol.ExpectedMatchesExactly | main_protocol.py:140-172 | the reference match list holds `[i, dp, threshold]` exactly for the entries whose dot product exceeds their threshold, with the true dot product and threshold, in increasing `i` |
| Protocol.QueryEntryMatches | main_protocol.py:119-172 | when the query is a database code, that entry's dot product is its `mask_ones`, and it is a match exactly when `mask_ones > 0` |
| Protocol.EntryRecovers | main_protocol.py:144-155 | for any sharing of the query and of an entry, the three local dot products exist, and reconstructing parties 1 and 2 of their resharing gives the dot product modulo the order |
| Protocol.MaskedDotFits | main_protocol.py:7-9 | for codes shorter than `2^15`, the masked dot product lies in the signed 16-bit range |
| Protocol.CompareEntry | main_protocol.py:142-172 | one entry through the whole pipeline fails with the mismatch error exactly when its dot product falls outside the signed 16-bit range; otherwise it gives the reference outcome |
| Protocol.ScanDatabase | main_protocol.py:140-172 | the scan succeeds with exactly the reference match list; it fails, with the mismatch error, exactly when some entry's dot product falls outside the signed 16-bit range |
| Protocol.ManyCodesTest | main_protocol.py:107-181 | a bad match index is reported before any sharing; an empty vector length fails at the query split; a successful run returns the reference match list; with a valid query and a length below `2^15` every run succeeds |
| Protocol.ScriptRunReportsPlantedEntry | main_protocol.py:184-186 | in the script's own run (500 codes of length 10000, match index 100) the query is entry 100, and the reference list reports entry 100 exactly when its mask and the query's mask share a position |
| PlainSharing.SplitSecret | main_3mpc_test.py:7-19 | a secret below 1 is the empty-range error; otherwise the layout holds, the two holders of a slot agree, and `r1 + r2 + share3 == secret` with no reduction |
| PlainSharing.PickedSum | main_3mpc_test.py:23-31 | the running total after `n` rounds is finite exactly when each of the first `n` slots is held by one of the two holdings |
| PlainSharing.ReconstructSecret | main_3mpc_test.py:22-32 | the three-round loop returns the covered sum, taking A's share whenever A holds the slot |
| PlainSharing.AllRoundsCover | main_3mpc_test.py:23-32 | after the three rounds the running total is the covered sum |
| PlainSharing.AnyPairRecovers | main_3mpc_test.py:22-32 | any two distinct parties recover the secret exactly, as an integer |
| PlainSharing.OnePartyIsNotEnough | main_3mpc_test.py:22-32 | a party paired with itself leaves a slot infinite |
| PlainSharing.ThirdShareSign | main_3mpc_test.py:9-11 | the third share is negative exactly when the two draws exceed the secret; with the default secret 1 the draws are 1 and the third share is -1 |
| PlainSharing.ModularAgreesWithPlain | main_3mpc_test.py:7-32 | with the same draws, every pair of the modular split of MPC.py reconstructs the plain result reduced modulo the order |

## Left out

- Randomness: `random.randint` and `np.random.randint` are parameters: `Draw` pairs, the codes, the masks and the random query.
- `simple_test`, `test_mpc`, `measure_time`, the top-level scripts and all printing and debug output: they drive and report on the core and compute nothing of their own.
- Floating point: `match_ratio` and the threshold are exact reals, so float rounding of `(1 - 2 * match_ratio) * mask_ones` is not modelled. `math.log2` in the `MPC` constructor is the exact power-of-two test `Arith.IsPowerOfTwo`, and the float `k` it stores is the natural number `Arith.Log2`.
- NaN propagation: an operation on an absent slot stops at once with `Err(NonFinite)`. Python would carry the NaN on, and a later exception in the same call would be the one reported.
- numpy broadcasting and array shapes: the codes, the masks and the draws are rows of the stated lengths (`Protocol.Rows`).
- A negative `k` in the `MPC` constructor: `k` is a natural number, so the fractional order `2**k` does not arise.
- `Shares.LocalDotProduct`: the unused argument `r` of `LocalDotProduct` is not a parameter.
- `Protocol.CompareEntry`: the shared dot product is proved correct for any sharing of the query and of the entry that follows the layout, not only for the one the draws produce.
- `Protocol.CompareEntry` and `Protocol.ScanDatabase`: "fails exactly when the dot product is outside `[-2^15, 2^15)`" rests on `Protocol.SignedInteger` reading residues into that half-open range; a `signed_integer` whose range were `(-2^15, 2^15]` would move the edge by one value at `±2^15`.
- `mask_bits`, which main_protocol.py imports from utils.py: `Protocol` uses the definition at main_hamming_distance.py:30-32 (`Hamming.MaskBits`).
- `Hamming.HammingDistanceBinary` and `Hamming.HammingDistanceRing` are modelled for NumPy arrays: with plain Python lists `bin_vec1 != bin_vec2` is a single bool, which is not modelled. NumPy's 64-bit integer width is not modelled either; it does not overflow at these sizes.
- `Protocol.ManyCodesTest`: a run with vector length `2^15` or more may raise the mismatch error; the model does not say which of those runs do.
- `signed_integer` is defined in utils.py, which is not part of this model. `Protocol.SignedInteger` is its usual reading: a residue of `2^(k-1)` or more becomes negative.
- Security properties (secrecy of the shares, what the unblinded partial products leak): only functional correctness is modelled.
