/** The matching protocol of main_protocol.py (`many_codes_test`): a masked
    query code is split once; for every database entry the masked entry is
    split, the three parties compute their partial dot products, these are
    reshared, two holdings are reconstructed, the result is read as a signed
    integer, checked against the plaintext dot product and compared with the
    entry's threshold. */
module Protocol {
  import opened Wrappers
  import opened Arith
  import opened Vectors
  import opened Shares
  import opened Scheme
  import opened SharingLaws
  import opened Hamming

  /** The script's parameters: `k`, `vector_length`, `num_codes` and
      `match_ratio`. */
  const K: nat := 16
  const VectorLength: nat := 10000
  const NumCodes: nat := 500
  const MatchRatio: real := 0.01

  /** The order of `MPC(k)`: `2**k`. */
  function Order(): (o: Modulus)
    ensures o == Pow2(K) == 65536
  {
    ScriptLengthFits();
    Pow2(K)
  }

  /** The script's vectors are short enough for every masked dot product to
      be recovered: `vector_length < order / 2`. */
  lemma ScriptLengthFits()
    ensures VectorLength < Pow2(K - 1) == 32768 && 2 * Pow2(K - 1) == Pow2(K)
  {
    assert Pow2(15) == 32768;
  }

  /** `signed_integer(v, k)`: the residue `v` of `2**k` read in two's
      complement, i.e. the representative in `[-2**(k-1), 2**(k-1))`. */
  function SignedInteger(v: int, k: nat): (r: int)
    requires k >= 1 && 0 <= v < Pow2(k)
    ensures -Pow2(k - 1) <= r < Pow2(k - 1)
    ensures r == v || r == v - Pow2(k)
  {
    if v >= Pow2(k - 1) then v - Pow2(k) else v
  }

  /** Reading the residue of `t` gives `t` back exactly when `t` lies in
      the centred range, negative values included. */
  lemma SignedRecovers(t: int, k: nat)
    requires k >= 1
    ensures 0 <= t % Pow2(k) < Pow2(k)
    ensures SignedInteger(t % Pow2(k), k) == t <==> -Pow2(k - 1) <= t < Pow2(k - 1)
  {
    var p := Pow2(k);
    if 0 <= t < Pow2(k - 1) {
      ModUnique(t, p, 0, t);
    } else if -Pow2(k - 1) <= t < 0 {
      ModUnique(t, p, -1, t + p);
    }
  }

  /** The values a `k`-bit signed reading can return: `[-2**(k-1), 2**(k-1))`. */
  predicate Representable(t: int)
  {
    -Pow2(K - 1) <= t < Pow2(K - 1)
  }

  // ---------------------------------------------------------------------
  // The query and the masked codes
  // ---------------------------------------------------------------------

  /** The query code: `codes_db[match_index]` when an index is given (NumPy
      counts a negative index from the end), else the freshly drawn code. */
  function QueryCode(codesDb: seq<seq<Bit>>, matchIndex: Option<int>, randomQuery: seq<Bit>): (r: Result<seq<Bit>>)
    ensures matchIndex.None? ==> r == Ok(randomQuery)
    ensures matchIndex.Some? && matchIndex.value >= |codesDb| ==> r == Err(InvalidMatchIndex)
    ensures matchIndex.Some? && matchIndex.value < -|codesDb| ==> r == Err(IndexOutOfRange)
    ensures matchIndex.Some? && 0 <= matchIndex.value < |codesDb| ==> r == Ok(codesDb[matchIndex.value])
    ensures matchIndex.Some? && -|codesDb| <= matchIndex.value < 0 ==> r == Ok(codesDb[|codesDb| + matchIndex.value])
  {
    match matchIndex
    case None => Ok(randomQuery)
    case Some(m) =>
      if m >= |codesDb| then Err(InvalidMatchIndex)
      else if m < -|codesDb| then Err(IndexOutOfRange)
      else Ok(codesDb[if m < 0 then |codesDb| + m else m])
  }

  /** `mask_bits(codes_db, masks_db)`: every row masked by its own mask. */
  function MaskRows(codes: seq<seq<Bit>>, masks: seq<seq<Bit>>): (r: seq<seq<int>>)
    requires |codes| == |masks| && forall i :: 0 <= i < |codes| ==> |codes[i]| == |masks[i]|
    ensures |r| == |codes| && forall i :: 0 <= i < |codes| ==> r[i] == MaskBits(codes[i], masks[i])
  {
    seq(|codes|, i requires 0 <= i < |codes| => MaskBits(codes[i], masks[i]))
  }

  /** Every row has `n` entries. */
  predicate Rows<T>(rows: seq<seq<T>>, count: nat, n: nat)
  {
    |rows| == count && forall i :: 0 <= i < |rows| ==> |rows[i]| == n
  }

  // ---------------------------------------------------------------------
  // The reference result
  // ---------------------------------------------------------------------

  /** One entry of `matches`: `[i, dp_signed, threshold]`. */
  datatype Match = Match(index: nat, dot: int, threshold: real)

  /** How entry `i` fares against the query: its record when the plaintext
      dot product passes the entry's threshold, else nothing. */
  function Outcome(query: seq<int>, maskQuery: seq<Bit>, entry: seq<int>, maskEntry: seq<Bit>, i: nat): Option<Match>
    requires |entry| == |query| && |maskEntry| == |maskQuery|
  {
    var ones := MaskOnes(maskQuery, maskEntry);
    if IsMatch(Dot(query, entry), MatchRatio, ones) then Some(Match(i, Dot(query, entry), Threshold(MatchRatio, ones)))
    else None
  }

  /** The entries `db` and `masks` agree in shape with the query. */
  predicate Shaped(query: seq<int>, maskQuery: seq<Bit>, db: seq<seq<int>>, masks: seq<seq<Bit>>)
  {
    |db| == |masks| && forall i :: 0 <= i < |db| ==> |db[i]| == |query| && |masks[i]| == |maskQuery|
  }

  /** The outcome of every entry. */
  function Outcomes(query: seq<int>, maskQuery: seq<Bit>, db: seq<seq<int>>, masks: seq<seq<Bit>>): (r: seq<Option<Match>>)
    requires Shaped(query, maskQuery, db, masks)
    ensures |r| == |db| && forall i :: 0 <= i < |db| ==> r[i] == Outcome(query, maskQuery, db[i], masks[i], i)
  {
    seq(|db|, i requires 0 <= i < |db| => Outcome(query, maskQuery, db[i], masks[i], i))
  }

  /** The records among the first `n` outcomes, in order: the list a loop
      builds by appending the record of round `i` when there is one. */
  function Kept(outcomes: seq<Option<Match>>, n: nat): (r: seq<Match>)
    requires n <= |outcomes|
    ensures |r| <= n
  {
    if n == 0 then []
    else Kept(outcomes, n - 1) + (if outcomes[n - 1].Some? then [outcomes[n - 1].value] else [])
  }

  /** One more round: the record of outcome `i`, if any, is appended. */
  lemma KeptStep(outcomes: seq<Option<Match>>, i: nat)
    requires i < |outcomes|
    ensures Kept(outcomes, i + 1) == Kept(outcomes, i) + (if outcomes[i].Some? then [outcomes[i].value] else [])
  {
  }

  /** The record of outcome `i` carries index `i`. */
  predicate Indexed(outcomes: seq<Option<Match>>)
  {
    forall i :: 0 <= i < |outcomes| && outcomes[i].Some? ==> outcomes[i].value.index == i
  }

  /** The records of `r` carry strictly increasing indices. */
  predicate IncreasingIndices(r: seq<Match>)
  {
    forall k, l :: 0 <= k < l < |r| ==> r[k].index < r[l].index
  }

  /** Every outcome `i < n` that is a record has its record in `r`. */
  predicate KeepsAll(r: seq<Match>, outcomes: seq<Option<Match>>, n: nat)
    requires n <= |outcomes|
  {
    forall i :: 0 <= i < n && outcomes[i].Some? ==> exists k :: 0 <= k < |r| && r[k].index == i
  }

  /** Every kept record is the record of some outcome `i < n`. */
  lemma {:induction false} KeptSound(outcomes: seq<Option<Match>>, n: nat)
    requires n <= |outcomes| && Indexed(outcomes)
    ensures forall k :: 0 <= k < |Kept(outcomes, n)| ==>
      Kept(outcomes, n)[k].index < n && outcomes[Kept(outcomes, n)[k].index] == Some(Kept(outcomes, n)[k])
  {
    if n > 0 {
      KeptSound(outcomes, n - 1);
      var r0 := Kept(outcomes, n - 1);
      var r := Kept(outcomes, n);
      if outcomes[n - 1].Some? {
        assert r == r0 + [outcomes[n - 1].value];
      } else {
        assert r == r0;
      }
    }
  }

  /** The kept records are in increasing index order. */
  lemma {:induction false} KeptOrdered(outcomes: seq<Option<Match>>, n: nat)
    requires n <= |outcomes| && Indexed(outcomes)
    ensures IncreasingIndices(Kept(outcomes, n))
  {
    if n > 0 {
      KeptOrdered(outcomes, n - 1);
      KeptSound(outcomes, n - 1);
      var r0 := Kept(outcomes, n - 1);
      var r := Kept(outcomes, n);
      if outcomes[n - 1].Some? {
        assert r == r0 + [outcomes[n - 1].value];
      } else {
        assert r == r0;
      }
    }
  }

  /** The record of every outcome `i < n` is kept. */
  lemma {:induction false} KeptComplete(outcomes: seq<Option<Match>>, n: nat)
    requires n <= |outcomes| && Indexed(outcomes)
    ensures KeepsAll(Kept(outcomes, n), outcomes, n)
  {
    if n > 0 {
      KeptComplete(outcomes, n - 1);
      var r0 := Kept(outcomes, n - 1);
      var r := Kept(outcomes, n);
      if outcomes[n - 1].Some? {
        assert r == r0 + [outcomes[n - 1].value];
        assert r[|r0|].index == n - 1;
      } else {
        assert r == r0;
      }
      forall i | 0 <= i < n && outcomes[i].Some?
        ensures exists k :: 0 <= k < |Kept(outcomes, n)| && Kept(outcomes, n)[k].index == i
      {
        if i < n - 1 {
          var k :| 0 <= k < |r0| && r0[k].index == i;
          assert r[k] == r0[k];
        } else {
          assert r[|r0|].index == i;
        }
      }
    }
  }

  /** `matches` after the first `n` entries, computed from the plaintext
      masked codes. */
  function ExpectedMatches(query: seq<int>, maskQuery: seq<Bit>, db: seq<seq<int>>, masks: seq<seq<Bit>>, n: nat): seq<Match>
    requires Shaped(query, maskQuery, db, masks) && n <= |db|
  {
    Kept(Outcomes(query, maskQuery, db, masks), n)
  }

  /** Entry `i` passes its threshold. */
  predicate EntryMatches(query: seq<int>, maskQuery: seq<Bit>, db: seq<seq<int>>, masks: seq<seq<Bit>>, i: nat)
    requires Shaped(query, maskQuery, db, masks) && i < |db|
  {
    IsMatch(Dot(query, db[i]), MatchRatio, MaskOnes(maskQuery, masks[i]))
  }

  /** Every record of `r` is `[i, dp, threshold]` for an entry `i` that
      passes its threshold, with its plaintext dot product and threshold. */
  predicate OnlyPassing(r: seq<Match>, query: seq<int>, maskQuery: seq<Bit>, db: seq<seq<int>>, masks: seq<seq<Bit>>)
    requires Shaped(query, maskQuery, db, masks)
  {
    forall k :: 0 <= k < |r| ==>
      r[k].index < |db| && EntryMatches(query, maskQuery, db, masks, r[k].index) &&
      r[k].dot == Dot(query, db[r[k].index]) &&
      r[k].threshold == Threshold(MatchRatio, MaskOnes(maskQuery, masks[r[k].index]))
  }

  /** Every entry that passes its threshold has a record in `r`. */
  predicate AllPassing(r: seq<Match>, query: seq<int>, maskQuery: seq<Bit>, db: seq<seq<int>>, masks: seq<seq<Bit>>)
    requires Shaped(query, maskQuery, db, masks)
  {
    forall i :: 0 <= i < |db| && EntryMatches(query, maskQuery, db, masks, i) ==>
      exists k :: 0 <= k < |r| && r[k].index == i
  }

  /** `matches` lists exactly the entries that pass their threshold, each
      with its plaintext dot product and threshold, once, in increasing
      index order. */
  lemma ExpectedMatchesExactly(query: seq<int>, maskQuery: seq<Bit>, db: seq<seq<int>>, masks: seq<seq<Bit>>)
    requires Shaped(query, maskQuery, db, masks)
    ensures OnlyPassing(ExpectedMatches(query, maskQuery, db, masks, |db|), query, maskQuery, db, masks)
    ensures IncreasingIndices(ExpectedMatches(query, maskQuery, db, masks, |db|))
    ensures AllPassing(ExpectedMatches(query, maskQuery, db, masks, |db|), query, maskQuery, db, masks)
  {
    var outcomes := Outcomes(query, maskQuery, db, masks);
    KeptSound(outcomes, |db|);
    KeptOrdered(outcomes, |db|);
    KeptComplete(outcomes, |db|);
  }

  /** When the query is database entry `m` itself (under the query's own
      mask), that entry's dot product is the count of positions both masks
      keep, and the entry is reported exactly when that count is positive. */
  lemma QueryEntryMatches(code: seq<Bit>, maskQuery: seq<Bit>, maskEntry: seq<Bit>, m: nat)
    requires |code| == |maskQuery| == |maskEntry|
    ensures var ones := MaskOnes(maskQuery, maskEntry);
      Outcome(MaskBits(code, maskQuery), maskQuery, MaskBits(code, maskEntry), maskEntry, m)
        == if ones > 0 then Some(Match(m, ones, Threshold(MatchRatio, ones))) else None
  {
    SelfMatch(code, maskQuery, maskEntry, MatchRatio, Dot(MaskBits(code, maskQuery), MaskBits(code, maskEntry)),
              MaskOnes(maskQuery, maskEntry));
  }

  /** Entry `i` has a record in `r`. */
  predicate Reports(r: seq<Match>, i: nat)
  {
    exists k :: 0 <= k < |r| && r[k].index == i
  }

  /** The script's own run, `many_codes_test(num_codes, vector_length,
      match_index=100)`: the query is entry 100, and the reference list
      reports entry 100 exactly when its mask and the query's mask share a
      position. */
  lemma ScriptRunReportsPlantedEntry(codesDb: seq<seq<Bit>>, randomQuery: seq<Bit>,
                                     maskQuery: seq<Bit>, masksDb: seq<seq<Bit>>)
    requires Rows(codesDb, NumCodes, VectorLength) && Rows(masksDb, NumCodes, VectorLength)
    requires |maskQuery| == VectorLength
    ensures QueryCode(codesDb, Some(100), randomQuery) == Ok(codesDb[100])
    ensures Shaped(MaskBits(codesDb[100], maskQuery), maskQuery, MaskRows(codesDb, masksDb), masksDb)
    ensures Reports(ExpectedMatches(MaskBits(codesDb[100], maskQuery), maskQuery, MaskRows(codesDb, masksDb), masksDb, NumCodes), 100)
        <==> MaskOnes(maskQuery, masksDb[100]) > 0
  {
    var query, db := MaskBits(codesDb[100], maskQuery), MaskRows(codesDb, masksDb);
    assert Shaped(query, maskQuery, db, masksDb);
    var r := ExpectedMatches(query, maskQuery, db, masksDb, NumCodes);
    ExpectedMatchesExactly(query, maskQuery, db, masksDb);
    QueryEntryMatches(codesDb[100], maskQuery, masksDb[100], 100);
    assert db[100] == MaskBits(codesDb[100], masksDb[100]);
    if MaskOnes(maskQuery, masksDb[100]) > 0 {
      assert EntryMatches(query, maskQuery, db, masksDb, 100);
    }
    if Reports(r, 100) {
      var k :| 0 <= k < |r| && r[k].index == 100;
      assert EntryMatches(query, maskQuery, db, masksDb, r[k].index);
    }
  }

  // ---------------------------------------------------------------------
  // One database entry through the shared pipeline
  // ---------------------------------------------------------------------

  /** For shared vectors of the script's order, the three partial dot
      products are defined and parties 1 and 2 reconstruct the dot product
      modulo the order from the reshared result. */
  lemma EntryRecovers(mpc: Mpc, q: Parties, d: Parties, x: seq<int>, y: seq<int>)
    requires |x| == |y| && VectorShared(q, mpc.order, x) && VectorShared(d, mpc.order, y)
    ensures DotShare(q.p1, d.p1).Ok? && DotShare(q.p2, d.p2).Ok? && DotShare(q.p3, d.p3).Ok?
    ensures var R := Resharing(mpc, DotShare(q.p1, d.p1).value, DotShare(q.p2, d.p2).value, DotShare(q.p3, d.p3).value);
      Reconstruct(mpc, R.p1, R.p2) == Ok(Dot(x, y) % mpc.order)
  {
    DotProductProtocol(mpc, q, d, x, y, 0, 1);
  }

  /** A masked dot product of vectors of length `n < 2**(k-1)` lies in the
      centred range. */
  lemma MaskedDotFits(a: seq<Bit>, ma: seq<Bit>, b: seq<Bit>, mb: seq<Bit>)
    requires |a| == |ma| == |b| == |mb| < Pow2(K - 1)
    ensures Representable(Dot(MaskBits(a, ma), MaskBits(b, mb)))
  {
    MaskedDotBounds(a, ma, b, mb);
  }

  /** One round of the loop of `many_codes_test`: split entry `i`, let the
      parties compute and reshare their partial dot products with the
      shared query, reconstruct, read the result as a signed integer, check
      it against the plaintext dot product and test it against the entry's
      threshold.  The check fails exactly when the dot product leaves the
      centred range and wraps around. */
  method CompareEntry(mpc: Mpc, q: Parties, query: seq<int>, maskQuery: seq<Bit>,
                      entry: seq<int>, maskEntry: seq<Bit>, draws: seq<Draw>, i: nat)
    returns (res: Result<Option<Match>>)
    requires mpc.order == Pow2(K) && VectorShared(q, mpc.order, query)
    requires |entry| == |query| > 0 && |maskEntry| == |maskQuery| && |draws| == |entry| && DrawsIn(draws, mpc.order)
    ensures res.Err? <==> !Representable(Dot(query, entry))
    ensures res.Err? ==> res.error == DotProductMismatch
    ensures res.Ok? ==> res.value == Outcome(query, maskQuery, entry, maskEntry, i)
  {
    var split := SplitVectorSecret(mpc, entry, draws);
    var d := split.value;
    SplitVectorShares(mpc, entry, draws, d);
    EntryRecovers(mpc, q, d, query, entry);

    var shareDp1 := LocalDotProduct(q.p1, d.p1);
    var shareDp2 := LocalDotProduct(q.p2, d.p2);
    var shareDp3 := LocalDotProduct(q.p3, d.p3);
    var shares := Resharing(mpc, shareDp1.value, shareDp2.value, shareDp3.value);
    var dp := ReconstructSecret(mpc, shares.p1, shares.p2);
    var dpSigned := SignedInteger(dp.value, K);
    var dpReal := Dot(query, entry);
    SignedRecovers(dpReal, K);
    if dpSigned != dpReal {
      return Err(DotProductMismatch);
    }

    var masksOnes := MaskOnes(maskQuery, maskEntry);
    var threshold := Threshold(MatchRatio, masksOnes);
    if dpSigned as real > threshold {
      return Ok(Some(Match(i, dpSigned, threshold)));
    }
    return Ok(None);
  }

  /** The loop of `many_codes_test` over the database: every entry is
      compared with the shared query and its record appended when it
      passes.  The run fails, with the mismatch error, exactly when some
      entry's dot product leaves the centred range. */
  method ScanDatabase(mpc: Mpc, q: Parties, query: seq<int>, maskQuery: seq<Bit>,
                      db: seq<seq<int>>, masks: seq<seq<Bit>>, draws: seq<seq<Draw>>)
    returns (res: Result<seq<Match>>)
    requires mpc.order == Pow2(K) && VectorShared(q, mpc.order, query) && |query| > 0
    requires Shaped(query, maskQuery, db, masks)
    requires |draws| == |db| && forall i :: 0 <= i < |db| ==> |draws[i]| == |query| && DrawsIn(draws[i], mpc.order)
    ensures res.Ok? ==> res.value == ExpectedMatches(query, maskQuery, db, masks, |db|)
    ensures res.Err? <==> exists i :: 0 <= i < |db| && !Representable(Dot(query, db[i]))
    ensures res.Err? ==> res.error == DotProductMismatch
  {
    ghost var outcomes := Outcomes(query, maskQuery, db, masks);
    var matches: seq<Match> := [];
    for i := 0 to |db|
      invariant matches == Kept(outcomes, i)
      invariant forall j :: 0 <= j < i ==> Representable(Dot(query, db[j]))
    {
      var found := CompareEntry(mpc, q, query, maskQuery, db[i], masks[i], draws[i], i);
      if found.Err? {
        return Err(found.error);
      }
      assert Representable(Dot(query, db[i])) && found.value == outcomes[i];
      KeptStep(outcomes, i);
      if found.value.Some? {
        matches := matches + [found.value.value];
      }
    }
    return Ok(matches);
  }

  // ---------------------------------------------------------------------
  // many_codes_test
  // ---------------------------------------------------------------------

  /** `many_codes_test(num_codes, vector_length, match_index)`.  The random
      database, query, masks and split draws are parameters in the shapes
      the source draws them.  The result is the list `matches` (which the
      source prints), or the failure that ends the run. */
  method ManyCodesTest(numCodes: nat, vectorLength: nat, matchIndex: Option<int>,
                       codesDb: seq<seq<Bit>>, randomQuery: seq<Bit>,
                       maskQuery: seq<Bit>, masksDb: seq<seq<Bit>>,
                       queryDraws: seq<Draw>, dbDraws: seq<seq<Draw>>)
    returns (res: Result<seq<Match>>)
    requires Rows(codesDb, numCodes, vectorLength) && Rows(masksDb, numCodes, vectorLength)
    requires |randomQuery| == vectorLength && |maskQuery| == vectorLength
    requires |queryDraws| == vectorLength && DrawsIn(queryDraws, Order())
    requires Rows(dbDraws, numCodes, vectorLength) && forall i :: 0 <= i < numCodes ==> DrawsIn(dbDraws[i], Order())
    ensures QueryCode(codesDb, matchIndex, randomQuery).Err? ==> res == Err(QueryCode(codesDb, matchIndex, randomQuery).error)
    ensures QueryCode(codesDb, matchIndex, randomQuery).Ok? && vectorLength == 0 ==> res == Err(EmptyShares)
    ensures QueryCode(codesDb, matchIndex, randomQuery).Ok? && vectorLength > 0 && res.Err? ==> res.error == DotProductMismatch
    ensures res.Ok? ==>
      var query := MaskBits(QueryCode(codesDb, matchIndex, randomQuery).value, maskQuery);
      var db := MaskRows(codesDb, masksDb);
      Shaped(query, maskQuery, db, masksDb) && res.value == ExpectedMatches(query, maskQuery, db, masksDb, numCodes)
    ensures QueryCode(codesDb, matchIndex, randomQuery).Ok? && 0 < vectorLength < Pow2(K - 1) ==> res.Ok?
  {
    var mpc := NewMpc(K, None).value;
    var code := QueryCode(codesDb, matchIndex, randomQuery);
    if code.Err? {
      return Err(code.error);
    }
    var maskedQuery := MaskBits(code.value, maskQuery);
    var maskedDb := MaskRows(codesDb, masksDb);
    assert Shaped(maskedQuery, maskQuery, maskedDb, masksDb);

    var split := SplitVectorSecret(mpc, maskedQuery, queryDraws);
    if split.Err? {
      return Err(split.error);
    }
    var q := split.value;
    SplitVectorShares(mpc, maskedQuery, queryDraws, q);

    forall i | 0 <= i < numCodes && vectorLength < Pow2(K - 1)
      ensures Representable(Dot(maskedQuery, maskedDb[i]))
    {
      MaskedDotFits(code.value, maskQuery, codesDb[i], masksDb[i]);
    }
    res := ScanDatabase(mpc, q, maskedQuery, maskQuery, maskedDb, masksDb, dbDraws);
  }
}
