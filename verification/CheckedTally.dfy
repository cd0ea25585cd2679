/** The secp256k1 tally path: decryption shares are sorted, verified and checked against the election key
    before they are combined, and counts come from a lookup table. Points travel in compressed form, which
    has no encoding for the identity. */
module CheckedTally {
  import opened Wrappers
  import opened Sequences
  import opened Field
  import opened Shamir
  import opened ElGamal
  import opened Threshold
  import opened Sorting

  datatype Pairs = Pairs(keyHash: KeyHash, c1: seq<Point>, c2: seq<Point>)

  predicate IsCompressed(p: Point, q: int) {
    InGroup(p, q) && p != IDENTITY
  }

  predicate ValidPairs(ct: Pairs, q: int) {
    && |ct.c1| == |ct.c2| >= 2
    && (forall p :: p in ct.c1 ==> IsCompressed(p, q))
    && (forall p :: p in ct.c2 ==> IsCompressed(p, q))
  }

  /** `validateTallyDecryptionShare`. */
  predicate ValidShare(share: DecryptionShare, ct: Pairs, q: int) {
    && share.trusteeIndex > 0
    && IsCompressed(share.publicShare, q)
    && share.keyHash == ct.keyHash
    && |share.points| == |share.proofs| == |ct.c1|
    && (forall p :: p in share.points ==> IsCompressed(p, q))
    && (forall p :: p in share.proofs ==>
         && IsCompressed(p.commitmentToGenerator, q) && IsCompressed(p.commitmentToCiphertext, q)
         && IsScalar(p.response, q))
  }

  /** `verifyTallyDecryptionShare`: commitments recomputed from the response; multiplying by a zero
      challenge throws, which reads as false. */
  predicate VerifiedShare(share: DecryptionShare, ct: Pairs, hash: Statement -> nat, q: Modulus) {
    && ValidShare(share, ct, q) && Encodable(share.trusteeIndex)
    && forall i :: 0 <= i < |ct.c1| ==>
         var challenge := hash(StatementOf(share, ct.c1, i)) % q;
         && challenge != 0
         && Add(Mul(GENERATOR, share.proofs[i].response, q), Neg(Mul(share.publicShare, challenge, q), q), q)
              == share.proofs[i].commitmentToGenerator
         && Add(Mul(ct.c1[i], share.proofs[i].response, q), Neg(Mul(share.points[i], challenge, q), q), q)
              == share.proofs[i].commitmentToCiphertext
  }

  function IndexKey(share: DecryptionShare): nat {
    if share.trusteeIndex > 0 then share.trusteeIndex else 0
  }

  function Selected(shares: seq<DecryptionShare>, threshold: nat): (r: seq<DecryptionShare>)
    requires threshold <= |shares|
    ensures |r| == threshold
  {
    SortBy(shares, IndexKey)[..threshold]
  }

  // ----- interpolation weights of verified shares

  lemma NegationNonzero(a: int, q: int)
    requires q > 0 && a % q != 0
    ensures -a % q != 0
  {
    if Cong(-a, 0, q) {
      CongScale(-1, -a, 0, q);
    }
  }

  lemma {:induction false} NumeratorNonzero(x: int, xs: seq<int>, q: int)
    requires Prime(q) && forall y :: y in xs ==> y % q != 0
    ensures Numerator(x, xs) % q != 0
  {
    if xs == [] {
      ModUnique(1, 0, 1, q);
    } else {
      var front, other := xs[..|xs| - 1], xs[|xs| - 1];
      assert other in xs && forall y :: y in front ==> y in xs;
      NumeratorNonzero(x, front, q);
      if other != x {
        NegationNonzero(other, q);
        NoZeroDivisors(Numerator(x, front), -other, q);
      }
    }
  }

  /** Verified shares with distinct indexes always have interpolation weights, none of them zero: their indexes
      are positive and encodable, hence distinct and nonzero modulo the order. So the inverse behind a weight
      always exists, and the curve library is never asked to multiply by zero. */
  lemma VerifiedIndexesWeigh(xs: seq<int>, q: int)
    requires Prime(q) && UINT32 <= q && NoDuplicates(xs) && forall x :: x in xs ==> 0 < x < UINT32
    ensures Weighable(xs, q)
    ensures forall x :: x in xs ==> Lagrange(x, xs, q) != 0
  {
    SmallIndexesDistinct(xs, UINT32 - 1, q);
    DistinctSeparated(xs, q);
    forall x | x in xs ensures x % q != 0 {
      ModUnique(x, 0, x, q);
    }
    forall x | x in xs ensures Lagrange(x, xs, q) != 0 {
      NumeratorNonzero(x, xs, q);
    }
  }

  lemma VerifiedSharesWeigh(selected: seq<DecryptionShare>, ct: Pairs, hash: Statement -> nat, q: int)
    requires Prime(q) && UINT32 <= q && NoDuplicates(Indexes(selected))
    requires forall s :: s in selected ==> VerifiedShare(s, ct, hash, q)
    ensures Weighable(Indexes(selected), q)
    ensures forall x :: x in Indexes(selected) ==> Lagrange(x, Indexes(selected), q) != 0
  {
    var xs := Indexes(selected);
    forall x | x in xs ensures 0 < x < UINT32 {
      var k :| 0 <= k < |xs| && xs[k] == x;
      assert selected[k] in selected;
    }
    VerifiedIndexesWeigh(xs, q);
  }

  /** Every check that is passed before counting starts. */
  ghost predicate Passes(ct: Pairs, shares: seq<DecryptionShare>, threshold: int, maxVotes: int, hash: Statement -> nat, q: int)
    requires Prime(q) && UINT32 <= q
  {
    && threshold >= 2 && 0 <= maxVotes < q && |shares| >= threshold
    && ValidPairs(ct, q)
    && (forall s :: s in shares ==> ValidShare(s, ct, q))
    && var selected := Selected(shares, threshold);
    && (forall s :: s in selected ==> VerifiedShare(s, ct, hash, q))
    && NoDuplicates(Indexes(selected))
    && (VerifiedSharesWeigh(selected, ct, hash, q);
        var key := Point(CombinedKeyLog(selected, q) % q);
        key != IDENTITY && KeyHash(key) == ct.keyHash)
  }

  ghost predicate CheckedDecryptsTo(ct: Pairs, shares: seq<DecryptionShare>, threshold: int, maxVotes: int,
                                    hash: Statement -> nat, q: int, r: Option<seq<int>>)
    requires Prime(q) && UINT32 <= q
  {
    if Passes(ct, shares, threshold, maxVotes, hash, q)
    then
      VerifiedSharesWeigh(Selected(shares, threshold), ct, hash, q); Decodes(ShareMessages(ct.c2, Selected(shares, threshold), q), maxVotes, q, r)
    else r == None
  }

  /** `buildTallyLookup`: None when a multiple of the order is asked for, which the curve library rejects. */
  method BuildTallyLookup(maxCount: int, q: int) returns (lookup: Option<map<Point, int>>)
    requires q > 1
    ensures lookup.Some? <==> maxCount < q
    ensures lookup.Some? && maxCount >= 0 ==>
      && (forall m :: m in lookup.value ==> IsFirstCount(m, lookup.value[m], maxCount, q))
      && (forall m :: m !in lookup.value ==> OutOfRange(m, maxCount, q))
  {
    var table := map[IDENTITY := 0];
    ModUnique(0, 0, 0, q);
    var count := 1;
    while count <= maxCount
      invariant 1 <= count && (count <= maxCount + 1 || count == 1) && count <= q
      invariant forall m :: m in table ==> 0 <= table[m] < count && m == Point(table[m])
      invariant forall d :: 0 <= d < count ==> Point(d) in table && table[Point(d)] == d
      decreases maxCount - count
    {
      if count == q {
        return None;
      }
      ModUnique(count, 0, count, q);
      table := table[Mul(GENERATOR, count, q) := count];
      count := count + 1;
    }
    forall d | 0 <= d < count && d < q ensures Mul(GENERATOR, d, q) == Point(d) {
      ModUnique(d, 0, d, q);
    }
    lookup := Some(table);
  }

  /** The loop that verifies the selected shares and rejects a repeated trustee. */
  method CheckSelected(selected: seq<DecryptionShare>, ct: Pairs, hash: Statement -> nat, q: Modulus) returns (ok: bool)
    ensures ok <==> NoDuplicates(Indexes(selected)) && forall s :: s in selected ==> VerifiedShare(s, ct, hash, q)
  {
    var xs := Indexes(selected);
    var seenIndexes: set<int> := {};
    for k := 0 to |selected|
      invariant forall j :: 0 <= j < k ==> VerifiedShare(selected[j], ct, hash, q)
      invariant forall x :: x in seenIndexes <==> x in xs[..k]
      invariant forall i, j :: 0 <= i < j < k ==> xs[i] != xs[j]
    {
      if !VerifiedShare(selected[k], ct, hash, q) {
        return false;
      }
      if xs[k] in seenIndexes {
        assert !NoDuplicates(xs);
        return false;
      }
      seenIndexes := seenIndexes + {xs[k]};
    }
    return true;
  }

  /** The counting loop: combine the shares at each position and look the message up. */
  method CountWithShares(ct: Pairs, selected: seq<DecryptionShare>, maxVotes: nat, q: int) returns (r: Option<seq<int>>)
    requires Prime(q) && Weighable(Indexes(selected), q) && forall s :: s in selected ==> |s.points| == |ct.c2|
    ensures maxVotes >= q ==> r == None
    ensures maxVotes < q ==> Decodes(ShareMessages(ct.c2, selected, q), maxVotes, q, r)
  {
    var lookup := BuildTallyLookup(maxVotes, q);
    if lookup.None? {
      return None;
    }
    var counts: seq<int> := [];
    ghost var messages := ShareMessages(ct.c2, selected, q);
    for i := 0 to |ct.c2|
      invariant |counts| == i
      invariant forall j :: 0 <= j < i ==> IsFirstCount(messages[j], counts[j], maxVotes, q)
    {
      var sharedSecret := CombinePoints(Indexes(selected), SharePoints(selected, i), q);
      var messagePoint := Add(ct.c2[i], Neg(sharedSecret.value, q), q);
      assert messagePoint == messages[i];
      if messagePoint !in lookup.value {
        assert OutOfRange(messages[i], maxVotes, q);
        return None;
      }
      counts := counts + [lookup.value[messagePoint]];
    }
    return Some(counts);
  }

  lemma SelectedAreShares(shares: seq<DecryptionShare>, threshold: nat)
    requires threshold <= |shares|
    ensures forall s :: s in Selected(shares, threshold) ==> s in shares
  {
    SortContents(shares, IndexKey);
    SameMembers(SortBy(shares, IndexKey), shares);
    assert forall s :: s in Selected(shares, threshold) ==> s in SortBy(shares, IndexKey);
  }

  /** `decryptAggregatedTallyWithShares`; None is a thrown assertion. This path's `modInverse` lacks the assertion of
      the other one, but after the checks it is only asked for inverses that exist. The order is that of
      secp256k1 or any other prime of 32 bits or more. */
  method DecryptAggregatedTallyWithShares(ct: Pairs, shares: seq<DecryptionShare>, threshold: int, maxVotes: int,
                                          hash: Statement -> nat, q: int) returns (r: Option<seq<int>>)
    requires Prime(q) && UINT32 <= q
    ensures CheckedDecryptsTo(ct, shares, threshold, maxVotes, hash, q, r)
  {
    if threshold < 2 || maxVotes < 0 || |shares| < threshold || !ValidPairs(ct, q) {
      return None;
    }
    if exists s :: s in shares && !ValidShare(s, ct, q) {
      return None;
    }
    var selected := Selected(shares, threshold);
    SelectedAreShares(shares, threshold);
    var ok := CheckSelected(selected, ct, hash, q);
    if !ok {
      return None;
    }
    VerifiedSharesWeigh(selected, ct, hash, q);
    var combinedPublicKey := CombinePoints(Indexes(selected), PublicShares(selected), q);
    if combinedPublicKey.value == IDENTITY || KeyHash(combinedPublicKey.value) != ct.keyHash {
      return None;
    }
    r := CountWithShares(ct, selected, maxVotes, q);
  }

  // ----- creating shares, and which of them verify

  function HonestPoints(ct: Pairs, x: int, q: Modulus): (r: seq<Point>)
    ensures |r| == |ct.c1|
  {
    seq(|ct.c1|, i requires 0 <= i < |ct.c1| => Mul(ct.c1[i], x, q))
  }

  /** The statement at position i of an honest share under a nonce. */
  function HonestStatement(trusteeIndex: int, x: int, ct: Pairs, nonce: int, i: nat, q: int): Statement
    requires q > 0 && i < |ct.c1|
  {
    Statement(ct.keyHash, trusteeIndex, Mul(GENERATOR, x, q), ct.c1[i], Mul(ct.c1[i], x, q),
              Mul(GENERATOR, nonce, q), Mul(ct.c1[i], nonce, q))
  }

  function HonestProof(trusteeIndex: int, x: int, ct: Pairs, nonce: int, i: nat, hash: Statement -> nat, q: int): DleqProof
    requires q > 0 && i < |ct.c1|
  {
    var challenge := hash(HonestStatement(trusteeIndex, x, ct, nonce, i, q)) % q;
    DleqProof(Mul(GENERATOR, nonce, q), Mul(ct.c1[i], nonce, q), (nonce + challenge * x) % q)
  }

  function HonestShare(trusteeIndex: int, x: int, ct: Pairs, nonces: seq<int>, hash: Statement -> nat, q: int): DecryptionShare
    requires q > 0 && |nonces| == |ct.c1|
  {
    DecryptionShare(trusteeIndex, Mul(GENERATOR, x, q), ct.keyHash, HonestPoints(ct, x, q),
                    seq(|nonces|, i requires 0 <= i < |nonces| => HonestProof(trusteeIndex, x, ct, nonces[i], i, hash, q)))
  }

  predicate ValidShareInput(trusteeIndex: int, x: int, ct: Pairs, nonces: seq<int>, q: int) {
    && trusteeIndex > 0 && Encodable(trusteeIndex) && IsScalar(x, q) && ValidPairs(ct, q)
    && |nonces| == |ct.c1| && forall i :: 0 <= i < |nonces| ==> IsScalar(nonces[i], q)
  }

  /** `createTallyDecryptionShare`, with its nonces as a parameter. Unlike the other path it refuses to return a
      zero response. */
  method CreateTallyShare(trusteeIndex: int, privateShare: int, ct: Pairs, nonces: seq<int>, hash: Statement -> nat, q: int)
    returns (r: Option<DecryptionShare>)
    requires Prime(q)
    ensures r.Some? <==>
      && 0 < trusteeIndex < 0x1_0000_0000 && 0 < privateShare < q && ValidPairs(ct, q) && |nonces| == |ct.c1|
      && (forall i :: 0 <= i < |nonces| ==> 0 < nonces[i] < q)
      && forall i :: 0 <= i < |nonces| ==> HonestProof(trusteeIndex, privateShare, ct, nonces[i], i, hash, q).response != 0
    ensures r.Some? ==> r.value == HonestShare(trusteeIndex, privateShare, ct, nonces, hash, q)
  {
    if trusteeIndex <= 0 || !Encodable(trusteeIndex) || !IsScalar(privateShare, q) || !ValidPairs(ct, q) || |nonces| != |ct.c1| {
      return None;
    }
    var publicShare := Mul(GENERATOR, privateShare, q);
    var points: seq<Point> := [];
    var proofs: seq<DleqProof> := [];
    for i := 0 to |ct.c1|
      invariant |points| == |proofs| == i
      invariant forall j :: 0 <= j < i ==> IsScalar(nonces[j], q) && points[j] == Mul(ct.c1[j], privateShare, q)
      invariant forall j :: 0 <= j < i ==>
                  proofs[j] == HonestProof(trusteeIndex, privateShare, ct, nonces[j], j, hash, q) && proofs[j].response != 0
    {
      var nonce := nonces[i];
      if !IsScalar(nonce, q) {
        return None;
      }
      var sharePoint := Mul(ct.c1[i], privateShare, q);
      var toGenerator := Mul(GENERATOR, nonce, q);
      var toCiphertext := Mul(ct.c1[i], nonce, q);
      var challenge := Mod(hash(Statement(ct.keyHash, trusteeIndex, publicShare, ct.c1[i], sharePoint, toGenerator, toCiphertext)), q);
      var response := Mod(nonce + challenge * privateShare, q);
      assert DleqProof(toGenerator, toCiphertext, response) == HonestProof(trusteeIndex, privateShare, ct, nonces[i], i, hash, q);
      if response == 0 {
        return None;
      }
      points := points + [sharePoint];
      proofs := proofs + [DleqProof(toGenerator, toCiphertext, response)];
    }
    assert points == HonestPoints(ct, privateShare, q);
    r := Some(DecryptionShare(trusteeIndex, publicShare, ct.keyHash, points, proofs));
  }

  lemma TakenOff(left: Point, taken: Point, commitment: Point, q: int)
    requires q > 0 && InGroup(left, q) && InGroup(commitment, q)
    ensures Add(left, Neg(taken, q), q) == commitment <==> left == Add(commitment, taken, q)
  {
    SubLog(left, taken, q);
    AddLog(commitment, taken, q);
    if Add(left, Neg(taken, q), q) == commitment {
      CongAdd(commitment.log, left.log - taken.log, taken.log, taken.log, q);
      PointEq(left, Add(commitment, taken, q), q);
    }
    if left == Add(commitment, taken, q) {
      CongAdd(left.log, commitment.log + taken.log, taken.log, taken.log, q);
      PointEq(Add(left, Neg(taken, q), q), commitment, q);
    }
  }

  lemma RecomputedCommitments(publicShare: Point, c: Point, d: Point, proof: DleqProof, challenge: int, q: int)
    requires q > 0 && InGroup(proof.commitmentToGenerator, q) && InGroup(proof.commitmentToCiphertext, q)
    ensures DleqEquations(publicShare, c, d, proof, challenge, q) <==>
      && Add(Mul(GENERATOR, proof.response, q), Neg(Mul(publicShare, challenge, q), q), q) == proof.commitmentToGenerator
      && Add(Mul(c, proof.response, q), Neg(Mul(d, challenge, q), q), q) == proof.commitmentToCiphertext
  {
    MulLog(GENERATOR, proof.response, q);
    MulLog(c, proof.response, q);
    TakenOff(Mul(GENERATOR, proof.response, q), Mul(publicShare, challenge, q), proof.commitmentToGenerator, q);
    TakenOff(Mul(c, proof.response, q), Mul(d, challenge, q), proof.commitmentToCiphertext, q);
  }

  /** Recomputing the commitments decides the same two equations that the other path checks: a well-formed share
      verifies exactly when its index is encodable, they hold everywhere and no challenge is zero. */
  lemma VerifiedIffEquations(share: DecryptionShare, ct: Pairs, hash: Statement -> nat, q: int)
    requires q > 0 && ValidShare(share, ct, q)
    ensures VerifiedShare(share, ct, hash, q) <==> Encodable(share.trusteeIndex) && forall i :: 0 <= i < |ct.c1| ==>
      var challenge := hash(StatementOf(share, ct.c1, i)) % q;
      challenge != 0 && DleqEquations(share.publicShare, ct.c1[i], share.points[i], share.proofs[i], challenge, q)
  {
    forall i | 0 <= i < |ct.c1|
      ensures var challenge := hash(StatementOf(share, ct.c1, i)) % q;
        DleqEquations(share.publicShare, ct.c1[i], share.points[i], share.proofs[i], challenge, q) <==>
          && Add(Mul(GENERATOR, share.proofs[i].response, q), Neg(Mul(share.publicShare, challenge, q), q), q)
               == share.proofs[i].commitmentToGenerator
          && Add(Mul(ct.c1[i], share.proofs[i].response, q), Neg(Mul(share.points[i], challenge, q), q), q)
               == share.proofs[i].commitmentToCiphertext
    {
      assert share.proofs[i] in share.proofs;
      RecomputedCommitments(share.publicShare, ct.c1[i], share.points[i], share.proofs[i], hash(StatementOf(share, ct.c1, i)) % q, q);
    }
  }

  lemma NonzeroMultiple(p: Point, k: int, q: int)
    requires Prime(q) && IsCompressed(p, q) && IsScalar(k, q)
    ensures IsCompressed(Mul(p, k, q), q)
  {
    ModUnique(p.log, 0, p.log, q);
    ModUnique(k, 0, k, q);
    NoZeroDivisors(p.log, k, q);
  }

  lemma HonestShareValid(trusteeIndex: int, x: int, ct: Pairs, nonces: seq<int>, hash: Statement -> nat, q: int)
    requires Prime(q) && ValidShareInput(trusteeIndex, x, ct, nonces, q)
    requires forall i :: 0 <= i < |nonces| ==> HonestProof(trusteeIndex, x, ct, nonces[i], i, hash, q).response != 0
    ensures ValidShare(HonestShare(trusteeIndex, x, ct, nonces, hash, q), ct, q)
  {
    var share := HonestShare(trusteeIndex, x, ct, nonces, hash, q);
    NonzeroMultiple(GENERATOR, x, q);
    forall i | 0 <= i < |ct.c1|
      ensures IsCompressed(share.points[i], q)
      ensures IsCompressed(share.proofs[i].commitmentToGenerator, q) && IsCompressed(share.proofs[i].commitmentToCiphertext, q)
      ensures IsScalar(share.proofs[i].response, q)
    {
      assert ct.c1[i] in ct.c1;
      NonzeroMultiple(ct.c1[i], x, q);
      NonzeroMultiple(GENERATOR, nonces[i], q);
      NonzeroMultiple(ct.c1[i], nonces[i], q);
    }
  }

  /** Completeness is exact here too: a share that was created verifies precisely when no challenge is zero. */
  lemma CreatedShareVerifies(trusteeIndex: int, x: int, ct: Pairs, nonces: seq<int>, hash: Statement -> nat, q: int)
    requires Prime(q) && ValidShareInput(trusteeIndex, x, ct, nonces, q)
    requires forall i :: 0 <= i < |nonces| ==> HonestProof(trusteeIndex, x, ct, nonces[i], i, hash, q).response != 0
    ensures VerifiedShare(HonestShare(trusteeIndex, x, ct, nonces, hash, q), ct, hash, q) <==>
      forall i :: 0 <= i < |nonces| ==> hash(HonestStatement(trusteeIndex, x, ct, nonces[i], i, q)) % q != 0
  {
    var share := HonestShare(trusteeIndex, x, ct, nonces, hash, q);
    HonestShareValid(trusteeIndex, x, ct, nonces, hash, q);
    VerifiedIffEquations(share, ct, hash, q);
    forall i | 0 <= i < |ct.c1|
      ensures StatementOf(share, ct.c1, i) == HonestStatement(trusteeIndex, x, ct, nonces[i], i, q)
      ensures DleqEquations(share.publicShare, ct.c1[i], share.points[i], share.proofs[i], hash(StatementOf(share, ct.c1, i)) % q, q)
    {
      var challenge := hash(HonestStatement(trusteeIndex, x, ct, nonces[i], i, q)) % q;
      DleqEquation(GENERATOR, x, nonces[i], challenge, q);
      DleqEquation(ct.c1[i], x, nonces[i], challenge, q);
    }
  }

  /** Zero challenges are not an artefact of one group either: under a challenge of zero, a share is created for every
      input, and its own verifier rejects it. */
  lemma CreatedShareRejected(trusteeIndex: int, x: int, ct: Pairs, nonces: seq<int>, q: int) returns (hash: Statement -> nat)
    requires Prime(q) && ValidShareInput(trusteeIndex, x, ct, nonces, q)
    ensures forall i :: 0 <= i < |nonces| ==> HonestProof(trusteeIndex, x, ct, nonces[i], i, hash, q).response != 0
    ensures !VerifiedShare(HonestShare(trusteeIndex, x, ct, nonces, hash, q), ct, hash, q)
  {
    hash := (s: Statement) => 0;
    forall i | 0 <= i < |nonces|
      ensures HonestProof(trusteeIndex, x, ct, nonces[i], i, hash, q).response != 0
    {
      ZeroChallenge(trusteeIndex, x, ct, nonces[i], i, hash, q);
    }
    CreatedShareVerifies(trusteeIndex, x, ct, nonces, hash, q);
    ZeroChallenge(trusteeIndex, x, ct, nonces[0], 0, hash, q);
  }

  lemma ZeroChallenge(trusteeIndex: int, x: int, ct: Pairs, nonce: int, i: nat, hash: Statement -> nat, q: int)
    requires IsScalar(nonce, q) && i < |ct.c1| && hash(HonestStatement(trusteeIndex, x, ct, nonce, i, q)) == 0
    ensures hash(HonestStatement(trusteeIndex, x, ct, nonce, i, q)) % q == 0
    ensures HonestProof(trusteeIndex, x, ct, nonce, i, hash, q).response == nonce
  {
    ModUnique(0, 0, 0, q);
    ModUnique(nonce, 0, nonce, q);
  }

  // ----- shares that pass the key check decrypt like the private key

  function DirectMessages(ct: Pairs, privateKey: int, q: int): (r: seq<Point>)
    requires q > 0 && |ct.c1| == |ct.c2|
    ensures |r| == |ct.c2|
  {
    seq(|ct.c2|, i requires 0 <= i < |ct.c2| => Message(ct.c1[i], ct.c2[i], privateKey, q))
  }

  /** Whoever dealt the shares, if they satisfy the DLEQ relation and pass the combined-key check, the
      outcome is that of direct decryption with the election private key. */
  lemma CheckedSharesMatchPrivateKey(ct: Pairs, shares: seq<DecryptionShare>, threshold: int, maxVotes: int,
                                     hash: Statement -> nat, privateKey: int, q: int, r: Option<seq<int>>)
    requires Prime(q) && UINT32 <= q && Passes(ct, shares, threshold, maxVotes, hash, q)
    requires CheckedDecryptsTo(ct, shares, threshold, maxVotes, hash, q, r)
    requires ct.keyHash == KeyHash(Mul(GENERATOR, privateKey, q))
    requires forall s :: s in Selected(shares, threshold) ==> DleqRelation(s, ct.c1, q)
    ensures Decodes(DirectMessages(ct, privateKey, q), maxVotes, q, r)
  {
    var selected := Selected(shares, threshold);
    VerifiedSharesWeigh(selected, ct, hash, q);
    var keyLog := CombinedKeyLog(selected, q);
    CongMod(keyLog, q);
    MulLog(GENERATOR, privateKey, q);
    assert Cong(keyLog, privateKey, q);
    forall i | 0 <= i < |ct.c2|
      ensures ShareMessages(ct.c2, selected, q)[i] == DirectMessages(ct, privateKey, q)[i]
    {
      RelatedSharesCombine(selected, ct.c1, i, q);
      CongScale(ct.c1[i].log, keyLog, privateKey, q);
      SameMessage(ct.c1[i], ct.c2[i], privateKey, WeightedLog(Indexes(selected), SharePoints(selected, i), Indexes(selected), q), q);
    }
    assert ShareMessages(ct.c2, selected, q) == DirectMessages(ct, privateKey, q);
  }

  /** A share under a dealt key: its public share is the value of the dealing polynomial at its index. */
  ghost predicate UnderDealtKey(s: DecryptionShare, trusteeCount: int, cs: seq<int>, q: Modulus) {
    1 <= s.trusteeIndex <= trusteeCount && Cong(s.publicShare.log, Eval(cs, s.trusteeIndex), q)
  }

  /** Verifying shares of any threshold of distinct dealt trustees always pass the combined-key check. */
  lemma DealtSharesPass(ct: Pairs, shares: seq<DecryptionShare>, threshold: int, maxVotes: int, hash: Statement -> nat,
                        trusteeCount: int, secret: int, coefficients: seq<int>, q: int)
    requires Prime(q) && UINT32 <= q && ValidDealing(threshold, trusteeCount, secret, coefficients, q) && trusteeCount < q
    requires 0 <= maxVotes < q && |shares| >= threshold && ValidPairs(ct, q)
    requires ct.keyHash == KeyHash(Mul(GENERATOR, secret, q))
    requires forall s :: s in shares ==> ValidShare(s, ct, q)
    requires NoDuplicates(Indexes(Selected(shares, threshold)))
    requires forall s :: s in Selected(shares, threshold) ==>
               VerifiedShare(s, ct, hash, q) && UnderDealtKey(s, trusteeCount, [secret] + coefficients, q)
    ensures Passes(ct, shares, threshold, maxVotes, hash, q)
  {
    var selected := Selected(shares, threshold);
    DealtKeyCombines(selected, trusteeCount, secret, coefficients, q);
    NonzeroMultiple(GENERATOR, secret, q);
  }

  lemma DealtKeyCombines(selected: seq<DecryptionShare>, trusteeCount: int, secret: int, coefficients: seq<int>, q: int)
    requires Prime(q) && trusteeCount < q && NoDuplicates(Indexes(selected)) && selected != [] && |coefficients| + 1 <= |selected|
    requires forall s :: s in selected ==> UnderDealtKey(s, trusteeCount, [secret] + coefficients, q)
    ensures Weighable(Indexes(selected), q)
    ensures Point(CombinedKeyLog(selected, q) % q) == Mul(GENERATOR, secret, q)
  {
    var xs, cs, keys := Indexes(selected), [secret] + coefficients, PublicShares(selected);
    forall k | 0 <= k < |xs|
      ensures 1 <= xs[k] <= trusteeCount && Cong(keys[k].log, 1 * Eval(cs, xs[k]), q)
    {
      assert selected[k] in selected;
    }
    SmallIndexesDistinct(xs, trusteeCount, q);
    Interpolation(xs, cs, q);
    WeightedIsRecombined(xs, keys, xs, 1, cs, q);
    assert Eval(cs, 0) == secret;
  }
}
