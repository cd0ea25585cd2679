/** The whole pipeline: circuit-valid packages, one nullifier history, batches of batches, threshold shares. */
module Election {
  import opened Wrappers
  import opened Field
  import opened ElGamal
  import opened Threshold
  import opened Tally
  import opened Sequences
  import opened Sorting
  import opened Nullifiers
  import opened Batches
  import opened Eligibility
  import opened Circuit

  /** The public parameters of one election; `code` is the bytes32 form of a field element. */
  datatype Setup = Setup(
    electionId: Fe, candidateListHash: Fe, credentials: seq<Credential>, secret: int, xy: Coordinates, fieldPrime: int,
    order: int, code: Fe -> nat)

  ghost predicate ValidSetup(e: Setup) {
    && Prime(e.fieldPrime) && CANDIDATE_COUNT < e.fieldPrime
    && Prime(e.order) && IsScalar(e.secret, e.order)
    && IsEmbedding(e.xy, e.fieldPrime, e.order)
    && forall x, y :: e.code(x) == e.code(y) ==> x == y
  }

  function EligibilityRoot(e: Setup): Fe {
    DenseNode(e.credentials, ELIGIBILITY_TREE_DEPTH, 0)
  }

  /** What an accepted proof says of its package: the circuit has a satisfying witness for the package's fields.
      It does not say that they are this election's. */
  ghost predicate Binds(b: Ballot, p: Package, e: Setup)
    requires ValidSetup(e)
  {
    && Satisfies(b.pub, b.w, ELIGIBILITY_TREE_DEPTH, e.xy, e.fieldPrime, e.order)
    && p.electionId == e.code(b.pub.electionId) && p.candidateListHash == e.code(b.pub.candidateListHash)
    && p.eligibilityRoot == e.code(b.pub.eligibilityRoot) && p.nullifier == e.code(b.pub.ballotNullifier)
    && p.ciphertext == CiphertextOf(b.pub)
  }

  /** Soundness of the proof system: accepted proofs have witnesses. */
  ghost predicate SoundVerifier(rules: Rules, ballotOf: Package -> Ballot, e: Setup)
    requires ValidSetup(e)
  {
    forall p :: rules.formatOk(p) && rules.proofOk(p) ==> Binds(ballotOf(p), p, e)
  }

  /** A package of this election: its witness is for this election, candidate list, credential set and key. */
  ghost predicate Proves(b: Ballot, p: Package, e: Setup)
    requires ValidSetup(e)
  {
    && Binds(b, p, e)
    && b.pub.electionId == e.electionId && b.pub.candidateListHash == e.candidateListHash
    && b.pub.eligibilityRoot == EligibilityRoot(e)
    && b.pub.publicKey == Mul(GENERATOR, e.secret, e.order)
  }

  ghost predicate AllProven(packages: seq<Package>, ballotOf: Package -> Ballot, e: Setup)
    requires ValidSetup(e)
  {
    forall p :: p in packages ==> Proves(ballotOf(p), p, e)
  }

  /** The candidate a one-hot selection picks. */
  ghost function Chosen(w: Witness): (j: int) {
    if j :| OneHotAt(w.selection, j) then j else 0
  }

  ghost function VoteOf(ballotOf: Package -> Ballot): Package -> Vote {
    (p: Package) => Vote(Chosen(ballotOf(p).w), ballotOf(p).w.randomness)
  }

  lemma OneHotUnique(selection: seq<int>, i: int, j: int)
    requires OneHotAt(selection, i) && OneHotAt(selection, j)
    ensures i == j
  {
    assert selection[i] == 1;
  }

  lemma ProvenIsHonest(p: Package, b: Ballot, e: Setup)
    requires ValidSetup(e) && Proves(b, p, e)
    ensures ValidBallotInput(Chosen(b.w), b.w.randomness, e.order)
    ensures IsEncryption(p.ciphertext, Mul(GENERATOR, e.secret, e.order), Chosen(b.w), b.w.randomness, e.order)
    ensures OneHotAt(b.w.selection, Chosen(b.w))
  {
    CircuitExact(b.pub, b.w, ELIGIBILITY_TREE_DEPTH, e.xy, e.fieldPrime, e.order);
    var j :| OneHotAt(b.w.selection, j) && EncryptsAt(b.pub, b.w, j, e.order);
    OneHotUnique(b.w.selection, j, Chosen(b.w));
  }

  lemma ProvenAreHonest(packages: seq<Package>, ballotOf: Package -> Ballot, e: Setup)
    requires ValidSetup(e) && AllProven(packages, ballotOf, e)
    ensures HonestBallots(packages, VoteOf(ballotOf), e.secret, e.order)
  {
    forall p | p in packages
      ensures ValidBallotInput(VoteOf(ballotOf)(p).selectedIndex, VoteOf(ballotOf)(p).randomness, e.order)
      ensures IsEncryption(p.ciphertext, Mul(GENERATOR, e.secret, e.order), VoteOf(ballotOf)(p).selectedIndex, VoteOf(ballotOf)(p).randomness, e.order)
    {
      ProvenIsHonest(p, ballotOf(p), e);
    }
  }

  /** A history of this election's packages is free of duplicates exactly when no two of them come from one secret. */
  lemma HistoryDistinctIff(packages: seq<Package>, ballotOf: Package -> Ballot, e: Setup)
    requires ValidSetup(e) && AllProven(packages, ballotOf, e)
    ensures NoDuplicates(BallotNullifiers(packages)) <==>
      forall i, j :: 0 <= i < j < |packages| ==>
        ballotOf(packages[i]).w.credentialSecret != ballotOf(packages[j]).w.credentialSecret
  {
    forall i, j | 0 <= i < j < |packages|
      ensures BallotNullifiers(packages)[i] == BallotNullifiers(packages)[j] <==>
              ballotOf(packages[i]).w.credentialSecret == ballotOf(packages[j]).w.credentialSecret
    {
      assert packages[i] in packages && packages[j] in packages;
      SameNullifierIff(ballotOf(packages[i]), ballotOf(packages[j]), ELIGIBILITY_TREE_DEPTH, e.xy, e.fieldPrime, e.order);
    }
  }

  /** So the ballots of distinct voters are never refused as duplicates: an accumulator takes them all. */
  lemma DistinctVotersAccepted(packages: seq<Package>, ballotOf: Package -> Ballot, e: Setup)
    requires ValidSetup(e) && AllProven(packages, ballotOf, e)
    requires forall i, j :: 0 <= i < j < |packages| ==>
               ballotOf(packages[i]).w.credentialSecret != ballotOf(packages[j]).w.credentialSecret
    ensures Taken([], BallotNullifiers(packages)) == |packages|
  {
    HistoryDistinctIff(packages, ballotOf, e);
    TakenAllIff([], BallotNullifiers(packages));
    assert [] + BallotNullifiers(packages) == BallotNullifiers(packages);
  }

  /** Packages whose nullifiers are pairwise distinct number at most the credentials. */
  lemma CountedAtMostCredentials(packages: seq<Package>, ballotOf: Package -> Ballot, e: Setup)
    requires ValidSetup(e) && AllProven(packages, ballotOf, e) && NoDuplicates(BallotNullifiers(packages))
    ensures |packages| <= |e.credentials|
    ensures forall i, j :: 0 <= i < j < |packages| ==>
      ballotOf(packages[i]).w.credentialSecret != ballotOf(packages[j]).w.credentialSecret
  {
    var ballots := seq(|packages|, k requires 0 <= k < |packages| => ballotOf(packages[k]));
    forall k | 0 <= k < |ballots| ensures Proves(ballots[k], packages[k], e) {
      assert packages[k] in packages;
    }
    forall i, j | 0 <= i < j < |ballots|
      ensures ballots[i].pub.ballotNullifier != ballots[j].pub.ballotNullifier
    {
      assert BallotNullifiers(packages)[i] != BallotNullifiers(packages)[j];
    }
    OneBallotPerCredential(ballots, e.electionId, e.credentials, ELIGIBILITY_TREE_DEPTH, e.xy, e.fieldPrime, e.order);
  }

  /** The batches replay for this election, and the tally is what the replay returns. */
  ghost predicate Replayed(known: seq<nat>, batches: seq<AcceptedBatch>, tally: EncryptedTally, e: Setup, rules: Rules)
    requires ValidSetup(e)
  {
    && Replayable(e.code(e.electionId), e.code(e.candidateListHash), e.code(EligibilityRoot(e)), known, batches, e.order, rules)
    && tally.manifests == Artifacts(batches) && tally.ballotCount == |Flatten(SortedBatches(batches, rules))|
    && IsAggregate(tally.aggregate, Aggregates(tally.manifests), e.order)
  }

  /** The replay's own assertions establish what the tally theorem needs of the batches. */
  lemma ReplayedHistory(known: seq<nat>, batches: seq<AcceptedBatch>, tally: EncryptedTally, e: Setup, rules: Rules)
    requires ValidSetup(e) && Replayed(known, batches, tally, e, rules)
    ensures ReplayedUpTo(known, SortedBatches(batches, rules), tally.manifests, |batches|, e.order)
    ensures NoDuplicates(BallotNullifiers(Flatten(SortedBatches(batches, rules))))
  {
    var sorted := SortedBatches(batches, rules);
    ReplayKeepsHistory(e.code(e.electionId), e.code(e.candidateListHash), e.code(EligibilityRoot(e)), known, batches,
                       tally.manifests, e.order, rules);
    assert sorted[..|batches|] == sorted;
    SuffixNoDuplicates(known, BallotNullifiers(Flatten(sorted)));
  }

  /** All counted packages are encrypted under the key of the aggregate. */
  lemma CountedUnderOneKey(known: seq<nat>, batches: seq<AcceptedBatch>, tally: EncryptedTally, e: Setup, rules: Rules)
    requires ValidSetup(e) && Replayed(known, batches, tally, e, rules)
    ensures forall p :: p in Flatten(SortedBatches(batches, rules)) ==> p.ciphertext.publicKey == tally.aggregate.publicKey
  {
    var sorted := SortedBatches(batches, rules);
    ReplayedHistory(known, batches, tally, e, rules);
    assert sorted[..|batches|] == sorted;
    FlattenAggregatable(Aggregates(tally.manifests), BatchCiphertexts(sorted), e.order);
    FlattenCiphertexts(sorted);
    SameKeys(Flatten(sorted), tally.aggregate.publicKey);
  }

  lemma SameKeys(packages: seq<Package>, key: Point)
    requires Aggregatable(Ciphertexts(packages)) && Ciphertexts(packages)[0].publicKey == key
    ensures forall p :: p in packages ==> p.ciphertext.publicKey == key
  {
    forall p | p in packages ensures p.ciphertext.publicKey == key {
      var k :| 0 <= k < |packages| && packages[k] == p;
      assert Ciphertexts(packages)[k] in Ciphertexts(packages);
    }
  }

  /** Every counted package is one of this election: by assertions of the builder and the replay, not by assumption. */
  lemma CountedAreProven(known: seq<nat>, batches: seq<AcceptedBatch>, tally: EncryptedTally, ballotOf: Package -> Ballot,
                         e: Setup, rules: Rules)
    requires ValidSetup(e) && SoundVerifier(rules, ballotOf, e) && Replayed(known, batches, tally, e, rules)
    requires tally.aggregate.publicKey == Mul(GENERATOR, e.secret, e.order)
    ensures AllProven(Flatten(SortedBatches(batches, rules)), ballotOf, e)
  {
    var sorted := SortedBatches(batches, rules);
    var electionId, listHash, root := e.code(e.electionId), e.code(e.candidateListHash), e.code(EligibilityRoot(e));
    assert sorted[..|batches|] == sorted;
    ReplayedPassed(electionId, listHash, root, known, batches, |batches|, e.order, rules);
    CountedUnderOneKey(known, batches, tally, e, rules);
    forall p | p in Flatten(sorted) ensures Proves(ballotOf(p), p, e) {
      assert Passed(p, electionId, listHash, root, e.order, rules);
      assert Binds(ballotOf(p), p, e);
    }
  }

  /** An election with a sound proof verifier, and nothing assumed of the packages. Replaying its accepted batches
      and decrypting with any threshold of distinct verifying trustees yields, per candidate, the number of
      packages whose proven selection is that candidate; the total is the number of accepted packages; every
      package stands for a different registered credential secret, so the total is at most the number of credentials. */
  lemma VerifiedElectionIsExact(known: seq<nat>, batches: seq<AcceptedBatch>, tally: EncryptedTally, ballotOf: Package -> Ballot,
                                e: Setup, rules: Rules, shares: seq<DecryptionShare>, threshold: nat, trusteeCount: int,
                                coefficients: seq<int>, maxVotes: int, hash: Statement -> nat, r: Option<seq<int>>)
    requires ValidSetup(e) && SoundVerifier(rules, ballotOf, e) && Replayed(known, batches, tally, e, rules)
    requires tally.aggregate.publicKey == Mul(GENERATOR, e.secret, e.order)
    requires ValidDealing(threshold, trusteeCount, e.secret, coefficients, e.order) && trusteeCount < e.order
    requires tally.ballotCount <= maxVotes < e.order
    requires |shares| >= threshold && Accepted(shares[..threshold], tally.aggregate, hash, e.order)
    requires forall u :: u in shares[..threshold] ==> 1 <= u.trusteeIndex <= trusteeCount
    requires forall u, i :: u in shares[..threshold] && 0 <= i < CANDIDATE_COUNT ==>
               AppliesDealtScalar(u, tally.aggregate, i, [e.secret] + coefficients, e.order)
    requires ThresholdDecryptsTo(tally.aggregate, shares, threshold, maxVotes, hash, e.order, r)
    ensures AllProven(Flatten(SortedBatches(batches, rules)), ballotOf, e)
    ensures r.Some? && |r.value| == CANDIDATE_COUNT && Total(r.value) == tally.ballotCount <= |e.credentials|
    ensures forall i :: 0 <= i < CANDIDATE_COUNT ==>
      r.value[i] == VotesFor(VotesOf(Flatten(Submitted(batches)), VoteOf(ballotOf)), i)
  {
    var packages := Flatten(SortedBatches(batches, rules));
    CountedAreProven(known, batches, tally, ballotOf, e, rules);
    ProvenAreHonest(packages, ballotOf, e);
    ReplayedHistory(known, batches, tally, e, rules);
    CountedAtMostCredentials(packages, ballotOf, e);
    var s := SomeOutcome(tally.aggregate, e.secret, maxVotes, e.order);
    ReplayedTallyIsExact(known, batches, tally, VoteOf(ballotOf), e.secret, maxVotes, e.order, rules, s);
    ThresholdMatchesPrivateKey(tally.aggregate, shares, threshold, maxVotes, hash, trusteeCount, e.secret, coefficients, e.order, r, s);
  }
}
