/** Eligible vote batches: building a manifest over an accumulator, inclusion receipts, and the replay of
    accepted batches into one encrypted tally. */
module Batches {
  import opened Wrappers
  import opened ElGamal
  import opened Merkle
  import opened Nullifiers
  import opened Sequences
  import opened Sorting
  import opened Tally

  datatype Package = Package(
    electionId: nat, candidateListHash: nat, eligibilityRoot: nat, nullifier: nat,
    packageCommitment: nat, ciphertext: Ciphertext, publicInputsHash: nat, proof: nat)

  /** A package with its trimmed content identifier, as character codes. */
  datatype Stored = Stored(contentId: seq<nat>, package: Package)

  /** Library behaviour left open: the package digest, the format checks and the proof verifier. */
  datatype Rules = Rules(digest: Package -> nat, formatOk: Package -> bool, proofOk: Package -> bool)

  ghost predicate CollisionFree(rules: Rules) {
    forall x, y :: rules.digest(x) == rules.digest(y) ==> x == y
  }

  /** The manifest fields; its digest and public-inputs hash are hashes of these fields and bind them all. */
  datatype Manifest = Manifest(
    electionId: nat, candidateListHash: nat, eligibilityRoot: nat, keyHash: KeyHash,
    previousNullifierRoot: Digest, nullifierRoot: Digest, cidMerkleRoot: Digest, batchSize: nat,
    aggregate: Ciphertext, packageDigests: seq<nat>, packageLeafHashes: seq<Digest>,
    ballotNullifiers: seq<nat>, publicInputsHashes: seq<nat>)

  // ----- projections of a batch

  function Packages(batch: seq<Stored>): (r: seq<Package>)
    ensures |r| == |batch|
  {
    seq(|batch|, k requires 0 <= k < |batch| => batch[k].package)
  }

  function BallotNullifiers(packages: seq<Package>): (r: seq<nat>)
    ensures |r| == |packages|
  {
    seq(|packages|, k requires 0 <= k < |packages| => packages[k].nullifier)
  }

  function Ciphertexts(packages: seq<Package>): (r: seq<Ciphertext>)
    ensures |r| == |packages|
  {
    seq(|packages|, k requires 0 <= k < |packages| => packages[k].ciphertext)
  }

  function Digests(packages: seq<Package>, rules: Rules): (r: seq<nat>)
    ensures |r| == |packages|
  {
    seq<nat>(|packages|, k requires 0 <= k < |packages| => rules.digest(packages[k]) as nat)
  }

  function PublicInputs(packages: seq<Package>): (r: seq<nat>)
    ensures |r| == |packages|
  {
    seq(|packages|, k requires 0 <= k < |packages| => packages[k].publicInputsHash)
  }

  function PackageLeaf(s: Stored, rules: Rules): Digest {
    Leaf(PackageDomain, [rules.digest(s.package), s.package.eligibilityRoot, s.package.nullifier,
                         s.package.packageCommitment, s.package.publicInputsHash] + s.contentId)
  }

  function PackageLeaves(batch: seq<Stored>, rules: Rules): (r: seq<Digest>)
    ensures |r| == |batch|
  {
    seq(|batch|, k requires 0 <= k < |batch| => PackageLeaf(batch[k], rules))
  }

  function StoredKey(rules: Rules): Stored -> nat {
    (s: Stored) => rules.digest(s.package)
  }

  // ----- acceptance of a batch

  /** `validateEligibleVotePackage`: every point lies in the subgroup and the key hash is the key's. */
  predicate ValidPackage(p: Package, q: int, rules: Rules) {
    && rules.formatOk(p) && Wellformed(p.ciphertext, q)
    && InGroup(p.ciphertext.publicKey, q) && p.ciphertext.keyHash == KeyHash(p.ciphertext.publicKey)
  }

  predicate EntryOk(s: Stored, electionId: nat, eligibilityRoot: nat, q: int, rules: Rules) {
    && ValidPackage(s.package, q, rules)
    && s.contentId != []
    && s.package.electionId == electionId && s.package.eligibilityRoot == eligibilityRoot
    && rules.proofOk(s.package)
  }

  predicate BatchOk(batch: seq<Stored>, electionId: nat, eligibilityRoot: nat, q: int, rules: Rules) {
    && batch != []
    && forall s :: s in batch ==>
         && EntryOk(s, electionId, eligibilityRoot, q, rules)
         && s.package.candidateListHash == batch[0].package.candidateListHash
         && s.package.ciphertext.keyHash == batch[0].package.ciphertext.keyHash
  }

  /** The aggregate of a list of ciphertexts, as a value. */
  ghost function TheAggregate(cts: seq<Ciphertext>, q: int): (a: Ciphertext)
    requires q > 0 && Aggregatable(cts)
    ensures IsAggregate(a, cts, q)
  {
    var c1 := seq(CANDIDATE_COUNT, i requires 0 <= i < CANDIDATE_COUNT => Point(LogSum(FirstColumn(cts, i)) % q));
    var c2 := seq(CANDIDATE_COUNT, i requires 0 <= i < CANDIDATE_COUNT => Point(LogSum(SecondColumn(cts, i)) % q));
    AggregateResidues(cts, q);
    Ciphertext(cts[0].keyHash, cts[0].publicKey, c1, c2)
  }

  lemma AggregateResidues(cts: seq<Ciphertext>, q: int)
    requires q > 0 && Aggregatable(cts)
    ensures forall i :: 0 <= i < CANDIDATE_COUNT ==> Field.Cong(LogSum(FirstColumn(cts, i)) % q, LogSum(FirstColumn(cts, i)), q)
    ensures forall i :: 0 <= i < CANDIDATE_COUNT ==> Field.Cong(LogSum(SecondColumn(cts, i)) % q, LogSum(SecondColumn(cts, i)), q)
  {
    forall i | 0 <= i < CANDIDATE_COUNT
      ensures Field.Cong(LogSum(FirstColumn(cts, i)) % q, LogSum(FirstColumn(cts, i)), q)
      ensures Field.Cong(LogSum(SecondColumn(cts, i)) % q, LogSum(SecondColumn(cts, i)), q)
    {
      Field.CongMod(LogSum(FirstColumn(cts, i)), q);
      Field.CongMod(LogSum(SecondColumn(cts, i)), q);
    }
  }

  lemma BatchAggregatable(batch: seq<Stored>, electionId: nat, eligibilityRoot: nat, q: int, rules: Rules)
    requires BatchOk(batch, electionId, eligibilityRoot, q, rules)
    ensures Aggregatable(Ciphertexts(Packages(batch)))
    ensures forall ct :: ct in Ciphertexts(Packages(batch)) ==> Wellformed(ct, q)
  {
    var cts := Ciphertexts(Packages(batch));
    assert batch[0] in batch;
    forall ct | ct in cts
      ensures ct.keyHash == cts[0].keyHash && ct.publicKey == cts[0].publicKey && Wellformed(ct, q)
    {
      var k :| 0 <= k < |cts| && cts[k] == ct;
      assert batch[k] in batch;
    }
  }

  lemma SortedOk(batch: seq<Stored>, electionId: nat, eligibilityRoot: nat, q: int, rules: Rules)
    ensures BatchOk(batch, electionId, eligibilityRoot, q, rules) <==>
            BatchOk(SortBy(batch, StoredKey(rules)), electionId, eligibilityRoot, q, rules)
  {
    SortContents(batch, StoredKey(rules));
    var sorted := SortBy(batch, StoredKey(rules));
    if BatchOk(batch, electionId, eligibilityRoot, q, rules) {
      SamePermuted(batch, sorted, electionId, eligibilityRoot, q, rules);
    } else if BatchOk(sorted, electionId, eligibilityRoot, q, rules) {
      SamePermuted(sorted, batch, electionId, eligibilityRoot, q, rules);
    }
  }

  lemma SamePermuted(batch: seq<Stored>, other: seq<Stored>, electionId: nat, eligibilityRoot: nat, q: int, rules: Rules)
    requires multiset(batch) == multiset(other) && BatchOk(batch, electionId, eligibilityRoot, q, rules)
    ensures BatchOk(other, electionId, eligibilityRoot, q, rules)
    ensures other[0].package.candidateListHash == batch[0].package.candidateListHash
    ensures other[0].package.ciphertext.keyHash == batch[0].package.ciphertext.keyHash
  {
    SameMembers(batch, other);
    assert other[0] in other;
  }

  // ----- building a manifest

  ghost function ManifestOf(sorted: seq<Stored>, electionId: nat, eligibilityRoot: nat, previousNullifierRoot: Digest,
                            seen: seq<nat>, q: int, rules: Rules): Manifest
    requires q > 0 && BatchOk(sorted, electionId, eligibilityRoot, q, rules)
  {
    BatchAggregatable(sorted, electionId, eligibilityRoot, q, rules);
    var packages := Packages(sorted);
    Manifest(electionId, packages[0].candidateListHash, eligibilityRoot, packages[0].ciphertext.keyHash,
             previousNullifierRoot, SetRoot(seen), Root(PackageLeaves(sorted, rules)), |sorted|,
             TheAggregate(Ciphertexts(packages), q), Digests(packages, rules), PackageLeaves(sorted, rules),
             BallotNullifiers(packages), PublicInputs(packages))
  }

  /** Result and accumulator contents after `buildEligibleBatchManifest`; a failed call may leave part of the
      batch in the accumulator. */
  ghost function BuildOutcome(seen: seq<nat>, electionId: nat, eligibilityRoot: nat, previousNullifierRoot: Digest,
                              batch: seq<Stored>, q: Field.Modulus, rules: Rules): (r: (Option<Manifest>, seq<nat>))
  {
    var sorted := SortBy(batch, StoredKey(rules));
    SortedOk(batch, electionId, eligibilityRoot, q, rules);
    if SetRoot(seen) != previousNullifierRoot || !BatchOk(batch, electionId, eligibilityRoot, q, rules) then (None, seen)
    else
      var ns := BallotNullifiers(Packages(sorted));
      var after := seen + ns[..Taken(seen, ns)];
      if Taken(seen, ns) < |ns| then (None, after)
      else (Some(ManifestOf(sorted, electionId, eligibilityRoot, previousNullifierRoot, after, q, rules)), after)
  }

  method BuildEligibleBatchManifest(electionId: nat, eligibilityRoot: nat, previousNullifierRoot: Digest,
                                    batch: seq<Stored>, accumulator: NullifierAccumulator, q: int, rules: Rules)
    returns (r: Option<Manifest>)
    requires q > 0 && accumulator.Valid()
    modifies accumulator
    ensures accumulator.Valid()
    ensures (r, accumulator.seen) == BuildOutcome(old(accumulator.seen), electionId, eligibilityRoot, previousNullifierRoot, batch, q, rules)
  {
    ghost var before := accumulator.seen;
    var root := accumulator.GetRoot();
    if batch == [] || root != previousNullifierRoot || !BatchOk(batch, electionId, eligibilityRoot, q, rules) {
      return None;
    }
    var sorted := SortBy(batch, StoredKey(rules));
    SortedOk(batch, electionId, eligibilityRoot, q, rules);
    BatchAggregatable(sorted, electionId, eligibilityRoot, q, rules);
    var packages := Packages(sorted);
    var ok := accumulator.AddMany(BallotNullifiers(packages));
    if !ok {
      return None;
    }
    var leafHashes := PackageLeaves(sorted, rules);
    var aggregate := Aggregate(Ciphertexts(packages), q);
    AggregateUnique(aggregate.value, TheAggregate(Ciphertexts(packages), q), Ciphertexts(packages), q);
    var cidMerkleRoot := MerkleRoot(leafHashes);
    var nullifierRoot := accumulator.GetRoot();
    r := Some(Manifest(electionId, packages[0].candidateListHash, eligibilityRoot, packages[0].ciphertext.keyHash,
                       previousNullifierRoot, nullifierRoot, cidMerkleRoot, |sorted|, aggregate.value,
                       Digests(packages, rules), leafHashes, BallotNullifiers(packages), PublicInputs(packages)));
  }

  // ----- order of the input packages is immaterial

  lemma {:induction false} SortCommutes(batch: seq<Stored>, rules: Rules)
    ensures Packages(SortBy(batch, StoredKey(rules))) == SortBy(Packages(batch), rules.digest)
  {
    if batch != [] {
      SortCommutes(Front(batch), rules);
      assert Packages(Front(batch)) == Front(Packages(batch));
      InsertCommutes(Last(batch), SortBy(Front(batch), StoredKey(rules)), rules);
    }
  }

  lemma {:induction false} InsertCommutes(s: Stored, sorted: seq<Stored>, rules: Rules)
    ensures Packages(Insert(s, sorted, StoredKey(rules))) == Insert(s.package, Packages(sorted), rules.digest)
  {
    if sorted != [] {
      InsertCommutes(s, Front(sorted), rules);
      assert Packages(Front(sorted)) == Front(Packages(sorted));
    }
  }

  /** Appending one package adds one occurrence. */
  lemma PackagesSnoc(front: seq<Stored>, s: Stored)
    ensures multiset(Packages(front + [s])) == multiset(Packages(front)) + multiset{s.package}
  {
    assert Packages(front + [s]) == Packages(front) + [s.package];
  }

  lemma PackagesWithout(b: seq<Stored>, k: nat)
    requires k < |b|
    ensures multiset(Packages(b)) == multiset(Packages(b[..k] + b[k + 1..])) + multiset{b[k].package}
  {
    assert Packages(b[..k] + b[k + 1..]) == Packages(b)[..k] + Packages(b)[k + 1..];
    RemoveAt(Packages(b), k);
    assert Packages(b)[k] in multiset(Packages(b));
  }

  lemma {:induction false} PackagesContents(a: seq<Stored>, b: seq<Stored>)
    requires multiset(a) == multiset(b)
    ensures multiset(Packages(a)) == multiset(Packages(b))
    decreases |a|
  {
    SameMembers(a, b);
    if a != [] {
      assert Last(a) in a;
      var k :| 0 <= k < |b| && b[k] == Last(a);
      FrontContents(a);
      RemoveAt(b, k);
      PackagesContents(Front(a), b[..k] + b[k + 1..]);
      PackagesStep(a, b, k);
    }
  }

  lemma PackagesStep(a: seq<Stored>, b: seq<Stored>, k: nat)
    requires a != [] && k < |b| && b[k] == Last(a)
    requires multiset(Packages(Front(a))) == multiset(Packages(b[..k] + b[k + 1..]))
    ensures multiset(Packages(a)) == multiset(Packages(b))
  {
    PackagesSnoc(Front(a), Last(a));
    assert a == Front(a) + [Last(a)];
    PackagesWithout(b, k);
  }

  lemma DistinctNullifiersDistinctDigests(sorted: seq<Stored>, rules: Rules)
    requires CollisionFree(rules) && NoDuplicates(BallotNullifiers(Packages(sorted)))
    ensures forall x, y :: x in sorted && y in sorted && StoredKey(rules)(x) == StoredKey(rules)(y) ==> x == y
  {
    forall x, y | x in sorted && y in sorted && StoredKey(rules)(x) == StoredKey(rules)(y)
      ensures x == y
    {
      var i :| 0 <= i < |sorted| && sorted[i] == x;
      var j :| 0 <= j < |sorted| && sorted[j] == y;
      assert BallotNullifiers(Packages(sorted))[i] == BallotNullifiers(Packages(sorted))[j];
    }
  }

  lemma SuffixNoDuplicates(a: seq<nat>, b: seq<nat>)
    requires NoDuplicates(a + b)
    ensures NoDuplicates(b)
  {
    forall i, j | 0 <= i < j < |b| ensures b[i] != b[j] {
      assert (a + b)[|a| + i] != (a + b)[|a| + j];
    }
  }

  lemma OkIgnoresOrder(a: seq<Stored>, b: seq<Stored>, electionId: nat, eligibilityRoot: nat, q: int, rules: Rules)
    requires multiset(a) == multiset(b)
    ensures BatchOk(a, electionId, eligibilityRoot, q, rules) <==> BatchOk(b, electionId, eligibilityRoot, q, rules)
  {
    if BatchOk(a, electionId, eligibilityRoot, q, rules) {
      SamePermuted(a, b, electionId, eligibilityRoot, q, rules);
    } else if BatchOk(b, electionId, eligibilityRoot, q, rules) {
      SamePermuted(b, a, electionId, eligibilityRoot, q, rules);
    }
  }

  lemma SortedPackagesIgnoreOrder(a: seq<Stored>, b: seq<Stored>, rules: Rules)
    requires CollisionFree(rules) && multiset(a) == multiset(b)
    ensures Packages(SortBy(a, StoredKey(rules))) == Packages(SortBy(b, StoredKey(rules)))
  {
    SortCommutes(a, rules);
    SortCommutes(b, rules);
    PackagesContents(a, b);
    SortPermutation(Packages(a), Packages(b), rules.digest);
  }

  lemma SortedIgnoresOrder(a: seq<Stored>, b: seq<Stored>, rules: Rules)
    requires CollisionFree(rules) && multiset(a) == multiset(b)
    requires NoDuplicates(BallotNullifiers(Packages(SortBy(a, StoredKey(rules)))))
    ensures SortBy(a, StoredKey(rules)) == SortBy(b, StoredKey(rules))
  {
    var key := StoredKey(rules);
    DistinctNullifiersDistinctDigests(SortBy(a, key), rules);
    SortContents(a, key);
    SameMembers(SortBy(a, key), a);
    SortPermutation(a, b, key);
  }

  /** Batch building does not depend on the order of the input packages: the manifest, a failure, and what a
      failed call leaves in the accumulator are all the same. */
  lemma BuildPermutationInvariant(seen: seq<nat>, electionId: nat, eligibilityRoot: nat, previousNullifierRoot: Digest,
                                  a: seq<Stored>, b: seq<Stored>, q: int, rules: Rules)
    requires q > 0 && CollisionFree(rules) && NoDuplicates(seen) && multiset(a) == multiset(b)
    ensures BuildOutcome(seen, electionId, eligibilityRoot, previousNullifierRoot, a, q, rules) ==
            BuildOutcome(seen, electionId, eligibilityRoot, previousNullifierRoot, b, q, rules)
  {
    OkIgnoresOrder(a, b, electionId, eligibilityRoot, q, rules);
    SortedPackagesIgnoreOrder(a, b, rules);
    var ns := BallotNullifiers(Packages(SortBy(a, StoredKey(rules))));
    TakenAllIff(seen, ns);
    if Taken(seen, ns) == |ns| {
      SuffixNoDuplicates(seen, ns);
      SortedIgnoresOrder(a, b, rules);
    }
  }

  // ----- receipts

  datatype Receipt = Receipt(packageDigest: nat, leafHash: Digest, leafIndex: nat, proof: seq<Step>)

  /** `indexOf`. */
  method IndexOf(xs: seq<nat>, x: nat) returns (k: int)
    ensures x in xs ==> 0 <= k < |xs| && xs[k] == x && x !in xs[..k]
    ensures x !in xs ==> k == -1
  {
    for i := 0 to |xs|
      invariant x !in xs[..i]
    {
      if xs[i] == x {
        return i;
      }
    }
    return -1;
  }

  ghost predicate IsFirst(xs: seq<nat>, x: nat, k: nat) {
    k < |xs| && xs[k] == x && x !in xs[..k]
  }

  lemma FirstUnique(xs: seq<nat>, x: nat, k: nat)
    requires IsFirst(xs, x, k)
    ensures forall j: nat :: IsFirst(xs, x, j) ==> j == k
  {
    NotBefore(xs, x, k);
    forall j: nat | IsFirst(xs, x, j) ensures j == k {
      NotBefore(xs, x, j);
    }
  }

  lemma NotBefore(xs: seq<nat>, x: nat, k: nat)
    requires IsFirst(xs, x, k)
    ensures forall i :: 0 <= i < k ==> xs[i] != x
  {
    forall i | 0 <= i < k ensures xs[i] != x {
      assert xs[..k][i] == xs[i];
    }
  }

  /** `buildEligibleInclusionReceipt`, for any manifest: a receipt exists exactly when the first position of the
      digest has a leaf, and it verifies against the root of the leaves. */
  method BuildInclusionReceipt(manifest: Manifest, p: Package, rules: Rules) returns (r: Option<Receipt>)
    ensures r.Some? <==> exists k: nat :: IsFirst(manifest.packageDigests, rules.digest(p), k) && k < |manifest.packageLeafHashes|
    ensures r.Some? ==>
      && r.value.packageDigest == rules.digest(p) && IsFirst(manifest.packageDigests, rules.digest(p), r.value.leafIndex)
      && r.value.leafIndex < |manifest.packageLeafHashes|
      && manifest.packageLeafHashes[r.value.leafIndex] == r.value.leafHash
      && Fold(r.value.leafHash, r.value.proof) == Root(manifest.packageLeafHashes)
  {
    var leafIndex := IndexOf(manifest.packageDigests, rules.digest(p));
    if leafIndex < 0 {
      return None;
    }
    assert IsFirst(manifest.packageDigests, rules.digest(p), leafIndex);
    FirstUnique(manifest.packageDigests, rules.digest(p), leafIndex);
    var proof := MerkleProof(manifest.packageLeafHashes, leafIndex);
    if proof.None? {
      return None;
    }
    ProofComplete(manifest.packageLeafHashes, leafIndex);
    r := Some(Receipt(rules.digest(p), manifest.packageLeafHashes[leafIndex], leafIndex, proof.value));
  }

  /** A built manifest commits to the root of its leaves and has a leaf for each digest; every package of the
      batch is among them. So each of its packages gets a receipt against the committed root. */
  lemma BuiltManifestHasReceipts(seen: seq<nat>, electionId: nat, eligibilityRoot: nat, previousNullifierRoot: Digest,
                                 batch: seq<Stored>, q: int, rules: Rules, manifest: Manifest)
    requires q > 0
    requires BuildOutcome(seen, electionId, eligibilityRoot, previousNullifierRoot, batch, q, rules).0 == Some(manifest)
    ensures manifest.cidMerkleRoot == Root(manifest.packageLeafHashes)
    ensures |manifest.packageDigests| == |manifest.packageLeafHashes| == |batch|
    ensures forall s :: s in batch ==> rules.digest(s.package) in manifest.packageDigests
  {
    var sorted := SortBy(batch, StoredKey(rules));
    SortContents(batch, StoredKey(rules));
    SameMembers(sorted, batch);
    forall s | s in batch ensures rules.digest(s.package) in manifest.packageDigests {
      var k :| 0 <= k < |sorted| && sorted[k] == s;
      assert manifest.packageDigests[k] == rules.digest(s.package);
    }
  }

  // ----- what a built manifest says of its batch

  /** Entry k of every list of the manifest is about one and the same stored package; the leaf binds its digest,
      eligibility root, nullifier, commitment, public-inputs hash and content identifier. */
  ghost predicate DescribesAt(manifest: Manifest, k: nat, s: Stored, rules: Rules) {
    && k < |manifest.packageDigests| && k < |manifest.packageLeafHashes|
    && k < |manifest.ballotNullifiers| && k < |manifest.publicInputsHashes|
    && manifest.packageDigests[k] == rules.digest(s.package)
    && manifest.packageLeafHashes[k] ==
       Leaf(PackageDomain, [rules.digest(s.package), s.package.eligibilityRoot, s.package.nullifier,
                            s.package.packageCommitment, s.package.publicInputsHash] + s.contentId)
    && manifest.ballotNullifiers[k] == s.package.nullifier
    && manifest.publicInputsHashes[k] == s.package.publicInputsHash
  }

  /** The manifest of a batch describes an ordering of it by ascending digest: every list has one entry per package, and
      entry k of each is about package k. The remaining fields are the call's, the batch's and the common ones of its
      packages; the aggregate is that of all its ciphertexts. */
  lemma ManifestDescribesBatch(seen: seq<nat>, electionId: nat, eligibilityRoot: nat, previousNullifierRoot: Digest,
                               batch: seq<Stored>, q: int, rules: Rules, manifest: Manifest) returns (ordering: seq<Stored>)
    requires q > 0
    requires BuildOutcome(seen, electionId, eligibilityRoot, previousNullifierRoot, batch, q, rules).0 == Some(manifest)
    ensures multiset(ordering) == multiset(batch) && |ordering| == |batch|
    ensures forall i, j :: 0 <= i < j < |ordering| ==> rules.digest(ordering[i].package) <= rules.digest(ordering[j].package)
    ensures |manifest.packageDigests| == |manifest.packageLeafHashes| == |batch|
    ensures |manifest.ballotNullifiers| == |manifest.publicInputsHashes| == |batch|
    ensures forall k :: 0 <= k < |batch| ==> DescribesAt(manifest, k, ordering[k], rules)
    ensures manifest.electionId == electionId && manifest.eligibilityRoot == eligibilityRoot
    ensures manifest.previousNullifierRoot == previousNullifierRoot && manifest.batchSize == |batch|
    ensures forall s :: s in batch ==>
      s.package.candidateListHash == manifest.candidateListHash && s.package.ciphertext.keyHash == manifest.keyHash
    ensures Aggregatable(Ciphertexts(Packages(ordering))) && IsAggregate(manifest.aggregate, Ciphertexts(Packages(ordering)), q)
  {
    ordering := SortBy(batch, StoredKey(rules));
    SortContents(batch, StoredKey(rules));
    SameMembers(ordering, batch);
    SortSorted(batch, StoredKey(rules));
    SortedAscending(ordering, StoredKey(rules));
    SortedOk(batch, electionId, eligibilityRoot, q, rules);
    BatchAggregatable(ordering, electionId, eligibilityRoot, q, rules);
    assert ordering[0] in ordering;
    forall k | 0 <= k < |batch| ensures DescribesAt(manifest, k, ordering[k], rules) {
      assert PackageLeaves(ordering, rules)[k] == PackageLeaf(ordering[k], rules);
      assert Packages(ordering)[k] == ordering[k].package;
    }
  }

  /** The receipt of a package holds that package's own leaf: under collision-free digests, the leaf at the first
      position of its digest binds exactly this package, with a content identifier it was stored under. */
  lemma ReceiptHoldsOwnLeaf(seen: seq<nat>, electionId: nat, eligibilityRoot: nat, previousNullifierRoot: Digest,
                            batch: seq<Stored>, q: int, rules: Rules, manifest: Manifest, p: Package, k: nat)
    requires q > 0 && CollisionFree(rules)
    requires BuildOutcome(seen, electionId, eligibilityRoot, previousNullifierRoot, batch, q, rules).0 == Some(manifest)
    requires IsFirst(manifest.packageDigests, rules.digest(p), k)
    ensures exists s :: s in batch && s.package == p && DescribesAt(manifest, k, s, rules)
  {
    var ordering := ManifestDescribesBatch(seen, electionId, eligibilityRoot, previousNullifierRoot, batch, q, rules, manifest);
    SameMembers(ordering, batch);
    assert DescribesAt(manifest, k, ordering[k], rules);
    assert ordering[k] in ordering && ordering[k].package == p;
  }

  // ----- when a build succeeds

  /** Whether a batch brings a duplicate does not depend on its order. */
  lemma DuplicatesIgnoreOrder(seen: seq<nat>, a: seq<Package>, b: seq<Package>)
    requires multiset(a) == multiset(b) && NoDuplicates(seen + BallotNullifiers(a))
    ensures NoDuplicates(seen + BallotNullifiers(b))
  {
    SameMembers(a, b);
    var before, after := seen + BallotNullifiers(a), seen + BallotNullifiers(b);
    forall i, j | 0 <= i < j < |after| ensures after[i] != after[j] {
      if j < |seen| {
        assert before[i] == seen[i] && before[j] == seen[j];
      } else {
        var y := b[j - |seen|];
        assert y in b;
        var l :| 0 <= l < |a| && a[l] == y;
        if i < |seen| {
          assert before[i] == seen[i] && before[|seen| + l] == y.nullifier;
        } else {
          var k, m := PositionsBefore(a, b, i - |seen|, j - |seen|);
          assert before[|seen| + k] == b[i - |seen|].nullifier && before[|seen| + m] == y.nullifier;
        }
      }
    }
  }

  /** A build succeeds exactly on the announced previous root and a nonempty batch in which every package is well
      formed, of this election and root, with an accepted proof, a content identifier, and the candidate list and
      key of the first, and no nullifier is repeated in it or was seen before. */
  lemma BuildSucceedsIff(seen: seq<nat>, electionId: nat, eligibilityRoot: nat, previousNullifierRoot: Digest,
                         batch: seq<Stored>, q: int, rules: Rules)
    requires q > 0 && NoDuplicates(seen)
    ensures BuildOutcome(seen, electionId, eligibilityRoot, previousNullifierRoot, batch, q, rules).0.Some? <==>
      && SetRoot(seen) == previousNullifierRoot && batch != []
      && (forall s :: s in batch ==>
           && rules.formatOk(s.package) && Wellformed(s.package.ciphertext, q) && InGroup(s.package.ciphertext.publicKey, q)
           && s.package.ciphertext.keyHash == KeyHash(s.package.ciphertext.publicKey)
           && s.package.electionId == electionId && s.package.eligibilityRoot == eligibilityRoot
           && rules.proofOk(s.package) && s.contentId != []
           && s.package.candidateListHash == batch[0].package.candidateListHash
           && s.package.ciphertext.keyHash == batch[0].package.ciphertext.keyHash)
      && NoDuplicates(seen + BallotNullifiers(Packages(batch)))
  {
    var sorted := SortBy(batch, StoredKey(rules));
    SortContents(batch, StoredKey(rules));
    PackagesContents(batch, sorted);
    TakenAllIff(seen, BallotNullifiers(Packages(sorted)));
    if NoDuplicates(seen + BallotNullifiers(Packages(sorted))) {
      DuplicatesIgnoreOrder(seen, Packages(sorted), Packages(batch));
    }
    if NoDuplicates(seen + BallotNullifiers(Packages(batch))) {
      DuplicatesIgnoreOrder(seen, Packages(batch), Packages(sorted));
    }
  }

  /** What a failed build leaves behind: nothing when a package or the root is wrong; otherwise the nullifiers, by
      ascending digest, before the first that is taken already. */
  lemma FailedBuildKeepsPrefix(seen: seq<nat>, electionId: nat, eligibilityRoot: nat, previousNullifierRoot: Digest,
                               batch: seq<Stored>, q: int, rules: Rules) returns (ordering: seq<Stored>)
    requires q > 0 && NoDuplicates(seen)
    requires BuildOutcome(seen, electionId, eligibilityRoot, previousNullifierRoot, batch, q, rules).0.None?
    ensures multiset(ordering) == multiset(batch)
    ensures forall i, j :: 0 <= i < j < |ordering| ==> rules.digest(ordering[i].package) <= rules.digest(ordering[j].package)
    ensures var after, ns := BuildOutcome(seen, electionId, eligibilityRoot, previousNullifierRoot, batch, q, rules).1,
                             BallotNullifiers(Packages(ordering));
      if SetRoot(seen) == previousNullifierRoot && BatchOk(batch, electionId, eligibilityRoot, q, rules)
      then exists k :: 0 <= k < |ns| && after == seen + ns[..k] && ns[k] in after
      else after == seen
  {
    ordering := SortBy(batch, StoredKey(rules));
    SortContents(batch, StoredKey(rules));
    SortSorted(batch, StoredKey(rules));
    SortedAscending(ordering, StoredKey(rules));
    TakenStops(seen, BallotNullifiers(Packages(ordering)));
  }

  // ----- replaying accepted batches

  /** An accepted batch: its published artifact and the packages it was built from. */
  datatype AcceptedBatch = AcceptedBatch(artifact: Manifest, packages: seq<Stored>)

  datatype EncryptedTally = EncryptedTally(ballotCount: nat, aggregate: Ciphertext, manifests: seq<Manifest>)

  function SortedBatches(batches: seq<AcceptedBatch>, rules: Rules): (r: seq<seq<Package>>)
    ensures |r| == |batches|
  {
    seq(|batches|, k requires 0 <= k < |batches| => Packages(SortBy(batches[k].packages, StoredKey(rules))))
  }

  function Aggregates(manifests: seq<Manifest>): (r: seq<Ciphertext>)
    ensures |r| == |manifests|
  {
    seq(|manifests|, k requires 0 <= k < |manifests| => manifests[k].aggregate)
  }

  function BatchCiphertexts(batches: seq<seq<Package>>): (r: seq<seq<Ciphertext>>)
    ensures |r| == |batches|
  {
    seq(|batches|, k requires 0 <= k < |batches| => Ciphertexts(batches[k]))
  }

  /** All nullifiers of the first k batches, after the known ones. */
  function History(known: seq<nat>, batches: seq<seq<Package>>, k: nat): seq<nat>
    requires k <= |batches|
  {
    known + BallotNullifiers(Flatten(batches[..k]))
  }

  /** What the replay has established after its first k batches. */
  ghost predicate ReplayedUpTo(known: seq<nat>, sorted: seq<seq<Package>>, manifests: seq<Manifest>, k: nat, q: int)
    requires q > 0 && k <= |sorted|
  {
    && |manifests| == k
    && NoDuplicates(History(known, sorted, k))
    && RootsFollow(known, sorted, manifests)
    && AggregatesOf(Aggregates(manifests), BatchCiphertexts(sorted[..k]), q)
    && (forall ct :: ct in Aggregates(manifests) ==> Wellformed(ct, q))
  }

  /** One batch rebuilds, over the given history, to exactly its published artifact. */
  ghost predicate BatchReplays(history: seq<nat>, electionId: nat, candidateListHash: nat, eligibilityRoot: nat,
                               batch: AcceptedBatch, q: Field.Modulus, rules: Rules)
  {
    && batch.artifact.candidateListHash == candidateListHash
    && BuildOutcome(history, electionId, eligibilityRoot, batch.artifact.previousNullifierRoot, batch.packages, q, rules).0
       == Some(batch.artifact)
  }

  function Artifacts(batches: seq<AcceptedBatch>): (r: seq<Manifest>)
    ensures |r| == |batches|
  {
    seq(|batches|, k requires 0 <= k < |batches| => batches[k].artifact)
  }

  /** Batch k rebuilds over the known nullifiers and those of the batches before it. */
  ghost predicate ReplaysAt(known: seq<nat>, electionId: nat, candidateListHash: nat, eligibilityRoot: nat,
                            batches: seq<AcceptedBatch>, k: nat, q: int, rules: Rules)
    requires q > 0 && k < |batches|
  {
    BatchReplays(History(known, SortedBatches(batches, rules), k), electionId, candidateListHash, eligibilityRoot, batches[k], q, rules)
  }

  /** The first n batches replay in order. */
  ghost predicate AllReplay(known: seq<nat>, electionId: nat, candidateListHash: nat, eligibilityRoot: nat,
                            batches: seq<AcceptedBatch>, n: nat, q: int, rules: Rules)
    requires q > 0 && n <= |batches|
  {
    forall k :: 0 <= k < n ==> ReplaysAt(known, electionId, candidateListHash, eligibilityRoot, batches, k, q, rules)
  }

  /** When a replay succeeds: every batch rebuilds over all the nullifiers before it, and the batch aggregates are
      under one election key. */
  ghost predicate Replayable(electionId: nat, candidateListHash: nat, eligibilityRoot: nat, known: seq<nat>,
                             batches: seq<AcceptedBatch>, q: Field.Modulus, rules: Rules)
  {
    && batches != [] && NoDuplicates(known) && Aggregatable(Aggregates(Artifacts(batches)))
    && AllReplay(known, electionId, candidateListHash, eligibilityRoot, batches, |batches|, q, rules)
  }

  lemma HistoryStep(known: seq<nat>, sorted: seq<seq<Package>>, k: nat)
    requires k < |sorted|
    ensures History(known, sorted, k + 1) == History(known, sorted, k) + BallotNullifiers(sorted[k])
    ensures |Flatten(sorted[..k + 1])| == |Flatten(sorted[..k])| + |sorted[k]|
  {
    FlattenSnoc(sorted, k);
    assert BallotNullifiers(Flatten(sorted[..k]) + sorted[k]) == BallotNullifiers(Flatten(sorted[..k])) + BallotNullifiers(sorted[k]);
  }

  /** The loop body: rebuild one manifest over the running accumulator and compare it with the artifact. */
  method ReplayBatch(electionId: nat, candidateListHash: nat, eligibilityRoot: nat, batch: AcceptedBatch,
                     accumulator: NullifierAccumulator, q: int, rules: Rules)
    returns (r: Option<Manifest>)
    requires q > 0 && accumulator.Valid()
    modifies accumulator
    ensures accumulator.Valid()
    ensures r.Some? <==> BatchReplays(old(accumulator.seen), electionId, candidateListHash, eligibilityRoot, batch, q, rules)
    ensures r.Some? ==>
      && r.value == batch.artifact
      && accumulator.seen == old(accumulator.seen) + BallotNullifiers(Packages(SortBy(batch.packages, StoredKey(rules))))
  {
    r := BuildEligibleBatchManifest(electionId, eligibilityRoot, batch.artifact.previousNullifierRoot, batch.packages,
                                    accumulator, q, rules);
    if r.None? || r.value.candidateListHash != candidateListHash || r.value != batch.artifact {
      return None;
    }
    BuildExtends(old(accumulator.seen), electionId, eligibilityRoot, batch.artifact.previousNullifierRoot,
                 batch.packages, q, rules, r.value);
  }

  /** The manifests rebuilt so far are the published artifacts. */
  ghost predicate MatchArtifacts(manifests: seq<Manifest>, batches: seq<AcceptedBatch>) {
    |manifests| <= |batches| && forall j :: 0 <= j < |manifests| ==> manifests[j] == batches[j].artifact
  }

  lemma MatchStep(manifests: seq<Manifest>, batches: seq<AcceptedBatch>, manifest: Manifest)
    requires MatchArtifacts(manifests, batches) && |manifests| < |batches|
    requires manifest == batches[|manifests|].artifact
    ensures MatchArtifacts(manifests + [manifest], batches)
  {
  }

  lemma AllReplayStep(electionId: nat, candidateListHash: nat, eligibilityRoot: nat, known: seq<nat>,
                      batches: seq<AcceptedBatch>, k: nat, q: int, rules: Rules)
    requires q > 0 && k < |batches|
    ensures AllReplay(known, electionId, candidateListHash, eligibilityRoot, batches, k + 1, q, rules) <==>
            && AllReplay(known, electionId, candidateListHash, eligibilityRoot, batches, k, q, rules)
            && ReplaysAt(known, electionId, candidateListHash, eligibilityRoot, batches, k, q, rules)
    ensures AllReplay(known, electionId, candidateListHash, eligibilityRoot, batches, |batches|, q, rules) ==>
              AllReplay(known, electionId, candidateListHash, eligibilityRoot, batches, k + 1, q, rules)
  {
  }

  /** The replay loop: one accumulator threaded through all accepted batches, every rebuilt manifest compared
      with the published one. */
  method ReplayBatches(electionId: nat, candidateListHash: nat, eligibilityRoot: nat, known: seq<nat>,
                       batches: seq<AcceptedBatch>, accumulator: NullifierAccumulator, q: int, rules: Rules)
    returns (r: Option<(seq<Manifest>, nat)>)
    requires q > 0 && accumulator.Valid() && accumulator.seen == known
    modifies accumulator
    ensures r.Some? <==> AllReplay(known, electionId, candidateListHash, eligibilityRoot, batches, |batches|, q, rules)
    ensures r.Some? ==> |r.value.0| == |batches| && MatchArtifacts(r.value.0, batches)
    ensures r.Some? ==> r.value.1 == |Flatten(SortedBatches(batches, rules))|
  {
    ghost var sorted := SortedBatches(batches, rules);
    var manifests: seq<Manifest> := [];
    var ballotCount := 0;
    assert History(known, sorted, 0) == known;
    for k := 0 to |batches|
      invariant accumulator.Valid() && accumulator.seen == History(known, sorted, k)
      invariant ballotCount == |Flatten(sorted[..k])|
      invariant |manifests| == k && MatchArtifacts(manifests, batches)
      invariant AllReplay(known, electionId, candidateListHash, eligibilityRoot, batches, k, q, rules)
    {
      HistoryStep(known, sorted, k);
      AllReplayStep(electionId, candidateListHash, eligibilityRoot, known, batches, k, q, rules);
      var manifest := ReplayBatch(electionId, candidateListHash, eligibilityRoot, batches[k], accumulator, q, rules);
      assert manifest.Some? <==> ReplaysAt(known, electionId, candidateListHash, eligibilityRoot, batches, k, q, rules);
      if manifest.None? {
        return None;
      }
      MatchStep(manifests, batches, manifest.value);
      manifests := manifests + [manifest.value];
      ballotCount := ballotCount + |batches[k].packages|;
    }
    assert sorted[..|batches|] == sorted;
    r := Some((manifests, ballotCount));
  }

  /** The core of `build_eligible_tally`: replay all accepted batches and aggregate the batch aggregates. */
  method ReplayTally(electionId: nat, candidateListHash: nat, eligibilityRoot: nat, known: seq<nat>,
                     batches: seq<AcceptedBatch>, q: Field.Modulus, rules: Rules) returns (r: Option<EncryptedTally>)
    ensures r.Some? <==> Replayable(electionId, candidateListHash, eligibilityRoot, known, batches, q, rules)
    ensures r.Some? ==>
      var sorted := SortedBatches(batches, rules);
      && ReplayedUpTo(known, sorted, r.value.manifests, |batches|, q)
      && r.value.ballotCount == |Flatten(sorted)|
      && r.value.manifests == Artifacts(batches)
      && Aggregatable(Aggregates(r.value.manifests)) && IsAggregate(r.value.aggregate, Aggregates(r.value.manifests), q)
  {
    if |batches| == 0 {
      return None;
    }
    var accumulator := NullifierAccumulator.Create(known);
    if accumulator.None? {
      return None;
    }
    var replayed := ReplayBatches(electionId, candidateListHash, eligibilityRoot, known, batches, accumulator.value, q, rules);
    if replayed.None? {
      return None;
    }
    var (manifests, ballotCount) := replayed.value;
    ReplayKeepsHistory(electionId, candidateListHash, eligibilityRoot, known, batches, manifests, q, rules);
    assert manifests == Artifacts(batches);
    var aggregate := Aggregate(Aggregates(manifests), q);
    if aggregate.None? {
      return None;
    }
    r := Some(EncryptedTally(ballotCount, aggregate.value, manifests));
  }

  /** A successful build over a duplicate-free history extends it by the whole sorted batch. */
  lemma BuildExtends(seen: seq<nat>, electionId: nat, eligibilityRoot: nat, previousNullifierRoot: Digest,
                     batch: seq<Stored>, q: int, rules: Rules, manifest: Manifest)
    requires q > 0 && NoDuplicates(seen)
    requires BuildOutcome(seen, electionId, eligibilityRoot, previousNullifierRoot, batch, q, rules).0 == Some(manifest)
    ensures var packages := Packages(SortBy(batch, StoredKey(rules)));
      var ns := BallotNullifiers(packages);
      && BuildOutcome(seen, electionId, eligibilityRoot, previousNullifierRoot, batch, q, rules).1 == seen + ns
      && NoDuplicates(seen + ns)
      && manifest.previousNullifierRoot == SetRoot(seen) && manifest.nullifierRoot == SetRoot(seen + ns)
      && manifest.ballotNullifiers == ns
      && Aggregatable(Ciphertexts(packages)) && IsAggregate(manifest.aggregate, Ciphertexts(packages), q)
  {
    var sorted := SortBy(batch, StoredKey(rules));
    var ns := BallotNullifiers(Packages(sorted));
    TakenAllIff(seen, ns);
    assert ns[..|ns|] == ns;
    SortedOk(batch, electionId, eligibilityRoot, q, rules);
    BatchAggregatable(sorted, electionId, eligibilityRoot, q, rules);
  }

  lemma ReplayStep(known: seq<nat>, sorted: seq<seq<Package>>, manifests: seq<Manifest>, k: nat, electionId: nat,
                   candidateListHash: nat, eligibilityRoot: nat, batch: AcceptedBatch, q: int, rules: Rules)
    requires q > 0 && k < |sorted| && ReplayedUpTo(known, sorted, manifests, k, q)
    requires sorted[k] == Packages(SortBy(batch.packages, StoredKey(rules)))
    requires BatchReplays(History(known, sorted, k), electionId, candidateListHash, eligibilityRoot, batch, q, rules)
    ensures ReplayedUpTo(known, sorted, manifests + [batch.artifact], k + 1, q)
  {
    HistoryStep(known, sorted, k);
    BuildExtends(History(known, sorted, k), electionId, eligibilityRoot, batch.artifact.previousNullifierRoot,
                 batch.packages, q, rules, batch.artifact);
    AggregatesStep(manifests, batch.artifact, sorted, k, q);
    assert RootsFollowAt(known, sorted, batch.artifact, k);
  }

  // ----- every counted package passed the gates

  /** What the batch builder asserts of a package, and the replay of its candidate list. */
  predicate Passed(p: Package, electionId: nat, candidateListHash: nat, eligibilityRoot: nat, q: int, rules: Rules) {
    && ValidPackage(p, q, rules) && rules.proofOk(p)
    && p.electionId == electionId && p.eligibilityRoot == eligibilityRoot && p.candidateListHash == candidateListHash
  }

  lemma BuildPassed(seen: seq<nat>, electionId: nat, eligibilityRoot: nat, previousNullifierRoot: Digest,
                    batch: seq<Stored>, q: int, rules: Rules, manifest: Manifest)
    requires q > 0
    requires BuildOutcome(seen, electionId, eligibilityRoot, previousNullifierRoot, batch, q, rules).0 == Some(manifest)
    ensures forall p :: p in Packages(SortBy(batch, StoredKey(rules))) ==>
      Passed(p, electionId, manifest.candidateListHash, eligibilityRoot, q, rules)
  {
    var sorted := SortBy(batch, StoredKey(rules));
    SortedOk(batch, electionId, eligibilityRoot, q, rules);
    assert manifest.candidateListHash == sorted[0].package.candidateListHash;
    PackagesPassed(sorted, electionId, eligibilityRoot, q, rules);
  }

  lemma PackagesPassed(batch: seq<Stored>, electionId: nat, eligibilityRoot: nat, q: int, rules: Rules)
    requires BatchOk(batch, electionId, eligibilityRoot, q, rules)
    ensures forall p :: p in Packages(batch) ==>
      Passed(p, electionId, batch[0].package.candidateListHash, eligibilityRoot, q, rules)
  {
    forall p | p in Packages(batch)
      ensures Passed(p, electionId, batch[0].package.candidateListHash, eligibilityRoot, q, rules)
    {
      var k :| 0 <= k < |batch| && batch[k].package == p;
      assert batch[k] in batch;
    }
  }

  /** Every package that a replay counts carries an accepted proof for this election, candidate list and root. */
  lemma {:induction false} ReplayedPassed(electionId: nat, candidateListHash: nat, eligibilityRoot: nat, known: seq<nat>,
                                          batches: seq<AcceptedBatch>, n: nat, q: int, rules: Rules)
    requires q > 0 && n <= |batches|
    requires AllReplay(known, electionId, candidateListHash, eligibilityRoot, batches, n, q, rules)
    ensures forall p :: p in Flatten(SortedBatches(batches, rules)[..n]) ==>
      Passed(p, electionId, candidateListHash, eligibilityRoot, q, rules)
  {
    if n > 0 {
      var sorted := SortedBatches(batches, rules);
      AllReplayStep(electionId, candidateListHash, eligibilityRoot, known, batches, n - 1, q, rules);
      ReplayedPassed(electionId, candidateListHash, eligibilityRoot, known, batches, n - 1, q, rules);
      BuildPassed(History(known, sorted, n - 1), electionId, eligibilityRoot, batches[n - 1].artifact.previousNullifierRoot,
                  batches[n - 1].packages, q, rules, batches[n - 1].artifact);
      FlattenSnoc(sorted, n - 1);
    }
  }

  lemma FlattenSnoc(sorted: seq<seq<Package>>, k: nat)
    requires k < |sorted|
    ensures Flatten(sorted[..k + 1]) == Flatten(sorted[..k]) + sorted[k]
  {
    assert sorted[..k + 1][..k] == sorted[..k];
  }

  // ----- what a run of builds establishes

  lemma ReplayStart(known: seq<nat>, sorted: seq<seq<Package>>, q: int)
    requires q > 0 && NoDuplicates(known)
    ensures ReplayedUpTo(known, sorted, [], 0, q)
  {
    assert History(known, sorted, 0) == known;
  }

  lemma MatchFront(manifests: seq<Manifest>, batches: seq<AcceptedBatch>)
    requires MatchArtifacts(manifests, batches) && manifests != []
    ensures MatchArtifacts(manifests[..|manifests| - 1], batches)
    ensures manifests == manifests[..|manifests| - 1] + [batches[|manifests| - 1].artifact]
  {
  }

  /** Batches that replay one by one are together consistent: all nullifiers are pairwise distinct, every root is
      the set root of everything accepted so far, and the aggregates are those of the sorted batches. */
  lemma {:induction false} ReplayKeepsHistory(electionId: nat, candidateListHash: nat, eligibilityRoot: nat, known: seq<nat>,
                                              batches: seq<AcceptedBatch>, manifests: seq<Manifest>, q: int, rules: Rules)
    requires q > 0 && NoDuplicates(known) && MatchArtifacts(manifests, batches)
    requires AllReplay(known, electionId, candidateListHash, eligibilityRoot, batches, |manifests|, q, rules)
    ensures ReplayedUpTo(known, SortedBatches(batches, rules), manifests, |manifests|, q)
    decreases |manifests|
  {
    var sorted, n := SortedBatches(batches, rules), |manifests| - 1;
    if manifests == [] {
      ReplayStart(known, sorted, q);
    } else {
      MatchFront(manifests, batches);
      AllReplayStep(electionId, candidateListHash, eligibilityRoot, known, batches, n, q, rules);
      ReplayKeepsHistory(electionId, candidateListHash, eligibilityRoot, known, batches, manifests[..n], q, rules);
      ReplayStep(known, sorted, manifests[..n], n, electionId, candidateListHash, eligibilityRoot, batches[n], q, rules);
    }
  }

  /** The roots of manifest j are those of the histories before and after batch j. */
  ghost predicate RootsFollowAt(known: seq<nat>, sorted: seq<seq<Package>>, manifest: Manifest, j: nat)
    requires j < |sorted|
  {
    && manifest.previousNullifierRoot == SetRoot(History(known, sorted, j))
    && manifest.nullifierRoot == SetRoot(History(known, sorted, j + 1))
    && manifest.ballotNullifiers == BallotNullifiers(sorted[j])
  }

  ghost predicate RootsFollow(known: seq<nat>, sorted: seq<seq<Package>>, manifests: seq<Manifest>) {
    |manifests| <= |sorted| && forall j :: 0 <= j < |manifests| ==> RootsFollowAt(known, sorted, manifests[j], j)
  }

  lemma AggregatesStep(manifests: seq<Manifest>, manifest: Manifest, sorted: seq<seq<Package>>, k: nat, q: int)
    requires q > 0 && k < |sorted| && |manifests| == k
    requires AggregatesOf(Aggregates(manifests), BatchCiphertexts(sorted[..k]), q)
    requires Aggregatable(Ciphertexts(sorted[k])) && IsAggregate(manifest.aggregate, Ciphertexts(sorted[k]), q)
    requires forall ct :: ct in Aggregates(manifests) ==> Wellformed(ct, q)
    ensures AggregatesOf(Aggregates(manifests + [manifest]), BatchCiphertexts(sorted[..k + 1]), q)
    ensures forall ct :: ct in Aggregates(manifests + [manifest]) ==> Wellformed(ct, q)
  {
    var before, batches := Aggregates(manifests), BatchCiphertexts(sorted[..k]);
    assert Aggregates(manifests + [manifest]) == before + [manifest.aggregate];
    assert BatchCiphertexts(sorted[..k + 1]) == batches + [Ciphertexts(sorted[k])];
    AggregatesSnoc(before, batches, manifest.aggregate, Ciphertexts(sorted[k]), q);
  }

  lemma AggregatesSnoc(before: seq<Ciphertext>, batches: seq<seq<Ciphertext>>, a: Ciphertext, cts: seq<Ciphertext>, q: int)
    requires q > 0 && AggregatesOf(before, batches, q) && Aggregatable(cts) && IsAggregate(a, cts, q)
    ensures AggregatesOf(before + [a], batches + [cts], q)
  {
  }

  // ----- the replayed tally counts every ballot once

  function VotesOf(packages: seq<Package>, vote: Package -> Vote): (r: seq<Vote>)
    ensures |r| == |packages|
  {
    seq(|packages|, k requires 0 <= k < |packages| => vote(packages[k]))
  }

  /** Every package carries an honest encryption of its vote. */
  ghost predicate HonestBallots(packages: seq<Package>, vote: Package -> Vote, privateKey: int, q: Field.Modulus) {
    forall p :: p in packages ==>
      && ValidBallotInput(vote(p).selectedIndex, vote(p).randomness, q)
      && IsEncryption(p.ciphertext, Mul(GENERATOR, privateKey, q), vote(p).selectedIndex, vote(p).randomness, q)
  }

  lemma {:induction false} FlattenCiphertexts(batches: seq<seq<Package>>)
    ensures Flatten(BatchCiphertexts(batches)) == Ciphertexts(Flatten(batches))
  {
    if batches != [] {
      FlattenCiphertexts(Front(batches));
      assert BatchCiphertexts(Front(batches)) == Front(BatchCiphertexts(batches));
      assert Ciphertexts(Flatten(Front(batches)) + Last(batches)) == Ciphertexts(Flatten(Front(batches))) + Ciphertexts(Last(batches));
    }
  }

  /** The submitted packages of all batches, in submission order. */
  function Submitted(batches: seq<AcceptedBatch>): (r: seq<seq<Package>>)
    ensures |r| == |batches|
  {
    seq(|batches|, k requires 0 <= k < |batches| => Packages(batches[k].packages))
  }

  lemma VotesSnoc(packages: seq<Package>, p: Package, vote: Package -> Vote, i: int)
    ensures VotesFor(VotesOf(packages + [p], vote), i) ==
            VotesFor(VotesOf(packages, vote), i) + if vote(p).selectedIndex == i then 1 else 0
  {
    assert VotesOf(packages + [p], vote)[..|packages|] == VotesOf(packages, vote);
  }

  lemma {:induction false} VotesConcat(a: seq<Package>, b: seq<Package>, vote: Package -> Vote, i: int)
    ensures VotesFor(VotesOf(a + b, vote), i) == VotesFor(VotesOf(a, vote), i) + VotesFor(VotesOf(b, vote), i)
  {
    if b == [] {
      assert a + b == a;
    } else {
      VotesConcat(a, Front(b), vote, i);
      assert a + b == (a + Front(b)) + [Last(b)] && b == Front(b) + [Last(b)];
      VotesSnoc(a + Front(b), Last(b), vote, i);
      VotesSnoc(Front(b), Last(b), vote, i);
    }
  }

  lemma {:induction false} InsertKeepsVotes(p: Package, packages: seq<Package>, key: Package -> nat, vote: Package -> Vote, i: int)
    ensures VotesFor(VotesOf(Insert(p, packages, key), vote), i) == VotesFor(VotesOf(packages + [p], vote), i)
  {
    if packages == [] {
      assert packages + [p] == [p];
    } else if key(Last(packages)) > key(p) {
      InsertKeepsVotes(p, Front(packages), key, vote, i);
      VotesSnoc(Insert(p, Front(packages), key), Last(packages), vote, i);
      VotesSnoc(Front(packages), p, vote, i);
      VotesSnoc(Front(packages), Last(packages), vote, i);
      VotesSnoc(packages, p, vote, i);
      assert packages == Front(packages) + [Last(packages)];
    }
  }

  lemma {:induction false} SortKeepsVotes(packages: seq<Package>, key: Package -> nat, vote: Package -> Vote, i: int)
    ensures VotesFor(VotesOf(SortBy(packages, key), vote), i) == VotesFor(VotesOf(packages, vote), i)
  {
    if packages != [] {
      SortKeepsVotes(Front(packages), key, vote, i);
      InsertKeepsVotes(Last(packages), SortBy(Front(packages), key), key, vote, i);
      VotesSnoc(SortBy(Front(packages), key), Last(packages), vote, i);
      VotesSnoc(Front(packages), Last(packages), vote, i);
      assert packages == Front(packages) + [Last(packages)];
    }
  }

  lemma {:induction false} SortedBatchesKeepVotes(batches: seq<AcceptedBatch>, rules: Rules, vote: Package -> Vote, i: int)
    ensures VotesFor(VotesOf(Flatten(SortedBatches(batches, rules)), vote), i) == VotesFor(VotesOf(Flatten(Submitted(batches)), vote), i)
    ensures |Flatten(SortedBatches(batches, rules))| == |Flatten(Submitted(batches))|
  {
    if batches != [] {
      var front, last := Front(batches), Last(batches).packages;
      SortedBatchesKeepVotes(front, rules, vote, i);
      assert SortedBatches(front, rules) == Front(SortedBatches(batches, rules));
      assert Submitted(front) == Front(Submitted(batches));
      SortCommutes(last, rules);
      SortKeepsVotes(Packages(last), rules.digest, vote, i);
      VotesConcat(Flatten(SortedBatches(front, rules)), Packages(SortBy(last, StoredKey(rules))), vote, i);
      VotesConcat(Flatten(Submitted(front)), Packages(last), vote, i);
    }
  }

  /** A successful replay of batches of honest ballots decrypts, for any number of ballots up to maxVotes < q,
      to exactly the votes that were submitted; the total is the replay's ballot count; and no two counted
      ballots share a nullifier with each other or with the known history. */
  lemma ReplayedTallyIsExact(known: seq<nat>, batches: seq<AcceptedBatch>, tally: EncryptedTally, vote: Package -> Vote,
                             privateKey: int, maxVotes: int, q: int, rules: Rules, r: Option<seq<int>>)
    requires Field.Prime(q) && IsScalar(privateKey, q)
    requires ReplayedUpTo(known, SortedBatches(batches, rules), tally.manifests, |batches|, q)
    requires tally.ballotCount == |Flatten(SortedBatches(batches, rules))| <= maxVotes < q
    requires Aggregatable(Aggregates(tally.manifests)) && IsAggregate(tally.aggregate, Aggregates(tally.manifests), q)
    requires HonestBallots(Flatten(SortedBatches(batches, rules)), vote, privateKey, q)
    requires DecryptsTo(tally.aggregate, privateKey, maxVotes, q, r)
    ensures r.Some? && |r.value| == CANDIDATE_COUNT && Total(r.value) == tally.ballotCount
    ensures forall i :: 0 <= i < CANDIDATE_COUNT ==> r.value[i] == VotesFor(VotesOf(Flatten(Submitted(batches)), vote), i)
    ensures NoDuplicates(known + BallotNullifiers(Flatten(SortedBatches(batches, rules))))
  {
    var sorted := SortedBatches(batches, rules);
    var votes := VotesOf(Flatten(sorted), vote);
    assert sorted[..|batches|] == sorted;
    FlattenCiphertexts(sorted);
    TallyIsExact(tally.aggregate, Aggregates(tally.manifests), BatchCiphertexts(sorted), votes, privateKey, maxVotes, q, r);
    forall i | 0 <= i < CANDIDATE_COUNT
      ensures r.value[i] == VotesFor(VotesOf(Flatten(Submitted(batches)), vote), i)
    {
      SortedBatchesKeepVotes(batches, rules, vote, i);
    }
  }
}
