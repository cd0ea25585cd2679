/** Committed batch roots and accountable omission claims against them. */
module Receipts {
  import opened Wrappers
  import opened Merkle

  type Address = nat

  // ----- committed batches

  datatype Batch = Batch(
    cidMerkleRoot: Digest, previousNullifierRoot: Digest, nullifierRoot: Digest, manifestDigest: nat,
    batchPublicInputsHash: nat, batchSize: nat, submittedAt: nat, batcher: Address)

  function RootAfter(batches: seq<Batch>, i: nat): Digest
    requires i <= |batches|
  {
    if i == 0 then ZeroHash else batches[i - 1].nullifierRoot
  }

  /** Committed batches chain from the zero root, and no Merkle root is committed twice. */
  ghost predicate Chained(batches: seq<Batch>, latest: Digest) {
    && (forall i {:trigger RootAfter(batches, i)} :: 0 <= i < |batches| ==> batches[i].previousNullifierRoot == RootAfter(batches, i))
    && latest == RootAfter(batches, |batches|)
    && (forall i, j :: 0 <= i < j < |batches| ==> batches[i].cidMerkleRoot != batches[j].cidMerkleRoot)
    && (forall i :: 0 <= i < |batches| ==>
         && batches[i].cidMerkleRoot != ZeroHash && batches[i].nullifierRoot != ZeroHash
         && batches[i].manifestDigest != 0 && batches[i].batchSize > 0)
  }

  /** The committed roots are those of the committed batches. */
  ghost predicate RootsRecorded(batches: seq<Batch>, roots: set<Digest>) {
    && (forall i :: 0 <= i < |batches| ==> batches[i].cidMerkleRoot in roots)
    && (forall root :: root in roots ==> HasRoot(batches, root))
  }

  ghost predicate HasRoot(batches: seq<Batch>, root: Digest) {
    exists i :: 0 <= i < |batches| && batches[i].cidMerkleRoot == root
  }

  lemma ChainSnoc(batches: seq<Batch>, latest: Digest, batch: Batch)
    requires Chained(batches, latest) && !HasRoot(batches, batch.cidMerkleRoot) && batch.previousNullifierRoot == latest
    requires batch.cidMerkleRoot != ZeroHash && batch.nullifierRoot != ZeroHash && batch.manifestDigest != 0 && batch.batchSize > 0
    ensures Chained(batches + [batch], batch.nullifierRoot)
  {
    var after := batches + [batch];
    forall i | 0 <= i < |after| ensures after[i].previousNullifierRoot == RootAfter(after, i) {
      assert RootAfter(after, i) == RootAfter(batches, i);
      assert after[i] == if i < |batches| then batches[i] else batch;
    }
    forall i, j | 0 <= i < j < |after| ensures after[i].cidMerkleRoot != after[j].cidMerkleRoot {
      assert after[i] == batches[i];
      assert after[j] == if j < |batches| then batches[j] else batch;
    }
  }

  lemma RootsSnoc(batches: seq<Batch>, roots: set<Digest>, batch: Batch)
    requires RootsRecorded(batches, roots)
    ensures RootsRecorded(batches + [batch], roots + {batch.cidMerkleRoot})
  {
    var after := batches + [batch];
    forall root | root in roots + {batch.cidMerkleRoot} ensures HasRoot(after, root) {
      if root in roots {
        assert HasRoot(batches, root);
        var i :| 0 <= i < |batches| && batches[i].cidMerkleRoot == root;
        assert after[i].cidMerkleRoot == root;
      } else {
        assert after[|batches|].cidMerkleRoot == root;
      }
    }
  }

  lemma CommitKeeps(batches: seq<Batch>, latest: Digest, roots: set<Digest>, batch: Batch)
    requires Chained(batches, latest) && RootsRecorded(batches, roots)
    requires batch.cidMerkleRoot !in roots && batch.previousNullifierRoot == latest
    requires batch.cidMerkleRoot != ZeroHash && batch.nullifierRoot != ZeroHash && batch.manifestDigest != 0 && batch.batchSize > 0
    ensures Chained(batches + [batch], batch.nullifierRoot) && RootsRecorded(batches + [batch], roots + {batch.cidMerkleRoot})
  {
    ChainSnoc(batches, latest, batch);
    RootsSnoc(batches, roots, batch);
  }

  class BatchCommitment {
    const owner: Address
    var latestNullifierRoot: Digest
    var batchCount: nat
    var hasVerifier: bool
    var isBatcher: set<Address>
    var isRootCommitted: set<Digest>
    var batches: seq<Batch>

    ghost predicate Valid()
      reads this
    {
      && Chained(batches, latestNullifierRoot)
      && batchCount == |batches|
      && RootsRecorded(batches, isRootCommitted)
    }

    constructor (initialOwner: Address, initialBatcher: Address, withVerifier: bool)
      requires initialBatcher != 0
      ensures Valid() && batches == [] && isBatcher == {initialBatcher} && hasVerifier == withVerifier && owner == initialOwner
    {
      owner := initialOwner;
      latestNullifierRoot := ZeroHash;
      batchCount := 0;
      hasVerifier := withVerifier;
      isBatcher := {initialBatcher};
      isRootCommitted := {};
      batches := [];
    }

    /** `_commitBatch`; None is a revert, which leaves the contract as it was. */
    method CommitBatch(cidMerkleRoot: Digest, previousNullifierRoot: Digest, nullifierRoot: Digest, manifestDigest: nat,
                       batchPublicInputsHash: nat, batchSize: nat, sender: Address, now: nat) returns (r: Option<nat>)
      requires Valid()
      modifies this`latestNullifierRoot, this`batchCount, this`isRootCommitted, this`batches
      ensures Valid()
      ensures var batch := Batch(cidMerkleRoot, previousNullifierRoot, nullifierRoot, manifestDigest, batchPublicInputsHash, batchSize, now, sender);
        && (r.Some? <==>
            && cidMerkleRoot != ZeroHash && nullifierRoot != ZeroHash && manifestDigest != 0 && batchSize != 0
            && previousNullifierRoot == old(latestNullifierRoot) && cidMerkleRoot !in old(isRootCommitted))
        && (r.Some? ==> r.value == old(batchCount) && batches == old(batches) + [batch])
      ensures r.Some? ==> isRootCommitted == old(isRootCommitted) + {cidMerkleRoot}
      ensures r.None? ==> batches == old(batches) && isRootCommitted == old(isRootCommitted)
      ensures old(isRootCommitted) <= isRootCommitted
    {
      if cidMerkleRoot == ZeroHash || nullifierRoot == ZeroHash || manifestDigest == 0 || batchSize == 0 {
        return None;
      }
      if previousNullifierRoot != latestNullifierRoot {
        return None;
      }
      if cidMerkleRoot in isRootCommitted {
        return None;
      }
      var batchIndex := batchCount;
      var batch := Batch(cidMerkleRoot, previousNullifierRoot, nullifierRoot, manifestDigest, batchPublicInputsHash, batchSize, now, sender);
      CommitKeeps(batches, latestNullifierRoot, isRootCommitted, batch);
      batches := batches + [batch];
      batchCount := batchIndex + 1;
      latestNullifierRoot := nullifierRoot;
      isRootCommitted := isRootCommitted + {cidMerkleRoot};
      return Some(batchIndex);
    }

    /** `submitBatch`: the trusted path of an authorized batcher. */
    method SubmitBatch(cidMerkleRoot: Digest, previousNullifierRoot: Digest, nullifierRoot: Digest, manifestDigest: nat,
                       batchSize: nat, sender: Address, now: nat) returns (r: Option<nat>)
      requires Valid()
      modifies this`latestNullifierRoot, this`batchCount, this`isRootCommitted, this`batches
      ensures Valid() && old(isRootCommitted) <= isRootCommitted
      ensures var batch := Batch(cidMerkleRoot, previousNullifierRoot, nullifierRoot, manifestDigest, 0, batchSize, now, sender);
        && (r.Some? <==>
            && sender in isBatcher
            && cidMerkleRoot != ZeroHash && nullifierRoot != ZeroHash && manifestDigest != 0 && batchSize != 0
            && previousNullifierRoot == old(latestNullifierRoot) && cidMerkleRoot !in old(isRootCommitted))
        && batches == (if r.Some? then old(batches) + [batch] else old(batches))
    {
      if sender !in isBatcher {
        return None;
      }
      r := CommitBatch(cidMerkleRoot, previousNullifierRoot, nullifierRoot, manifestDigest, 0, batchSize, sender, now);
    }

    /** `submitBatchWithProof`: any sender, gated by the verifier's answer. */
    method SubmitBatchWithProof(cidMerkleRoot: Digest, previousNullifierRoot: Digest, nullifierRoot: Digest, manifestDigest: nat,
                                batchPublicInputsHash: nat, batchSize: nat, proofOk: bool, sender: Address, now: nat)
      returns (r: Option<nat>)
      requires Valid()
      modifies this`latestNullifierRoot, this`batchCount, this`isRootCommitted, this`batches
      ensures Valid() && old(isRootCommitted) <= isRootCommitted
      ensures var batch := Batch(cidMerkleRoot, previousNullifierRoot, nullifierRoot, manifestDigest, batchPublicInputsHash, batchSize, now, sender);
        && (r.Some? <==>
            && batchPublicInputsHash != 0 && hasVerifier && proofOk
            && cidMerkleRoot != ZeroHash && nullifierRoot != ZeroHash && manifestDigest != 0 && batchSize != 0
            && previousNullifierRoot == old(latestNullifierRoot) && cidMerkleRoot !in old(isRootCommitted))
        && batches == (if r.Some? then old(batches) + [batch] else old(batches))
    {
      if batchPublicInputsHash == 0 || !hasVerifier || !proofOk {
        return None;
      }
      r := CommitBatch(cidMerkleRoot, previousNullifierRoot, nullifierRoot, manifestDigest, batchPublicInputsHash, batchSize, sender, now);
    }
  }

  // ----- omission claims

  /** A receipt doubles as its own collision-free typed-data digest. */
  datatype IntakeReceipt = IntakeReceipt(
    electionId: nat, eligibilityRoot: nat, packageDigest: nat, packageLeafHash: Digest, issuedAt: nat, includeBy: nat)

  datatype ClaimStatus = Open | Resolved

  datatype OmissionClaim = OmissionClaim(
    status: ClaimStatus, receiptSigner: Address, claimant: Address, packageDigest: nat, packageLeafHash: Digest,
    eligibilityRoot: nat, resolvingBatchRoot: Digest, openedAt: nat, resolvedAt: nat)

  predicate ValidReceipt(receipt: IntakeReceipt, electionId: nat) {
    && receipt.electionId == electionId && receipt.eligibilityRoot != 0 && receipt.packageDigest != 0
    && receipt.packageLeafHash != ZeroHash && receipt.issuedAt != 0 && receipt.includeBy > receipt.issuedAt
  }

  /** The Solidity proof format: siblings with their sides. */
  function SolidityFold(leaf: Digest, siblings: seq<Digest>, siblingIsLeft: seq<bool>): Digest
    requires |siblings| == |siblingIsLeft|
  {
    if siblings == [] then leaf
    else
      var n := |siblings| - 1;
      var cursor := SolidityFold(leaf, siblings[..n], siblingIsLeft[..n]);
      if siblingIsLeft[n] then Pair(siblings[n], cursor) else Pair(cursor, siblings[n])
  }

  function Steps(siblings: seq<Digest>, siblingIsLeft: seq<bool>): (r: seq<Step>)
    requires |siblings| == |siblingIsLeft|
    ensures |r| == |siblings|
  {
    seq(|siblings|, k requires 0 <= k < |siblings| => Step(siblings[k], if siblingIsLeft[k] then Left else Right))
  }

  /** The contract's fold is the client's `verifyMerkleProof` fold. */
  lemma {:induction false} SolidityFoldAgrees(leaf: Digest, siblings: seq<Digest>, siblingIsLeft: seq<bool>)
    requires |siblings| == |siblingIsLeft|
    ensures SolidityFold(leaf, siblings, siblingIsLeft) == Fold(leaf, Steps(siblings, siblingIsLeft))
  {
    if siblings != [] {
      var n := |siblings| - 1;
      SolidityFoldAgrees(leaf, siblings[..n], siblingIsLeft[..n]);
      assert Steps(siblings, siblingIsLeft)[..n] == Steps(siblings[..n], siblingIsLeft[..n]);
    }
  }

  function Siblings(proof: seq<Step>): (r: seq<Digest>)
    ensures |r| == |proof|
  {
    seq(|proof|, k requires 0 <= k < |proof| => proof[k].sibling)
  }

  function Sides(proof: seq<Step>): (r: seq<bool>)
    ensures |r| == |proof|
  {
    seq(|proof|, k requires 0 <= k < |proof| => proof[k].direction == Left)
  }

  /** `resolveWithInclusion` accepts these calldata for this claim. */
  ghost predicate Resolves(claim: OmissionClaim, committed: set<Digest>, root: Digest, siblings: seq<Digest>, siblingIsLeft: seq<bool>) {
    && claim.status == Open && root in committed && |siblings| == |siblingIsLeft|
    && SolidityFold(claim.packageLeafHash, siblings, siblingIsLeft) == root
  }

  /** An open claim can be resolved against a committed batch exactly when its leaf is in that batch. */
  lemma ResolvableIffIncluded(claim: OmissionClaim, committed: set<Digest>, leaves: seq<Digest>)
    requires claim.status == Open && claim.packageLeafHash.Leaf? && AllLeaves(leaves) && Root(leaves) in committed
    ensures (exists siblings, sides :: Resolves(claim, committed, Root(leaves), siblings, sides)) <==> claim.packageLeafHash in leaves
  {
    LeafVerifiesIffMember(claim.packageLeafHash, leaves);
    forall siblings, sides | Resolves(claim, committed, Root(leaves), siblings, sides)
      ensures claim.packageLeafHash in leaves
    {
      SolidityFoldAgrees(claim.packageLeafHash, siblings, sides);
    }
    if claim.packageLeafHash in leaves {
      var proof :| Fold(claim.packageLeafHash, proof) == Root(leaves);
      SolidityFoldAgrees(claim.packageLeafHash, Siblings(proof), Sides(proof));
      assert Steps(Siblings(proof), Sides(proof)) == proof;
      assert Resolves(claim, committed, Root(leaves), Siblings(proof), Sides(proof));
    }
  }

  /** A claim in the registry is about its receipt, was opened late enough, and if resolved names a committed
      root in which its leaf occurs. */
  ghost predicate SoundClaim(receipt: IntakeReceipt, claim: OmissionClaim, electionId: nat, committed: set<Digest>) {
    && ValidReceipt(receipt, electionId)
    && claim.packageDigest == receipt.packageDigest && claim.packageLeafHash == receipt.packageLeafHash
    && claim.eligibilityRoot == receipt.eligibilityRoot
    && claim.openedAt > receipt.includeBy
    && (claim.status == Resolved ==> claim.resolvingBatchRoot in committed && Within(claim.packageLeafHash, claim.resolvingBatchRoot))
  }

  class BatcherReceiptRegistry {
    const electionId: nat
    const batchCommitment: BatchCommitment
    var isReceiptSigner: set<Address>
    var claims: map<IntakeReceipt, OmissionClaim>

    ghost predicate Valid()
      reads this, batchCommitment
    {
      && batchCommitment.Valid()
      && forall d :: d in claims ==> SoundClaim(d, claims[d], electionId, batchCommitment.isRootCommitted)
    }

    constructor (electionId_: nat, batchCommitment_: BatchCommitment, initialReceiptSigner: Address)
      requires electionId_ != 0 && initialReceiptSigner != 0 && batchCommitment_.Valid()
      ensures Valid() && claims == map[] && isReceiptSigner == {initialReceiptSigner}
      ensures electionId == electionId_ && batchCommitment == batchCommitment_
    {
      electionId := electionId_;
      batchCommitment := batchCommitment_;
      isReceiptSigner := {initialReceiptSigner};
      claims := map[];
    }

    /** `openOmissionClaim`; the signer is what signature recovery returns. False is a revert. */
    method OpenOmissionClaim(receipt: IntakeReceipt, signer: Address, sender: Address, now: nat) returns (ok: bool)
      requires Valid()
      modifies this`claims
      ensures Valid()
      ensures ok <==>
        && now > receipt.includeBy > receipt.issuedAt && receipt.issuedAt != 0
        && receipt.electionId == electionId && receipt.eligibilityRoot != 0 && receipt.packageDigest != 0
        && receipt.packageLeafHash != ZeroHash && signer in isReceiptSigner && receipt !in old(claims)
      ensures claims == if !ok then old(claims) else old(claims)[receipt :=
        OmissionClaim(Open, signer, sender, receipt.packageDigest, receipt.packageLeafHash, receipt.eligibilityRoot, ZeroHash, now, 0)]
    {
      if now <= receipt.includeBy {
        return false;
      }
      if !ValidReceipt(receipt, electionId) || signer !in isReceiptSigner {
        return false;
      }
      if receipt in claims {
        return false;
      }
      claims := claims[receipt := OmissionClaim(Open, signer, sender, receipt.packageDigest, receipt.packageLeafHash,
                                                receipt.eligibilityRoot, ZeroHash, now, 0)];
      return true;
    }

    /** `resolveWithInclusion`. False is a revert. */
    method ResolveWithInclusion(digest: IntakeReceipt, committedBatchRoot: Digest, siblings: seq<Digest>, siblingIsLeft: seq<bool>, now: nat)
      returns (ok: bool)
      requires Valid()
      modifies this`claims
      ensures Valid()
      ensures ok <==>
        && digest in old(claims) && old(claims)[digest].status == Open
        && committedBatchRoot in batchCommitment.isRootCommitted && |siblings| == |siblingIsLeft|
        && Fold(old(claims)[digest].packageLeafHash, Steps(siblings, siblingIsLeft)) == committedBatchRoot
      ensures claims == if !ok then old(claims)
        else old(claims)[digest := old(claims)[digest].(status := Resolved, resolvingBatchRoot := committedBatchRoot, resolvedAt := now)]
    {
      if digest !in claims || claims[digest].status != Open {
        return false;
      }
      if committedBatchRoot !in batchCommitment.isRootCommitted || |siblings| != |siblingIsLeft| {
        return false;
      }
      var cursor := claims[digest].packageLeafHash;
      for i := 0 to |siblings|
        invariant cursor == SolidityFold(claims[digest].packageLeafHash, siblings[..i], siblingIsLeft[..i])
      {
        assert siblings[..i + 1][..i] == siblings[..i] && siblingIsLeft[..i + 1][..i] == siblingIsLeft[..i];
        cursor := if siblingIsLeft[i] then Pair(siblings[i], cursor) else Pair(cursor, siblings[i]);
      }
      assert siblings[..|siblings|] == siblings && siblingIsLeft[..|siblings|] == siblingIsLeft;
      SolidityFoldAgrees(claims[digest].packageLeafHash, siblings, siblingIsLeft);
      if cursor != committedBatchRoot {
        return false;
      }
      WithinClimbs(claims[digest].packageLeafHash, Steps(siblings, siblingIsLeft));
      claims := claims[digest := claims[digest].(status := Resolved, resolvingBatchRoot := committedBatchRoot, resolvedAt := now)];
      return true;
    }
  }

  /** Later commitments keep every claim sound: committed roots are never withdrawn. */
  twostate lemma ClaimsStaySound(registry: BatcherReceiptRegistry)
    requires old(registry.Valid()) && registry.batchCommitment.Valid()
    requires registry.claims == old(registry.claims)
    requires old(registry.batchCommitment.isRootCommitted) <= registry.batchCommitment.isRootCommitted
    ensures registry.Valid()
  {
  }
}
