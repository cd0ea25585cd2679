# Verified model of the voting system

This project models the parts of a verifiable voting system that carry its promises, and proves those promises for
all inputs and all runs. `dafny verify dfyconfig.toml` verifies everything.

What is modelled, bottom up:

- **Threshold tally** (`Sequences`, `Field`, `Shamir`, `ElGamal`, `Threshold`, `Tally`, `CheckedTally`, `ShareSelection`): modular arithmetic over a
  prime order, Shamir dealing and interpolation at zero, ElGamal ballots with four positions, homomorphic
  aggregation, share proofs of equal logarithms, and decryption by bounded search. The main theorem:
  any threshold subset of trustees decrypts exactly the votes of every candidate.
- **Authenticated sets and batches** (`Sorting`, `Merkle`, `Nullifiers`, `Batches`, `Eligibility`, `Circuit`,
  `Election`, `Receipts`): Merkle roots and proofs with odd-node duplication, the nullifier accumulator, batch
  manifests and their replay, the sparse eligibility tree against the dense one, the ballot circuit as field
  equations, and omission claims. `Election` composes these with the tally: all it assumes of the proofs is that
  an accepted proof has a witness for the fields of its package.
- **Settlement and ceremony** (`Ledger`, `Settlement`, `SettlementRuns`, `SettlementPayments`, `SettlementContract`, `National`, `Dkg`,
  `ProverServer`): bonded optimistic settlement, publication, national accumulation, the key ceremony and the
  concurrent job server, as step functions with theorems over all runs; the contracts and the coordinator are
  classes whose methods are tied to the steps. A revert leaves the state as it was.

Modelling choices:

- A group element is its logarithm to the generator, in a cyclic group of prime order `q`; a curve point outside the
  prime-order subgroup has no counterpart. The real orders are `n` of secp256k1 (SEC 2 version 2, section 2.4.1) and
  the Baby Jubjub subgroup order (ERC-2494, section Specification); the theorems hold for every prime, those of `CheckedTally`
  about whole calls for every prime of at least 2^32.
- Hashes are free constructors, so distinct inputs are distinct terms. Fiat-Shamir challenges are an arbitrary function
  of the bound statement. Proof verifiers, signature recovery and fraud verdicts are arbitrary answers passed in.
- Random scalars, block times, senders and token approvals are parameters. A thrown assertion is `None` or `false`.
- The bond token moves exact amounts (EIP-20, section Methods).
- The sort of the JavaScript runtime is a stable sort by a numeric key; equal-length lower-case hex strings compare as
  the numbers they write.
- The curve library behind the secp256k1 path rejects multiplication by zero and has no compressed form for the
  identity; `CheckedTally` models both.
- Trustee indexes are bounded by the uint32 in the encoding of the challenge, whose encoder throws on anything else. The `modInverse` of the
  secp256k1 path, unlike the other one, has no
  assertion against a missing inverse; `VerifiedSharesWeigh` shows that it is never asked for one.

Where the code does not do what is said of it:

- **Publication window.** `publishTally` only waits for `votingEndsAt` (`contracts/v4/TallyVerifierV4.sol:62`), while
  batches can be finalized until `settlementEndsAt`. `PublishedTooEarly` is a run in which the published total goes
  stale; `PublishedTallyHoldsIff` gives the exact condition under which it cannot.
- **Equivocation.** `docs/dkg-v1.md` promises permanent disqualification of an equivocating trustee. The coordinator
  compares only with a stored message: `EarlyEquivocationExample` shows a trustee that equivocates unnoticed, and
  `DisqualifiedIff` says exactly who is disqualified.
- **Zero responses.** The share proof of the Baby Jubjub path may come out with a zero response, which its own verifier
  rejects, in every group: `HonestShareRejected`, with the exact condition in `DleqComplete`. The secp256k1 path refuses
  to create such a share, but its verifier rejects a zero challenge: `CreatedShareRejected`, with the exact condition in
  `CreatedShareVerifies`.
- **Escrow.** Tokens sent to the settlement contract by a plain transfer are never accounted for, so the escrow is the
  sum of the open bonds only up to such donations: `RunKeepsInvariant`, with the exact condition in `EscrowExactIff` and a run in
  `DonationExample`.
- **Combined key.** The Baby Jubjub path does not compare the key that the shares combine to with the election key, as the
  other path does. `RelatedMessagesExact` gives the exact condition under which its messages are still right.

## Model

| member | source | states |
|---|---|---|
| `Field.TruncRem` | packages/crypto/src/proofCompatibleThreshold.ts:58-61 | the language's remainder takes the sign of the dividend and differs from it by a multiple of the modulus |
| `Field.Mod` | packages/crypto/src/proofCompatibleThreshold.ts:58-61 | the repaired remainder is the canonical residue, for negative values too |
| `Field.EuclidStep` | packages/crypto/src/proofCompatibleThreshold.ts:68-74 | one turn of the Euclid loop keeps both remainders congruent to coefficient times argument and loses no common divisor |
| `Field.ModInverse` | packages/crypto/src/proofCompatibleThreshold.ts:63-78 | the loop returns the canonical inverse whenever there is one, for any modulus above one, and throws exactly when there is none |
| `Field.InverseIff` | packages/crypto/src/proofCompatibleThreshold.ts:63-78 | modulo a prime the inverse exists exactly for nonzero residues and is unique |
| `Shamir.LagrangeCoefficientAtZero` | packages/crypto/src/proofCompatibleThreshold.ts:106-115 | the weight at zero is computed exactly when every other index differs from this one modulo the prime; otherwise the call throws |
| `Shamir.LagrangeDrop` | packages/crypto/src/proofCompatibleThreshold.ts:106-115 | adding one index multiplies a weight by that index over the difference |
| `Shamir.WeightsSumToOne` | packages/crypto/src/proofCompatibleThreshold.ts:106-115 | the weights of any nonempty list of distinct indexes sum to one |
| `Shamir.Interpolation` | packages/crypto/src/proofCompatibleThreshold.ts:106-115 | for every prime and any distinct indexes, in any order, the weights recombine the values of every polynomial with at most that many coefficients to its constant term |
| `ElGamal.EncryptBallot` | packages/crypto/src/proofCompatibleBallot.ts:117-182 | succeeds exactly on a candidate index and four nonzero scalars; position i carries the selection bit under nonce i |
| `ElGamal.EncryptionDecrypts` | packages/crypto/src/proofCompatibleBallot.ts:117-182 | the private key undoes encryption: each message is the generator for the selection and the identity elsewhere |
| `ElGamal.Aggregate` | packages/crypto/src/proofCompatiblePipeline.ts:330-372 | succeeds exactly on a nonempty list under one key with four positions; logarithms add up position by position |
| `ElGamal.ScanCount` | packages/crypto/src/proofCompatiblePipeline.ts:421-430 | finds the first count within the bound whose multiple of the generator is the message, or establishes that there is none |
| `ElGamal.DecodesUnique` | packages/crypto/src/proofCompatiblePipeline.ts:421-430 | the messages determine the outcome of decryption |
| `ElGamal.DecryptTally` | packages/crypto/src/proofCompatiblePipeline.ts:397-432 | refuses a foreign key or negative bound; otherwise decodes every message, failing exactly when one is out of range |
| `Threshold.EvaluateShare` | packages/crypto/src/proofCompatibleThreshold.ts:173-179 | the inner dealing loop evaluates the dealing polynomial at the trustee index, modulo the order |
| `Threshold.CreateKeySet` | packages/crypto/src/proofCompatibleThreshold.ts:148-197 | succeeds exactly on valid parameters under which no trustee gets the zero share; share x is the value at x, and its public share matches |
| `Threshold.CreateDecryptionShare` | packages/crypto/src/proofCompatibleThreshold.ts:199-260 | an honest share: private share applied to every first component, with commitments and response under the bound challenge |
| `Threshold.VerifyDecryptionShare` | packages/crypto/src/proofCompatibleThreshold.ts:262-314 | true exactly when key hash, lengths, scalar ranges and both verification equations hold everywhere |
| `Threshold.DleqComplete` | packages/crypto/src/proofCompatibleThreshold.ts:199-314 | an honest share verifies exactly when none of its responses is zero |
| `Threshold.HonestShareRejected` | packages/crypto/src/proofCompatibleThreshold.ts:262-314 | in every group, for every ciphertext, trustee scalar and nonce, there is a challenge under which the honest share has a zero response and is rejected |
| `Threshold.DleqSpeciallySound` | packages/crypto/src/proofCompatibleThreshold.ts:262-314 | two accepting responses to different challenges on the same commitments yield the one scalar behind both public share and decryption share |
| `Threshold.CombinePoints` | packages/crypto/src/proofCompatibleThreshold.ts:338-351 | the weighted sum of one point per index, defined exactly when all weights are |
| `Threshold.DecryptTallyWithShares` | packages/crypto/src/proofCompatibleThreshold.ts:316-366 | for any integer threshold: slices the shares, rejects repeated or unverified ones, and decodes what the combined shares leave |
| `Threshold.CountsNeedProofs` | packages/crypto/src/proofCompatibleThreshold.ts:316-366 | counts are returned only when enough shares are given and the used ones are of distinct trustees, made for this key and proven at every position under a challenge that binds the whole statement |
| `Threshold.HonestShareApplies` | packages/crypto/src/proofCompatibleThreshold.ts:199-260 | an honest share of a dealt key applies the dealing polynomial at the trustee index |
| `Threshold.SharesRecombine` | packages/crypto/src/proofCompatibleThreshold.ts:338-351 | dealt shares combine to the private key applied to the ciphertext |
| `Threshold.ThresholdMatchesPrivateKey` | packages/crypto/src/proofCompatibleThreshold.ts:316-366 | any threshold of distinct dealt shares, in any order, has exactly the outcome of decryption with the private key, failures included |
| `Threshold.RelatedMessagesExact` | packages/crypto/src/proofCompatibleThreshold.ts:316-366 | this path never compares keys: for shares that satisfy the proof relation, dealt or not, the combined messages are those of the private key exactly when at every position the first component is the identity or the public shares combine to the election key |
| `Threshold.RelatedSharesMatchPrivateKey` | packages/crypto/src/proofCompatibleThreshold.ts:316-366 | under that condition the call has the outcome of decryption with the private key |
| `Tally.AggregateDecrypts` | packages/crypto/src/proofCompatiblePipeline.ts:330-372 | decrypting an aggregate adds the messages of its ballots, honest or not |
| `Tally.AggregateOfAggregates` | scripts/build_eligible_tally.ts:95-97 | the aggregate of batch aggregates is the one aggregate of all ballots at once |
| `Tally.VotesAddUp` | packages/crypto/src/proofCompatibleBallot.ts:117-182 | the votes for the four candidates add up to the number of ballots |
| `Tally.TallyIsExact` | packages/crypto/src/proofCompatiblePipeline.ts:397-432 | encrypt, aggregate in batches, aggregate the aggregates, decrypt: the exact votes per candidate, with the ballot count as total, for any number of ballots up to maxVotes below the order |
| `Tally.ThresholdTallyIsExact` | packages/crypto/src/proofCompatibleThreshold.ts:316-366 | the same exact counts from any threshold of distinct verifying dealt shares |
| `Tally.HonestRunIsExact` | packages/crypto/src/proofCompatibleThreshold.ts:148-366 | the protocol run honestly, from dealt keys to created shares: every share without a zero response is accepted, and any threshold of distinct trustees decrypts the exact votes |
| `CheckedTally.BuildTallyLookup` | packages/crypto/src/index.ts:714-724 | the table maps exactly the points of the counts in range to their first count |
| `CheckedTally.CreateTallyShare` | packages/crypto/src/index.ts:488-551 | returns the honest share exactly on valid input for which no response is zero |
| `CheckedTally.VerifiedIffEquations` | packages/crypto/src/index.ts:553-597 | recomputing the commitments accepts a well-formed share exactly when its index fits a uint32, both verification equations hold everywhere and no challenge is zero |
| `CheckedTally.CreatedShareVerifies` | packages/crypto/src/index.ts:488-597 | a created share verifies exactly when none of its challenges is zero |
| `CheckedTally.CreatedShareRejected` | packages/crypto/src/index.ts:553-597 | in every group and for every valid input, a created share under a zero challenge is rejected |
| `CheckedTally.VerifiedSharesWeigh` | packages/crypto/src/index.ts:763-789 | verified shares with distinct indexes always have interpolation weights, all nonzero, so the inverse without an assertion is only asked for inverses that exist |
| `CheckedTally.CheckSelected` | packages/crypto/src/index.ts:611-620 | passes exactly when all selected shares verify and their indexes are distinct |
| `CheckedTally.CountWithShares` | packages/crypto/src/index.ts:641-661 | decodes the messages that the combined shares leave, by table lookup |
| `CheckedTally.DecryptAggregatedTallyWithShares` | packages/crypto/src/index.ts:599-662 | every guard of the call in one condition; beyond it, decoding with the lowest-index shares |
| `CheckedTally.CheckedSharesMatchPrivateKey` | packages/crypto/src/index.ts:465-486 | shares from any origin that satisfy the proof relation and pass the combined-key test give the outcome of direct decryption |
| `CheckedTally.DealtSharesPass` | packages/crypto/src/index.ts:599-638 | verifying shares of any threshold of distinct dealt trustees always pass the combined-key test |
| `ShareSelection.SelectionIsLowest` | packages/crypto/src/index.ts:611-614 | the selected shares ascend in trustee index, are among those given, and no other has a lower index |
| `ShareSelection.LowestAreSelected` | packages/crypto/src/index.ts:611-614 | shares below all the others are the selection, up to order |
| `ShareSelection.OutcomeIgnoresOrder` | packages/crypto/src/index.ts:599-662 | for distinct trustees, the order in which the shares are supplied does not change the outcome |
| `ShareSelection.LowestSharesDecide` | packages/crypto/src/index.ts:599-662 | if the threshold lowest shares are of dealt trustees, verify and satisfy the proof relation, the outcome is direct decryption, whatever the other well-formed shares are |
| `ShareSelection.HonestShareQualifies` | packages/crypto/src/index.ts:488-551 | a share created with a dealt key is of that kind |
| `ShareSelection.CountsNeedProof` | packages/crypto/src/index.ts:599-662 | counts are returned only for a threshold of at least two, a bound that is not negative, well-formed shares, and selected ones of distinct trustees proven everywhere under nonzero challenges |
| `Sorting.SortSorted` | packages/crypto/src/eligiblePipeline.ts:468 | the sort by key yields an ascending list |
| `Sorting.SortContents` | packages/crypto/src/eligiblePipeline.ts:468 | the sort keeps the multiset of elements |
| `Sorting.SortPermutation` | packages/crypto/src/eligiblePipeline.ts:468 | permutations whose elements the key tells apart sort to the same list |
| `Sorting.SortStable` | packages/crypto/src/eligiblePipeline.ts:468 | elements with equal keys keep their order |
| `Merkle.MerkleRoot` | packages/crypto/src/index.ts:1205-1224 | the level loop computes the recursive root, the zero hash for an empty list |
| `Merkle.SmallRoots` | packages/crypto/src/index.ts:1205-1224 | small trees written out: a single leaf is its own root, left comes before right, an odd leaf is paired with itself |
| `Merkle.MerkleProof` | packages/crypto/src/index.ts:1226-1256 | a proof exists exactly for positions in range, and is the path of siblings with sides |
| `Merkle.VerifyMerkleProof` | packages/crypto/src/index.ts:1258-1272 | accepts exactly when the fold from leaf to top is the expected root |
| `Merkle.ProofComplete` | packages/crypto/src/index.ts:1226-1272 | the proof of every position of every list verifies against the root |
| `Merkle.VerifiesIffWithin` | packages/crypto/src/index.ts:1258-1272 | exactly the hashes that occur in a root, leaf or inner, have some verifying proof |
| `Merkle.LeafVerifiesIffMember` | packages/crypto/src/index.ts:1258-1272 | a leaf-domain hash has a verifying proof exactly when it is in the list |
| `Merkle.RootInjective` | packages/crypto/src/index.ts:1205-1224 | duplicate-free leaf lists of any two lengths have equal roots exactly when they are equal |
| `Merkle.DuplicatedLastCollides` | packages/crypto/src/index.ts:1213-1217 | why duplicates are excluded: repeating the last leaf of an odd list keeps the root |
| `Nullifiers.SetRootBindsSet` | packages/crypto/src/index.ts:1274-1286 | two nullifier lists have equal roots exactly when they hold the same set |
| `Nullifiers.TakenAllIff` | packages/crypto/src/index.ts:1355-1359 | a bulk addition takes everything exactly when old and new nullifiers together are pairwise distinct |
| `Nullifiers.TakenStops` | packages/crypto/src/index.ts:1348-1359 | otherwise it stops exactly at the first nullifier that is taken already |
| `Nullifiers.SetRootOf` | packages/crypto/src/index.ts:1274-1286 | the root is the Merkle root of the nullifier-domain leaves of the elements in ascending order |
| `Nullifiers.NullifierAccumulator.Create` | packages/crypto/src/index.ts:1334-1338 | constructed exactly from pairwise distinct nullifiers |
| `Nullifiers.NullifierAccumulator.GetRoot` | packages/crypto/src/index.ts:1340-1342 | the root is the set root of everything seen |
| `Nullifiers.NullifierAccumulator.Has` | packages/crypto/src/index.ts:1344-1346 | membership in everything seen |
| `Nullifiers.NullifierAccumulator.Add` | packages/crypto/src/index.ts:1348-1353 | throws exactly on a duplicate and then changes nothing |
| `Nullifiers.NullifierAccumulator.AddMany` | packages/crypto/src/index.ts:1355-1359 | on a throw the nullifiers before the duplicate stay in the set |
| `Batches.BuildEligibleBatchManifest` | packages/crypto/src/eligiblePipeline.ts:431-552 | manifest and accumulator contents of the call, for success and for every failure, a half-added batch included |
| `Batches.BuildPermutationInvariant` | packages/crypto/src/eligiblePipeline.ts:431-552 | manifest, failure and what a failed call leaves behind do not depend on the order of the input packages |
| `Batches.BuildExtends` | packages/crypto/src/eligiblePipeline.ts:431-552 | a successful build extends the history by the whole batch, all nullifiers stay distinct, and both roots are the set roots before and after |
| `Batches.BuildInclusionReceipt` | packages/crypto/src/eligiblePipeline.ts:554-568 | for any manifest, a receipt exists exactly when the first position of the digest has a leaf; it names that position and verifies against the root of the leaves |
| `Batches.BuiltManifestHasReceipts` | packages/crypto/src/eligiblePipeline.ts:471-493 | a built manifest commits to the root of its leaves and lists every package of the batch |
| `Batches.ManifestDescribesBatch` | packages/crypto/src/eligiblePipeline.ts:468-552 | entry k of every list of a built manifest is about package k of one ordering of the batch by ascending digest: digest, leaf with all its bound fields, nullifier, public-inputs hash; ids, roots, size, common fields and aggregate are those of the call and the batch |
| `Batches.ReceiptHoldsOwnLeaf` | packages/crypto/src/eligiblePipeline.ts:554-568 | the receipt of a package holds the leaf of that very package |
| `Batches.BuildSucceedsIff` | packages/crypto/src/eligiblePipeline.ts:431-470 | a build succeeds exactly on the announced root and a nonempty batch of well-formed, proven packages of this election with common candidate list and key, without a repeated or known nullifier |
| `Batches.FailedBuildKeepsPrefix` | packages/crypto/src/eligiblePipeline.ts:469-470 | a failed build leaves nothing behind, or the nullifiers by ascending digest before the first duplicate |
| `Batches.BuildPassed` | packages/crypto/src/eligiblePipeline.ts:446-467 | every package of a successful build has an accepted proof and the election id, eligibility root and candidate list of the manifest |
| `Batches.ReplayedPassed` | scripts/build_eligible_tally.ts:54-93 | so has every package that a replay counts |
| `Batches.ReplayBatch` | scripts/build_eligible_tally.ts:54-93 | one turn of the loop succeeds exactly when the rebuilt manifest is the published one, and adds the whole batch to the history |
| `Batches.ReplayBatches` | scripts/build_eligible_tally.ts:51-93 | the loop succeeds exactly when every batch replays over the nullifiers before it; it returns the manifests and the number of ballots |
| `Batches.ReplayKeepsHistory` | scripts/build_eligible_tally.ts:51-93 | across any run of successful builds all nullifiers are pairwise distinct and every root is the set root of everything accepted so far |
| `Batches.ReplayTally` | scripts/build_eligible_tally.ts:41-97 | succeeds exactly on a nonempty, replayable list of batches under one key; returns the manifests, the ballot count and the aggregate of aggregates |
| `Batches.SortedBatchesKeepVotes` | packages/crypto/src/eligiblePipeline.ts:468 | sorting inside the batches neither adds nor loses a vote |
| `Batches.ReplayedTallyIsExact` | scripts/build_eligible_tally.ts:51-97 | a replay of honest ballots decrypts to exactly the submitted votes, and no two counted ballots share a nullifier |
| `Eligibility.BuildLeaves` | packages/crypto/src/eligibleBallot.ts:108-116 | the leaf map holds exactly the registered commitments |
| `Eligibility.BuildParents` | packages/crypto/src/eligibleBallot.ts:117-129 | one level loop turns a sparse level into the sparse level above it |
| `Eligibility.BuildLevelMaps` | packages/crypto/src/eligibleBallot.ts:107-129 | every level map agrees with the dense tree, missing entries standing for empty subtrees |
| `Eligibility.BuildPath` | packages/crypto/src/eligibleBallot.ts:131-140 | side bits and siblings of the target are those of the dense tree |
| `Eligibility.BuildEligibilityMembership` | packages/crypto/src/eligibleBallot.ts:81-148 | accepts exactly the valid requests; root, commitment and path are those of the dense tree with zero leaves |
| `Eligibility.SameRootForEveryTarget` | packages/crypto/src/eligibleBallot.ts:81-148 | all members of one credential set get the same root |
| `Eligibility.TwoLeaves` | packages/crypto/src/eligibleBallot.ts:107-129 | a small tree written out: leaf hashes of secret and nonce, left before right, zero for an empty leaf |
| `Eligibility.PathFoldsToRoot` | circuits/eligible_ballot.circom:48-66 | for any depth, the built path folds to the root under the circuit's recurrence |
| `Eligibility.MembershipSound` | circuits/eligible_ballot.circom:44-66 | a credential hash whose path folds to the root is a registered commitment, at the position its bits spell |
| `Circuit.OneHotExact` | circuits/eligible_ballot.circom:88-124 | over a prime field larger than the candidate count the bit and sum equations hold exactly for one-hot selections |
| `Circuit.AddsSelectedExact` | circuits/eligible_ballot.circom:116-122 | the coordinate trick adds the generator for a set bit and the identity otherwise |
| `Circuit.CommitmentAgrees` | packages/crypto/src/eligibleBallot.ts:163-191 | the client's padded chunks and the circuit's wiring give one commitment |
| `Circuit.CommitmentBinds` | packages/crypto/src/eligibleBallot.ts:163-191 | the commitment binds election, candidate list, root, nullifier, key and every ciphertext point |
| `Circuit.NullifierInjective` | packages/crypto/src/eligibleBallot.ts:156-160 | nullifiers are equal exactly for equal elections and equal secrets |
| `Circuit.NullifierAgrees` | circuits/eligible_ballot.circom:68-72 | the client's nullifier is the one that the circuit's three wired inputs demand |
| `Circuit.CircuitExact` | circuits/eligible_ballot.circom:40-163 | the equations hold exactly of a statement and witness with a nonzero secret on a path to the root, its nullifier, its commitment and one encrypted one-hot selection |
| `Circuit.BuildEligibleBallotWitness` | packages/crypto/src/eligibleBallot.ts:193-248 | succeeds exactly on the asserted inputs; every public field and witness value is the given one, the wired nullifier or the wired commitment, and the whole proves the chosen ballot |
| `Circuit.HonestWitnessSatisfies` | circuits/eligible_ballot.circom:40-163 | a registered voter with the built path always satisfies the circuit |
| `Circuit.CredentialOf` | circuits/eligible_ballot.circom:44-72 | a satisfying ballot belongs to a registered credential |
| `Circuit.SameNullifierIff` | circuits/eligible_ballot.circom:68-72 | two satisfying ballots share a nullifier exactly when they are of one election and one secret |
| `Circuit.DistinctNullifiersIff` | circuits/eligible_ballot.circom:68-72 | within an election nullifiers are pairwise distinct exactly when the secrets are |
| `Circuit.OneBallotPerCredential` | packages/crypto/src/eligibleBallot.ts:150-161 | ballots with distinct nullifiers come from distinct registered secrets, so there are no more of them than credentials |
| `Election.CountedAtMostCredentials` | packages/crypto/src/index.ts:1331-1360 | ballots in one nullifier history come from pairwise distinct credential secrets |
| `Election.HistoryDistinctIff` | packages/crypto/src/index.ts:1331-1360 | a history of proven ballots has no duplicate exactly when no two come from one secret |
| `Election.DistinctVotersAccepted` | packages/crypto/src/index.ts:1355-1359 | ballots of distinct voters are never refused as duplicates |
| `Election.CountedAreProven` | packages/crypto/src/eligiblePipeline.ts:446-467 | with a sound proof verifier, every counted package has a satisfying witness for this election, candidate list, credential set and key; derived from the assertions of the builder and the replay |
| `Election.VerifiedElectionIsExact` | scripts/build_eligible_tally.ts:51-97 | the pipeline as a whole, assuming a sound verifier and a successful replay but nothing of the packages: exact votes per candidate from any threshold of trustees, and at most one per credential |
| `Receipts.CommitKeeps` | contracts/BatchCommitment.sol:150-188 | a commitment keeps the root chain, its uniqueness and the record of committed roots |
| `Receipts.BatchCommitment.CommitBatch` | contracts/BatchCommitment.sol:150-200 | commits exactly under the five guards; appends the batch and records its root |
| `Receipts.BatchCommitment.SubmitBatch` | contracts/BatchCommitment.sol:89-105 | additionally needs an authorized sender |
| `Receipts.BatchCommitment.SubmitBatchWithProof` | contracts/BatchCommitment.sol:111-134 | additionally needs a verifier, its positive answer and a nonzero inputs hash |
| `Receipts.SolidityFoldAgrees` | contracts/BatcherReceiptRegistry.sol:182-188 | the contract's fold is the client's fold |
| `Receipts.ResolvableIffIncluded` | contracts/BatcherReceiptRegistry.sol:169-198 | an open claim can be resolved against a committed batch exactly when its leaf is in that batch |
| `Receipts.BatcherReceiptRegistry.OpenOmissionClaim` | contracts/BatcherReceiptRegistry.sol:137-167 | opens exactly for an overdue, valid, authorized and fresh receipt, and records it unchanged |
| `Receipts.BatcherReceiptRegistry.ResolveWithInclusion` | contracts/BatcherReceiptRegistry.sol:169-198 | resolves exactly an open claim with a committed root and a folding proof; every resolved claim names a committed root with its leaf in it |
| `Receipts.ClaimsStaySound` | contracts/BatcherReceiptRegistry.sol:169-198 | later commitments keep every claim sound |
| `Ledger.TransferConserves` | contracts/v4/BatchCommitmentV4.sol:246-255 | a transfer keeps the sum of all balances |
| `Ledger.BondToken.Move` | contracts/v4/BatchCommitmentV4.sol:206 | moves exactly the amount or reverts unchanged |
| `Settlement.BondCovered` | contracts/v4/BatchCommitmentV4.sol:293-304 | the escrow covers the bond of every open proposal |
| `Settlement.ProposeKeeps` | contracts/v4/BatchCommitmentV4.sol:146-218 | a proposal keeps the invariant and overwrites nothing |
| `Settlement.ChallengeKeeps` | contracts/v4/BatchCommitmentV4.sol:220-262 | either verdict keeps the invariant and never leaves the Challenged state behind |
| `Settlement.SettleKeeps` | contracts/v4/BatchCommitmentV4.sol:335-370 | finalization keeps the invariant and appends this proposal to the history |
| `Settlement.RevertStaleKeeps` | contracts/v4/BatchCommitmentV4.sol:293-304 | a stale refund keeps the invariant |
| `Settlement.StepKeeps` | contracts/v4/BatchCommitmentV4.sol:146-304 | every external call, reverting or not, keeps the invariant |
| `Settlement.RunKeepsInvariant` | contracts/v4/BatchCommitmentV4.sol:146-370 | over every run: escrow is the open bonds plus outside donations, bonds are held exactly while Proposed, finalized batches chain from root zero, accumulator and counts fold along the chain, no manifest is finalized twice |
| `Settlement.EscrowExactIff` | contracts/v4/BatchCommitmentV4.sol:146-370 | escrow is exactly the open bonds in a run precisely when no token reached the contract otherwise |
| `Settlement.DonationExample` | contracts/v4/BatchCommitmentV4.sol:146-370 | a run with one plain transfer after which escrow and open bonds differ |
| `SettlementRuns.RunsOnlyExtend` | contracts/v4/BatchCommitmentV4.sol:146-370 | over every continuation: no proposal is overwritten, only open ones change state and only once, the log only grows, all tokens are conserved |
| `SettlementRuns.OpenProposalCalls` | contracts/v4/BatchCommitmentV4.sol:220-304 | in reachable states the token never blocks a call; finalize and stale refund are never both enabled, and exactly one is, once the challenge window is over, up to settlementEndsAt and while no 64-bit counter would overflow |
| `SettlementPayments.ProposePays` | contracts/v4/BatchCommitmentV4.sol:206 | a proposal takes exactly the bond from the sender and touches no other account |
| `SettlementPayments.ChallengePays` | contracts/v4/BatchCommitmentV4.sol:234-255 | account by account: a proven fraud pays the challenger the bond of the proposal on top of its own, a rejected challenge pays the challenger bond to the batcher, nobody else is touched |
| `SettlementPayments.ChallengeSettles` | contracts/v4/BatchCommitmentV4.sol:246-255 | between distinct parties: who wins and loses what, and what becomes of the proposal |
| `SettlementPayments.SettlePays` | contracts/v4/BatchCommitmentV4.sol:360-362 | finalization returns exactly its bond to the batcher |
| `SettlementPayments.RevertStalePays` | contracts/v4/BatchCommitmentV4.sol:293-304 | so does a stale refund |
| `SettlementPayments.ProposeRecords` | contracts/v4/BatchCommitmentV4.sol:167-205 | a proposal is filed under batcher, nonce and manifest with the batch as given, and a window of exactly the challenge period |
| `SettlementPayments.SettleRecords` | contracts/v4/BatchCommitmentV4.sol:345-358 | finalization moves root, accumulator and counts by its own batch and closes only its proposal |
| `SettlementPayments.OthersUntouched` | contracts/v4/BatchCommitmentV4.sol:220-304 | challenges and refunds touch no other proposal and nothing finalized |
| `SettlementPayments.WindowStaysOpen` | contracts/v4/BatchCommitmentV4.sol:178-181 | throughout the challenge period, in every continuation, the proposal cannot be finalized optimistically |
| `SettlementPayments.ProposeIff` | contracts/v4/BatchCommitmentV4.sol:146-206 | when a proposal goes through, condition by condition |
| `SettlementPayments.ChallengeIff` | contracts/v4/BatchCommitmentV4.sol:225-245 | when a challenge goes through |
| `SettlementPayments.FinalizeIff` | contracts/v4/BatchCommitmentV4.sol:264-291 | when either finalization goes through |
| `SettlementPayments.FinalizeSettles` | contracts/v4/BatchCommitmentV4.sol:264-291 | either finalization is the settlement of its proposal |
| `SettlementPayments.RevertStaleIff` | contracts/v4/BatchCommitmentV4.sol:293-304 | when a stale refund goes through |
| `SettlementRuns.CountFinalIff` | contracts/v4/BatchCommitmentV4.sol:335-370 | after voting the accepted count is final exactly when no open proposal can still be finalized |
| `SettlementRuns.PublishedTallyHoldsIff` | contracts/v4/TallyVerifierV4.sol:61-79 | a published tally matches the accepted count in every later state exactly under that condition |
| `SettlementRuns.PublishedAfterSettlementHolds` | contracts/v4/TallyVerifierV4.sol:61-113 | published after settlementEndsAt, it is matched for ever, accumulator included |
| `SettlementRuns.PublishedTooEarly` | contracts/v4/TallyVerifierV4.sol:61-64 | a run that publishes before settlementEndsAt and ends with a different accepted count |
| `SettlementContract.BatchCommitmentV4.ProposeBatch` | contracts/v4/BatchCommitmentV4.sol:146-218 | the contract call is the proposal step, or changes nothing |
| `SettlementContract.BatchCommitmentV4.ChallengeBatch` | contracts/v4/BatchCommitmentV4.sol:220-262 | the call with its transient Challenged state and its reverts is the challenge step |
| `SettlementContract.BatchCommitmentV4.PayOut` | contracts/v4/BatchCommitmentV4.sol:246-255 | either verdict pays exactly the bonds that are due and sets the proposal |
| `SettlementContract.BatchCommitmentV4.FinalizeProposal` | contracts/v4/BatchCommitmentV4.sol:335-370 | the shared finalization is the settle step |
| `SettlementContract.BatchCommitmentV4.FinalizeOptimisticBatch` | contracts/v4/BatchCommitmentV4.sol:264-271 | finalization after the challenge window |
| `SettlementContract.BatchCommitmentV4.FinalizeProvenBatch` | contracts/v4/BatchCommitmentV4.sol:273-291 | finalization with an accepted proof |
| `SettlementContract.BatchCommitmentV4.RevertStaleProposal` | contracts/v4/BatchCommitmentV4.sol:293-304 | the refund step of a stale proposal |
| `SettlementContract.TallyVerifierV4.SumCounts` | contracts/v4/TallyVerifierV4.sol:74-77 | the loop adds up all candidate counts |
| `SettlementContract.TallyVerifierV4.PublishTally` | contracts/v4/TallyVerifierV4.sol:55-121 | publishes once, exactly under all guards, and binds the settlement state it was made in |
| `National.IndexStepKeeps` | contracts/v4/NationalElectionIndexV4.sol:94-210 | every call keeps index, leaves, counters and accumulator consistent |
| `National.IndexRunKeeps` | contracts/v4/NationalElectionIndexV4.sol:94-210 | so does every run |
| `National.RegisterIff` | contracts/v4/NationalElectionIndexV4.sol:94-126 | registration goes through exactly for a registrar, a new constituency, consistent contracts and free room; it appends the record as given |
| `National.RecordIff` | contracts/v4/NationalElectionIndexV4.sol:137-170 | recording goes through exactly for a registered constituency without a leaf whose tally is published; it fills that leaf and no other |
| `National.ProgressIff` | contracts/v4/NationalElectionIndexV4.sol:128-210 | when freezing, accumulation and finalization go through, and all they do |
| `National.FinalizedIndexComplete` | contracts/v4/NationalElectionIndexV4.sol:175-210 | over every run, finalization implies that every expected constituency is recorded; accumulator and count fold their leaves in registration order |
| `National.OrderIrrelevant` | contracts/v4/NationalElectionIndexV4.sol:137-210 | from one frozen registration, any two finalizing interleavings of record, accumulate and finalize calls that read the same published answers, calls before publication included, end in the same state |
| `National.NationalCountIsPublished` | contracts/v4/NationalElectionIndexV4.sol:137-170 | over every run, when published answers match their tallies: the national count is the sum of the published candidate counts in registration order, and each stored leaf holds, field by field, its registration and the published result |
| `National.LeafCarriesPublishedCount` | contracts/v4/NationalElectionIndexV4.sol:137-170 | the same over every run of the index in which recorded constituencies published after settlementEndsAt, whatever their settlement contracts do meanwhile; a finalized index has recorded them all |
| `National.NationalElectionIndexV4.RegisterConstituency` | contracts/v4/NationalElectionIndexV4.sol:94-126 | the registration step, or no change |
| `National.NationalElectionIndexV4.FreezeRegistration` | contracts/v4/NationalElectionIndexV4.sol:128-135 | the freeze step, or no change |
| `National.NationalElectionIndexV4.RecordConstituencyTally` | contracts/v4/NationalElectionIndexV4.sol:137-170 | the recording step, or no change |
| `National.NationalElectionIndexV4.AccumulateNextTally` | contracts/v4/NationalElectionIndexV4.sol:175-196 | the accumulation step, or no change |
| `National.NationalElectionIndexV4.FinalizeNationalIndex` | contracts/v4/NationalElectionIndexV4.sol:198-210 | the finalization step, or no change |
| `Dkg.RunByTrustee` | packages/crypto/src/dkg.ts:235-309 | the coordinator's holdings on each trustee are those of a machine that sees only this trustee's messages |
| `Dkg.HashBindsContribution` | packages/crypto/src/dkg.ts:97-144 | the hash binds every field of a contribution and not its signature |
| `Dkg.StepCases` | packages/crypto/src/dkg.ts:235-309 | a message is refused, replayed, evidence or stored, and nothing else changes |
| `Dkg.StepKeeps` | packages/crypto/src/dkg.ts:235-309 | every message, rejected or not, keeps the stored rounds linked and each piece of evidence about two distinct verified messages of one trustee and round |
| `Dkg.RunKeeps` | packages/crypto/src/dkg.ts:235-309 | over every run: stored round two links to stored round one, evidence is about two distinct verified messages, and the disqualified are exactly the accused |
| `Dkg.DisqualifiedAreShown` | packages/crypto/src/dkg.ts:260-289 | over every run, each piece of evidence names two distinct verified messages of the run by one trustee in one round, and the disqualified are exactly the trustees with evidence |
| `Dkg.RunOnlyGrows` | packages/crypto/src/dkg.ts:235-309 | stored messages are never replaced and nobody leaves the disqualified set |
| `Dkg.DisqualifiedIff` | packages/crypto/src/dkg.ts:260-289 | a trustee is disqualified exactly when a verified message of its own met a different stored one of the same round |
| `Dkg.HonestNeverDisqualified` | packages/crypto/src/dkg.ts:260-289 | one distinct message per round is safe against anything the others send |
| `Dkg.HonestStored` | packages/crypto/src/dkg.ts:290-308 | a message of an honest trustee that names the right parent is in its slot from its arrival on |
| `Dkg.HonestQualifies` | packages/crypto/src/dkg.ts:235-331 | a trustee that sends one linked pair of messages qualifies at the end of every run |
| `Dkg.TranscriptSafe` | packages/crypto/src/dkg.ts:324-343 | a finalized transcript has at least five strictly ascending indexes, exactly the qualifying trustees, disjoint from the disqualified; linked hashes of both rounds; and evidence against exactly the disqualified, each piece from two distinct verified messages of the run |
| `Dkg.TranscriptExact` | packages/crypto/src/dkg.ts:324-384 | there is a transcript exactly when at least five trustees are not disqualified and have both rounds stored; ids and arguments are in their own fields, and all evidence is listed in the order of its hash |
| `Dkg.InterleavingImmaterial` | packages/crypto/src/dkg.ts:311-385 | any two interleavings with the same per-trustee sequences, replays and rejected messages included, finalize to the same transcript |
| `Dkg.EarlyEquivocationUnnoticed` | packages/crypto/src/dkg.ts:260-308 | two conflicting round-two messages sent before round one leave no trace |
| `Dkg.EarlyEquivocationExample` | packages/crypto/src/dkg.ts:260-308 | a ceremony and two messages for which that happens |
| `Dkg.DkgTranscriptCoordinatorV1.Create` | packages/crypto/src/dkg.ts:199-233 | constructed exactly for nine distinct trustees in range |
| `Dkg.DkgTranscriptCoordinatorV1.AddContribution` | packages/crypto/src/dkg.ts:235-309 | returns normally exactly for an admissible message that is stored already or names the right parent; the new state is the step |
| `Dkg.DkgTranscriptCoordinatorV1.Finalize` | packages/crypto/src/dkg.ts:311-385 | finalizes once, exactly with five qualified trustees |
| `ProverServer.LockKeeps` | services/recursive-prover/server.go:88-134 | the write lock is held by exactly the thread inside a critical section, never across a channel operation or a proof |
| `ProverServer.ReadLocksKeep` | services/recursive-prover/server.go:136-171 | read locks are exactly those of the readers inside, and exclude the writer |
| `ProverServer.RepliesKeep` | services/recursive-prover/server.go:136-186 | whatever a reader was answered stays true of later states: snapshots are pasts of their jobs, and a served artifact is that of a succeeded job |
| `ProverServer.AnswerExact` | services/recursive-prover/server.go:136-186 | what a reader is answered, for absent, unfinished and succeeded jobs |
| `ProverServer.ChannelKeeps` | services/recursive-prover/server.go:132 | the channel is first in, first out |
| `ProverServer.NewServerShape` | services/recursive-prover/server.go:41-57 | one worker or more, all idle, and four channel slots for each |
| `ProverServer.FileExact` | services/recursive-prover/server.go:121-132 | a new id is queued with the submitted manifest and sent; a known one is answered |
| `ProverServer.MarkExact` | services/recursive-prover/server.go:190-193 | marking turns the worker's own queued job into a proving one |
| `ProverServer.StoreExact` | services/recursive-prover/server.go:202-215 | storing makes the job succeed with the artifact of the engine if that is recursively proved, and fail without one otherwise |
| `ProverServer.EngineResultStays` | services/recursive-prover/server.go:199-215 | over every interleaving, from the return of the engine for ever after, the job of a recursively proved result has succeeded with that very artifact, and the job of any other has failed without one |
| `ProverServer.ManifestsMatch` | services/recursive-prover/server.go:115-131 | every job is filed under the id of its own manifest |
| `ProverServer.StepKeeps` | services/recursive-prover/server.go:88-217 | every enabled step keeps the invariant and moves jobs only Queued to Proving to Succeeded or Failed |
| `ProverServer.ExecutionKeeps` | services/recursive-prover/server.go:41-217 | over every interleaving of submitters, workers and readers: each id is sent and started at most once and is always in exactly one place; an artifact exists exactly in a succeeded job and is recursively proved; answers to readers stay true |
| `ProverServer.FinishedForever` | services/recursive-prover/server.go:188-217 | a finished job never changes again |
| `ProverServer.RankDecreases` | services/recursive-prover/server.go:88-217 | every step but an arrival lowers the outstanding work |
| `ProverServer.ExecutionBounded` | services/recursive-prover/server.go:88-217 | executions without arrivals are no longer than the outstanding work |
| `ProverServer.NoDeadlock` | services/recursive-prover/server.go:115-217 | while work is outstanding, readers included, some step other than an arrival is enabled |
| `ProverServer.QuietMeansDone` | services/recursive-prover/server.go:115-217 | when nothing but arrivals is enabled, every job has finished and every submitter and reader was answered |
| `ProverServer.ProofServer.File` | services/recursive-prover/server.go:121-131 | a known id gets its snapshot; a new one is filed as queued and still has to be sent |
| `ProverServer.ProofServer.SendToQueue` | services/recursive-prover/server.go:132 | appends to a channel with room |
| `ProverServer.ProofServer.ReceiveFromQueue` | services/recursive-prover/server.go:189 | takes the oldest id |
| `ProverServer.ProofServer.MarkProving` | services/recursive-prover/server.go:190-193 | the first critical section of a worker |
| `ProverServer.ProofServer.StoreOutcome` | services/recursive-prover/server.go:202-215 | the second: an error, a missing artifact or one without a recursive proof fails the job |
| `ProverServer.ProofServer.ReadJob` | services/recursive-prover/server.go:136-154 | the snapshot that the reader step answers with |
| `ProverServer.ProofServer.ReadArtifact` | services/recursive-prover/server.go:156-186 | serves an artifact exactly for a succeeded job, and then a recursively proved one |

## Left out

- Elliptic-curve formulas, Poseidon, Keccak and pairing arithmetic, and the bit decomposition inside the circuit: groups,
  hashes and proof systems are abstract. Points outside the prime-order subgroup are not modelled.
- Secrecy, quality of randomness and computational hardness.
- Signing and recovery (ECDSA, EIP-712): a predicate or an answer passed in.
- Hex, ABI and JSON encodings, case normalisation, scheme tags and exact-key tests of parsed objects.
- The manifest digest and public-inputs hash are not separate fields: they are hashes of the manifest's fields and bind
  them all. The replay comparison of eight artifact fields is therefore equality of manifests.
- Dkg.InterleavingImmaterial: the transcript hash is not a field of its own, being a hash of the other fields.
- Settlement.RunKeepsInvariant: token allowances are one flag per call, and 256-bit overflow of bonds is not modelled; the
  64-bit counters are. The end of the bond's life is not promised either: after `settlementEndsAt` a proposal that is not stale has no exit.
- Settlement.OpenProposalCalls: registry lookups and the fraud verifier are answers passed in.
- SettlementContract.BatchCommitmentV4.ProposeBatch: the token is asked before the storage writes; as a revert undoes
  those writes, the resulting states are the same. The reentrancy guard is not modelled, since the token does not call back.
- Constructor reverts of the contracts are preconditions of the Dafny constructors.
- Role and registry administration (`setBatcher`, `setReceiptSigner`, `setBatchProofVerifier`, AccessControl, ownership).
- The first and second generations of vote packages and of batch building: they repeat the third without
  eligibility root. Ballots with a candidate count other than four, and aggregation of secp256k1 ciphertexts, likewise.
- Threshold.DecryptTallyWithShares: thresholds and vote bounds that are not integers.
- ProverServer.NoDeadlock: the mutex lets a reader in while a writer waits; the preference that Go gives to a waiting writer
  only removes interleavings, and matters to no step that the proof picks.
- ProverServer.ProofServer.File: request decoding and validation, the HTTP layer and process shutdown.
- Eligibility.BuildEligibilityMembership: range tests of secrets and nonces as field elements.
- Election ids, candidate-list hashes and roots in `Batches` are numbers; in `Circuit` they are field elements. `Election`
  links both through an injective encoding.
- Relayer, network, storage, account abstraction, frontend and deployment code, voter registry and configuration
  contracts: guards on single fields.
