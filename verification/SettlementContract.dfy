/** The settlement and tally contracts as objects with mutable storage. */
module SettlementContract {
  import opened Wrappers
  import opened Sequences
  import opened Ledger
  import opened Settlement
  import opened SettlementRuns

  class BatchCommitmentV4 {
    const cfg: Config
    const bondToken: BondToken
    var finalizedNullifierRoot: nat
    var finalizedBatchAccumulator: Accumulator
    var finalizedBatchCount: nat
    var acceptedBallotCount: nat
    var proposals: Proposals
    var isManifestProposed: set<nat>
    var batcherNonces: map<Address, nat>
    /** The BatchFinalized events emitted so far. */
    var log: seq<ProposalId>

    ghost function Model(): State
      reads this, bondToken
    {
      State(finalizedNullifierRoot, finalizedBatchAccumulator, finalizedBatchCount, acceptedBallotCount, proposals,
            isManifestProposed, batcherNonces, log, bondToken.balances)
    }

    constructor (cfg_: Config, bondToken_: BondToken)
      requires ValidConfig(cfg_)
      ensures cfg == cfg_ && bondToken == bondToken_
      ensures Model() == Initial(bondToken_.balances)
      ensures finalizedNullifierRoot == 0 && finalizedBatchAccumulator == AccumulatorZero && finalizedBatchCount == 0
      ensures acceptedBallotCount == 0 && proposals == map[] && isManifestProposed == {} && batcherNonces == map[] && log == []
    {
      cfg, bondToken := cfg_, bondToken_;
      finalizedNullifierRoot, finalizedBatchAccumulator := 0, AccumulatorZero;
      finalizedBatchCount, acceptedBallotCount := 0, 0;
      proposals, isManifestProposed, batcherNonces, log := map[], {}, map[], [];
    }

    /** `proposeBatch`. The token is asked before the writes, since its revert would undo them. */
    method ProposeBatch(sender: Address, now: nat, approved: bool, batch: BatchInput) returns (r: Option<ProposalId>)
      modifies this, bondToken
      ensures var step := Propose(cfg, old(Model()), sender, now, approved, batch);
              && (r.Some? <==> step.Some?)
              && Model() == (if step.Some? then step.value else old(Model()))
      ensures r.Some? ==> r.value == ProposalId(sender, Get(old(batcherNonces), sender), batch.manifestDigest)
    {
      if now > cfg.votingEndsAt || !ValidBatch(batch) {
        return None;
      }
      if batch.previousNullifierRoot != finalizedNullifierRoot || batch.manifestDigest in isManifestProposed {
        return None;
      }
      var nonce := Get(batcherNonces, sender);
      var proposalId := ProposalId(sender, nonce, batch.manifestDigest);
      var challengeDeadline := now % UINT64 + cfg.challengePeriod;
      if challengeDeadline >= UINT64 || challengeDeadline > cfg.settlementEndsAt || !approved {
        return None;
      }
      var paid := bondToken.Move(sender, cfg.self, cfg.batcherBond);
      if !paid {
        return None;
      }
      batcherNonces := batcherNonces[sender := nonce + 1];
      proposals := proposals[proposalId := Proposal(Proposed, sender, batch, InputsHash(batch, cfg.batchVerifierVersion),
                                                    now % UINT64, challengeDeadline, cfg.batcherBond)];
      isManifestProposed := isManifestProposed + {batch.manifestDigest};
      return Some(proposalId);
    }

    /** The end of `challengeBatch`: proven fraud closes the proposal and pays both bonds to the challenger, otherwise
        the proposal reopens and its batcher is paid the challenger's bond. */
    method PayOut(sender: Address, id: ProposalId, proposal: Proposal, fraudProven: bool) returns (paid: bool)
      modifies this`proposals, bondToken
      ensures var moved := if fraudProven then Transfer(old(bondToken.balances), cfg.self, sender, proposal.bond + cfg.challengerBond)
                           else Transfer(old(bondToken.balances), cfg.self, proposal.batcher, cfg.challengerBond);
        paid == moved.Some? && bondToken.balances == if paid then moved.value else old(bondToken.balances)
      ensures proposals == old(proposals)[id := if fraudProven then proposal.(state := Reverted, bond := 0) else proposal]
    {
      if fraudProven {
        proposals := proposals[id := proposal.(state := Reverted, bond := 0)];
        paid := bondToken.Move(cfg.self, sender, proposal.bond + cfg.challengerBond);
      } else {
        proposals := proposals[id := proposal];
        paid := bondToken.Move(cfg.self, proposal.batcher, cfg.challengerBond);
      }
    }

    /** `challengeBatch`. The state is Challenged only while the verifier runs. On a failing transfer the revert
        restores storage and balances. */
    method ChallengeBatch(sender: Address, now: nat, approved: bool, id: ProposalId, evidence: bool, verdict: Option<bool>)
      returns (r: Option<bool>)
      modifies this, bondToken
      ensures var step := Challenge(cfg, old(Model()), sender, now, approved, id, evidence, verdict);
              && r == (if step.Some? then verdict else None)
              && Model() == (if step.Some? then step.value else old(Model()))
    {
      if id !in proposals || proposals[id].state != Proposed {
        return None;
      }
      var proposal := proposals[id];
      if now > proposal.challengeDeadline || !evidence || !approved {
        return None;
      }
      var balances := bondToken.balances;
      var posted := bondToken.Move(sender, cfg.self, cfg.challengerBond);
      if !posted {
        return None;
      }
      proposals := proposals[id := proposal.(state := Challenged)];
      if verdict.None? {
        proposals := proposals[id := proposal];
        bondToken.balances := balances;
        assert proposals == old(proposals);
        return None;
      }
      var paid := PayOut(sender, id, proposal, verdict.value);
      if !paid {
        proposals := proposals[id := proposal];
        bondToken.balances := balances;
        assert proposals == old(proposals);
        return None;
      }
      return verdict;
    }

    /** `_finalize`. */
    method FinalizeProposal(id: ProposalId, now: nat) returns (ok: bool)
      requires id in proposals
      modifies this, bondToken
      ensures var step := Settle(cfg, old(Model()), now, id);
              && (ok <==> step.Some?) && Model() == (if step.Some? then step.value else old(Model()))
    {
      var proposal := proposals[id];
      if now > cfg.settlementEndsAt || proposal.batch.previousNullifierRoot != finalizedNullifierRoot {
        return false;
      }
      if finalizedBatchCount + 1 >= UINT64 || acceptedBallotCount + proposal.batch.ballotCount >= UINT64 {
        return false;
      }
      var paid := bondToken.Move(cfg.self, proposal.batcher, proposal.bond);
      if !paid {
        return false;
      }
      proposals := proposals[id := proposal.(state := Finalized, bond := 0)];
      finalizedNullifierRoot := proposal.batch.nullifierRoot;
      finalizedBatchAccumulator := Accumulated(finalizedBatchAccumulator, proposal.batchPublicInputsHash);
      finalizedBatchCount := finalizedBatchCount + 1;
      acceptedBallotCount := acceptedBallotCount + proposal.batch.ballotCount;
      log := log + [id];
      return true;
    }

    method FinalizeOptimisticBatch(id: ProposalId, now: nat) returns (ok: bool)
      modifies this, bondToken
      ensures var step := FinalizeOptimistic(cfg, old(Model()), now, id);
              && (ok <==> step.Some?) && Model() == (if step.Some? then step.value else old(Model()))
    {
      if id !in proposals || proposals[id].state != Proposed || now <= proposals[id].challengeDeadline {
        return false;
      }
      ok := FinalizeProposal(id, now);
    }

    /** `finalizeWithProof`; `proofOk` says that the proof is nonempty and the registered verifier accepts it. */
    method FinalizeProvenBatch(id: ProposalId, now: nat, proofOk: bool) returns (ok: bool)
      modifies this, bondToken
      ensures var step := FinalizeWithProof(cfg, old(Model()), now, id, proofOk);
              && (ok <==> step.Some?) && Model() == (if step.Some? then step.value else old(Model()))
    {
      if id !in proposals || proposals[id].state != Proposed || !proofOk {
        return false;
      }
      ok := FinalizeProposal(id, now);
    }

    method RevertStaleProposal(id: ProposalId) returns (ok: bool)
      modifies this, bondToken
      ensures var step := RevertStale(cfg, old(Model()), id);
              && (ok <==> step.Some?) && Model() == (if step.Some? then step.value else old(Model()))
    {
      if id !in proposals || proposals[id].state != Proposed || proposals[id].batch.previousNullifierRoot == finalizedNullifierRoot {
        return false;
      }
      var proposal := proposals[id];
      var paid := bondToken.Move(cfg.self, proposal.batcher, proposal.bond);
      if !paid {
        return false;
      }
      proposals := proposals[id := proposal.(state := Reverted, bond := 0)];
      return true;
    }
  }

  class TallyVerifierV4 {
    const tallyConfig: TallyConfig
    const batchCommitment: BatchCommitmentV4
    /** None until `resultPublished`. */
    var published: Option<Result>

    constructor (tallyConfig_: TallyConfig, batchCommitment_: BatchCommitmentV4)
      ensures tallyConfig == tallyConfig_ && batchCommitment == batchCommitment_ && published == None
    {
      tallyConfig, batchCommitment, published := tallyConfig_, batchCommitment_, None;
    }

    /** The summing loop of `publishTally`. */
    method SumCounts(candidateCounts: seq<nat>) returns (total: nat)
      ensures total == Total(candidateCounts)
    {
      total := 0;
      for index := 0 to |candidateCounts|
        invariant total == Total(candidateCounts[..index])
      {
        assert candidateCounts[..index + 1][..index] == candidateCounts[..index];
        total := total + candidateCounts[index];
      }
      assert candidateCounts[..|candidateCounts|] == candidateCounts;
    }

    /** `publishTally`; the verifier is an oracle on the public inputs. A success is published once and for all,
        and matches the settlement state it was published in. */
    method PublishTally(resultHash: nat, tallyArtifactDigest: nat, candidateCounts: seq<nat>, proofGiven: bool,
                        verify: TallyInputs -> bool, sender: Address, now: nat) returns (ok: bool)
      modifies this
      ensures ok <==>
        && old(published).None? && now > batchCommitment.cfg.votingEndsAt
        && resultHash != 0 && tallyArtifactDigest != 0 && proofGiven
        && |candidateCounts| == tallyConfig.candidateProfile
        && Total(candidateCounts) == batchCommitment.acceptedBallotCount
        && verify(TallyInputs(tallyConfig.trusteeKeysetHash, tallyConfig.dkgTranscriptHash, batchCommitment.finalizedBatchAccumulator,
             batchCommitment.acceptedBallotCount, resultHash, tallyArtifactDigest, candidateCounts, tallyConfig.tallyVerifierVersion))
      ensures ok ==>
        && published.Some? && PublishedIn(published.value, tallyConfig, batchCommitment.Model())
        && published.value.publicInputsHash.candidateCounts == candidateCounts
        && published.value.resultHash == resultHash && published.value.tallyArtifactDigest == tallyArtifactDigest
        && published.value.publisher == sender
      ensures !ok ==> published == old(published)
    {
      if published.Some? || now <= batchCommitment.cfg.votingEndsAt {
        return false;
      }
      if resultHash == 0 || tallyArtifactDigest == 0 || !proofGiven || |candidateCounts| != tallyConfig.candidateProfile {
        return false;
      }
      var total := SumCounts(candidateCounts);
      var acceptedCount := batchCommitment.acceptedBallotCount;
      if total != acceptedCount {
        return false;
      }
      var inputsHash := TallyInputs(tallyConfig.trusteeKeysetHash, tallyConfig.dkgTranscriptHash, batchCommitment.finalizedBatchAccumulator,
                                    acceptedCount, resultHash, tallyArtifactDigest, candidateCounts, tallyConfig.tallyVerifierVersion);
      if !verify(inputsHash) {
        return false;
      }
      published := Some(Result(resultHash, tallyArtifactDigest, inputsHash, sender));
      return true;
    }
  }
}
