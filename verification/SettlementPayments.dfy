/** Account by account and field by field: who is paid in each settlement call, what it records, and when it goes
    through. */
module SettlementPayments {
  import opened Wrappers
  import opened Ledger
  import opened Settlement
  import opened SettlementRuns

  // ----- payments

  /** The change of one account when `amount` moves between two accounts. */
  function Flow(who: Address, from: Address, to: Address, amount: nat): int {
    (if who == to then amount else 0) - (if who == from then amount else 0)
  }

  lemma TransferMoves(b: Balances, from: Address, to: Address, amount: nat, who: Address)
    requires Transfer(b, from, to, amount).Some?
    ensures Get(Transfer(b, from, to, amount).value, who) == Get(b, who) + Flow(who, from, to, amount)
  {
  }

  /** A proposal takes exactly the batcher's bond from the sender, and touches no other account. */
  lemma ProposePays(cfg: Config, s: State, sender: Address, now: nat, approved: bool, batch: BatchInput, who: Address)
    requires Propose(cfg, s, sender, now, approved, batch).Some?
    ensures var t := Propose(cfg, s, sender, now, approved, batch).value;
      Get(t.balances, who) == Get(s.balances, who)
        + (if who == cfg.self then cfg.batcherBond else 0) - (if who == sender then cfg.batcherBond else 0)
  {
    TransferMoves(s.balances, sender, cfg.self, cfg.batcherBond, who);
  }

  /** A proven fraud pays the challenger the proposal's bond out of the escrow, on top of its own bond; a rejected
      challenge pays the challenger's bond to the batcher. No other account changes. */
  lemma ChallengePays(cfg: Config, s: State, donations: nat, sender: Address, now: nat, approved: bool, id: ProposalId,
                      evidence: bool, verdict: Option<bool>, who: Address)
    requires Invariant(cfg, s, donations) && sender != cfg.self
    requires Challenge(cfg, s, sender, now, approved, id, evidence, verdict).Some?
    ensures var t, p := Challenge(cfg, s, sender, now, approved, id, evidence, verdict).value, s.proposals[id];
      && p.bond == cfg.batcherBond && p.batcher == id.batcher
      && (verdict == Some(true) ==>
           Get(t.balances, who) == Get(s.balances, who)
             + (if who == sender then p.bond else 0) - (if who == cfg.self then p.bond else 0))
      && (verdict == Some(false) ==>
           Get(t.balances, who) == Get(s.balances, who)
             + (if who == p.batcher then cfg.challengerBond else 0) - (if who == sender then cfg.challengerBond else 0))
  {
    var p := s.proposals[id];
    var posted := Transfer(s.balances, sender, cfg.self, cfg.challengerBond).value;
    BondCovered(cfg, s, donations, id);
    assert ProposalOk(cfg, id, p, s.batcherNonces, s.isManifestProposed);
    TransferMoves(s.balances, sender, cfg.self, cfg.challengerBond, who);
    if verdict.value {
      TransferMoves(posted, cfg.self, sender, p.bond + cfg.challengerBond, who);
    } else {
      TransferMoves(posted, cfg.self, p.batcher, cfg.challengerBond, who);
    }
  }

  /** With three different parties: the challenger wins exactly the batcher's bond, or loses exactly its own to the
      batcher. */
  lemma ChallengeSettles(cfg: Config, s: State, donations: nat, sender: Address, now: nat, approved: bool, id: ProposalId,
                         evidence: bool, verdict: Option<bool>)
    requires Invariant(cfg, s, donations) && sender != cfg.self
    requires Challenge(cfg, s, sender, now, approved, id, evidence, verdict).Some? && sender != s.proposals[id].batcher
    ensures var t, p := Challenge(cfg, s, sender, now, approved, id, evidence, verdict).value, s.proposals[id];
      && id in t.proposals
      && (verdict == Some(true) ==>
           && Get(t.balances, sender) == Get(s.balances, sender) + p.bond
           && Get(t.balances, p.batcher) == Get(s.balances, p.batcher)
           && t.proposals[id].state == Reverted && t.proposals[id].bond == 0)
      && (verdict == Some(false) ==>
           && Get(t.balances, sender) == Get(s.balances, sender) - cfg.challengerBond
           && Get(t.balances, p.batcher) == Get(s.balances, p.batcher) + cfg.challengerBond
           && t.proposals[id] == p && p.state == Proposed)
  {
    BondCovered(cfg, s, donations, id);
    ChallengePays(cfg, s, donations, sender, now, approved, id, evidence, verdict, sender);
    ChallengePays(cfg, s, donations, sender, now, approved, id, evidence, verdict, s.proposals[id].batcher);
  }

  /** Finalization, optimistic or proven, returns exactly its bond to the batcher. */
  lemma SettlePays(cfg: Config, s: State, donations: nat, now: nat, id: ProposalId, who: Address)
    requires Invariant(cfg, s, donations) && IsProposed(s, id) && Settle(cfg, s, now, id).Some?
    ensures var t, p := Settle(cfg, s, now, id).value, s.proposals[id];
      && p.bond == cfg.batcherBond && p.batcher == id.batcher != cfg.self
      && Get(t.balances, who) == Get(s.balances, who)
           + (if who == id.batcher then cfg.batcherBond else 0) - (if who == cfg.self then cfg.batcherBond else 0)
  {
    BondCovered(cfg, s, donations, id);
    assert ProposalOk(cfg, id, s.proposals[id], s.batcherNonces, s.isManifestProposed);
    TransferMoves(s.balances, cfg.self, s.proposals[id].batcher, s.proposals[id].bond, who);
  }

  /** So does a stale refund. */
  lemma RevertStalePays(cfg: Config, s: State, donations: nat, id: ProposalId, who: Address)
    requires Invariant(cfg, s, donations) && RevertStale(cfg, s, id).Some?
    ensures var t := RevertStale(cfg, s, id).value;
      && id.batcher != cfg.self
      && Get(t.balances, who) == Get(s.balances, who)
           + (if who == id.batcher then cfg.batcherBond else 0) - (if who == cfg.self then cfg.batcherBond else 0)
      && id in t.proposals && t.proposals[id].state == Reverted && t.proposals[id].bond == 0
  {
    BondCovered(cfg, s, donations, id);
    assert ProposalOk(cfg, id, s.proposals[id], s.batcherNonces, s.isManifestProposed);
    TransferMoves(s.balances, cfg.self, s.proposals[id].batcher, s.proposals[id].bond, who);
  }

  // ----- records

  /** Apart from one proposal, nothing a call recorded before is touched. */
  ghost predicate OnlyTouches(s: State, t: State, id: ProposalId) {
    forall other :: other != id ==>
      (other in t.proposals <==> other in s.proposals) && (other in s.proposals ==> t.proposals[other] == s.proposals[other])
  }

  /** A proposal is filed under its batcher, nonce and manifest, with the batch as given, the full bond, and a window
      of exactly the challenge period from its block time; nothing is finalized by it. */
  lemma ProposeRecords(cfg: Config, s: State, sender: Address, now: nat, approved: bool, batch: BatchInput)
    requires Propose(cfg, s, sender, now, approved, batch).Some? && now < UINT64
    ensures var t, id := Propose(cfg, s, sender, now, approved, batch).value, ProposalId(sender, Get(s.batcherNonces, sender), batch.manifestDigest);
      && id in t.proposals && OnlyTouches(s, t, id)
      && t.proposals[id].state == Proposed && t.proposals[id].batcher == sender && t.proposals[id].batch == batch
      && t.proposals[id].bond == cfg.batcherBond && t.proposals[id].proposedAt == now
      && t.proposals[id].challengeDeadline == now + cfg.challengePeriod
      && t.isManifestProposed == s.isManifestProposed + {batch.manifestDigest}
      && Get(t.batcherNonces, sender) == Get(s.batcherNonces, sender) + 1
      && (forall who :: who != sender ==> Get(t.batcherNonces, who) == Get(s.batcherNonces, who))
      && t.log == s.log && t.finalizedNullifierRoot == s.finalizedNullifierRoot && t.acceptedBallotCount == s.acceptedBallotCount
  {
  }

  /** A finalization moves the root, the accumulator and the counts by its own batch and closes only its proposal. */
  lemma SettleRecords(cfg: Config, s: State, donations: nat, now: nat, id: ProposalId)
    requires Invariant(cfg, s, donations) && IsProposed(s, id) && Settle(cfg, s, now, id).Some?
    ensures var t, p := Settle(cfg, s, now, id).value, s.proposals[id];
      && id in t.proposals && OnlyTouches(s, t, id) && t.proposals[id].state == Finalized && t.proposals[id].bond == 0
      && t.finalizedNullifierRoot == p.batch.nullifierRoot
      && t.finalizedBatchAccumulator == Accumulated(s.finalizedBatchAccumulator, InputsHash(p.batch, cfg.batchVerifierVersion))
      && t.finalizedBatchCount == s.finalizedBatchCount + 1
      && t.acceptedBallotCount == s.acceptedBallotCount + p.batch.ballotCount
      && t.log == s.log + [id]
  {
    assert ProposalOk(cfg, id, s.proposals[id], s.batcherNonces, s.isManifestProposed);
  }

  /** What neither a challenge nor a stale refund touches. */
  ghost predicate SameChain(s: State, t: State) {
    && t.log == s.log && t.finalizedNullifierRoot == s.finalizedNullifierRoot
    && t.finalizedBatchAccumulator == s.finalizedBatchAccumulator && t.finalizedBatchCount == s.finalizedBatchCount
    && t.acceptedBallotCount == s.acceptedBallotCount
    && t.isManifestProposed == s.isManifestProposed && t.batcherNonces == s.batcherNonces
  }

  lemma OthersUntouched(cfg: Config, s: State, sender: Address, now: nat, approved: bool, id: ProposalId, evidence: bool,
                        verdict: Option<bool>)
    ensures var r := Challenge(cfg, s, sender, now, approved, id, evidence, verdict);
      r.Some? ==> OnlyTouches(s, r.value, id) && SameChain(s, r.value)
    ensures var r := RevertStale(cfg, s, id); r.Some? ==> OnlyTouches(s, r.value, id) && SameChain(s, r.value)
  {
  }

  /** Throughout the challenge period after a proposal, in every continuation, it cannot be finalized
      optimistically. */
  lemma WindowStaysOpen(cfg: Config, s: State, donations: nat, sender: Address, now: nat, approved: bool, batch: BatchInput,
                        calls: seq<Call>, later: nat)
    requires Invariant(cfg, s, donations) && sender != cfg.self && now < UINT64
    requires Propose(cfg, s, sender, now, approved, batch).Some? && AllExternal(cfg, calls)
    requires later <= now + cfg.challengePeriod
    ensures var id := ProposalId(sender, Get(s.batcherNonces, sender), batch.manifestDigest);
      FinalizeOptimistic(cfg, Run(cfg, Propose(cfg, s, sender, now, approved, batch).value, calls), later, id).None?
  {
    var t := Propose(cfg, s, sender, now, approved, batch).value;
    var id := ProposalId(sender, Get(s.batcherNonces, sender), batch.manifestDigest);
    ProposeRecords(cfg, s, sender, now, approved, batch);
    ProposeKeeps(cfg, s, donations, sender, now, approved, batch);
    RunFrom(cfg, t, donations, calls);
    assert Evolves(t.proposals[id], Run(cfg, t, calls).proposals[id]);
  }

  // ----- when a call goes through

  /** A proposal goes through exactly while voting is open, for a complete batch that extends the finalized chain
      under a new manifest, whose window ends in time, by a sender whose approved balance covers the bond. */
  lemma ProposeIff(cfg: Config, s: State, sender: Address, now: nat, approved: bool, batch: BatchInput)
    requires now < UINT64
    ensures Propose(cfg, s, sender, now, approved, batch).Some? <==>
      && now <= cfg.votingEndsAt
      && batch.packageRoot != 0 && batch.nullifierRoot != 0 && batch.nullifierRoot != batch.previousNullifierRoot
      && batch.manifestDigest != 0 && batch.aggregateCiphertextDigest != 0
      && batch.availabilityCertificateHash != 0 && batch.ballotCount != 0
      && batch.previousNullifierRoot == s.finalizedNullifierRoot && batch.manifestDigest !in s.isManifestProposed
      && now + cfg.challengePeriod < UINT64 && now + cfg.challengePeriod <= cfg.settlementEndsAt
      && approved && Get(s.balances, sender) >= cfg.batcherBond
  {
  }

  /** A challenge goes through exactly for an open proposal, up to and including its deadline, with evidence that the
      verifier answers, by a sender whose approved balance covers the bond. */
  lemma ChallengeIff(cfg: Config, s: State, donations: nat, sender: Address, now: nat, approved: bool, id: ProposalId,
                     evidence: bool, verdict: Option<bool>)
    requires Invariant(cfg, s, donations) && sender != cfg.self
    ensures Challenge(cfg, s, sender, now, approved, id, evidence, verdict).Some? <==>
      && id in s.proposals && s.proposals[id].state == Proposed && now <= s.proposals[id].challengeDeadline
      && evidence && approved && verdict.Some? && Get(s.balances, sender) >= cfg.challengerBond
  {
    if IsProposed(s, id) {
      BondCovered(cfg, s, donations, id);
    }
  }

  /** A finalization goes through exactly for an open proposal at the head of the chain, up to settlementEndsAt and
      while the counters have room; without a proof only after its deadline. */
  lemma FinalizeIff(cfg: Config, s: State, donations: nat, now: nat, id: ProposalId, proofOk: bool)
    requires Invariant(cfg, s, donations)
    ensures var ready := id in s.proposals && s.proposals[id].state == Proposed && now <= cfg.settlementEndsAt
                && s.proposals[id].batch.previousNullifierRoot == s.finalizedNullifierRoot
                && s.finalizedBatchCount + 1 < UINT64 && s.acceptedBallotCount + s.proposals[id].batch.ballotCount < UINT64;
      && (FinalizeOptimistic(cfg, s, now, id).Some? <==> ready && now > s.proposals[id].challengeDeadline)
      && (FinalizeWithProof(cfg, s, now, id, proofOk).Some? <==> ready && proofOk)
  {
    if IsProposed(s, id) {
      BondCovered(cfg, s, donations, id);
    }
  }

  /** A finalization of either kind is the settlement of its proposal. */
  lemma FinalizeSettles(cfg: Config, s: State, now: nat, id: ProposalId, proofOk: bool)
    ensures FinalizeOptimistic(cfg, s, now, id).Some? ==> IsProposed(s, id) && FinalizeOptimistic(cfg, s, now, id) == Settle(cfg, s, now, id)
    ensures FinalizeWithProof(cfg, s, now, id, proofOk).Some? ==>
              IsProposed(s, id) && FinalizeWithProof(cfg, s, now, id, proofOk) == Settle(cfg, s, now, id)
  {
  }

  /** A stale refund goes through exactly for an open proposal that the chain has left behind. */
  lemma RevertStaleIff(cfg: Config, s: State, donations: nat, id: ProposalId)
    requires Invariant(cfg, s, donations)
    ensures RevertStale(cfg, s, id).Some? <==>
      id in s.proposals && s.proposals[id].state == Proposed && s.proposals[id].batch.previousNullifierRoot != s.finalizedNullifierRoot
  {
    if IsProposed(s, id) {
      BondCovered(cfg, s, donations, id);
    }
  }
}
