/** What runs of the settlement contract never undo, which calls are enabled, and when a published tally can
    still be overtaken by a finalization. */
module SettlementRuns {
  import opened Wrappers
  import opened Sequences
  import opened Ledger
  import opened Settlement

  // ----- permanence and conservation

  /** A proposal keeps its terms; only an open one changes state, and only to a final one. */
  predicate Evolves(p: Proposal, r: Proposal) {
    && r.(state := p.state, bond := p.bond) == p
    && (r.state == p.state || (p.state == Proposed && (r.state == Finalized || r.state == Reverted)))
  }

  ghost predicate Extends(s: State, t: State) {
    && (forall id :: id in s.proposals ==> id in t.proposals && Evolves(s.proposals[id], t.proposals[id]))
    && s.isManifestProposed <= t.isManifestProposed
    && s.log <= t.log
    && s.finalizedBatchCount <= t.finalizedBatchCount && s.acceptedBallotCount <= t.acceptedBallotCount
    && MapSum(s.balances) == MapSum(t.balances)
  }

  lemma ExtendsTransitive(s: State, t: State, u: State)
    requires Extends(s, t) && Extends(t, u)
    ensures Extends(s, u)
  {
    forall id | id in s.proposals ensures id in u.proposals && Evolves(s.proposals[id], u.proposals[id]) {
      assert Evolves(s.proposals[id], t.proposals[id]) && Evolves(t.proposals[id], u.proposals[id]);
    }
  }

  lemma ProposeExtends(cfg: Config, s: State, donations: nat, sender: Address, now: nat, approved: bool, batch: BatchInput)
    requires Invariant(cfg, s, donations) && Propose(cfg, s, sender, now, approved, batch).Some?
    ensures Extends(s, Propose(cfg, s, sender, now, approved, batch).value)
  {
    var id := ProposalId(sender, Get(s.batcherNonces, sender), batch.manifestDigest);
    TransferConserves(s.balances, sender, cfg.self, cfg.batcherBond);
    forall other | other in s.proposals ensures other.manifestDigest in s.isManifestProposed {
      assert ProposalOk(cfg, other, s.proposals[other], s.batcherNonces, s.isManifestProposed);
    }
    assert id !in s.proposals;
  }

  lemma ChallengeExtends(cfg: Config, s: State, sender: Address, now: nat, approved: bool, id: ProposalId,
                         evidence: bool, verdict: Option<bool>)
    requires Challenge(cfg, s, sender, now, approved, id, evidence, verdict).Some?
    ensures Extends(s, Challenge(cfg, s, sender, now, approved, id, evidence, verdict).value)
  {
    var p := s.proposals[id];
    var posted := Transfer(s.balances, sender, cfg.self, cfg.challengerBond).value;
    TransferConserves(s.balances, sender, cfg.self, cfg.challengerBond);
    if verdict.value {
      TransferConserves(posted, cfg.self, sender, p.bond + cfg.challengerBond);
    } else {
      TransferConserves(posted, cfg.self, p.batcher, cfg.challengerBond);
    }
  }

  lemma SettleExtends(cfg: Config, s: State, now: nat, id: ProposalId)
    requires IsProposed(s, id) && Settle(cfg, s, now, id).Some?
    ensures Extends(s, Settle(cfg, s, now, id).value)
  {
    TransferConserves(s.balances, cfg.self, s.proposals[id].batcher, s.proposals[id].bond);
  }

  lemma StepExtends(cfg: Config, s: State, donations: nat, call: Call)
    requires Invariant(cfg, s, donations)
    ensures Extends(s, Apply(cfg, s, call))
  {
    if Attempt(cfg, s, call).Some? {
      match call
      case ProposeCall(sender, now, approved, batch) => ProposeExtends(cfg, s, donations, sender, now, approved, batch);
      case ChallengeCall(sender, now, approved, id, evidence, verdict) =>
        ChallengeExtends(cfg, s, sender, now, approved, id, evidence, verdict);
      case FinalizeCall(now, id) => SettleExtends(cfg, s, now, id);
      case FinalizeWithProofCall(now, id, proofOk) => SettleExtends(cfg, s, now, id);
      case RevertStaleCall(now, id) => TransferConserves(s.balances, cfg.self, s.proposals[id].batcher, s.proposals[id].bond);
      case TokenCall(from, to, now, amount) => TransferConserves(s.balances, from, to, amount);
    }
  }

  lemma {:induction false} RunFrom(cfg: Config, s: State, donations: nat, calls: seq<Call>)
    requires Invariant(cfg, s, donations) && AllExternal(cfg, calls)
    ensures Invariant(cfg, Run(cfg, s, calls), donations + Donations(cfg, s, calls))
    ensures Extends(s, Run(cfg, s, calls))
  {
    if calls != [] {
      var front, last := calls[..|calls| - 1], calls[|calls| - 1];
      assert last in calls && forall c :: c in front ==> c in calls;
      RunFrom(cfg, s, donations, front);
      var mid, d := Run(cfg, s, front), donations + Donations(cfg, s, front);
      StepKeeps(cfg, mid, d, last);
      StepExtends(cfg, mid, d, last);
      ExtendsTransitive(s, mid, Apply(cfg, mid, last));
    }
  }

  /** Continuing any run: no proposal is overwritten, only open proposals change state and only once, the log of
      finalized batches is only appended to, counts never fall, and the total of all token balances is constant. */
  lemma RunsOnlyExtend(cfg: Config, balances: Balances, before: seq<Call>, after: seq<Call>)
    requires AllExternal(cfg, before) && AllExternal(cfg, after)
    ensures Extends(Run(cfg, Initial(balances), before), Run(cfg, Run(cfg, Initial(balances), before), after))
  {
    RunKeepsInvariant(cfg, balances, before);
    RunFrom(cfg, Run(cfg, Initial(balances), before), Get(balances, cfg.self) + Donations(cfg, Initial(balances), before), after);
  }

  // ----- enabled calls

  /** In every reachable state the token never blocks a call on an open proposal: finalization, stale refund and
      challenge payout succeed exactly under the contract's own conditions. Once the challenge window of an open
      proposal has passed, before settlement ends and without counter overflow, exactly one of optimistic
      finalization and stale refund is enabled. */
  lemma OpenProposalCalls(cfg: Config, s: State, donations: nat, id: ProposalId, now: nat)
    requires Invariant(cfg, s, donations) && IsProposed(s, id)
    ensures RevertStale(cfg, s, id).Some? <==> s.proposals[id].batch.previousNullifierRoot != s.finalizedNullifierRoot
    ensures Settle(cfg, s, now, id).Some? <==>
      && now <= cfg.settlementEndsAt && s.proposals[id].batch.previousNullifierRoot == s.finalizedNullifierRoot
      && s.finalizedBatchCount + 1 < UINT64 && s.acceptedBallotCount + s.proposals[id].batch.ballotCount < UINT64
    ensures !(RevertStale(cfg, s, id).Some? && Settle(cfg, s, now, id).Some?)
    ensures s.proposals[id].challengeDeadline < now <= cfg.settlementEndsAt && s.finalizedBatchCount + 1 < UINT64
      && s.acceptedBallotCount + s.proposals[id].batch.ballotCount < UINT64
      ==> (FinalizeOptimistic(cfg, s, now, id).Some? <==> RevertStale(cfg, s, id).None?)
    ensures forall sender, verdict :: sender != cfg.self && now <= s.proposals[id].challengeDeadline ==>
      (Challenge(cfg, s, sender, now, true, id, true, Some(verdict)).Some? <==> Get(s.balances, sender) >= cfg.challengerBond)
  {
    BondCovered(cfg, s, donations, id);
  }

  // ----- a published tally and later finalizations


  /** Calls that all happen at or after a moment. */
  ghost predicate NotBefore(calls: seq<Call>, now: nat) {
    forall c :: c in calls ==> c.now >= now
  }

  /** Some open proposal still extends the chain, in time and without overflow. */
  ghost predicate CanStillFinalize(cfg: Config, s: State, now: nat) {
    now <= cfg.settlementEndsAt && exists id :: Finalizable(s, id)
  }

  ghost predicate Finalizable(s: State, id: ProposalId) {
    && IsProposed(s, id) && s.proposals[id].batch.previousNullifierRoot == s.finalizedNullifierRoot
    && s.finalizedBatchCount + 1 < UINT64 && s.acceptedBallotCount + s.proposals[id].batch.ballotCount < UINT64
  }

  /** Nothing was finalized since s and no proposal was opened. */
  ghost predicate Frozen(s: State, t: State) {
    && t.acceptedBallotCount == s.acceptedBallotCount && t.finalizedBatchCount == s.finalizedBatchCount
    && t.finalizedNullifierRoot == s.finalizedNullifierRoot && t.finalizedBatchAccumulator == s.finalizedBatchAccumulator
    && (forall id :: IsProposed(t, id) ==> IsProposed(s, id) && t.proposals[id] == s.proposals[id])
  }

  lemma FrozenStep(cfg: Config, s: State, t: State, now: nat, call: Call)
    requires cfg.votingEndsAt < now <= call.now && !CanStillFinalize(cfg, s, now) && Frozen(s, t)
    ensures Frozen(s, Apply(cfg, t, call))
  {
    match call
    case FinalizeCall(_, id) => assert IsProposed(t, id) ==> !Finalizable(s, id) || now > cfg.settlementEndsAt;
    case FinalizeWithProofCall(_, id, _) => assert IsProposed(t, id) ==> !Finalizable(s, id) || now > cfg.settlementEndsAt;
    case _ =>
  }

  lemma {:induction false} FrozenRun(cfg: Config, s: State, now: nat, calls: seq<Call>)
    requires cfg.votingEndsAt < now && !CanStillFinalize(cfg, s, now) && NotBefore(calls, now)
    ensures Frozen(s, Run(cfg, s, calls))
  {
    if calls != [] {
      var front, last := calls[..|calls| - 1], calls[|calls| - 1];
      assert last in calls && forall c :: c in front ==> c in calls;
      FrozenRun(cfg, s, now, front);
      FrozenStep(cfg, s, Run(cfg, s, front), now, last);
    }
  }

  /** After voting has ended, the accepted ballot count is final in every continuation exactly when no open
      proposal can still be finalized; one that can is finalized by a single proof-gated call. */
  lemma CountFinalIff(cfg: Config, s: State, donations: nat, now: nat)
    requires Invariant(cfg, s, donations) && cfg.votingEndsAt < now
    ensures (forall calls :: AllExternal(cfg, calls) && NotBefore(calls, now) ==>
              Run(cfg, s, calls).acceptedBallotCount == s.acceptedBallotCount) <==> !CanStillFinalize(cfg, s, now)
  {
    if CanStillFinalize(cfg, s, now) {
      var id :| Finalizable(s, id);
      var call := FinalizeWithProofCall(now, id, true);
      OpenProposalCalls(cfg, s, donations, id, now);
      assert ProposalOk(cfg, id, s.proposals[id], s.batcherNonces, s.isManifestProposed);
      assert [call][..0] == [] && Run(cfg, s, []) == s;
      assert Run(cfg, s, [call]) == Apply(cfg, s, call);
      assert AllExternal(cfg, [call]) && NotBefore([call], now);
      assert Run(cfg, s, [call]).acceptedBallotCount != s.acceptedBallotCount;
    } else {
      forall calls | AllExternal(cfg, calls) && NotBefore(calls, now)
        ensures Run(cfg, s, calls).acceptedBallotCount == s.acceptedBallotCount
      {
        FrozenRun(cfg, s, now, calls);
      }
    }
  }

  // ----- publishing a tally

  datatype TallyConfig = TallyConfig(candidateProfile: nat, tallyVerifierVersion: nat, trusteeKeysetHash: nat, dkgTranscriptHash: nat)

  /** Collision-free public inputs of the tally proof. */
  datatype TallyInputs = TallyInputs(
    trusteeKeysetHash: nat, dkgTranscriptHash: nat, accumulator: Accumulator, acceptedCount: nat, resultHash: nat,
    tallyArtifactDigest: nat, candidateCounts: seq<nat>, tallyVerifierVersion: nat)

  datatype Result = Result(resultHash: nat, tallyArtifactDigest: nat, publicInputsHash: TallyInputs, publisher: Address)

  /** What a publication binds: the accumulator and ballot count of the settlement state it was made in, with
      candidate counts that add up to that ballot count. */
  ghost predicate PublishedIn(result: Result, tally: TallyConfig, s: State) {
    && result.resultHash != 0 && result.tallyArtifactDigest != 0
    && result.publicInputsHash == TallyInputs(tally.trusteeKeysetHash, tally.dkgTranscriptHash, s.finalizedBatchAccumulator,
         s.acceptedBallotCount, result.resultHash, result.tallyArtifactDigest,
         result.publicInputsHash.candidateCounts, tally.tallyVerifierVersion)
    && |result.publicInputsHash.candidateCounts| == tally.candidateProfile
    && Total(result.publicInputsHash.candidateCounts) == s.acceptedBallotCount
  }

  /** A tally published after voting ended keeps matching the accepted ballot count in every later state exactly
      when no open proposal could still be finalized at that moment. */
  lemma PublishedTallyHoldsIff(cfg: Config, s: State, donations: nat, now: nat, result: Result, tally: TallyConfig)
    requires Invariant(cfg, s, donations) && cfg.votingEndsAt < now && PublishedIn(result, tally, s)
    ensures (forall calls :: AllExternal(cfg, calls) && NotBefore(calls, now) ==>
              Run(cfg, s, calls).acceptedBallotCount == Total(result.publicInputsHash.candidateCounts)) <==> !CanStillFinalize(cfg, s, now)
  {
    CountFinalIff(cfg, s, donations, now);
  }

  /** In particular a tally published after the settlement window is matched for ever, accumulator included. */
  lemma PublishedAfterSettlementHolds(cfg: Config, s: State, now: nat, result: Result, tally: TallyConfig, calls: seq<Call>)
    requires ValidConfig(cfg) && cfg.settlementEndsAt < now && PublishedIn(result, tally, s) && NotBefore(calls, now)
    ensures PublishedIn(result, tally, Run(cfg, s, calls))
  {
    FrozenRun(cfg, s, now, calls);
  }

  /** The contract admits publication as soon as voting has ended. A run on which the published total is then
      wrong: one batch is proposed, an all-zero tally is published, the batch is finalized in time. */
  lemma PublishedTooEarly() returns (cfg: Config, batch: BatchInput, proposed: seq<Call>, later: seq<Call>, result: Result, tally: TallyConfig)
    ensures ValidConfig(cfg) && AllExternal(cfg, proposed) && AllExternal(cfg, later) && NotBefore(later, cfg.votingEndsAt + 1)
    ensures var s := Run(cfg, Initial(map[7 := 100]), proposed);
            && PublishedIn(result, tally, s)
            && Run(cfg, s, later).acceptedBallotCount == batch.ballotCount == 5
            && Total(result.publicInputsHash.candidateCounts) == 0
  {
    cfg := Config(1, 10, 20, 3, 2, 5, 1, 1);
    batch := BatchInput(11, 0, 12, 13, 14, 15, 5);
    var propose := ProposeCall(7, 2, true, batch);
    var id := ProposalId(7, 0, 13);
    var finalize := FinalizeWithProofCall(11, id, true);
    proposed, later := [propose], [finalize];
    tally := TallyConfig(4, 1, 21, 22);
    var s0 := Initial(map[7 := 100]);
    assert proposed[..0] == [] && Run(cfg, s0, []) == s0;
    var s := Run(cfg, s0, proposed);
    assert s == Apply(cfg, s0, propose);
    assert Attempt(cfg, s0, propose).Some?;
    assert s.proposals == map[id := s.proposals[id]] && IsProposed(s, id) && s.acceptedBallotCount == 0;
    assert Get(s.balances, 1) == 3;
    result := Result(1, 1, TallyInputs(21, 22, s.finalizedBatchAccumulator, 0, 1, 1, [0, 0, 0, 0], 1), 9);
    SumZero();
    assert later[..0] == [] && Run(cfg, s, []) == s;
    assert Run(cfg, s, later) == Apply(cfg, s, finalize);
  }

  lemma SumZero()
    ensures Total([0, 0, 0, 0]) == 0
  {
    assert [0, 0, 0, 0][..3] == [0, 0, 0] && [0, 0, 0][..2] == [0, 0] && [0, 0][..1] == [0] && [0][..0] == [];
    assert Total([0]) == 0;
    assert Total([0, 0]) == 0;
    assert Total([0, 0, 0]) == 0;
  }
}
