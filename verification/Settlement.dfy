/** Bonded optimistic batch settlement: every external call as a step on the contract state, and what all runs keep. */
module Settlement {
  import opened Wrappers
  import opened Ledger

  const UINT64: nat := 0x1_0000_0000_0000_0000

  /** Immutable parameters of the contract and its election. */
  datatype Config = Config(
    self: Address, votingEndsAt: nat, settlementEndsAt: nat, batcherBond: nat, challengerBond: nat,
    challengePeriod: nat, batchVerifierVersion: nat, fraudVerifierVersion: nat)

  predicate ValidConfig(cfg: Config) {
    && cfg.votingEndsAt < cfg.settlementEndsAt < UINT64
    && cfg.batcherBond > 0 && cfg.challengerBond > 0 && 0 < cfg.challengePeriod < UINT64
    && cfg.batchVerifierVersion > 0 && cfg.fraudVerifierVersion > 0
  }

  datatype BatchInput = BatchInput(
    packageRoot: nat, previousNullifierRoot: nat, nullifierRoot: nat, manifestDigest: nat,
    aggregateCiphertextDigest: nat, availabilityCertificateHash: nat, ballotCount: nat)

  /** Collision-free hashes of the contract; the fixed election binding is left implicit. */
  datatype ProposalId = ProposalId(batcher: Address, nonce: nat, manifestDigest: nat)
  datatype InputsHash = InputsHash(batch: BatchInput, batchVerifierVersion: nat)
  datatype Accumulator = AccumulatorZero | Accumulated(previous: Accumulator, inputs: InputsHash)

  /** The state None of the source is absence from the map. */
  datatype BatchState = Proposed | Challenged | Finalized | Reverted

  datatype Proposal = Proposal(
    state: BatchState, batcher: Address, batch: BatchInput, batchPublicInputsHash: InputsHash,
    proposedAt: nat, challengeDeadline: nat, bond: nat)

  type Proposals = map<ProposalId, Proposal>

  /** Contract storage, the token balances, and the log of BatchFinalized events. */
  datatype State = State(
    finalizedNullifierRoot: nat, finalizedBatchAccumulator: Accumulator, finalizedBatchCount: nat,
    acceptedBallotCount: nat, proposals: Proposals, isManifestProposed: set<nat>,
    batcherNonces: map<Address, nat>, log: seq<ProposalId>, balances: Balances)

  function Initial(balances: Balances): State {
    State(0, AccumulatorZero, 0, 0, map[], {}, map[], [], balances)
  }

  // ----- the external calls; None is a revert

  predicate ValidBatch(batch: BatchInput) {
    && batch.packageRoot != 0 && batch.nullifierRoot != 0 && batch.nullifierRoot != batch.previousNullifierRoot
    && batch.manifestDigest != 0 && batch.aggregateCiphertextDigest != 0
    && batch.availabilityCertificateHash != 0 && batch.ballotCount != 0
  }

  function IsProposed(s: State, id: ProposalId): bool {
    id in s.proposals && s.proposals[id].state == Proposed
  }

  function Propose(cfg: Config, s: State, sender: Address, now: nat, approved: bool, batch: BatchInput): Option<State> {
    var id := ProposalId(sender, Get(s.batcherNonces, sender), batch.manifestDigest);
    var deadline := now % UINT64 + cfg.challengePeriod;
    var paid := Transfer(s.balances, sender, cfg.self, cfg.batcherBond);
    if now > cfg.votingEndsAt || !ValidBatch(batch) || batch.previousNullifierRoot != s.finalizedNullifierRoot
       || batch.manifestDigest in s.isManifestProposed || deadline >= UINT64 || deadline > cfg.settlementEndsAt
       || !approved || paid.None?
    then None
    else Some(s.(
      proposals := s.proposals[id := Proposal(Proposed, sender, batch, InputsHash(batch, cfg.batchVerifierVersion),
                                              now % UINT64, deadline, cfg.batcherBond)],
      isManifestProposed := s.isManifestProposed + {batch.manifestDigest},
      batcherNonces := s.batcherNonces[sender := Get(s.batcherNonces, sender) + 1],
      balances := paid.value))
  }

  /** `verdict` is the fraud verifier's answer; None when it or the registry reverts. */
  function Challenge(cfg: Config, s: State, sender: Address, now: nat, approved: bool, id: ProposalId,
                     evidence: bool, verdict: Option<bool>): Option<State> {
    if !IsProposed(s, id) || now > s.proposals[id].challengeDeadline || !evidence || !approved || verdict.None? then None
    else
      var p := s.proposals[id];
      var posted := Transfer(s.balances, sender, cfg.self, cfg.challengerBond);
      if posted.None? then None
      else if verdict.value then
        var paid := Transfer(posted.value, cfg.self, sender, p.bond + cfg.challengerBond);
        if paid.None? then None
        else Some(s.(proposals := s.proposals[id := p.(state := Reverted, bond := 0)], balances := paid.value))
      else
        var paid := Transfer(posted.value, cfg.self, p.batcher, cfg.challengerBond);
        if paid.None? then None else Some(s.(balances := paid.value))
  }

  /** `_finalize`. */
  function Settle(cfg: Config, s: State, now: nat, id: ProposalId): Option<State>
    requires id in s.proposals
  {
    var p := s.proposals[id];
    var paid := Transfer(s.balances, cfg.self, p.batcher, p.bond);
    if now > cfg.settlementEndsAt || p.batch.previousNullifierRoot != s.finalizedNullifierRoot
       || s.finalizedBatchCount + 1 >= UINT64 || s.acceptedBallotCount + p.batch.ballotCount >= UINT64 || paid.None?
    then None
    else Some(s.(
      finalizedNullifierRoot := p.batch.nullifierRoot,
      finalizedBatchAccumulator := Accumulated(s.finalizedBatchAccumulator, p.batchPublicInputsHash),
      finalizedBatchCount := s.finalizedBatchCount + 1,
      acceptedBallotCount := s.acceptedBallotCount + p.batch.ballotCount,
      proposals := s.proposals[id := p.(state := Finalized, bond := 0)],
      log := s.log + [id],
      balances := paid.value))
  }

  function FinalizeOptimistic(cfg: Config, s: State, now: nat, id: ProposalId): Option<State> {
    if !IsProposed(s, id) || now <= s.proposals[id].challengeDeadline then None else Settle(cfg, s, now, id)
  }

  function FinalizeWithProof(cfg: Config, s: State, now: nat, id: ProposalId, proofOk: bool): Option<State> {
    if !IsProposed(s, id) || !proofOk then None else Settle(cfg, s, now, id)
  }

  function RevertStale(cfg: Config, s: State, id: ProposalId): Option<State> {
    if !IsProposed(s, id) || s.proposals[id].batch.previousNullifierRoot == s.finalizedNullifierRoot then None
    else
      var p := s.proposals[id];
      var paid := Transfer(s.balances, cfg.self, p.batcher, p.bond);
      if paid.None? then None
      else Some(s.(proposals := s.proposals[id := p.(state := Reverted, bond := 0)], balances := paid.value))
  }

  // ----- runs

  datatype Call =
    | ProposeCall(sender: Address, now: nat, approved: bool, batch: BatchInput)
    | ChallengeCall(sender: Address, now: nat, approved: bool, id: ProposalId, evidence: bool, verdict: Option<bool>)
    | FinalizeCall(now: nat, id: ProposalId)
    | FinalizeWithProofCall(now: nat, id: ProposalId, proofOk: bool)
    | RevertStaleCall(now: nat, id: ProposalId)
    | TokenCall(from: Address, to: Address, now: nat, amount: nat)

  /** The contract never calls itself and never approves a spender, so no outside transfer moves its tokens. */
  predicate External(cfg: Config, call: Call) {
    match call
    case ProposeCall(sender, _, _, _) => sender != cfg.self
    case ChallengeCall(sender, _, _, _, _, _) => sender != cfg.self
    case TokenCall(from, _, _, _) => from != cfg.self
    case _ => true
  }

  function Attempt(cfg: Config, s: State, call: Call): Option<State> {
    match call
    case ProposeCall(sender, now, approved, batch) => Propose(cfg, s, sender, now, approved, batch)
    case ChallengeCall(sender, now, approved, id, evidence, verdict) => Challenge(cfg, s, sender, now, approved, id, evidence, verdict)
    case FinalizeCall(now, id) => FinalizeOptimistic(cfg, s, now, id)
    case FinalizeWithProofCall(now, id, proofOk) => FinalizeWithProof(cfg, s, now, id, proofOk)
    case RevertStaleCall(now, id) => RevertStale(cfg, s, id)
    case TokenCall(from, to, now, amount) =>
      var moved := Transfer(s.balances, from, to, amount);
      if moved.None? then None else Some(s.(balances := moved.value))
  }

  /** A revert leaves everything as it was. */
  function Apply(cfg: Config, s: State, call: Call): State {
    var r := Attempt(cfg, s, call);
    if r.Some? then r.value else s
  }

  function Run(cfg: Config, s: State, calls: seq<Call>): State {
    if calls == [] then s else Apply(cfg, Run(cfg, s, calls[..|calls| - 1]), calls[|calls| - 1])
  }

  ghost predicate AllExternal(cfg: Config, calls: seq<Call>) {
    forall c :: c in calls ==> External(cfg, c)
  }

  /** Tokens sent straight to the contract by outside transfers. */
  function Donated(cfg: Config, s: State, call: Call): nat {
    if call.TokenCall? && call.to == cfg.self && Attempt(cfg, s, call).Some? then call.amount else 0
  }

  function Donations(cfg: Config, s: State, calls: seq<Call>): nat {
    if calls == [] then 0
    else
      var front := calls[..|calls| - 1];
      Donations(cfg, s, front) + Donated(cfg, Run(cfg, s, front), calls[|calls| - 1])
  }

  // ----- the invariant

  /** Bonds of the proposals that are still open. */
  function OpenBonds(ps: Proposals): map<ProposalId, nat> {
    map id | id in ps && ps[id].state == Proposed :: ps[id].bond
  }

  function History(log: seq<ProposalId>, ps: Proposals): (r: seq<Proposal>)
    requires forall id :: id in log ==> id in ps
    ensures |r| == |log|
  {
    seq(|log|, i requires 0 <= i < |log| => assert log[i] in log; ps[log[i]])
  }

  function FoldInputs(history: seq<Proposal>): Accumulator {
    if history == [] then AccumulatorZero
    else Accumulated(FoldInputs(history[..|history| - 1]), history[|history| - 1].batchPublicInputsHash)
  }

  function SumBallots(history: seq<Proposal>): nat {
    if history == [] then 0 else SumBallots(history[..|history| - 1]) + history[|history| - 1].batch.ballotCount
  }

  /** Terms fixed at proposal time, and a bond that is held exactly while the proposal is open. */
  ghost predicate ProposalOk(cfg: Config, id: ProposalId, p: Proposal, nonces: map<Address, nat>, manifests: set<nat>) {
    && p.state != Challenged
    && p.bond == (if p.state == Proposed then cfg.batcherBond else 0)
    && p.batcher == id.batcher && p.batcher != cfg.self && id.nonce < Get(nonces, p.batcher)
    && p.batch.manifestDigest == id.manifestDigest && id.manifestDigest in manifests
    && ValidBatch(p.batch) && p.batchPublicInputsHash == InputsHash(p.batch, cfg.batchVerifierVersion)
    && p.challengeDeadline <= cfg.settlementEndsAt
  }

  ghost predicate ProposalsOk(cfg: Config, ps: Proposals, nonces: map<Address, nat>, manifests: set<nat>) {
    forall id :: id in ps ==> ProposalOk(cfg, id, ps[id], nonces, manifests)
  }

  /** No manifest digest is proposed twice, so none is finalized twice. */
  ghost predicate ManifestsUnique(ps: Proposals) {
    forall a, b :: a in ps && b in ps && a.manifestDigest == b.manifestDigest ==> a == b
  }

  /** The log lists exactly the finalized proposals, each once. */
  ghost predicate LogOk(log: seq<ProposalId>, ps: Proposals) {
    && (forall id :: id in log <==> id in ps && ps[id].state == Finalized)
    && (forall i, j :: 0 <= i < j < |log| ==> log[i] != log[j])
  }

  /** The nullifier root after the first i finalized batches. */
  function RootAfter(h: seq<Proposal>, i: nat): nat
    requires i <= |h|
  {
    if i == 0 then 0 else h[i - 1].batch.nullifierRoot
  }

  /** Batches chain from the zero root: each previous root is the new root of the batch before. */
  ghost predicate Chained(h: seq<Proposal>) {
    forall i {:trigger RootAfter(h, i)} :: 0 <= i < |h| ==> h[i].batch.previousNullifierRoot == RootAfter(h, i)
  }

  ghost predicate TotalsOk(h: seq<Proposal>, s: State) {
    && s.finalizedNullifierRoot == RootAfter(h, |h|)
    && s.finalizedBatchAccumulator == FoldInputs(h)
    && s.finalizedBatchCount == |h| && s.acceptedBallotCount == SumBallots(h)
  }

  ghost predicate EscrowOk(cfg: Config, balances: Balances, ps: Proposals, donations: nat) {
    Get(balances, cfg.self) == MapSum(OpenBonds(ps)) + donations
  }

  ghost predicate Invariant(cfg: Config, s: State, donations: nat) {
    && ProposalsOk(cfg, s.proposals, s.batcherNonces, s.isManifestProposed)
    && ManifestsUnique(s.proposals)
    && LogOk(s.log, s.proposals)
    && Chained(History(s.log, s.proposals)) && TotalsOk(History(s.log, s.proposals), s)
    && EscrowOk(cfg, s.balances, s.proposals, donations)
  }

  // ----- escrow accounting

  lemma OpenBondsUpdate(ps: Proposals, id: ProposalId, p: Proposal)
    ensures MapSum(OpenBonds(ps[id := p])) + Get(OpenBonds(ps), id) ==
            MapSum(OpenBonds(ps)) + if p.state == Proposed then p.bond else 0
  {
    if p.state == Proposed {
      assert OpenBonds(ps[id := p]) == OpenBonds(ps)[id := p.bond];
      MapSumUpdate(OpenBonds(ps), id, p.bond);
    } else {
      assert OpenBonds(ps[id := p]) == OpenBonds(ps) - {id};
      MapSumDrop(OpenBonds(ps), id);
    }
  }

  /** Every refund and payout of an open proposal's bond is covered by the escrow. */
  lemma BondCovered(cfg: Config, s: State, donations: nat, id: ProposalId)
    requires Invariant(cfg, s, donations) && IsProposed(s, id)
    ensures s.proposals[id].bond == cfg.batcherBond && s.proposals[id].batcher != cfg.self
    ensures Get(OpenBonds(s.proposals), id) == s.proposals[id].bond
    ensures Get(s.balances, cfg.self) >= s.proposals[id].bond
  {
    assert ProposalOk(cfg, id, s.proposals[id], s.batcherNonces, s.isManifestProposed);
    MapSumRemove(OpenBonds(s.proposals), id);
  }

  // ----- every step keeps the invariant

  lemma InitialInvariant(cfg: Config, balances: Balances)
    ensures Invariant(cfg, Initial(balances), Get(balances, cfg.self))
  {
    assert OpenBonds(map[]) == map[];
  }

  lemma HistoryFrame(log: seq<ProposalId>, ps: Proposals, id: ProposalId, p: Proposal)
    requires LogOk(log, ps) && (id in ps ==> ps[id].state != Finalized) && p.state != Finalized
    ensures LogOk(log, ps[id := p])
    ensures History(log, ps[id := p]) == History(log, ps)
  {
    assert id !in log;
    forall i | 0 <= i < |log| ensures ps[id := p][log[i]] == ps[log[i]] {
      assert log[i] in log;
    }
  }

  lemma InsertOk(cfg: Config, ps: Proposals, nonces: map<Address, nat>, manifests: set<nat>, id: ProposalId, p: Proposal)
    requires ProposalsOk(cfg, ps, nonces, manifests) && ManifestsUnique(ps) && id.manifestDigest !in manifests
    requires ProposalOk(cfg, id, p, nonces[id.batcher := Get(nonces, id.batcher) + 1], manifests + {id.manifestDigest})
    ensures id !in ps
    ensures ProposalsOk(cfg, ps[id := p], nonces[id.batcher := Get(nonces, id.batcher) + 1], manifests + {id.manifestDigest})
    ensures ManifestsUnique(ps[id := p])
  {
    forall other | other in ps
      ensures other.manifestDigest != id.manifestDigest
      ensures ProposalOk(cfg, other, ps[other], nonces[id.batcher := Get(nonces, id.batcher) + 1], manifests + {id.manifestDigest})
    {
      assert ProposalOk(cfg, other, ps[other], nonces, manifests);
    }
  }

  lemma CloseOk(cfg: Config, ps: Proposals, nonces: map<Address, nat>, manifests: set<nat>, id: ProposalId, state: BatchState)
    requires ProposalsOk(cfg, ps, nonces, manifests) && ManifestsUnique(ps)
    requires id in ps && (state == Reverted || state == Finalized)
    ensures ProposalsOk(cfg, ps[id := ps[id].(state := state, bond := 0)], nonces, manifests)
    ensures ManifestsUnique(ps[id := ps[id].(state := state, bond := 0)])
  {
    assert ProposalOk(cfg, id, ps[id], nonces, manifests);
  }

  lemma ProposeKeeps(cfg: Config, s: State, donations: nat, sender: Address, now: nat, approved: bool, batch: BatchInput)
    requires Invariant(cfg, s, donations) && sender != cfg.self && Propose(cfg, s, sender, now, approved, batch).Some?
    ensures Invariant(cfg, Propose(cfg, s, sender, now, approved, batch).value, donations)
  {
    var t := Propose(cfg, s, sender, now, approved, batch).value;
    var id := ProposalId(sender, Get(s.batcherNonces, sender), batch.manifestDigest);
    InsertOk(cfg, s.proposals, s.batcherNonces, s.isManifestProposed, id, t.proposals[id]);
    HistoryFrame(s.log, s.proposals, id, t.proposals[id]);
    OpenBondsUpdate(s.proposals, id, t.proposals[id]);
  }

  /** Reverting an open proposal while its bond leaves the contract. */
  lemma CloseKeeps(cfg: Config, s: State, t: State, donations: nat, id: ProposalId)
    requires Invariant(cfg, s, donations) && IsProposed(s, id)
    requires t == s.(proposals := s.proposals[id := s.proposals[id].(state := Reverted, bond := 0)], balances := t.balances)
    requires Get(t.balances, cfg.self) == Get(s.balances, cfg.self) - s.proposals[id].bond
    ensures Invariant(cfg, t, donations)
  {
    BondCovered(cfg, s, donations, id);
    CloseOk(cfg, s.proposals, s.batcherNonces, s.isManifestProposed, id, Reverted);
    HistoryFrame(s.log, s.proposals, id, t.proposals[id]);
    OpenBondsUpdate(s.proposals, id, t.proposals[id]);
  }

  lemma BalancesKeep(cfg: Config, s: State, t: State, donations: nat, more: nat)
    requires Invariant(cfg, s, donations) && t == s.(balances := t.balances)
    requires Get(t.balances, cfg.self) == Get(s.balances, cfg.self) + more
    ensures Invariant(cfg, t, donations + more)
  {
  }

  lemma ChallengeKeeps(cfg: Config, s: State, donations: nat, sender: Address, now: nat, approved: bool, id: ProposalId,
                       evidence: bool, verdict: Option<bool>)
    requires Invariant(cfg, s, donations) && sender != cfg.self
    requires Challenge(cfg, s, sender, now, approved, id, evidence, verdict).Some?
    ensures Invariant(cfg, Challenge(cfg, s, sender, now, approved, id, evidence, verdict).value, donations)
  {
    var t := Challenge(cfg, s, sender, now, approved, id, evidence, verdict).value;
    BondCovered(cfg, s, donations, id);
    if verdict.value {
      CloseKeeps(cfg, s, t, donations, id);
    } else {
      BalancesKeep(cfg, s, t, donations, 0);
    }
  }

  lemma RevertStaleKeeps(cfg: Config, s: State, donations: nat, id: ProposalId)
    requires Invariant(cfg, s, donations) && RevertStale(cfg, s, id).Some?
    ensures Invariant(cfg, RevertStale(cfg, s, id).value, donations)
  {
    BondCovered(cfg, s, donations, id);
    CloseKeeps(cfg, s, RevertStale(cfg, s, id).value, donations, id);
  }

  lemma SettleKeeps(cfg: Config, s: State, donations: nat, now: nat, id: ProposalId)
    requires Invariant(cfg, s, donations) && IsProposed(s, id) && Settle(cfg, s, now, id).Some?
    ensures Invariant(cfg, Settle(cfg, s, now, id).value, donations)
    ensures History(Settle(cfg, s, now, id).value.log, Settle(cfg, s, now, id).value.proposals) ==
            History(s.log, s.proposals) + [s.proposals[id].(state := Finalized, bond := 0)]
  {
    var t := Settle(cfg, s, now, id).value;
    BondCovered(cfg, s, donations, id);
    CloseOk(cfg, s.proposals, s.batcherNonces, s.isManifestProposed, id, Finalized);
    OpenBondsUpdate(s.proposals, id, t.proposals[id]);
    LogGrows(s.log, s.proposals, id);
    HistoryGrows(History(s.log, s.proposals), t.proposals[id], s, t);
  }

  lemma LogGrows(log: seq<ProposalId>, ps: Proposals, id: ProposalId)
    requires LogOk(log, ps) && id in ps && ps[id].state == Proposed
    ensures LogOk(log + [id], ps[id := ps[id].(state := Finalized, bond := 0)])
    ensures History(log + [id], ps[id := ps[id].(state := Finalized, bond := 0)]) ==
            History(log, ps) + [ps[id].(state := Finalized, bond := 0)]
  {
    assert id !in log;
    forall i | 0 <= i < |log| ensures log[i] != id {
      assert log[i] in log;
    }
  }

  lemma HistoryGrows(h: seq<Proposal>, p: Proposal, s: State, t: State)
    requires Chained(h) && TotalsOk(h, s) && p.batch.previousNullifierRoot == s.finalizedNullifierRoot
    requires t.finalizedNullifierRoot == p.batch.nullifierRoot
    requires t.finalizedBatchAccumulator == Accumulated(s.finalizedBatchAccumulator, p.batchPublicInputsHash)
    requires t.finalizedBatchCount == s.finalizedBatchCount + 1
    requires t.acceptedBallotCount == s.acceptedBallotCount + p.batch.ballotCount
    ensures Chained(h + [p]) && TotalsOk(h + [p], t)
  {
    var longer := h + [p];
    assert longer[..|h|] == h;
    forall i | 0 <= i < |longer| ensures longer[i].batch.previousNullifierRoot == RootAfter(longer, i) {
      assert RootAfter(longer, i) == RootAfter(h, i);
      assert longer[i] == if i < |h| then h[i] else p;
    }
  }

  lemma TokenKeeps(cfg: Config, s: State, donations: nat, call: Call)
    requires Invariant(cfg, s, donations) && call.TokenCall? && External(cfg, call) && Attempt(cfg, s, call).Some?
    ensures Invariant(cfg, Apply(cfg, s, call), donations + Donated(cfg, s, call))
  {
    BalancesKeep(cfg, s, Apply(cfg, s, call), donations, Donated(cfg, s, call));
  }

  lemma FinalizeKeeps(cfg: Config, s: State, donations: nat, call: Call)
    requires Invariant(cfg, s, donations) && (call.FinalizeCall? || call.FinalizeWithProofCall?) && Attempt(cfg, s, call).Some?
    ensures Invariant(cfg, Apply(cfg, s, call), donations)
  {
    SettleKeeps(cfg, s, donations, call.now, call.id);
  }

  lemma ContractStepKeeps(cfg: Config, s: State, donations: nat, call: Call)
    requires Invariant(cfg, s, donations) && External(cfg, call) && !call.TokenCall? && Attempt(cfg, s, call).Some?
    ensures Invariant(cfg, Apply(cfg, s, call), donations)
  {
    match call
    case ProposeCall(sender, now, approved, batch) => ProposeKeeps(cfg, s, donations, sender, now, approved, batch);
    case ChallengeCall(sender, now, approved, id, evidence, verdict) =>
      ChallengeKeeps(cfg, s, donations, sender, now, approved, id, evidence, verdict);
    case FinalizeCall(_, _) => FinalizeKeeps(cfg, s, donations, call);
    case FinalizeWithProofCall(_, _, _) => FinalizeKeeps(cfg, s, donations, call);
    case RevertStaleCall(_, id) => RevertStaleKeeps(cfg, s, donations, id);
  }

  lemma StepKeeps(cfg: Config, s: State, donations: nat, call: Call)
    requires Invariant(cfg, s, donations) && External(cfg, call)
    ensures Invariant(cfg, Apply(cfg, s, call), donations + Donated(cfg, s, call))
  {
    if Attempt(cfg, s, call).Some? {
      if call.TokenCall? {
        TokenKeeps(cfg, s, donations, call);
      } else {
        ContractStepKeeps(cfg, s, donations, call);
      }
    }
  }

  /** Over every run: escrow equals the open bonds plus outside donations (so exactly the open bonds when nobody
      donates), bonds are `batcherBond` while Proposed and zero afterwards, Challenged is never left behind, and
      the finalized batches are one chain from the zero root with the accumulator and counts folded along it. */
  lemma {:induction false} RunKeepsInvariant(cfg: Config, balances: Balances, calls: seq<Call>)
    requires AllExternal(cfg, calls)
    ensures Invariant(cfg, Run(cfg, Initial(balances), calls), Get(balances, cfg.self) + Donations(cfg, Initial(balances), calls))
  {
    if calls == [] {
      InitialInvariant(cfg, balances);
    } else {
      var front, last := calls[..|calls| - 1], calls[|calls| - 1];
      assert last in calls && forall c :: c in front ==> c in calls;
      RunKeepsInvariant(cfg, balances, front);
      StepKeeps(cfg, Run(cfg, Initial(balances), front), Get(balances, cfg.self) + Donations(cfg, Initial(balances), front), last);
    }
  }

  /** The escrow is exactly the open bonds in a run precisely when no token ever reached the contract otherwise. */
  lemma EscrowExactIff(cfg: Config, balances: Balances, calls: seq<Call>)
    requires AllExternal(cfg, calls)
    ensures var s := Run(cfg, Initial(balances), calls);
      Get(s.balances, cfg.self) == MapSum(OpenBonds(s.proposals)) <==>
        Get(balances, cfg.self) == 0 && Donations(cfg, Initial(balances), calls) == 0
  {
    RunKeepsInvariant(cfg, balances, calls);
  }

  /** A run with one plain transfer to the contract and no proposal: the escrow is five, the open bonds are zero. */
  lemma DonationExample() returns (cfg: Config, calls: seq<Call>)
    ensures ValidConfig(cfg) && AllExternal(cfg, calls)
    ensures var s := Run(cfg, Initial(map[7 := 100]), calls);
      Get(s.balances, cfg.self) == 5 && MapSum(OpenBonds(s.proposals)) == 0
  {
    cfg := Config(1, 10, 20, 3, 2, 5, 1, 1);
    var donation := TokenCall(7, 1, 2, 5);
    calls := [donation];
    var s := Initial(map[7 := 100]);
    assert calls[..0] == [] && Run(cfg, s, []) == s;
    assert Run(cfg, s, calls) == Apply(cfg, s, donation);
    assert OpenBonds(map[]) == map[];
  }
}
