/** The national index over constituency tallies: registration, recording, accumulation and finalization. */
module National {
  import opened Wrappers
  import opened Sequences
  import opened Ledger
  import opened Settlement
  import opened SettlementRuns

  const UINT32: nat := 0x1_0000_0000

  type ConstituencyId = nat

  /** Collision-free leaf and index hashes; the national election id is fixed per index. */
  datatype TallyLeaf = TallyLeaf(
    constituencyId: ConstituencyId, electionConfig: Address, tallyVerifier: Address, resultHash: nat,
    tallyArtifactDigest: nat, publicInputsHash: TallyInputs, acceptedCount: nat)

  datatype Index = IndexZero | Indexed(previous: Index, leaf: TallyLeaf)

  /** A record; the leaf is None until the tally is recorded. */
  datatype Record = Record(constituencyId: ConstituencyId, electionConfig: Address, tallyVerifier: Address, leaf: Option<TallyLeaf>)

  datatype IndexState = IndexState(
    registrationFrozen: bool, nationalIndexFinalized: bool, recordedTallyCount: nat, accumulatedTallyCount: nat,
    nationalAcceptedBallotCount: nat, nationalTallyAccumulator: Index,
    constituencyIndex: map<ConstituencyId, nat>, records: seq<Record>)

  const EMPTY := IndexState(false, false, 0, 0, 0, IndexZero, map[], [])

  /** What a constituency's contracts answer at the time of a call. */
  datatype Registration = Registration(
    electionConfig: Address, tallyVerifier: Address, sameNationalElection: bool, tallyUsesConfig: bool, constituencyId: ConstituencyId)

  datatype Observed = Observed(published: Option<Result>, acceptedCount: nat)

  // ----- the external calls; None is a revert

  function Register(expected: nat, s: IndexState, registrar: bool, c: Registration): Option<IndexState> {
    if !registrar || s.registrationFrozen || c.electionConfig == 0 || c.tallyVerifier == 0
       || !c.sameNationalElection || !c.tallyUsesConfig || Get(s.constituencyIndex, c.constituencyId) != 0
       || |s.records| >= expected
    then None
    else Some(s.(
      records := s.records + [Record(c.constituencyId, c.electionConfig, c.tallyVerifier, None)],
      constituencyIndex := s.constituencyIndex[c.constituencyId := |s.records| + 1]))
  }

  function Freeze(expected: nat, s: IndexState, admin: bool): Option<IndexState> {
    if !admin || s.registrationFrozen || |s.records| != expected then None else Some(s.(registrationFrozen := true))
  }

  function LeafOf(r: Record, o: Observed): TallyLeaf
    requires o.published.Some?
  {
    var result := o.published.value;
    TallyLeaf(r.constituencyId, r.electionConfig, r.tallyVerifier, result.resultHash, result.tallyArtifactDigest,
              result.publicInputsHash, o.acceptedCount)
  }

  function RecordTally(s: IndexState, id: ConstituencyId, o: Observed): Option<IndexState> {
    var k := Get(s.constituencyIndex, id);
    if !s.registrationFrozen || k == 0 || k > |s.records| || s.records[k - 1].leaf.Some? || o.published.None?
       || s.nationalAcceptedBallotCount + o.acceptedCount >= UINT64
    then None
    else
      var r := s.records[k - 1];
      Some(s.(
        records := s.records[k - 1 := r.(leaf := Some(LeafOf(r, o)))],
        recordedTallyCount := s.recordedTallyCount + 1,
        nationalAcceptedBallotCount := s.nationalAcceptedBallotCount + o.acceptedCount))
  }

  function AccumulateNext(expected: nat, s: IndexState): Option<IndexState> {
    var k := s.accumulatedTallyCount;
    if !s.registrationFrozen || k >= expected || k >= |s.records| || s.records[k].leaf.None? then None
    else Some(s.(
      nationalTallyAccumulator := Indexed(s.nationalTallyAccumulator, s.records[k].leaf.value),
      accumulatedTallyCount := k + 1))
  }

  function FinalizeIndex(expected: nat, s: IndexState): Option<IndexState> {
    if !s.registrationFrozen || s.accumulatedTallyCount != expected || s.nationalIndexFinalized then None
    else Some(s.(nationalIndexFinalized := true))
  }

  datatype IndexCall =
    | RegisterCall(registrar: bool, registration: Registration)
    | FreezeCall(admin: bool)
    | RecordCall(id: ConstituencyId, observed: Observed)
    | AccumulateCall
    | FinalizeIndexCall

  function AttemptIndex(expected: nat, s: IndexState, call: IndexCall): Option<IndexState> {
    match call
    case RegisterCall(registrar, c) => Register(expected, s, registrar, c)
    case FreezeCall(admin) => Freeze(expected, s, admin)
    case RecordCall(id, o) => RecordTally(s, id, o)
    case AccumulateCall => AccumulateNext(expected, s)
    case FinalizeIndexCall => FinalizeIndex(expected, s)
  }

  function ApplyIndex(expected: nat, s: IndexState, call: IndexCall): IndexState {
    var r := AttemptIndex(expected, s, call);
    if r.Some? then r.value else s
  }

  function RunIndex(expected: nat, s: IndexState, calls: seq<IndexCall>): IndexState {
    if calls == [] then s else ApplyIndex(expected, RunIndex(expected, s, calls[..|calls| - 1]), calls[|calls| - 1])
  }

  // ----- the invariant

  function Recorded(records: seq<Record>): nat {
    if records == [] then 0
    else Recorded(records[..|records| - 1]) + if records[|records| - 1].leaf.Some? then 1 else 0
  }

  function Ballots(records: seq<Record>): nat {
    if records == [] then 0
    else
      var last := records[|records| - 1];
      Ballots(records[..|records| - 1]) + if last.leaf.Some? then last.leaf.value.acceptedCount else 0
  }

  /** Fold of the leaves in registration order. */
  function FoldLeaves(records: seq<Record>): Index
    requires forall i :: 0 <= i < |records| ==> records[i].leaf.Some?
  {
    if records == [] then IndexZero
    else Indexed(FoldLeaves(records[..|records| - 1]), records[|records| - 1].leaf.value)
  }

  /** The index finds record i. */
  ghost predicate IndexedAt(records: seq<Record>, index: map<ConstituencyId, nat>, i: nat)
    requires i < |records|
  {
    Get(index, records[i].constituencyId) == i + 1
  }

  /** What the index says of an id is true. */
  ghost predicate FoundAt(records: seq<Record>, index: map<ConstituencyId, nat>, id: ConstituencyId) {
    var k := Get(index, id);
    k <= |records| && (k > 0 ==> records[k - 1].constituencyId == id)
  }

  ghost predicate IndexedRecords(records: seq<Record>, index: map<ConstituencyId, nat>) {
    && (forall i :: 0 <= i < |records| ==> IndexedAt(records, index, i))
    && (forall id :: FoundAt(records, index, id))
  }

  ghost predicate LeafMatches(r: Record) {
    r.leaf.Some? ==>
      && r.leaf.value.constituencyId == r.constituencyId
      && r.leaf.value.electionConfig == r.electionConfig && r.leaf.value.tallyVerifier == r.tallyVerifier
  }

  /** Leaves bind their record, and exist only after the freeze. */
  ghost predicate LeavesOk(records: seq<Record>, frozen: bool) {
    && (forall i :: 0 <= i < |records| ==> LeafMatches(records[i]))
    && (!frozen ==> forall i :: 0 <= i < |records| ==> records[i].leaf.None?)
  }

  /** The accumulator folds the leaves of the first constituencies, all of which are recorded. */
  ghost predicate AccumulatorOk(records: seq<Record>, k: nat, accumulator: Index) {
    && k <= |records| && (forall i :: 0 <= i < k ==> records[i].leaf.Some?)
    && accumulator == FoldLeaves(records[..k])
  }

  ghost predicate IndexInvariant(expected: nat, s: IndexState) {
    && |s.records| <= expected && (s.registrationFrozen ==> |s.records| == expected)
    && IndexedRecords(s.records, s.constituencyIndex) && LeavesOk(s.records, s.registrationFrozen)
    && s.recordedTallyCount == Recorded(s.records)
    && s.nationalAcceptedBallotCount == Ballots(s.records)
    && AccumulatorOk(s.records, s.accumulatedTallyCount, s.nationalTallyAccumulator)
    && (s.nationalIndexFinalized ==> s.registrationFrozen && s.accumulatedTallyCount == expected)
  }

  lemma {:induction false} RecordOne(records: seq<Record>, k: nat, leaf: TallyLeaf)
    requires k < |records| && records[k].leaf.None?
    ensures Recorded(records[k := records[k].(leaf := Some(leaf))]) == Recorded(records) + 1
    ensures Ballots(records[k := records[k].(leaf := Some(leaf))]) == Ballots(records) + leaf.acceptedCount
  {
    var n := |records| - 1;
    var updated := records[k := records[k].(leaf := Some(leaf))];
    if k < n {
      RecordOne(records[..n], k, leaf);
      assert updated[..n] == records[..n][k := records[..n][k].(leaf := Some(leaf))];
    } else {
      assert updated[..n] == records[..n];
    }
  }

  lemma RegisterKeeps(expected: nat, s: IndexState, registrar: bool, c: Registration)
    requires IndexInvariant(expected, s) && Register(expected, s, registrar, c).Some?
    ensures IndexInvariant(expected, Register(expected, s, registrar, c).value)
  {
    var r := Record(c.constituencyId, c.electionConfig, c.tallyVerifier, None);
    RegisterIndexes(s.records, s.constituencyIndex, r);
    RegisterTotals(s.records, r);
    RegisterLeaves(s.records, r);
    RegisterAccumulator(s.records, r, s.accumulatedTallyCount, s.nationalTallyAccumulator);
  }

  lemma RegisterTotals(records: seq<Record>, r: Record)
    requires r.leaf.None?
    ensures Recorded(records + [r]) == Recorded(records) && Ballots(records + [r]) == Ballots(records)
  {
    assert (records + [r])[..|records|] == records;
  }

  lemma RegisterLeaves(records: seq<Record>, r: Record)
    requires LeavesOk(records, false) && r.leaf.None?
    ensures LeavesOk(records + [r], false)
  {
  }

  lemma RegisterAccumulator(records: seq<Record>, r: Record, k: nat, accumulator: Index)
    requires AccumulatorOk(records, k, accumulator)
    ensures AccumulatorOk(records + [r], k, accumulator)
  {
    assert (records + [r])[..k] == records[..k];
  }

  lemma RegisterIndexes(records: seq<Record>, index: map<ConstituencyId, nat>, r: Record)
    requires IndexedRecords(records, index) && Get(index, r.constituencyId) == 0
    ensures IndexedRecords(records + [r], index[r.constituencyId := |records| + 1])
  {
    var longer, after := records + [r], index[r.constituencyId := |records| + 1];
    forall id ensures FoundAt(longer, after, id) {
      assert FoundAt(records, index, id);
    }
    forall i | 0 <= i < |longer| ensures IndexedAt(longer, after, i) {
      if i < |records| {
        assert IndexedAt(records, index, i);
      }
    }
  }

  lemma RecordIndexes(records: seq<Record>, index: map<ConstituencyId, nat>, k: nat, leaf: TallyLeaf)
    requires IndexedRecords(records, index) && k < |records|
    ensures IndexedRecords(records[k := records[k].(leaf := Some(leaf))], index)
  {
    var after := records[k := records[k].(leaf := Some(leaf))];
    forall id ensures FoundAt(after, index, id) {
      assert FoundAt(records, index, id);
    }
    forall i | 0 <= i < |after| ensures IndexedAt(after, index, i) {
      assert IndexedAt(records, index, i);
    }
  }

  lemma RecordLeaves(records: seq<Record>, k: nat, leaf: TallyLeaf)
    requires LeavesOk(records, true) && k < |records| && LeafMatches(records[k].(leaf := Some(leaf)))
    ensures LeavesOk(records[k := records[k].(leaf := Some(leaf))], true)
  {
  }

  lemma RecordKeeps(expected: nat, s: IndexState, id: ConstituencyId, o: Observed)
    requires IndexInvariant(expected, s) && RecordTally(s, id, o).Some?
    ensures IndexInvariant(expected, RecordTally(s, id, o).value)
  {
    var k := Get(s.constituencyIndex, id) - 1;
    var leaf := LeafOf(s.records[k], o);
    RecordOne(s.records, k, leaf);
    RecordIndexes(s.records, s.constituencyIndex, k, leaf);
    RecordLeaves(s.records, k, leaf);
    RecordAccumulator(s.records, k, leaf, s.accumulatedTallyCount, s.nationalTallyAccumulator);
  }

  lemma RecordAccumulator(records: seq<Record>, k: nat, leaf: TallyLeaf, n: nat, accumulator: Index)
    requires AccumulatorOk(records, n, accumulator) && k < |records| && records[k].leaf.None?
    ensures AccumulatorOk(records[k := records[k].(leaf := Some(leaf))], n, accumulator)
  {
    assert k >= n;
    assert records[k := records[k].(leaf := Some(leaf))][..n] == records[..n];
  }

  lemma AccumulateKeeps(expected: nat, s: IndexState)
    requires IndexInvariant(expected, s) && AccumulateNext(expected, s).Some?
    ensures IndexInvariant(expected, AccumulateNext(expected, s).value)
  {
    AccumulatorStep(s.records, s.accumulatedTallyCount, s.nationalTallyAccumulator);
  }

  lemma AccumulatorStep(records: seq<Record>, k: nat, accumulator: Index)
    requires AccumulatorOk(records, k, accumulator) && k < |records| && records[k].leaf.Some?
    ensures AccumulatorOk(records, k + 1, Indexed(accumulator, records[k].leaf.value))
  {
    assert records[..k + 1][..k] == records[..k];
  }

  lemma IndexStepKeeps(expected: nat, s: IndexState, call: IndexCall)
    requires IndexInvariant(expected, s)
    ensures IndexInvariant(expected, ApplyIndex(expected, s, call))
  {
    if AttemptIndex(expected, s, call).Some? {
      match call
      case RegisterCall(registrar, c) => RegisterKeeps(expected, s, registrar, c);
      case FreezeCall(admin) =>
      case RecordCall(id, o) => RecordKeeps(expected, s, id, o);
      case AccumulateCall => AccumulateKeeps(expected, s);
      case FinalizeIndexCall =>
    }
  }

  lemma {:induction false} IndexRunKeeps(expected: nat, s: IndexState, calls: seq<IndexCall>)
    requires IndexInvariant(expected, s)
    ensures IndexInvariant(expected, RunIndex(expected, s, calls))
  {
    if calls != [] {
      IndexRunKeeps(expected, s, calls[..|calls| - 1]);
      IndexStepKeeps(expected, RunIndex(expected, s, calls[..|calls| - 1]), calls[|calls| - 1]);
    }
  }

  /** Over every run: a finalized index has every expected constituency registered and recorded, its accumulator
      is the fold of their leaves in registration order and its count the sum of their recorded counts. */
  lemma FinalizedIndexComplete(expected: nat, calls: seq<IndexCall>)
    ensures var s := RunIndex(expected, EMPTY, calls);
      s.nationalIndexFinalized ==>
        && |s.records| == expected == s.recordedTallyCount
        && (forall i :: 0 <= i < expected ==> s.records[i].leaf.Some? && LeafMatches(s.records[i]))
        && s.nationalTallyAccumulator == FoldLeaves(s.records)
        && s.nationalAcceptedBallotCount == Ballots(s.records)
  {
    var s := RunIndex(expected, EMPTY, calls);
    IndexRunKeeps(expected, EMPTY, calls);
    if s.nationalIndexFinalized {
      assert s.records[..expected] == s.records;
      AllRecorded(s.records);
    }
  }

  lemma {:induction false} AllRecorded(records: seq<Record>)
    requires forall i :: 0 <= i < |records| ==> records[i].leaf.Some?
    ensures Recorded(records) == |records|
  {
    if records != [] {
      AllRecorded(records[..|records| - 1]);
    }
  }

  // ----- when the calls go through, in terms of the records

  ghost predicate IsRegistered(records: seq<Record>, id: ConstituencyId) {
    exists i :: 0 <= i < |records| && records[i].constituencyId == id
  }

  lemma FoundIffRegistered(records: seq<Record>, index: map<ConstituencyId, nat>, id: ConstituencyId)
    requires IndexedRecords(records, index)
    ensures Get(index, id) > 0 <==> IsRegistered(records, id)
    ensures forall i :: 0 <= i < |records| && records[i].constituencyId == id ==> i == Get(index, id) - 1
  {
    assert FoundAt(records, index, id);
    forall i | 0 <= i < |records| && records[i].constituencyId == id ensures Get(index, id) == i + 1 {
      assert IndexedAt(records, index, i);
    }
  }

  /** Registration goes through exactly for a registrar before the freeze, for a new constituency of this national
      election with consistent contracts, while there is room; it appends the record as given, without a leaf. */
  lemma RegisterIff(expected: nat, s: IndexState, registrar: bool, c: Registration)
    requires IndexInvariant(expected, s)
    ensures var r := Register(expected, s, registrar, c);
      && (r.Some? <==>
           && registrar && !s.registrationFrozen && c.electionConfig != 0 && c.tallyVerifier != 0
           && c.sameNationalElection && c.tallyUsesConfig && !IsRegistered(s.records, c.constituencyId) && |s.records| < expected)
      && (r.Some? ==>
           && |r.value.records| == |s.records| + 1 && s.records <= r.value.records
           && r.value.records[|s.records|].constituencyId == c.constituencyId
           && r.value.records[|s.records|].electionConfig == c.electionConfig
           && r.value.records[|s.records|].tallyVerifier == c.tallyVerifier && r.value.records[|s.records|].leaf.None?)
  {
    FoundIffRegistered(s.records, s.constituencyIndex, c.constituencyId);
  }

  /** Recording goes through exactly after the freeze, for a registered constituency without a leaf whose tally is
      published, while the count has room; it fills the leaf of that constituency and leaves all others alone. */
  lemma RecordIff(expected: nat, s: IndexState, id: ConstituencyId, o: Observed)
    requires IndexInvariant(expected, s)
    ensures var r := RecordTally(s, id, o);
      && (r.Some? <==>
           && s.registrationFrozen && o.published.Some? && s.nationalAcceptedBallotCount + o.acceptedCount < UINT64
           && exists i :: 0 <= i < |s.records| && s.records[i].constituencyId == id && s.records[i].leaf.None?)
      && (r.Some? ==>
           && |r.value.records| == |s.records|
           && r.value.nationalAcceptedBallotCount == s.nationalAcceptedBallotCount + o.acceptedCount
           && forall i :: 0 <= i < |s.records| ==>
                if s.records[i].constituencyId == id then r.value.records[i].leaf.Some? else r.value.records[i] == s.records[i])
  {
    FoundIffRegistered(s.records, s.constituencyIndex, id);
  }

  /** Freezing needs the administrator and every expected registration, accumulation the next leaf, finalization all of
      them. The first freezes, the second puts exactly that leaf on the accumulator, the third finalizes; none does
      anything else. */
  lemma ProgressIff(expected: nat, s: IndexState, admin: bool)
    requires IndexInvariant(expected, s)
    ensures var r := Freeze(expected, s, admin);
      && (r.Some? <==> admin && !s.registrationFrozen && |s.records| == expected)
      && (r.Some? ==> r.value.registrationFrozen && r.value == s.(registrationFrozen := true))
    ensures var r, k := AccumulateNext(expected, s), s.accumulatedTallyCount;
      && (r.Some? <==> s.registrationFrozen && k < expected && s.records[k].leaf.Some?)
      && (r.Some? ==>
           && r.value.accumulatedTallyCount == k + 1
           && r.value.nationalTallyAccumulator == Indexed(s.nationalTallyAccumulator, s.records[k].leaf.value)
           && r.value.records == s.records && r.value.nationalAcceptedBallotCount == s.nationalAcceptedBallotCount)
    ensures var r := FinalizeIndex(expected, s);
      && (r.Some? <==> s.registrationFrozen && s.accumulatedTallyCount == expected && !s.nationalIndexFinalized)
      && (r.Some? ==> r.value.nationalIndexFinalized && r.value == s.(nationalIndexFinalized := true))
  {
  }

  // ----- the order of recording and accumulating is immaterial

  /** Record calls that read the same published answers; a call made before publication reads none and reverts. */
  ghost predicate ReadsFrom(calls: seq<IndexCall>, view: ConstituencyId -> Observed) {
    forall c :: c in calls && c.RecordCall? ==> Reads(c, view)
  }

  predicate Reads(c: IndexCall, view: ConstituencyId -> Observed)
    requires c.RecordCall?
  {
    c.observed.published.None? || c.observed == view(c.id)
  }

  /** Records keep their registration, and each recorded leaf is the one the fixed view dictates. */
  ghost predicate Follows(frozen: IndexState, t: IndexState, view: ConstituencyId -> Observed) {
    && t.registrationFrozen && t.constituencyIndex == frozen.constituencyIndex
    && |t.records| == |frozen.records|
    && forall i :: 0 <= i < |t.records| ==> FollowsRecord(frozen.records[i], t.records[i], view)
  }

  ghost predicate FollowsRecord(registered: Record, r: Record, view: ConstituencyId -> Observed) {
    && r.(leaf := None) == registered.(leaf := None)
    && (r.leaf.Some? ==> view(r.constituencyId).published.Some? && r.leaf.value == LeafOf(r, view(r.constituencyId)))
  }

  lemma FollowsStep(expected: nat, frozen: IndexState, t: IndexState, call: IndexCall, view: ConstituencyId -> Observed)
    requires IndexInvariant(expected, t) && Follows(frozen, t, view)
    requires call.RecordCall? ==> Reads(call, view)
    ensures Follows(frozen, ApplyIndex(expected, t, call), view)
  {
    if call.RecordCall? && RecordTally(t, call.id, call.observed).Some? {
      FollowsRecordTally(frozen, t, call.id, call.observed, view);
    }
  }

  lemma FollowsRecordTally(frozen: IndexState, t: IndexState, id: ConstituencyId, o: Observed, view: ConstituencyId -> Observed)
    requires IndexedRecords(t.records, t.constituencyIndex) && Follows(frozen, t, view)
    requires RecordTally(t, id, o).Some? && o == view(id)
    ensures Follows(frozen, RecordTally(t, id, o).value, view)
  {
    var u := RecordTally(t, id, o).value;
    assert FoundAt(t.records, t.constituencyIndex, id);
    forall i | 0 <= i < |u.records| ensures FollowsRecord(frozen.records[i], u.records[i], view) {
      assert FollowsRecord(frozen.records[i], t.records[i], view);
    }
  }

  lemma {:induction false} FollowsRun(expected: nat, frozen: IndexState, calls: seq<IndexCall>, view: ConstituencyId -> Observed)
    requires IndexInvariant(expected, frozen) && frozen.registrationFrozen && frozen.recordedTallyCount == 0
    requires ReadsFrom(calls, view)
    ensures Follows(frozen, RunIndex(expected, frozen, calls), view)
  {
    if calls == [] {
      NoneRecorded(frozen.records);
    } else {
      var front, last := calls[..|calls| - 1], calls[|calls| - 1];
      assert last in calls && forall c :: c in front ==> c in calls;
      FollowsRun(expected, frozen, front, view);
      IndexRunKeeps(expected, frozen, front);
      FollowsStep(expected, frozen, RunIndex(expected, frozen, front), last, view);
    }
  }

  lemma {:induction false} NoneRecorded(records: seq<Record>)
    requires Recorded(records) == 0
    ensures forall i :: 0 <= i < |records| ==> records[i].leaf.None?
  {
    if records != [] {
      var n := |records| - 1;
      NoneRecorded(records[..n]);
      assert forall i :: 0 <= i < n ==> records[..n][i] == records[i];
    }
  }

  /** From a freshly frozen registration, any two interleavings of record, accumulate and finalize calls (reverted
      ones included, also those too early) that read the same constituency answers and finalize end in the same state: accumulator,
      count and all records. */
  lemma OrderIrrelevant(expected: nat, frozen: IndexState, a: seq<IndexCall>, b: seq<IndexCall>, view: ConstituencyId -> Observed)
    requires IndexInvariant(expected, frozen) && frozen.registrationFrozen && frozen.recordedTallyCount == 0
    requires ReadsFrom(a, view) && ReadsFrom(b, view)
    requires RunIndex(expected, frozen, a).nationalIndexFinalized && RunIndex(expected, frozen, b).nationalIndexFinalized
    ensures RunIndex(expected, frozen, a) == RunIndex(expected, frozen, b)
  {
    var s, t := RunIndex(expected, frozen, a), RunIndex(expected, frozen, b);
    FollowsRun(expected, frozen, a, view);
    FollowsRun(expected, frozen, b, view);
    IndexRunKeeps(expected, frozen, a);
    IndexRunKeeps(expected, frozen, b);
    FinalState(expected, s);
    FinalState(expected, t);
    RecordsAgree(frozen, s, t, view);
  }

  lemma RecordsAgree(frozen: IndexState, s: IndexState, t: IndexState, view: ConstituencyId -> Observed)
    requires Follows(frozen, s, view) && Follows(frozen, t, view)
    requires forall i :: 0 <= i < |frozen.records| ==> s.records[i].leaf.Some? && t.records[i].leaf.Some?
    ensures s.records == t.records
  {
    forall i | 0 <= i < |frozen.records| ensures s.records[i] == t.records[i] {
      assert FollowsRecord(frozen.records[i], s.records[i], view) && FollowsRecord(frozen.records[i], t.records[i], view);
    }
  }

  /** A finalized state is a function of its records. */
  lemma FinalState(expected: nat, s: IndexState)
    requires IndexInvariant(expected, s) && s.nationalIndexFinalized
    ensures |s.records| == expected && forall i :: 0 <= i < |s.records| ==> s.records[i].leaf.Some?
    ensures s == IndexState(true, true, Recorded(s.records), expected, Ballots(s.records), FoldLeaves(s.records), s.constituencyIndex, s.records)
  {
    assert s.records[..expected] == s.records;
  }

  // ----- published counts reach the index

  /** Every stored leaf is what its record and the published answers dictate. */
  ghost predicate LeavesFrom(records: seq<Record>, view: ConstituencyId -> Observed) {
    forall i :: 0 <= i < |records| ==> LeafFrom(records[i], view)
  }

  ghost predicate LeafFrom(r: Record, view: ConstituencyId -> Observed) {
    r.leaf.Some? ==> view(r.constituencyId).published.Some? && r.leaf.value == LeafOf(r.(leaf := None), view(r.constituencyId))
  }

  lemma LeavesStep(expected: nat, s: IndexState, call: IndexCall, view: ConstituencyId -> Observed)
    requires IndexInvariant(expected, s) && LeavesFrom(s.records, view) && (call.RecordCall? ==> Reads(call, view))
    ensures LeavesFrom(ApplyIndex(expected, s, call).records, view)
  {
    if call.RecordCall? && RecordTally(s, call.id, call.observed).Some? {
      RecordedLeaf(s, call.id, call.observed, view);
    }
  }

  lemma RecordedLeaf(s: IndexState, id: ConstituencyId, o: Observed, view: ConstituencyId -> Observed)
    requires IndexedRecords(s.records, s.constituencyIndex) && LeavesFrom(s.records, view) && RecordTally(s, id, o).Some? && o == view(id)
    ensures LeavesFrom(RecordTally(s, id, o).value.records, view)
  {
    var t, k := RecordTally(s, id, o).value, Get(s.constituencyIndex, id) - 1;
    assert FoundAt(s.records, s.constituencyIndex, id);
    forall i | 0 <= i < |t.records| ensures LeafFrom(t.records[i], view) {
      assert LeafFrom(s.records[i], view);
    }
  }

  lemma {:induction false} LeavesRun(expected: nat, calls: seq<IndexCall>, view: ConstituencyId -> Observed)
    requires ReadsFrom(calls, view)
    ensures LeavesFrom(RunIndex(expected, EMPTY, calls).records, view)
  {
    if calls != [] {
      var front, last := calls[..|calls| - 1], calls[|calls| - 1];
      assert last in calls && forall c :: c in front ==> c in calls;
      LeavesRun(expected, front, view);
      IndexRunKeeps(expected, EMPTY, front);
      LeavesStep(expected, RunIndex(expected, EMPTY, front), last, view);
    }
  }

  /** Published candidate counts of the recorded constituencies, added up in registration order. */
  function PublishedBallots(records: seq<Record>, view: ConstituencyId -> Observed): int {
    if records == [] then 0
    else
      var last := records[|records| - 1];
      var o := view(last.constituencyId);
      PublishedBallots(records[..|records| - 1], view)
        + if last.leaf.Some? && o.published.Some? then Total(o.published.value.publicInputsHash.candidateCounts) else 0
  }

  /** The accepted count beside a published tally is what its candidate counts add up to. */
  ghost predicate Matched(view: ConstituencyId -> Observed) {
    forall id :: MatchedAt(view(id))
  }

  predicate MatchedAt(o: Observed) {
    o.published.Some? ==> o.acceptedCount == Total(o.published.value.publicInputsHash.candidateCounts)
  }

  lemma {:induction false} BallotsPublished(records: seq<Record>, view: ConstituencyId -> Observed)
    requires LeavesFrom(records, view) && Matched(view)
    ensures Ballots(records) == PublishedBallots(records, view)
  {
    if records != [] {
      var n := |records| - 1;
      BallotsPublished(records[..n], view);
      assert LeafFrom(records[n], view) && MatchedAt(view(records[n].constituencyId));
    }
  }

  /** A recorded leaf holds, field by field, its registration and the published result. */
  ghost predicate LeafTells(r: Record, view: ConstituencyId -> Observed) {
    r.leaf.Some? ==>
      var leaf, o := r.leaf.value, view(r.constituencyId);
      && leaf.constituencyId == r.constituencyId && leaf.electionConfig == r.electionConfig && leaf.tallyVerifier == r.tallyVerifier
      && o.published.Some?
      && leaf.resultHash == o.published.value.resultHash
      && leaf.tallyArtifactDigest == o.published.value.tallyArtifactDigest
      && leaf.publicInputsHash == o.published.value.publicInputsHash
      && leaf.acceptedCount == o.acceptedCount
  }

  lemma LeafIsPublished(r: Record, view: ConstituencyId -> Observed)
    ensures LeafFrom(r, view) <==> LeafTells(r, view)
  {
  }

  /** Over every run in which each published answer matches its tally: the national count is at any time the sum of
      the published candidate counts of the recorded constituencies, and each stored leaf carries its own. */
  lemma NationalCountIsPublished(expected: nat, calls: seq<IndexCall>, view: ConstituencyId -> Observed)
    requires ReadsFrom(calls, view) && Matched(view)
    ensures var s := RunIndex(expected, EMPTY, calls);
      && s.nationalAcceptedBallotCount == PublishedBallots(s.records, view)
      && (forall i :: 0 <= i < |s.records| ==> LeafTells(s.records[i], view))
      && forall i :: 0 <= i < |s.records| && s.records[i].leaf.Some? ==> LeafMatched(s.records[i].leaf.value)
  {
    var s := RunIndex(expected, EMPTY, calls);
    IndexRunKeeps(expected, EMPTY, calls);
    LeavesRun(expected, calls, view);
    BallotsPublished(s.records, view);
    forall i | 0 <= i < |s.records| ensures LeafTells(s.records[i], view) {
      assert LeafFrom(s.records[i], view);
      LeafIsPublished(s.records[i], view);
    }
    forall i | 0 <= i < |s.records| && s.records[i].leaf.Some? ensures LeafMatched(s.records[i].leaf.value) {
      assert LeafTells(s.records[i], view) && MatchedAt(view(s.records[i].constituencyId));
    }
  }

  predicate LeafMatched(leaf: TallyLeaf) {
    leaf.acceptedCount == Total(leaf.publicInputsHash.candidateCounts)
  }

  /** A constituency at the moment its tally is published. */
  datatype Constituency = Constituency(config: Config, state: State, now: nat, result: Result, tally: TallyConfig)

  /** Published after the settlement window. */
  ghost predicate SettledFirst(c: Constituency) {
    ValidConfig(c.config) && c.config.settlementEndsAt < c.now && PublishedIn(c.result, c.tally, c.state)
  }

  /** The answer of a constituency that published after its settlement window. */
  ghost function AnswerOf(c: Constituency): Observed {
    if SettledFirst(c) then Observed(Some(c.result), c.state.acceptedBallotCount) else Observed(None, 0)
  }

  ghost function Answers(constituency: ConstituencyId -> Constituency): ConstituencyId -> Observed {
    (id: ConstituencyId) => AnswerOf(constituency(id))
  }

  /** What the national index reads: nothing before publication, and afterwards the result together with whatever
      the settlement contract's count is by then. */
  ghost predicate ReadsConstituency(o: Observed, c: Constituency) {
    o.published.None? || exists later :: ReadsAfter(o, c, later)
  }

  ghost predicate ReadsAfter(o: Observed, c: Constituency, later: seq<Call>) {
    NotBefore(later, c.now) && o == Observed(Some(c.result), Run(c.config, c.state, later).acceptedBallotCount)
  }

  lemma AnswerMatched(c: Constituency)
    ensures MatchedAt(AnswerOf(c))
  {
  }

  lemma SettledAnswer(o: Observed, c: Constituency)
    requires SettledFirst(c) && ReadsConstituency(o, c)
    ensures o.published.None? || o == AnswerOf(c)
  {
    if o.published.Some? {
      var later :| ReadsAfter(o, c, later);
      PublishedAfterSettlementHolds(c.config, c.state, c.now, c.result, c.tally, later);
    }
  }

  /** From the settlement contracts to the national index. When every recorded constituency publishes after its
      settlement window, then over every run of the index, and whatever the constituency contracts do meanwhile: the
      national count is the sum of the published candidate counts in registration order, every stored leaf carries
      the count of its own tally, and a finalized index has recorded every constituency. */
  lemma LeafCarriesPublishedCount(expected: nat, calls: seq<IndexCall>, constituency: ConstituencyId -> Constituency)
    requires forall c :: c in calls && c.RecordCall? && c.observed.published.Some? ==>
               SettledFirst(constituency(c.id)) && ReadsConstituency(c.observed, constituency(c.id))
    ensures var s := RunIndex(expected, EMPTY, calls);
      && s.nationalAcceptedBallotCount == PublishedBallots(s.records, Answers(constituency))
      && (forall i :: 0 <= i < |s.records| ==> LeafTells(s.records[i], Answers(constituency)))
      && (forall i :: 0 <= i < |s.records| && s.records[i].leaf.Some? ==> LeafMatched(s.records[i].leaf.value))
      && (s.nationalIndexFinalized ==> |s.records| == expected && forall i :: 0 <= i < expected ==> s.records[i].leaf.Some?)
  {
    forall c | c in calls && c.RecordCall? ensures Reads(c, Answers(constituency)) {
      if c.observed.published.Some? {
        SettledAnswer(c.observed, constituency(c.id));
      }
    }
    forall id ensures MatchedAt(Answers(constituency)(id)) {
      AnswerMatched(constituency(id));
    }
    NationalCountIsPublished(expected, calls, Answers(constituency));
    FinalizedIndexComplete(expected, calls);
  }

  // ----- the contract

  class NationalElectionIndexV4 {
    const expectedConstituencyCount: nat
    var registrationFrozen: bool
    var nationalIndexFinalized: bool
    var registeredConstituencyCount: nat
    var recordedTallyCount: nat
    var accumulatedTallyCount: nat
    var nationalAcceptedBallotCount: nat
    var nationalTallyAccumulator: Index
    var constituencyIndex: map<ConstituencyId, nat>
    var records: seq<Record>

    ghost function Model(): IndexState
      reads this
    {
      IndexState(registrationFrozen, nationalIndexFinalized, recordedTallyCount, accumulatedTallyCount,
                 nationalAcceptedBallotCount, nationalTallyAccumulator, constituencyIndex, records)
    }

    /** The bounds the methods rely on; the full invariant holds of `Model()` by `IndexRunKeeps`. */
    ghost predicate Valid()
      reads this
    {
      && registeredConstituencyCount == |records| <= expectedConstituencyCount
      && (registrationFrozen ==> |records| == expectedConstituencyCount)
      && forall id :: Get(constituencyIndex, id) <= |records|
    }

    constructor (expected: nat)
      requires 0 < expected < UINT32
      ensures Valid() && Model() == EMPTY && expectedConstituencyCount == expected
    {
      expectedConstituencyCount := expected;
      registrationFrozen, nationalIndexFinalized := false, false;
      registeredConstituencyCount, recordedTallyCount, accumulatedTallyCount := 0, 0, 0;
      nationalAcceptedBallotCount, nationalTallyAccumulator := 0, IndexZero;
      constituencyIndex, records := map[], [];
    }

    method RegisterConstituency(registrar: bool, c: Registration) returns (ok: bool)
      requires Valid()
      modifies this
      ensures Valid()
      ensures ok <==> Register(expectedConstituencyCount, old(Model()), registrar, c).Some?
      ensures Model() == ApplyIndex(expectedConstituencyCount, old(Model()), RegisterCall(registrar, c))
    {
      if !registrar || registrationFrozen {
        return false;
      }
      if c.electionConfig == 0 || c.tallyVerifier == 0 || !c.sameNationalElection || !c.tallyUsesConfig {
        return false;
      }
      if Get(constituencyIndex, c.constituencyId) != 0 {
        return false;
      }
      var count := registeredConstituencyCount;
      if count >= expectedConstituencyCount {
        return false;
      }
      records := records + [Record(c.constituencyId, c.electionConfig, c.tallyVerifier, None)];
      ghost var before := constituencyIndex;
      constituencyIndex := constituencyIndex[c.constituencyId := count + 1];
      registeredConstituencyCount := count + 1;
      forall id ensures Get(constituencyIndex, id) <= |records| {
        assert Get(before, id) <= |records|;
      }
      return true;
    }

    method FreezeRegistration(admin: bool) returns (ok: bool)
      requires Valid()
      modifies this
      ensures Valid()
      ensures ok <==> Freeze(expectedConstituencyCount, old(Model()), admin).Some?
      ensures Model() == ApplyIndex(expectedConstituencyCount, old(Model()), FreezeCall(admin))
    {
      if !admin || registrationFrozen || registeredConstituencyCount != expectedConstituencyCount {
        return false;
      }
      registrationFrozen := true;
      return true;
    }

    method RecordConstituencyTally(id: ConstituencyId, o: Observed) returns (ok: bool)
      requires Valid()
      modifies this
      ensures Valid()
      ensures ok <==> RecordTally(old(Model()), id, o).Some?
      ensures Model() == ApplyIndex(expectedConstituencyCount, old(Model()), RecordCall(id, o))
    {
      if !registrationFrozen {
        return false;
      }
      var indexPlusOne := Get(constituencyIndex, id);
      if indexPlusOne == 0 {
        return false;
      }
      var index := indexPlusOne - 1;
      var record := records[index];
      if record.leaf.Some? || o.published.None? {
        return false;
      }
      if nationalAcceptedBallotCount + o.acceptedCount >= UINT64 {
        return false;
      }
      records := records[index := record.(leaf := Some(LeafOf(record, o)))];
      recordedTallyCount := recordedTallyCount + 1;
      nationalAcceptedBallotCount := nationalAcceptedBallotCount + o.acceptedCount;
      return true;
    }

    method AccumulateNextTally() returns (ok: bool)
      requires Valid()
      modifies this
      ensures Valid()
      ensures ok <==> AccumulateNext(expectedConstituencyCount, old(Model())).Some?
      ensures Model() == ApplyIndex(expectedConstituencyCount, old(Model()), AccumulateCall)
    {
      if !registrationFrozen {
        return false;
      }
      var index := accumulatedTallyCount;
      if index >= expectedConstituencyCount {
        return false;
      }
      if records[index].leaf.None? {
        return false;
      }
      nationalTallyAccumulator := Indexed(nationalTallyAccumulator, records[index].leaf.value);
      accumulatedTallyCount := index + 1;
      return true;
    }

    method FinalizeNationalIndex() returns (ok: bool)
      requires Valid()
      modifies this
      ensures Valid()
      ensures ok <==> FinalizeIndex(expectedConstituencyCount, old(Model())).Some?
      ensures Model() == ApplyIndex(expectedConstituencyCount, old(Model()), FinalizeIndexCall)
    {
      if !registrationFrozen || accumulatedTallyCount != expectedConstituencyCount || nationalIndexFinalized {
        return false;
      }
      nationalIndexFinalized := true;
      return true;
    }
  }
}
