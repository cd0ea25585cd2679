/** The distributed key ceremony: a coordinator that collects two signed rounds from nine trustees. */
module Dkg {
  import opened Wrappers
  import opened Sequences
  import opened Sorting
  import opened Nullifiers

  const DKG_THRESHOLD: nat := 5
  const DKG_TRUSTEE_COUNT: nat := 9

  /** Collision-free contribution hashes; any other bytes32 may appear as a claimed parent. */
  datatype DkgHash = NoParent | OtherHash(value: nat) | ContributionHash(contribution: Unsigned)

  datatype Unsigned = Unsigned(
    ceremonyId: nat, nationalElectionId: nat, constituencyId: nat, trusteeIndex: nat, round: nat,
    pedersenCommitmentDigest: nat, encryptedShareBundleDigest: nat, previousContributionHash: DkgHash)

  /** The signature is no part of the hash. */
  datatype Message = Message(unsigned: Unsigned, signature: nat)

  datatype Trustee = Trustee(trusteeIndex: nat, signingPublicKey: nat)

  datatype Evidence = Evidence(trusteeIndex: nat, round: nat, first: DkgHash, second: DkgHash)

  /** A ceremony, with signature verification as an oracle. */
  datatype Ceremony = Ceremony(
    ceremonyId: nat, nationalElectionId: nat, constituencyId: nat, trustees: seq<Trustee>, signed: (Message, nat) -> bool)

  function HashOf(m: Message): DkgHash {
    ContributionHash(m.unsigned)
  }

  /** The hash binds every field of a contribution, and not its signature. */
  lemma HashBindsContribution(m: Message, n: Message)
    ensures HashOf(m) == HashOf(n) <==> m.unsigned == n.unsigned
    ensures HashOf(m) != NoParent
  {
  }

  function Indexes(trustees: seq<Trustee>): (r: seq<nat>)
    ensures |r| == |trustees|
  {
    seq(|trustees|, k requires 0 <= k < |trustees| => trustees[k].trusteeIndex)
  }

  predicate ValidCeremony(c: Ceremony) {
    && |c.trustees| == DKG_TRUSTEE_COUNT
    && (forall t :: t in c.trustees ==> 1 <= t.trusteeIndex <= DKG_TRUSTEE_COUNT)
    && NoDuplicates(Indexes(c.trustees))
  }

  type Contributions = map<(nat, nat), Message>

  /** The coordinator's collections; the disqualified set in insertion order. */
  datatype State = State(contributions: Contributions, disqualified: seq<nat>, equivocations: seq<Evidence>)

  const EMPTY := State(map[], [], [])

  // ----- one message

  /** Right ceremony, known trustee, valid round and signature. */
  predicate Admissible(c: Ceremony, m: Message) {
    && m.unsigned.ceremonyId == c.ceremonyId && m.unsigned.nationalElectionId == c.nationalElectionId
    && m.unsigned.constituencyId == c.constituencyId
    && (m.unsigned.round == 1 || m.unsigned.round == 2)
    && exists k :: 0 <= k < |c.trustees| && c.trustees[k].trusteeIndex == m.unsigned.trusteeIndex && c.signed(m, c.trustees[k].signingPublicKey)
  }

  /** The parent a first message of its round must name: none in round one, the stored round one in round two. */
  predicate ParentOk(contributions: Contributions, m: Message) {
    if m.unsigned.round == 1 then m.unsigned.previousContributionHash == NoParent
    else
      && (m.unsigned.trusteeIndex, 1) in contributions
      && m.unsigned.previousContributionHash == HashOf(contributions[(m.unsigned.trusteeIndex, 1)])
  }

  predicate IsStored(contributions: Contributions, m: Message) {
    (m.unsigned.trusteeIndex, m.unsigned.round) in contributions
  }

  function AddOnce(xs: seq<nat>, x: nat): seq<nat> {
    if x in xs then xs else xs + [x]
  }

  /** The effect of an admissible message: replay, equivocation, rejected parent, or storing. */
  function Take(s: State, m: Message): State {
    var t, r := m.unsigned.trusteeIndex, m.unsigned.round;
    if (t, r) in s.contributions then
      var existing := HashOf(s.contributions[(t, r)]);
      if existing == HashOf(m) then s
      else s.(disqualified := AddOnce(s.disqualified, t), equivocations := s.equivocations + [Evidence(t, r, existing, HashOf(m))])
    else if !ParentOk(s.contributions, m) then s
    else s.(contributions := s.contributions[(t, r) := m])
  }

  /** The state after `addContribution`; a throw leaves it as it was. */
  function Step(c: Ceremony, s: State, m: Message): State {
    if Admissible(c, m) then Take(s, m) else s
  }

  function Run(c: Ceremony, s: State, messages: seq<Message>): State {
    if messages == [] then s else Step(c, Run(c, s, messages[..|messages| - 1]), messages[|messages| - 1])
  }

  // ----- the coordinator as independent per-trustee machines

  /** Everything the coordinator holds about one trustee. */
  datatype View = View(first: Option<Message>, second: Option<Message>, disqualified: bool, evidence: seq<Evidence>)

  function Stored(contributions: Contributions, t: nat, round: nat): Option<Message> {
    if (t, round) in contributions then Some(contributions[(t, round)]) else None
  }

  function EvidenceAgainst(es: seq<Evidence>, t: nat): seq<Evidence> {
    if es == [] then []
    else EvidenceAgainst(es[..|es| - 1], t) + if es[|es| - 1].trusteeIndex == t then [es[|es| - 1]] else []
  }

  function ViewOf(s: State, t: nat): View {
    View(Stored(s.contributions, t, 1), Stored(s.contributions, t, 2), t in s.disqualified, EvidenceAgainst(s.equivocations, t))
  }

  /** One trustee's machine on its own messages. */
  function OwnTake(v: View, m: Message): View {
    var mine := if m.unsigned.round == 1 then v.first else v.second;
    if mine.Some? then
      if HashOf(mine.value) == HashOf(m) then v
      else v.(disqualified := true,
              evidence := v.evidence + [Evidence(m.unsigned.trusteeIndex, m.unsigned.round, HashOf(mine.value), HashOf(m))])
    else if m.unsigned.round == 1 then
      if m.unsigned.previousContributionHash == NoParent then v.(first := Some(m)) else v
    else if v.first.Some? && m.unsigned.previousContributionHash == HashOf(v.first.value) then v.(second := Some(m)) else v
  }

  function OwnStep(c: Ceremony, v: View, m: Message): View {
    if Admissible(c, m) then OwnTake(v, m) else v
  }

  function OwnRun(c: Ceremony, messages: seq<Message>): View {
    if messages == [] then View(None, None, false, [])
    else OwnStep(c, OwnRun(c, messages[..|messages| - 1]), messages[|messages| - 1])
  }

  /** The subsequence of messages that name trustee t, rejected ones included. */
  function Own(messages: seq<Message>, t: nat): seq<Message> {
    if messages == [] then []
    else
      var last := messages[|messages| - 1];
      Own(messages[..|messages| - 1], t) + if last.unsigned.trusteeIndex == t then [last] else []
  }

  lemma EvidenceSnoc(es: seq<Evidence>, e: Evidence, t: nat)
    ensures EvidenceAgainst(es + [e], t) == EvidenceAgainst(es, t) + if e.trusteeIndex == t then [e] else []
  {
    assert (es + [e])[..|es|] == es;
  }

  lemma StepByTrustee(c: Ceremony, s: State, m: Message, t: nat)
    ensures ViewOf(Step(c, s, m), t) == if m.unsigned.trusteeIndex == t then OwnStep(c, ViewOf(s, t), m) else ViewOf(s, t)
  {
    if Admissible(c, m) {
      TakeByTrustee(s, m, t);
    }
  }

  lemma TakeByTrustee(s: State, m: Message, t: nat)
    requires m.unsigned.round == 1 || m.unsigned.round == 2
    ensures ViewOf(Take(s, m), t) == if m.unsigned.trusteeIndex == t then OwnTake(ViewOf(s, t), m) else ViewOf(s, t)
  {
    var u, r := m.unsigned.trusteeIndex, m.unsigned.round;
    if (u, r) in s.contributions && HashOf(s.contributions[(u, r)]) != HashOf(m) {
      EvidenceSnoc(s.equivocations, Evidence(u, r, HashOf(s.contributions[(u, r)]), HashOf(m)), t);
    }
  }

  /** What the coordinator holds about a trustee is a function of that trustee's own messages, in their order. */
  lemma {:induction false} RunByTrustee(c: Ceremony, messages: seq<Message>, t: nat)
    ensures ViewOf(Run(c, EMPTY, messages), t) == OwnRun(c, Own(messages, t))
  {
    if messages != [] {
      var front, last := messages[..|messages| - 1], messages[|messages| - 1];
      RunByTrustee(c, front, t);
      StepByTrustee(c, Run(c, EMPTY, front), last, t);
      if last.unsigned.trusteeIndex == t {
        assert Own(messages, t)[..|Own(front, t)|] == Own(front, t);
      } else {
        assert Own(messages, t) == Own(front, t);
      }
    }
  }

  // ----- what every run keeps

  /** A verified message of the accused trustee and round carries the second hash. */
  predicate Accuses(c: Ceremony, m: Message, e: Evidence) {
    && Admissible(c, m) && HashOf(m) == e.second
    && m.unsigned.trusteeIndex == e.trusteeIndex && m.unsigned.round == e.round
  }

  /** Evidence names two distinct verified messages of one trustee and round, the first of them stored. */
  ghost predicate SoundEvidence(c: Ceremony, s: State, e: Evidence) {
    && (e.trusteeIndex, e.round) in s.contributions
    && e.first == HashOf(s.contributions[(e.trusteeIndex, e.round)]) && e.second != e.first
    && exists m :: Accuses(c, m, e)
  }

  /** Stored messages are admissible and filed under their trustee and round, round one has no parent, round two
      names the stored round one, and the disqualified trustees are exactly those with evidence. */
  ghost predicate StateOk(c: Ceremony, s: State) {
    && (forall k :: k in s.contributions ==> ContributionOk(c, s.contributions, k))
    && (forall e :: e in s.equivocations ==> SoundEvidence(c, s, e))
    && (forall t :: t in s.disqualified <==> exists e :: e in s.equivocations && e.trusteeIndex == t)
    && NoDuplicates(s.disqualified)
  }

  ghost predicate ContributionOk(c: Ceremony, contributions: Contributions, k: (nat, nat))
    requires k in contributions
  {
    var m := contributions[k];
    Admissible(c, m) && k == (m.unsigned.trusteeIndex, m.unsigned.round) && ParentOk(contributions, m)
  }

  lemma StoreKeeps(c: Ceremony, s: State, m: Message)
    requires StateOk(c, s) && Admissible(c, m) && ParentOk(s.contributions, m)
    requires (m.unsigned.trusteeIndex, m.unsigned.round) !in s.contributions
    ensures StateOk(c, s.(contributions := s.contributions[(m.unsigned.trusteeIndex, m.unsigned.round) := m]))
  {
    var k := (m.unsigned.trusteeIndex, m.unsigned.round);
    var after := s.contributions[k := m];
    forall j | j in after ensures ContributionOk(c, after, j) {
      if j != k {
        assert ContributionOk(c, s.contributions, j);
      }
    }
    forall e | e in s.equivocations ensures SoundEvidence(c, s.(contributions := after), e) {
      assert SoundEvidence(c, s, e);
    }
  }

  lemma AccuseKeeps(c: Ceremony, s: State, e: Evidence)
    requires StateOk(c, s) && SoundEvidence(c, s, e)
    ensures StateOk(c, s.(disqualified := AddOnce(s.disqualified, e.trusteeIndex), equivocations := s.equivocations + [e]))
  {
    var t := s.(disqualified := AddOnce(s.disqualified, e.trusteeIndex), equivocations := s.equivocations + [e]);
    forall f | f in t.equivocations ensures SoundEvidence(c, t, f) {
      assert f == e || SoundEvidence(c, s, f);
    }
    forall u ensures u in t.disqualified <==> exists f :: f in t.equivocations && f.trusteeIndex == u {
      if u == e.trusteeIndex {
        assert e in t.equivocations;
      } else if u in t.disqualified {
        var f :| f in s.equivocations && f.trusteeIndex == u;
        assert f in t.equivocations;
      }
    }
  }

  lemma StepKeeps(c: Ceremony, s: State, m: Message)
    requires StateOk(c, s)
    ensures StateOk(c, Step(c, s, m))
  {
    var t, r := m.unsigned.trusteeIndex, m.unsigned.round;
    if Admissible(c, m) {
      if (t, r) in s.contributions {
        if HashOf(s.contributions[(t, r)]) != HashOf(m) {
          assert Accuses(c, m, Evidence(t, r, HashOf(s.contributions[(t, r)]), HashOf(m)));
          AccuseKeeps(c, s, Evidence(t, r, HashOf(s.contributions[(t, r)]), HashOf(m)));
        }
      } else if ParentOk(s.contributions, m) {
        StoreKeeps(c, s, m);
      }
    }
  }

  lemma {:induction false} RunKeeps(c: Ceremony, messages: seq<Message>)
    ensures StateOk(c, Run(c, EMPTY, messages))
  {
    if messages != [] {
      RunKeeps(c, messages[..|messages| - 1]);
      StepKeeps(c, Run(c, EMPTY, messages[..|messages| - 1]), messages[|messages| - 1]);
    }
  }

  /** Continuing a run never replaces a stored message, withdraws evidence or lifts a disqualification. */
  lemma {:induction false} RunOnlyGrows(c: Ceremony, s: State, messages: seq<Message>)
    ensures var t := Run(c, s, messages);
      && (forall k :: k in s.contributions ==> k in t.contributions && t.contributions[k] == s.contributions[k])
      && s.disqualified <= t.disqualified && s.equivocations <= t.equivocations
  {
    if messages != [] {
      RunOnlyGrows(c, s, messages[..|messages| - 1]);
    }
  }

  /** Message k conflicts with the message already stored for its trustee and round. */
  ghost predicate Conflicts(c: Ceremony, messages: seq<Message>, k: nat, t: nat)
    requires k < |messages|
  {
    var m := messages[k];
    var stored := Run(c, EMPTY, messages[..k]).contributions;
    && Admissible(c, m) && m.unsigned.trusteeIndex == t
    && (t, m.unsigned.round) in stored && HashOf(stored[(t, m.unsigned.round)]) != HashOf(m)
  }

  /** A trustee is disqualified exactly when one of its verified messages met a different stored message of the
      same round. Two conflicting messages of which neither was stored leave no trace. */
  lemma {:induction false} DisqualifiedIff(c: Ceremony, messages: seq<Message>, t: nat)
    ensures t in Run(c, EMPTY, messages).disqualified <==> exists k :: 0 <= k < |messages| && Conflicts(c, messages, k, t)
  {
    if messages != [] {
      var n := |messages| - 1;
      var front := messages[..n];
      DisqualifiedIff(c, front, t);
      forall k | 0 <= k < n ensures Conflicts(c, messages, k, t) <==> Conflicts(c, front, k, t) {
        assert front[..k] == messages[..k];
      }
      assert t in Run(c, EMPTY, messages).disqualified <==> t in Run(c, EMPTY, front).disqualified || Conflicts(c, messages, n, t);
    }
  }

  lemma {:induction false} StoredWasSent(c: Ceremony, messages: seq<Message>, key: (nat, nat)) returns (j: nat)
    requires key in Run(c, EMPTY, messages).contributions
    ensures j < |messages| && messages[j] == Run(c, EMPTY, messages).contributions[key] && Admissible(c, messages[j])
    ensures key == (messages[j].unsigned.trusteeIndex, messages[j].unsigned.round)
  {
    var n := |messages| - 1;
    var before := Run(c, EMPTY, messages[..n]).contributions;
    if key in before {
      j := StoredWasSent(c, messages[..n], key);
      RunOnlyGrows(c, Run(c, EMPTY, messages[..n]), [messages[n]]);
    } else {
      j := n;
    }
  }

  /** Two verified messages of trustee t for one round. */
  predicate SameSlot(c: Ceremony, m: Message, n: Message, t: nat) {
    && Admissible(c, m) && Admissible(c, n)
    && m.unsigned.trusteeIndex == t == n.unsigned.trusteeIndex && m.unsigned.round == n.unsigned.round
  }

  /** Messages j and k of the run are what the evidence says: two verified messages of its trustee and round, with
      its two distinct hashes. */
  predicate ShownBy(c: Ceremony, messages: seq<Message>, e: Evidence, j: nat, k: nat) {
    && j < |messages| && k < |messages|
    && SameSlot(c, messages[j], messages[k], e.trusteeIndex) && messages[j].unsigned.round == e.round
    && HashOf(messages[j]) == e.first && HashOf(messages[k]) == e.second && e.first != e.second
  }

  ghost predicate Shown(c: Ceremony, messages: seq<Message>, e: Evidence) {
    exists j: nat, k: nat :: ShownBy(c, messages, e, j, k)
  }

  /** Over every run, each piece of evidence comes from two messages of the run. */
  lemma {:induction false} EvidenceShown(c: Ceremony, messages: seq<Message>, e: Evidence)
    requires e in Run(c, EMPTY, messages).equivocations
    ensures Shown(c, messages, e)
  {
    var n := |messages| - 1;
    var front, m := messages[..n], messages[n];
    var before := Run(c, EMPTY, front);
    if e in before.equivocations {
      EvidenceShown(c, front, e);
      var j: nat, k: nat :| ShownBy(c, front, e, j, k);
      assert ShownBy(c, messages, e, j, k);
    } else {
      var j := StoredWasSent(c, front, (m.unsigned.trusteeIndex, m.unsigned.round));
      assert ShownBy(c, messages, e, j, n);
    }
  }

  /** Exactly the trustees with shown evidence are disqualified. */
  lemma DisqualifiedAreShown(c: Ceremony, messages: seq<Message>)
    ensures forall e :: e in Run(c, EMPTY, messages).equivocations ==> Shown(c, messages, e)
    ensures forall t :: t in Run(c, EMPTY, messages).disqualified <==>
      exists e :: e in Run(c, EMPTY, messages).equivocations && e.trusteeIndex == t
  {
    RunKeeps(c, messages);
    forall e | e in Run(c, EMPTY, messages).equivocations ensures Shown(c, messages, e) {
      EvidenceShown(c, messages, e);
    }
  }

  /** At most one distinct verified message per round. */
  ghost predicate Honest(c: Ceremony, messages: seq<Message>, t: nat) {
    forall i, j | 0 <= i < |messages| && 0 <= j < |messages| && SameSlot(c, messages[i], messages[j], t) ::
      HashOf(messages[i]) == HashOf(messages[j])
  }

  /** An honest trustee is never disqualified, whatever the others send and however often messages are replayed. */
  lemma HonestNeverDisqualified(c: Ceremony, messages: seq<Message>, t: nat)
    requires Honest(c, messages, t)
    ensures t !in Run(c, EMPTY, messages).disqualified
  {
    DisqualifiedIff(c, messages, t);
    forall k | 0 <= k < |messages| ensures !Conflicts(c, messages, k, t) {
      var stored := Run(c, EMPTY, messages[..k]).contributions;
      if (t, messages[k].unsigned.round) in stored {
        var j := StoredWasSent(c, messages[..k], (t, messages[k].unsigned.round));
        assert messages[j] == messages[..k][j];
        assert Admissible(c, messages[k]) ==> messages[k].unsigned.trusteeIndex != t || SameSlot(c, messages[k], messages[j], t);
      }
    }
  }

  lemma {:induction false} RunConcat(c: Ceremony, s: State, a: seq<Message>, b: seq<Message>)
    ensures Run(c, s, a + b) == Run(c, Run(c, s, a), b)
  {
    if b == [] {
      assert a + b == a;
    } else {
      RunConcat(c, s, a, b[..|b| - 1]);
      assert (a + b)[..|a + b| - 1] == a + b[..|b| - 1];
    }
  }

  /** An honest trustee's message is in its slot from its arrival on, if it names the right parent then. */
  lemma HonestStored(c: Ceremony, messages: seq<Message>, k: nat)
    requires k < |messages| && Admissible(c, messages[k]) && Honest(c, messages, messages[k].unsigned.trusteeIndex)
    requires ParentOk(Run(c, EMPTY, messages[..k]).contributions, messages[k])
    ensures forall n :: k < n <= |messages| ==>
      var stored, slot := Run(c, EMPTY, messages[..n]).contributions, (messages[k].unsigned.trusteeIndex, messages[k].unsigned.round);
      slot in stored && HashOf(stored[slot]) == HashOf(messages[k])
  {
    var m := messages[k];
    var slot := (m.unsigned.trusteeIndex, m.unsigned.round);
    var before := Run(c, EMPTY, messages[..k]);
    if slot in before.contributions {
      var j := StoredWasSent(c, messages[..k], slot);
      assert messages[j] == messages[..k][j] && SameSlot(c, messages[j], m, m.unsigned.trusteeIndex);
    }
    assert messages[..k + 1][..k] == messages[..k];
    var here := Run(c, EMPTY, messages[..k + 1]);
    assert slot in here.contributions && HashOf(here.contributions[slot]) == HashOf(m);
    forall n | k < n <= |messages|
      ensures slot in Run(c, EMPTY, messages[..n]).contributions
      ensures HashOf(Run(c, EMPTY, messages[..n]).contributions[slot]) == HashOf(m)
    {
      assert messages[..n] == messages[..k + 1] + messages[k + 1..n];
      RunConcat(c, EMPTY, messages[..k + 1], messages[k + 1..n]);
      RunOnlyGrows(c, here, messages[k + 1..n]);
    }
  }

  /** A trustee that sends an admissible round one and later a round two naming it, and nothing else of its own, qualifies
      at the end of every run, whatever the others send and however often messages are replayed. */
  lemma HonestQualifies(c: Ceremony, messages: seq<Message>, t: nat, j: nat, k: nat)
    requires j < k < |messages| && Honest(c, messages, t)
    requires Admissible(c, messages[j]) && Admissible(c, messages[k])
    requires messages[j].unsigned.trusteeIndex == t == messages[k].unsigned.trusteeIndex
    requires messages[j].unsigned.round == 1 && messages[j].unsigned.previousContributionHash == NoParent
    requires messages[k].unsigned.round == 2 && messages[k].unsigned.previousContributionHash == HashOf(messages[j])
    ensures var s := Run(c, EMPTY, messages);
      && Qualifies(s, t)
      && s.contributions[(t, 1)].unsigned == messages[j].unsigned && s.contributions[(t, 2)].unsigned == messages[k].unsigned
  {
    assert messages[..|messages|] == messages;
    HonestStored(c, messages, j);
    HonestStored(c, messages, k);
    HonestNeverDisqualified(c, messages, t);
  }

  /** One message, case by case: it is refused, replayed, evidence, or stored; nothing else changes. */
  lemma StepCases(c: Ceremony, s: State, m: Message)
    ensures var t, u := Step(c, s, m), m.unsigned;
      var slot := (u.trusteeIndex, u.round);
      var stored := Admissible(c, m) && slot !in s.contributions && ParentOk(s.contributions, m);
      var equivocates := Admissible(c, m) && slot in s.contributions && s.contributions[slot].unsigned != u;
      && t.contributions == (if stored then s.contributions[slot := m] else s.contributions)
      && t.equivocations == s.equivocations + (if equivocates
           then [Evidence(u.trusteeIndex, u.round, HashOf(s.contributions[slot]), HashOf(m))] else [])
      && (forall i :: i in t.disqualified <==> i in s.disqualified || (equivocates && i == u.trusteeIndex))
  {
  }

  // ----- finalization

  datatype Transcript = Transcript(
    ceremonyId: nat, nationalElectionId: nat, constituencyId: nat, qualified: seq<nat>, disqualified: seq<nat>,
    contributionHashes: seq<DkgHash>, evidence: seq<Evidence>, electionPublicKey: nat, trusteeKeysetHash: nat)

  predicate Qualifies(s: State, t: nat) {
    t !in s.disqualified && (t, 1) in s.contributions && (t, 2) in s.contributions
  }

  function Qualifying(s: State, indexes: seq<nat>): seq<nat> {
    if indexes == [] then []
    else
      var last := indexes[|indexes| - 1];
      Qualifying(s, indexes[..|indexes| - 1]) + if Qualifies(s, last) then [last] else []
  }

  function RoundHashes(s: State, qualified: seq<nat>): seq<DkgHash>
    requires forall t :: t in qualified ==> Qualifies(s, t)
  {
    if qualified == [] then []
    else
      var t := qualified[|qualified| - 1];
      assert t in qualified && Qualifies(s, t) && forall u :: u in qualified[..|qualified| - 1] ==> u in qualified;
      RoundHashes(s, qualified[..|qualified| - 1]) + [HashOf(s.contributions[(t, 1)]), HashOf(s.contributions[(t, 2)])]
  }

  lemma {:induction false} QualifyingMembers(s: State, indexes: seq<nat>)
    ensures forall t :: t in Qualifying(s, indexes) <==> t in indexes && Qualifies(s, t)
    ensures NoDuplicates(indexes) ==> NoDuplicates(Qualifying(s, indexes))
  {
    if indexes != [] {
      QualifyingMembers(s, indexes[..|indexes| - 1]);
    }
  }

  function Qualified(c: Ceremony, s: State): seq<nat> {
    SortBy(Qualifying(s, Indexes(c.trustees)), Identity)
  }

  lemma QualifiedMembers(c: Ceremony, s: State)
    ensures forall t :: t in Qualified(c, s) <==> t in Indexes(c.trustees) && Qualifies(s, t)
    ensures NoDuplicates(Indexes(c.trustees)) ==> NoDuplicates(Qualified(c, s))
    ensures SortedBy(Qualified(c, s), Identity)
  {
    var q := Qualifying(s, Indexes(c.trustees));
    QualifyingMembers(s, Indexes(c.trustees));
    SortContents(q, Identity);
    SortSorted(q, Identity);
    SameMembers(SortBy(q, Identity), q);
    if NoDuplicates(q) {
      MultisetNoDuplicates(q, SortBy(q, Identity));
    }
  }

  /** The transcript of a state, or None with fewer than five qualified trustees. The transcript hash is a hash
      of these fields. `code` is the evidence hash as a number. */
  function TranscriptOf(c: Ceremony, s: State, code: Evidence -> nat, electionPublicKey: nat, trusteeKeysetHash: nat): Option<Transcript> {
    var qualified := Qualified(c, s);
    QualifiedMembers(c, s);
    if |qualified| < DKG_THRESHOLD then None
    else Some(Transcript(c.ceremonyId, c.nationalElectionId, c.constituencyId, qualified, SortBy(s.disqualified, Identity),
                         RoundHashes(s, qualified), SortBy(s.equivocations, code), electionPublicKey, trusteeKeysetHash))
  }

  ghost predicate Ascending(xs: seq<nat>) {
    forall i, j :: 0 <= i < j < |xs| ==> xs[i] < xs[j]
  }

  lemma {:induction false} SortedAscends(xs: seq<nat>)
    requires SortedBy(xs, Identity) && NoDuplicates(xs)
    ensures Ascending(xs)
  {
    if xs != [] {
      var n := |xs| - 1;
      SortedAscends(Front(xs));
      forall i | 0 <= i < n ensures xs[i] < xs[n] {
        assert xs[i] == Front(xs)[i] && xs[i] in Front(xs);
        assert Identity(xs[i]) <= Identity(Last(xs));
      }
    }
  }

  /** The qualified and disqualified lists of a transcript. */
  ghost predicate MembershipSafe(t: Transcript, c: Ceremony, s: State) {
    && |t.qualified| >= DKG_THRESHOLD && Ascending(t.qualified) && Ascending(t.disqualified)
    && (forall i :: i in t.qualified ==> i !in t.disqualified && 1 <= i <= DKG_TRUSTEE_COUNT)
    && (forall i :: i in t.qualified <==> i in Indexes(c.trustees) && Qualifies(s, i))
  }

  /** The contribution hashes are, trustee by trustee, those of the stored round one and of the round two that
      names it as its parent. */
  ghost predicate HashesLinked(t: Transcript, s: State) {
    && |t.contributionHashes| == 2 * |t.qualified|
    && forall k :: 0 <= k < |t.qualified| ==> HashesAt(t.contributionHashes, s, t.qualified[k], k)
  }

  ghost predicate HashesAt(hashes: seq<DkgHash>, s: State, t: nat, k: nat)
    requires 2 * k + 1 < |hashes|
  {
    && (t, 1) in s.contributions && hashes[2 * k] == HashOf(s.contributions[(t, 1)])
    && (t, 2) in s.contributions && hashes[2 * k + 1] == HashOf(s.contributions[(t, 2)])
    && s.contributions[(t, 2)].unsigned.previousContributionHash == hashes[2 * k]
  }

  /** The evidence of a transcript accuses exactly the disqualified, each by two messages of the run. */
  ghost predicate EvidenceSafe(t: Transcript, c: Ceremony, messages: seq<Message>) {
    && (forall e :: e in t.evidence ==> Shown(c, messages, e) && e.trusteeIndex in t.disqualified)
    && (forall i :: i in t.disqualified ==> exists e :: e in t.evidence && e.trusteeIndex == i)
  }

  lemma DisqualifiedSorted(c: Ceremony, s: State)
    requires StateOk(c, s)
    ensures Ascending(SortBy(s.disqualified, Identity))
    ensures forall t :: t in SortBy(s.disqualified, Identity) <==> t in s.disqualified
  {
    var d := SortBy(s.disqualified, Identity);
    SortContents(s.disqualified, Identity);
    SortSorted(s.disqualified, Identity);
    SameMembers(d, s.disqualified);
    MultisetNoDuplicates(s.disqualified, d);
    SortedAscends(d);
  }

  lemma EvidenceSorted(c: Ceremony, messages: seq<Message>, s: State, code: Evidence -> nat, t: Transcript)
    requires s == Run(c, EMPTY, messages)
    requires t.evidence == SortBy(s.equivocations, code) && t.disqualified == SortBy(s.disqualified, Identity)
    ensures EvidenceSafe(t, c, messages)
  {
    RunKeeps(c, messages);
    DisqualifiedAreShown(c, messages);
    DisqualifiedSorted(c, s);
    SortContents(s.equivocations, code);
    SameMembers(t.evidence, s.equivocations);
    forall i | i in s.disqualified ensures exists e :: e in t.evidence && e.trusteeIndex == i {
      var e :| e in s.equivocations && e.trusteeIndex == i;
      assert e in t.evidence;
    }
  }

  lemma TrusteeRange(c: Ceremony)
    requires ValidCeremony(c)
    ensures forall t :: t in Indexes(c.trustees) ==> 1 <= t <= DKG_TRUSTEE_COUNT
  {
    forall t | t in Indexes(c.trustees) ensures 1 <= t <= DKG_TRUSTEE_COUNT {
      var k :| 0 <= k < |c.trustees| && Indexes(c.trustees)[k] == t;
      assert c.trustees[k] in c.trustees;
    }
  }

  /** A finalized transcript, over any run: at least five qualified indexes, strictly ascending and disjoint from
      the strictly ascending disqualified ones, exactly the trustees that qualify, linked hashes of their two
      stored rounds, and sound evidence against exactly the disqualified. */
  lemma TranscriptSafe(c: Ceremony, messages: seq<Message>, code: Evidence -> nat, key: nat, keyset: nat)
    requires ValidCeremony(c)
    ensures var s := Run(c, EMPTY, messages);
      var r := TranscriptOf(c, s, code, key, keyset);
      r.Some? ==> MembershipSafe(r.value, c, s) && HashesLinked(r.value, s) && EvidenceSafe(r.value, c, messages)
  {
    var s := Run(c, EMPTY, messages);
    RunKeeps(c, messages);
    var r := TranscriptOf(c, s, code, key, keyset);
    if r.Some? {
      MembersQualify(c, s, r.value);
      HashesLink(c, s, r.value);
      EvidenceSorted(c, messages, s, code, r.value);
    }
  }

  /** The indexes of the trustees that are not disqualified and have both rounds stored. */
  ghost function QualifiedIndexes(c: Ceremony, s: State): set<nat> {
    set k | 0 <= k < |c.trustees| && c.trustees[k].trusteeIndex !in s.disqualified
            && (c.trustees[k].trusteeIndex, 1) in s.contributions && (c.trustees[k].trusteeIndex, 2) in s.contributions
      :: c.trustees[k].trusteeIndex
  }

  lemma QualifiedCount(c: Ceremony, s: State)
    requires ValidCeremony(c)
    ensures forall i :: i in Qualified(c, s) <==> i in QualifiedIndexes(c, s)
    ensures |Qualified(c, s)| == |QualifiedIndexes(c, s)|
  {
    var q := Qualified(c, s);
    QualifiedMembers(c, s);
    forall i ensures i in q <==> i in QualifiedIndexes(c, s) {
      if i in q {
        var k :| 0 <= k < |c.trustees| && Indexes(c.trustees)[k] == i;
        assert c.trustees[k].trusteeIndex == i;
      }
      if i in QualifiedIndexes(c, s) {
        var k :| 0 <= k < |c.trustees| && c.trustees[k].trusteeIndex == i;
        assert Indexes(c.trustees)[k] == i;
      }
    }
    NoDuplicatesMultiset(q);
    assert Elements(q) == QualifiedIndexes(c, s);
    assert |multiset(q)| == |q|;
  }

  /** The arguments and the ceremony's ids in their own places, and all evidence in the order of its hash. */
  ghost predicate Labelled(t: Transcript, c: Ceremony, s: State, code: Evidence -> nat, electionPublicKey: nat, trusteeKeysetHash: nat) {
    && t.ceremonyId == c.ceremonyId && t.nationalElectionId == c.nationalElectionId && t.constituencyId == c.constituencyId
    && t.electionPublicKey == electionPublicKey && t.trusteeKeysetHash == trusteeKeysetHash
    && multiset(t.evidence) == multiset(s.equivocations)
    && forall i, j :: 0 <= i < j < |t.evidence| ==> code(t.evidence[i]) <= code(t.evidence[j])
  }

  /** In any state: there is a transcript exactly when at least five trustees are not disqualified and have both
      rounds stored, and it is labelled as it was asked for. */
  lemma TranscriptExact(c: Ceremony, s: State, code: Evidence -> nat, key: nat, keyset: nat)
    requires ValidCeremony(c)
    ensures var r := TranscriptOf(c, s, code, key, keyset);
      && (r.Some? <==> |QualifiedIndexes(c, s)| >= 5)
      && (r.Some? ==> Labelled(r.value, c, s, code, key, keyset) && forall i :: i in r.value.qualified <==> i in QualifiedIndexes(c, s))
  {
    QualifiedCount(c, s);
    SortContents(s.equivocations, code);
    SortSorted(s.equivocations, code);
    SortedAscending(SortBy(s.equivocations, code), code);
  }

  lemma MembersQualify(c: Ceremony, s: State, t: Transcript)
    requires ValidCeremony(c) && StateOk(c, s)
    requires t.qualified == Qualified(c, s) && |t.qualified| >= DKG_THRESHOLD && t.disqualified == SortBy(s.disqualified, Identity)
    ensures MembershipSafe(t, c, s)
  {
    QualifiedMembers(c, s);
    SortedAscends(t.qualified);
    DisqualifiedSorted(c, s);
    TrusteeRange(c);
  }

  lemma HashesLink(c: Ceremony, s: State, t: Transcript)
    requires StateOk(c, s) && forall i :: i in t.qualified ==> Qualifies(s, i)
    requires t.contributionHashes == RoundHashes(s, t.qualified)
    ensures HashesLinked(t, s)
  {
    forall i | i in t.qualified ensures Linked(s, i) {
      assert ContributionOk(c, s.contributions, (i, 2));
    }
    HashesPerTrustee(s, t.qualified);
  }

  /** Both rounds are stored, and round two names round one. */
  ghost predicate Linked(s: State, t: nat) {
    && (t, 1) in s.contributions && (t, 2) in s.contributions
    && s.contributions[(t, 2)].unsigned.previousContributionHash == HashOf(s.contributions[(t, 1)])
  }

  lemma {:induction false} HashesPerTrustee(s: State, qualified: seq<nat>)
    requires forall t :: t in qualified ==> Qualifies(s, t) && Linked(s, t)
    ensures |RoundHashes(s, qualified)| == 2 * |qualified|
    ensures forall k :: 0 <= k < |qualified| ==> HashesAt(RoundHashes(s, qualified), s, qualified[k], k)
  {
    if qualified != [] {
      var front, t := qualified[..|qualified| - 1], qualified[|qualified| - 1];
      assert forall u :: u in front ==> u in qualified;
      HashesPerTrustee(s, front);
      assert t in qualified;
      HashesSnoc(RoundHashes(s, front), s, front, t);
      assert qualified == front + [t];
    }
  }

  lemma HashesSnoc(before: seq<DkgHash>, s: State, front: seq<nat>, t: nat)
    requires |before| == 2 * |front| && forall k :: 0 <= k < |front| ==> HashesAt(before, s, front[k], k)
    requires Linked(s, t)
    ensures var hashes := before + [HashOf(s.contributions[(t, 1)]), HashOf(s.contributions[(t, 2)])];
      forall k :: 0 <= k < |front + [t]| ==> HashesAt(hashes, s, (front + [t])[k], k)
  {
    var hashes := before + [HashOf(s.contributions[(t, 1)]), HashOf(s.contributions[(t, 2)])];
    forall k | 0 <= k < |front + [t]| ensures HashesAt(hashes, s, (front + [t])[k], k) {
      if k < |front| {
        assert HashesAt(before, s, front[k], k);
      }
    }
  }

  // ----- the order across trustees is immaterial

  lemma {:induction false} EvidenceCount(es: seq<Evidence>, e: Evidence)
    ensures multiset(es)[e] == multiset(EvidenceAgainst(es, e.trusteeIndex))[e]
  {
    if es != [] {
      EvidenceCount(Front(es), e);
      assert es == Front(es) + [Last(es)];
    }
  }

  lemma SameEvidence(a: seq<Evidence>, b: seq<Evidence>)
    requires forall t :: EvidenceAgainst(a, t) == EvidenceAgainst(b, t)
    ensures multiset(a) == multiset(b)
  {
    forall e ensures multiset(a)[e] == multiset(b)[e] {
      EvidenceCount(a, e);
      EvidenceCount(b, e);
    }
  }

  lemma SameDisqualified(a: seq<nat>, b: seq<nat>)
    requires NoDuplicates(a) && NoDuplicates(b) && forall t :: t in a <==> t in b
    ensures SortBy(a, Identity) == SortBy(b, Identity)
  {
    NoDuplicatesMultiset(a);
    NoDuplicatesMultiset(b);
    assert Elements(a) == Elements(b);
    SortPermutation(a, b, Identity);
  }

  lemma {:induction false} SameQualifying(s: State, u: State, indexes: seq<nat>)
    requires forall t :: Qualifies(s, t) <==> Qualifies(u, t)
    ensures Qualifying(s, indexes) == Qualifying(u, indexes)
  {
    if indexes != [] {
      SameQualifying(s, u, indexes[..|indexes| - 1]);
    }
  }

  lemma {:induction false} SameRoundHashes(s: State, u: State, qualified: seq<nat>)
    requires forall t :: t in qualified ==> Qualifies(s, t) && Qualifies(u, t) && ViewOf(s, t) == ViewOf(u, t)
    ensures RoundHashes(s, qualified) == RoundHashes(u, qualified)
  {
    if qualified != [] {
      var t := qualified[|qualified| - 1];
      assert t in qualified && forall v :: v in qualified[..|qualified| - 1] ==> v in qualified;
      SameRoundHashes(s, u, qualified[..|qualified| - 1]);
      assert ViewOf(s, t).first == ViewOf(u, t).first && ViewOf(s, t).second == ViewOf(u, t).second;
    }
  }

  lemma ViewQualifies(s: State, u: State, t: nat)
    requires ViewOf(s, t) == ViewOf(u, t)
    ensures Qualifies(s, t) <==> Qualifies(u, t)
  {
    assert ViewOf(s, t).first == ViewOf(u, t).first && ViewOf(s, t).second == ViewOf(u, t).second;
  }

  /** Any two interleavings that keep every trustee's own message order, replays and rejected messages included,
      finalize to the same transcript (and so the same hash), or both fail to finalize. */
  lemma InterleavingImmaterial(c: Ceremony, a: seq<Message>, b: seq<Message>, code: Evidence -> nat, key: nat, keyset: nat)
    requires ValidCeremony(c) && forall x, y :: code(x) == code(y) ==> x == y
    requires forall t :: Own(a, t) == Own(b, t)
    ensures TranscriptOf(c, Run(c, EMPTY, a), code, key, keyset) == TranscriptOf(c, Run(c, EMPTY, b), code, key, keyset)
  {
    var s, u := Run(c, EMPTY, a), Run(c, EMPTY, b);
    forall t ensures ViewOf(s, t) == ViewOf(u, t) {
      RunByTrustee(c, a, t);
      RunByTrustee(c, b, t);
    }
    SameViews(c, s, u, code, key, keyset, a, b);
  }

  lemma SameViews(c: Ceremony, s: State, u: State, code: Evidence -> nat, key: nat, keyset: nat, a: seq<Message>, b: seq<Message>)
    requires s == Run(c, EMPTY, a) && u == Run(c, EMPTY, b)
    requires forall x, y :: code(x) == code(y) ==> x == y
    requires forall t :: ViewOf(s, t) == ViewOf(u, t)
    ensures TranscriptOf(c, s, code, key, keyset) == TranscriptOf(c, u, code, key, keyset)
  {
    RunKeeps(c, a);
    RunKeeps(c, b);
    forall t ensures Qualifies(s, t) <==> Qualifies(u, t) {
      ViewQualifies(s, u, t);
    }
    forall t ensures t in s.disqualified <==> t in u.disqualified {
      assert ViewOf(s, t).disqualified == ViewOf(u, t).disqualified;
    }
    forall t ensures EvidenceAgainst(s.equivocations, t) == EvidenceAgainst(u.equivocations, t) {
      assert ViewOf(s, t).evidence == ViewOf(u, t).evidence;
    }
    SameQualifying(s, u, Indexes(c.trustees));
    QualifiedMembers(c, s);
    SameRoundHashes(s, u, Qualified(c, s));
    SameDisqualified(s.disqualified, u.disqualified);
    SameEvidence(s.equivocations, u.equivocations);
    SortPermutation(s.equivocations, u.equivocations, code);
  }

  /** The documentation promises that two conflicting signed messages disqualify. They do only if the first was
      stored: a trustee that sends two different verified round-two messages before its round one stays clean. */
  lemma EarlyEquivocationUnnoticed(c: Ceremony, first: Message, second: Message)
    requires Admissible(c, first) && Admissible(c, second)
    requires first.unsigned.trusteeIndex == second.unsigned.trusteeIndex && first.unsigned.round == second.unsigned.round == 2
    ensures Run(c, EMPTY, [first, second]) == EMPTY
  {
    assert [first, second][..1] == [first] && [first][..0] == [];
    assert Run(c, EMPTY, [first]) == EMPTY;
  }

  /** A ceremony and two conflicting round-two messages of trustee one for which that happens. */
  lemma EarlyEquivocationExample() returns (c: Ceremony, first: Message, second: Message)
    ensures ValidCeremony(c) && Admissible(c, first) && Admissible(c, second) && HashOf(first) != HashOf(second)
    ensures first.unsigned.trusteeIndex == second.unsigned.trusteeIndex && first.unsigned.round == second.unsigned.round
    ensures first.unsigned.trusteeIndex !in Run(c, EMPTY, [first, second]).disqualified
  {
    c := Ceremony(1, 2, 3, seq(DKG_TRUSTEE_COUNT, i requires 0 <= i < DKG_TRUSTEE_COUNT => Trustee(i + 1, i)), (m, key) => true);
    first := Message(Unsigned(1, 2, 3, 1, 2, 10, 11, OtherHash(0)), 0);
    second := Message(Unsigned(1, 2, 3, 1, 2, 20, 21, OtherHash(0)), 0);
    assert c.trustees[0].trusteeIndex == 1;
    EarlyEquivocationUnnoticed(c, first, second);
  }

  // ----- the coordinator

  class DkgTranscriptCoordinatorV1 {
    const ceremony: Ceremony
    var contributions: Contributions
    var disqualified: seq<nat>
    var equivocations: seq<Evidence>
    var finalized: bool

    ghost function Model(): State
      reads this
    {
      State(contributions, disqualified, equivocations)
    }

    /** The source's constructor throws on an invalid trustee list; None stands for that. */
    static method Create(ceremony: Ceremony) returns (r: Option<DkgTranscriptCoordinatorV1>)
      ensures r.Some? <==>
        && |ceremony.trustees| == 9 && (forall t :: t in ceremony.trustees ==> 1 <= t.trusteeIndex <= 9)
        && (forall i, j :: 0 <= i < j < |ceremony.trustees| ==> ceremony.trustees[i].trusteeIndex != ceremony.trustees[j].trusteeIndex)
      ensures r.Some? ==> ValidCeremony(ceremony)
      ensures r.Some? ==> fresh(r.value) && r.value.ceremony == ceremony && r.value.Model() == EMPTY && !r.value.finalized
    {
      assert forall i :: 0 <= i < |ceremony.trustees| ==> Indexes(ceremony.trustees)[i] == ceremony.trustees[i].trusteeIndex;
      if !ValidCeremony(ceremony) {
        return None;
      }
      var coordinator := new DkgTranscriptCoordinatorV1(ceremony);
      r := Some(coordinator);
    }

    constructor (ceremony_: Ceremony)
      requires ValidCeremony(ceremony_)
      ensures ceremony == ceremony_ && Model() == EMPTY && !finalized
    {
      ceremony := ceremony_;
      contributions, disqualified, equivocations := map[], [], [];
      finalized := false;
    }

    method FindTrustee(trusteeIndex: nat) returns (key: Option<nat>)
      ensures key.Some? ==> exists k :: 0 <= k < |ceremony.trustees| && ceremony.trustees[k] == Trustee(trusteeIndex, key.value)
      ensures key.None? ==> forall k :: 0 <= k < |ceremony.trustees| ==> ceremony.trustees[k].trusteeIndex != trusteeIndex
    {
      for k := 0 to |ceremony.trustees|
        invariant forall j :: 0 <= j < k ==> ceremony.trustees[j].trusteeIndex != trusteeIndex
      {
        if ceremony.trustees[k].trusteeIndex == trusteeIndex {
          return Some(ceremony.trustees[k].signingPublicKey);
        }
      }
      return None;
    }

    /** `addContribution`; false is a throw. */
    method AddContribution(m: Message) returns (ok: bool)
      requires ValidCeremony(ceremony)
      modifies this`contributions, this`disqualified, this`equivocations
      ensures finalized ==> !ok && Model() == old(Model())
      ensures !finalized ==> Model() == Step(ceremony, old(Model()), m)
      ensures var u := m.unsigned;
        ok <==>
          && !old(finalized) && u.ceremonyId == ceremony.ceremonyId && u.nationalElectionId == ceremony.nationalElectionId
          && u.constituencyId == ceremony.constituencyId && (u.round == 1 || u.round == 2)
          && (exists k :: 0 <= k < |ceremony.trustees| && ceremony.trustees[k].trusteeIndex == u.trusteeIndex
                && ceremony.signed(m, ceremony.trustees[k].signingPublicKey))
          && ((u.trusteeIndex, u.round) in old(contributions)
              || (u.round == 1 && u.previousContributionHash == NoParent)
              || (u.round == 2 && (u.trusteeIndex, 1) in old(contributions)
                  && u.previousContributionHash == ContributionHash(old(contributions)[(u.trusteeIndex, 1)].unsigned)))
      ensures !ok ==> Model() == old(Model())
    {
      if finalized {
        return false;
      }
      var u := m.unsigned;
      if u.ceremonyId != ceremony.ceremonyId || u.nationalElectionId != ceremony.nationalElectionId
         || u.constituencyId != ceremony.constituencyId {
        return false;
      }
      var publicKey := FindTrustee(u.trusteeIndex);
      if publicKey.None? {
        return false;
      }
      if !(u.round == 1 || u.round == 2) || !ceremony.signed(m, publicKey.value) {
        KeyDecides(ceremony, m, publicKey.value);
        return false;
      }
      KeyDecides(ceremony, m, publicKey.value);
      var key := (u.trusteeIndex, u.round);
      var contributionHash := HashOf(m);
      if key in contributions {
        var existingHash := HashOf(contributions[key]);
        if existingHash == contributionHash {
          return true;
        }
        disqualified := AddOnce(disqualified, u.trusteeIndex);
        equivocations := equivocations + [Evidence(u.trusteeIndex, u.round, existingHash, contributionHash)];
        return true;
      }
      if u.round == 1 {
        if u.previousContributionHash != NoParent {
          return false;
        }
      } else {
        if (u.trusteeIndex, 1) !in contributions {
          return false;
        }
        if u.previousContributionHash != HashOf(contributions[(u.trusteeIndex, 1)]) {
          return false;
        }
      }
      contributions := contributions[key := m];
      return true;
    }

    /** `finalize`; None is a throw, which leaves the ceremony open. */
    method Finalize(code: Evidence -> nat, electionPublicKey: nat, trusteeKeysetHash: nat) returns (r: Option<Transcript>)
      modifies this`finalized
      ensures old(finalized) ==> r == None && finalized
      ensures !old(finalized) ==> r == TranscriptOf(ceremony, Model(), code, electionPublicKey, trusteeKeysetHash) && finalized == r.Some?
      ensures !old(finalized) && ValidCeremony(ceremony) ==> (r.Some? <==> |QualifiedIndexes(ceremony, Model())| >= 5)
      ensures r.Some? && ValidCeremony(ceremony) ==> Labelled(r.value, ceremony, Model(), code, electionPublicKey, trusteeKeysetHash)
    {
      if finalized {
        return None;
      }
      if ValidCeremony(ceremony) {
        TranscriptExact(ceremony, Model(), code, electionPublicKey, trusteeKeysetHash);
      }
      r := TranscriptOf(ceremony, State(contributions, disqualified, equivocations), code, electionPublicKey, trusteeKeysetHash);
      if r.Some? {
        finalized := true;
      }
    }
  }

  /** Indexes are unique, so the key found for a trustee decides admissibility. */
  lemma KeyDecides(c: Ceremony, m: Message, key: nat)
    requires ValidCeremony(c)
    requires exists k :: 0 <= k < |c.trustees| && c.trustees[k] == Trustee(m.unsigned.trusteeIndex, key)
    requires m.unsigned.ceremonyId == c.ceremonyId && m.unsigned.nationalElectionId == c.nationalElectionId
      && m.unsigned.constituencyId == c.constituencyId
    ensures Admissible(c, m) <==> (m.unsigned.round == 1 || m.unsigned.round == 2) && c.signed(m, key)
  {
    var k :| 0 <= k < |c.trustees| && c.trustees[k] == Trustee(m.unsigned.trusteeIndex, key);
    forall j | 0 <= j < |c.trustees| && c.trustees[j].trusteeIndex == m.unsigned.trusteeIndex ensures j == k {
      assert Indexes(c.trustees)[j] == Indexes(c.trustees)[k];
    }
  }
}
