/** The election as a whole: homomorphic aggregation, batches of batches, and the exactness of the count. */
module Tally {
  import opened Wrappers
  import opened Sequences
  import opened Field
  import opened ElGamal
  import opened Threshold

  // ----- aggregation is a homomorphism

  /** Sum of the logarithms of the messages at one position. */
  function MessageSum(cts: seq<Ciphertext>, i: nat, privateKey: int, q: int): int
    requires q > 0 && forall ct :: ct in cts ==> i < |ct.c1| && i < |ct.c2|
  {
    if cts == [] then 0
    else
      var ct := cts[|cts| - 1];
      assert ct in cts && forall u :: u in cts[..|cts| - 1] ==> u in cts;
      MessageSum(cts[..|cts| - 1], i, privateKey, q) + Message(ct.c1[i], ct.c2[i], privateKey, q).log
  }

  lemma {:induction false} ColumnsDecrypt(cts: seq<Ciphertext>, i: nat, privateKey: int, q: int)
    requires q > 0 && forall ct :: ct in cts ==> i < |ct.c1| && i < |ct.c2|
    ensures Cong(LogSum(SecondColumn(cts, i)) - LogSum(FirstColumn(cts, i)) * privateKey, MessageSum(cts, i, privateKey, q), q)
  {
    if cts != [] {
      var front, ct := cts[..|cts| - 1], cts[|cts| - 1];
      assert ct in cts && forall u :: u in front ==> u in cts;
      ColumnsDecrypt(front, i, privateKey, q);
      assert FirstColumn(cts, i)[..|front|] == FirstColumn(front, i);
      assert SecondColumn(cts, i)[..|front|] == SecondColumn(front, i);
      MessageLog(ct.c1[i], ct.c2[i], privateKey, q);
      CongAdd(LogSum(SecondColumn(front, i)) - LogSum(FirstColumn(front, i)) * privateKey, MessageSum(front, i, privateKey, q),
              ct.c2[i].log - ct.c1[i].log * privateKey, Message(ct.c1[i], ct.c2[i], privateKey, q).log, q);
      ColumnRing(LogSum(SecondColumn(front, i)), LogSum(FirstColumn(front, i)), ct.c2[i].log, ct.c1[i].log, privateKey);
    }
  }

  lemma ColumnRing(b: int, a: int, y: int, x: int, k: int)
    ensures b - a * k + (y - x * k) == (b + y) - (a + x) * k
  {
  }

  lemma MessageLog(c1: Point, c2: Point, privateKey: int, q: Modulus)
    ensures InGroup(Message(c1, c2, privateKey, q), q)
    ensures Cong(c2.log - c1.log * privateKey, Message(c1, c2, privateKey, q).log, q)
  {
    MulLog(c1, privateKey, q);
    SubLog(c2, Mul(c1, privateKey, q), q);
    CongAdd(c2.log, c2.log, Mul(c1, privateKey, q).log, c1.log * privateKey, q);
  }

  lemma Residue(p: Point, a: int, b: int, c: int, q: int)
    requires q > 0 && InGroup(p, q) && Cong(a, p.log, q) && Cong(a, b, q) && Cong(b, c, q)
    ensures p == Point(c % q)
  {
    ModUnique(p.log, 0, p.log, q);
  }

  /** Decrypting an aggregate adds the messages: for any ciphertexts, honest or not. */
  lemma AggregateDecrypts(a: Ciphertext, cts: seq<Ciphertext>, i: nat, privateKey: int, q: int)
    requires q > 0 && Aggregatable(cts) && IsAggregate(a, cts, q) && i < CANDIDATE_COUNT
    ensures Message(a.c1[i], a.c2[i], privateKey, q) == Point(MessageSum(cts, i, privateKey, q) % q)
  {
    var x, y := LogSum(FirstColumn(cts, i)), LogSum(SecondColumn(cts, i));
    ColumnsDecrypt(cts, i, privateKey, q);
    MessageLog(a.c1[i], a.c2[i], privateKey, q);
    CongMul(a.c1[i].log, x, privateKey, privateKey, q);
    CongAdd(a.c2[i].log, y, a.c1[i].log * privateKey, x * privateKey, q);
    Residue(Message(a.c1[i], a.c2[i], privateKey, q), a.c2[i].log - a.c1[i].log * privateKey, y - x * privateKey,
            MessageSum(cts, i, privateKey, q), q);
  }

  // ----- batches of batches

  function Flatten<T>(xss: seq<seq<T>>): seq<T> {
    if xss == [] then [] else Flatten(xss[..|xss| - 1]) + xss[|xss| - 1]
  }

  lemma {:induction false} FlattenMembers<T>(xss: seq<seq<T>>)
    ensures forall x :: x in Flatten(xss) <==> exists k :: 0 <= k < |xss| && x in xss[k]
  {
    if xss != [] {
      FlattenMembers(xss[..|xss| - 1]);
    }
  }

  lemma {:induction false} LogSumConcat(a: seq<Point>, b: seq<Point>)
    ensures LogSum(a + b) == LogSum(a) + LogSum(b)
  {
    if b == [] {
      assert a + b == a;
    } else {
      LogSumConcat(a, b[..|b| - 1]);
      assert (a + b)[..|a + b| - 1] == a + b[..|b| - 1];
    }
  }

  /** Each aggregate belongs to the batch at its place. */
  ghost predicate AggregatesOf(aggregates: seq<Ciphertext>, batches: seq<seq<Ciphertext>>, q: Modulus) {
    && |aggregates| == |batches|
    && forall k :: 0 <= k < |batches| ==> Aggregatable(batches[k]) && IsAggregate(aggregates[k], batches[k], q)
  }

  lemma FlattenShapes(aggregates: seq<Ciphertext>, batches: seq<seq<Ciphertext>>, q: int)
    requires q > 0 && AggregatesOf(aggregates, batches, q)
    ensures forall ct :: ct in aggregates ==> |ct.c1| == |ct.c2| == CANDIDATE_COUNT
    ensures forall ct :: ct in Flatten(batches) ==> |ct.c1| == |ct.c2| == CANDIDATE_COUNT
  {
    FlattenMembers(batches);
  }

  lemma AggregatesPrefix(aggregates: seq<Ciphertext>, batches: seq<seq<Ciphertext>>, q: int)
    requires q > 0 && AggregatesOf(aggregates, batches, q) && batches != []
    ensures aggregates != [] && AggregatesOf(aggregates[..|batches| - 1], batches[..|batches| - 1], q)
    ensures Aggregatable(batches[|batches| - 1]) && IsAggregate(aggregates[|batches| - 1], batches[|batches| - 1], q)
    ensures aggregates == aggregates[..|batches| - 1] + [aggregates[|batches| - 1]]
  {
  }

  lemma {:induction false} ColumnsFlatten(aggregates: seq<Ciphertext>, batches: seq<seq<Ciphertext>>, i: nat, q: int)
    requires q > 0 && i < CANDIDATE_COUNT && AggregatesOf(aggregates, batches, q)
    ensures forall ct :: ct in aggregates ==> |ct.c1| == |ct.c2| == CANDIDATE_COUNT
    ensures forall ct :: ct in Flatten(batches) ==> |ct.c1| == |ct.c2| == CANDIDATE_COUNT
    ensures Cong(LogSum(FirstColumn(aggregates, i)), LogSum(FirstColumn(Flatten(batches), i)), q)
    ensures Cong(LogSum(SecondColumn(aggregates, i)), LogSum(SecondColumn(Flatten(batches), i)), q)
  {
    FlattenShapes(aggregates, batches, q);
    if batches != [] {
      var n := |batches| - 1;
      AggregatesPrefix(aggregates, batches, q);
      ColumnsFlatten(aggregates[..n], batches[..n], i, q);
      ColumnsStep(aggregates[..n], aggregates[n], Flatten(batches[..n]), batches[n], i, q);
    }
  }

  lemma ColumnsStep(aggregates: seq<Ciphertext>, a: Ciphertext, flat: seq<Ciphertext>, last: seq<Ciphertext>, i: nat, q: int)
    requires q > 0 && i < CANDIDATE_COUNT && Aggregatable(last) && IsAggregate(a, last, q)
    requires forall ct :: ct in aggregates ==> |ct.c1| == |ct.c2| == CANDIDATE_COUNT
    requires forall ct :: ct in flat ==> |ct.c1| == |ct.c2| == CANDIDATE_COUNT
    requires Cong(LogSum(FirstColumn(aggregates, i)), LogSum(FirstColumn(flat, i)), q)
    requires Cong(LogSum(SecondColumn(aggregates, i)), LogSum(SecondColumn(flat, i)), q)
    ensures forall ct :: ct in aggregates + [a] ==> |ct.c1| == |ct.c2| == CANDIDATE_COUNT
    ensures forall ct :: ct in flat + last ==> |ct.c1| == |ct.c2| == CANDIDATE_COUNT
    ensures Cong(LogSum(FirstColumn(aggregates + [a], i)), LogSum(FirstColumn(flat + last, i)), q)
    ensures Cong(LogSum(SecondColumn(aggregates + [a], i)), LogSum(SecondColumn(flat + last, i)), q)
  {
    ColumnsSplit(aggregates, [a], i);
    ColumnsSplit(flat, last, i);
    SingleColumn(a, i);
    StepSum(LogSum(FirstColumn(aggregates, i)), LogSum(FirstColumn(flat, i)), a.c1[i].log, LogSum(FirstColumn(last, i)),
            LogSum(FirstColumn(aggregates + [a], i)), LogSum(FirstColumn(flat + last, i)), q);
    StepSum(LogSum(SecondColumn(aggregates, i)), LogSum(SecondColumn(flat, i)), a.c2[i].log, LogSum(SecondColumn(last, i)),
            LogSum(SecondColumn(aggregates + [a], i)), LogSum(SecondColumn(flat + last, i)), q);
  }

  lemma StepSum(x: int, y: int, u: int, v: int, longX: int, longY: int, q: int)
    requires q > 0 && Cong(x, y, q) && Cong(u, v, q) && longX == x + u && longY == y + v
    ensures Cong(longX, longY, q)
  {
    CongAdd(x, y, u, v, q);
  }

  lemma SingleColumn(a: Ciphertext, i: nat)
    requires i < |a.c1| && i < |a.c2|
    ensures LogSum(FirstColumn([a], i)) == a.c1[i].log && LogSum(SecondColumn([a], i)) == a.c2[i].log
  {
    assert FirstColumn([a], i)[..0] == [] && SecondColumn([a], i)[..0] == [];
  }

  lemma ColumnsSplit(a: seq<Ciphertext>, b: seq<Ciphertext>, i: nat)
    requires forall ct :: ct in a ==> i < |ct.c1| && i < |ct.c2|
    requires forall ct :: ct in b ==> i < |ct.c1| && i < |ct.c2|
    ensures forall ct :: ct in a + b ==> i < |ct.c1| && i < |ct.c2|
    ensures LogSum(FirstColumn(a + b, i)) == LogSum(FirstColumn(a, i)) + LogSum(FirstColumn(b, i))
    ensures LogSum(SecondColumn(a + b, i)) == LogSum(SecondColumn(a, i)) + LogSum(SecondColumn(b, i))
  {
    assert FirstColumn(a + b, i) == FirstColumn(a, i) + FirstColumn(b, i);
    assert SecondColumn(a + b, i) == SecondColumn(a, i) + SecondColumn(b, i);
    LogSumConcat(FirstColumn(a, i), FirstColumn(b, i));
    LogSumConcat(SecondColumn(a, i), SecondColumn(b, i));
  }

  lemma {:induction false} FlattenAggregatable(aggregates: seq<Ciphertext>, batches: seq<seq<Ciphertext>>, q: int)
    requires q > 0 && AggregatesOf(aggregates, batches, q) && Aggregatable(aggregates)
    ensures Aggregatable(Flatten(batches))
    ensures Flatten(batches)[0].keyHash == aggregates[0].keyHash && Flatten(batches)[0].publicKey == aggregates[0].publicKey
  {
    var all := Flatten(batches);
    FlattenMembers(batches);
    forall ct | ct in all
      ensures ct.keyHash == aggregates[0].keyHash && ct.publicKey == aggregates[0].publicKey
      ensures |ct.c1| == CANDIDATE_COUNT && |ct.c2| == CANDIDATE_COUNT
    {
      var k :| 0 <= k < |batches| && ct in batches[k];
      assert aggregates[k] in aggregates;
    }
    assert batches[0][0] in batches[0];
    assert batches[0][0] in all;
  }

  /** Aggregating the aggregates of batches is the aggregate of all their ballots at once. */
  lemma AggregateOfAggregates(a: Ciphertext, aggregates: seq<Ciphertext>, batches: seq<seq<Ciphertext>>, q: int)
    requires q > 0 && AggregatesOf(aggregates, batches, q) && Aggregatable(aggregates) && IsAggregate(a, aggregates, q)
    ensures Aggregatable(Flatten(batches)) && IsAggregate(a, Flatten(batches), q)
    ensures forall b :: IsAggregate(b, Flatten(batches), q) ==> b == a
  {
    FlattenAggregatable(aggregates, batches, q);
    forall i | 0 <= i < CANDIDATE_COUNT
      ensures Cong(a.c1[i].log, LogSum(FirstColumn(Flatten(batches), i)), q)
      ensures Cong(a.c2[i].log, LogSum(SecondColumn(Flatten(batches), i)), q)
    {
      ColumnsFlatten(aggregates, batches, i, q);
    }
    forall b | IsAggregate(b, Flatten(batches), q) ensures b == a {
      AggregateUnique(a, b, Flatten(batches), q);
    }
  }

  lemma AggregateUnique(a: Ciphertext, b: Ciphertext, cts: seq<Ciphertext>, q: int)
    requires q > 0 && Aggregatable(cts) && IsAggregate(a, cts, q) && IsAggregate(b, cts, q)
    ensures a == b
  {
    forall i | 0 <= i < CANDIDATE_COUNT ensures a.c1[i] == b.c1[i] && a.c2[i] == b.c2[i] {
      assert a.c1[i] in a.c1 && b.c1[i] in b.c1 && a.c2[i] in a.c2 && b.c2[i] in b.c2;
      PointEq(a.c1[i], b.c1[i], q);
      PointEq(a.c2[i], b.c2[i], q);
    }
    assert a.c1 == b.c1 && a.c2 == b.c2;
  }

  // ----- exact counts

  datatype Vote = Vote(selectedIndex: int, randomness: seq<int>)

  /** One honest encryption per vote, in order. */
  ghost predicate EncryptsVotes(cts: seq<Ciphertext>, votes: seq<Vote>, privateKey: int, q: Modulus) {
    && |cts| == |votes|
    && forall k :: 0 <= k < |votes| ==>
         && ValidBallotInput(votes[k].selectedIndex, votes[k].randomness, q)
         && IsEncryption(cts[k], Mul(GENERATOR, privateKey, q), votes[k].selectedIndex, votes[k].randomness, q)
  }

  function VotesFor(votes: seq<Vote>, i: int): nat {
    if votes == [] then 0
    else VotesFor(votes[..|votes| - 1], i) + if votes[|votes| - 1].selectedIndex == i then 1 else 0
  }

  lemma {:induction false} MessagesCountVotes(cts: seq<Ciphertext>, votes: seq<Vote>, i: nat, privateKey: int, q: int)
    requires Prime(q) && EncryptsVotes(cts, votes, privateKey, q) && i < CANDIDATE_COUNT
    ensures forall ct :: ct in cts ==> i < |ct.c1| && i < |ct.c2|
    ensures MessageSum(cts, i, privateKey, q) == VotesFor(votes, i) <= |votes|
  {
    if votes != [] {
      var n := |votes| - 1;
      MessagesCountVotes(cts[..n], votes[..n], i, privateKey, q);
      EncryptionDecrypts(cts[n], privateKey, votes[n].selectedIndex, votes[n].randomness, q, i);
    }
  }

  /** One-hot ballots: the votes for the four candidates add up to the number of ballots. */
  lemma {:induction false} VotesAddUp(votes: seq<Vote>)
    requires forall v :: v in votes ==> 0 <= v.selectedIndex < CANDIDATE_COUNT
    ensures VotesFor(votes, 0) + VotesFor(votes, 1) + VotesFor(votes, 2) + VotesFor(votes, 3) == |votes|
  {
    if votes != [] {
      VotesAddUp(votes[..|votes| - 1]);
    }
  }

  lemma CountFound(v: nat, c: int, maxVotes: int, q: int)
    requires v <= maxVotes < q && IsFirstCount(Point(v % q), c, maxVotes, q)
    ensures c == v
  {
    ModUnique(v, 0, v, q);
    ModUnique(c, 0, c, q);
    assert Mul(GENERATOR, c, q) == Point(c % q);
  }

  lemma CountInRange(v: nat, maxVotes: int, q: int)
    requires v <= maxVotes < q
    ensures !OutOfRange(Point(v % q), maxVotes, q)
  {
    assert Mul(GENERATOR, v, q) == Point(v % q);
  }

  /** Counts of an election: exact per candidate, with the number of ballots as their total. */
  ghost predicate ExactCounts(counts: seq<int>, votes: seq<Vote>) {
    && |counts| == CANDIDATE_COUNT
    && (forall i :: 0 <= i < CANDIDATE_COUNT ==> counts[i] == VotesFor(votes, i))
    && Total(counts) == |votes|
  }

  /** End to end with the private key: encrypt any votes, aggregate within batches, aggregate the batch
      aggregates, decrypt. Whenever the number of ballots is at most maxVotes < q, decryption succeeds and
      returns exactly the votes of every candidate, adding up to the number of ballots. */
  lemma TallyIsExact(a: Ciphertext, aggregates: seq<Ciphertext>, batches: seq<seq<Ciphertext>>, votes: seq<Vote>,
                     privateKey: int, maxVotes: int, q: int, r: Option<seq<int>>)
    requires Prime(q) && IsScalar(privateKey, q)
    requires AggregatesOf(aggregates, batches, q) && Aggregatable(aggregates) && IsAggregate(a, aggregates, q)
    requires EncryptsVotes(Flatten(batches), votes, privateKey, q)
    requires |votes| <= maxVotes < q
    requires DecryptsTo(a, privateKey, maxVotes, q, r)
    ensures r.Some? && ExactCounts(r.value, votes)
  {
    AggregateOfAggregates(a, aggregates, batches, q);
    MessagesAreVotes(a, Flatten(batches), votes, privateKey, q);
    CountsAreVotes(Messages(a, privateKey, q), votes, maxVotes, q, r);
  }

  lemma MessagesAreVotes(a: Ciphertext, cts: seq<Ciphertext>, votes: seq<Vote>, privateKey: int, q: int)
    requires Prime(q) && Aggregatable(cts) && IsAggregate(a, cts, q) && EncryptsVotes(cts, votes, privateKey, q)
    ensures forall i :: 0 <= i < CANDIDATE_COUNT ==> Messages(a, privateKey, q)[i] == Point(VotesFor(votes, i) % q)
    ensures forall v :: v in votes ==> 0 <= v.selectedIndex < CANDIDATE_COUNT
  {
    forall i | 0 <= i < CANDIDATE_COUNT ensures Messages(a, privateKey, q)[i] == Point(VotesFor(votes, i) % q) {
      MessagesCountVotes(cts, votes, i, privateKey, q);
      AggregateDecrypts(a, cts, i, privateKey, q);
    }
  }

  lemma {:induction false} VotesBounded(votes: seq<Vote>, i: int)
    ensures VotesFor(votes, i) <= |votes|
  {
    if votes != [] {
      VotesBounded(votes[..|votes| - 1], i);
    }
  }

  lemma CountsAreVotes(messages: seq<Point>, votes: seq<Vote>, maxVotes: int, q: int, r: Option<seq<int>>)
    requires |votes| <= maxVotes < q && |messages| == CANDIDATE_COUNT
    requires forall i :: 0 <= i < CANDIDATE_COUNT ==> messages[i] == Point(VotesFor(votes, i) % q)
    requires forall v :: v in votes ==> 0 <= v.selectedIndex < CANDIDATE_COUNT
    requires Decodes(messages, maxVotes, q, r)
    ensures r.Some? && ExactCounts(r.value, votes)
  {
    forall i | 0 <= i < CANDIDATE_COUNT ensures !OutOfRange(messages[i], maxVotes, q) {
      VotesBounded(votes, i);
      CountInRange(VotesFor(votes, i), maxVotes, q);
    }
    var counts := r.value;
    forall i | 0 <= i < CANDIDATE_COUNT ensures counts[i] == VotesFor(votes, i) {
      VotesBounded(votes, i);
      CountFound(VotesFor(votes, i), counts[i], maxVotes, q);
    }
    VotesAddUp(votes);
    TotalOfFour(counts);
  }

  lemma TotalOfFour(counts: seq<int>)
    requires |counts| == 4
    ensures Total(counts) == counts[0] + counts[1] + counts[2] + counts[3]
  {
    assert counts[..3][..2] == counts[..2] && counts[..2][..1] == counts[..1] && counts[..1][..0] == [];
    assert Total(counts[..1]) == counts[0];
    assert Total(counts[..2]) == counts[0] + counts[1];
    assert Total(counts[..3]) == counts[0] + counts[1] + counts[2];
  }

  /** End to end with trustees: the same exact counts from any threshold of distinct, verifying dealt shares. */
  lemma ThresholdTallyIsExact(a: Ciphertext, aggregates: seq<Ciphertext>, batches: seq<seq<Ciphertext>>, votes: seq<Vote>,
                              shares: seq<DecryptionShare>, threshold: nat, maxVotes: int, hash: Statement -> nat,
                              trusteeCount: int, secret: int, coefficients: seq<int>, q: int, r: Option<seq<int>>)
    requires Prime(q) && ValidDealing(threshold, trusteeCount, secret, coefficients, q) && trusteeCount < q
    requires AggregatesOf(aggregates, batches, q) && Aggregatable(aggregates) && IsAggregate(a, aggregates, q)
    requires EncryptsVotes(Flatten(batches), votes, secret, q)
    requires |votes| <= maxVotes < q
    requires |shares| >= threshold && Accepted(shares[..threshold], a, hash, q)
    requires forall u :: u in shares[..threshold] ==> 1 <= u.trusteeIndex <= trusteeCount
    requires forall u, i :: u in shares[..threshold] && 0 <= i < CANDIDATE_COUNT ==>
               AppliesDealtScalar(u, a, i, [secret] + coefficients, q)
    requires ThresholdDecryptsTo(a, shares, threshold, maxVotes, hash, q, r)
    ensures r.Some? && ExactCounts(r.value, votes)
  {
    AggregateKey(a, aggregates, batches, votes, secret, q);
    var s := SomeOutcome(a, secret, maxVotes, q);
    TallyIsExact(a, aggregates, batches, votes, secret, maxVotes, q, s);
    ThresholdMatchesPrivateKey(a, shares, threshold, maxVotes, hash, trusteeCount, secret, coefficients, q, r, s);
  }

  /** An honest share by the holder of a dealt key, with no zero response. */
  ghost predicate HonestDealtShare(share: DecryptionShare, keys: seq<KeyShare>, nonces: seq<int>, a: Ciphertext,
                                   hash: Statement -> nat, q: Modulus)
  {
    && 1 <= share.trusteeIndex <= |keys|
    && IsHonestShare(share, share.trusteeIndex, keys[share.trusteeIndex - 1].privateShare, a, nonces, hash, q)
    && forall i :: 0 <= i < CANDIDATE_COUNT ==> share.proofs[i].response != 0
  }

  ghost predicate HonestShares(shares: seq<DecryptionShare>, keys: seq<KeyShare>, nonces: seq<seq<int>>, a: Ciphertext,
                               hash: Statement -> nat, q: int)
    requires q > 0 && |shares| <= |nonces|
  {
    forall k :: 0 <= k < |shares| ==> HonestDealtShare(shares[k], keys, nonces[k], a, hash, q)
  }

  lemma HonestSharesAccepted(shares: seq<DecryptionShare>, keys: seq<KeyShare>, nonces: seq<seq<int>>, a: Ciphertext,
                             hash: Statement -> nat, secret: int, coefficients: seq<int>, q: int)
    requires Prime(q) && |shares| <= |nonces| && NoDuplicates(Indexes(shares)) && HonestShares(shares, keys, nonces, a, hash, q)
    requires forall k :: 0 <= k < |keys| ==> IsDealt(keys[k], k + 1, secret, coefficients, q)
    ensures Accepted(shares, a, hash, q)
    ensures forall u :: u in shares ==> 1 <= u.trusteeIndex <= |keys|
    ensures forall u, i :: u in shares && 0 <= i < CANDIDATE_COUNT ==> AppliesDealtScalar(u, a, i, [secret] + coefficients, q)
  {
    forall u | u in shares
      ensures Verified(u, a, hash, q) && 1 <= u.trusteeIndex <= |keys|
      ensures forall i :: 0 <= i < CANDIDATE_COUNT ==> AppliesDealtScalar(u, a, i, [secret] + coefficients, q)
    {
      var k :| 0 <= k < |shares| && shares[k] == u;
      assert HonestDealtShare(u, keys, nonces[k], a, hash, q);
      HonestShareAccepted(u, keys[u.trusteeIndex - 1], a, nonces[k], hash, secret, coefficients, q);
    }
  }

  /** The whole protocol run honestly: dealt keys, one-hot encryptions, batches, aggregation, and shares created by
      any threshold of distinct trustees. They are all accepted and decrypt to the exact votes. */
  lemma HonestRunIsExact(a: Ciphertext, aggregates: seq<Ciphertext>, batches: seq<seq<Ciphertext>>, votes: seq<Vote>,
                         keys: seq<KeyShare>, shares: seq<DecryptionShare>, nonces: seq<seq<int>>, threshold: nat, maxVotes: int,
                         hash: Statement -> nat, secret: int, coefficients: seq<int>, q: int, r: Option<seq<int>>)
    requires Prime(q) && ValidDealing(threshold, |keys|, secret, coefficients, q) && |keys| < q
    requires forall k :: 0 <= k < |keys| ==> IsDealt(keys[k], k + 1, secret, coefficients, q)
    requires AggregatesOf(aggregates, batches, q) && Aggregatable(aggregates) && IsAggregate(a, aggregates, q)
    requires EncryptsVotes(Flatten(batches), votes, secret, q) && |votes| <= maxVotes < q
    requires |shares| >= threshold && |nonces| == threshold && NoDuplicates(Indexes(shares[..threshold]))
    requires HonestShares(shares[..threshold], keys, nonces, a, hash, q)
    requires ThresholdDecryptsTo(a, shares, threshold, maxVotes, hash, q, r)
    ensures r.Some? && ExactCounts(r.value, votes)
  {
    HonestSharesAccepted(shares[..threshold], keys, nonces, a, hash, secret, coefficients, q);
    ThresholdTallyIsExact(a, aggregates, batches, votes, shares, threshold, maxVotes, hash, |keys|, secret, coefficients, q, r);
  }

  lemma HonestShareAccepted(u: DecryptionShare, key: KeyShare, a: Ciphertext, nonces: seq<int>, hash: Statement -> nat,
                            secret: int, coefficients: seq<int>, q: int)
    requires Prime(q) && IsDealt(key, u.trusteeIndex, secret, coefficients, q)
    requires IsHonestShare(u, u.trusteeIndex, key.privateShare, a, nonces, hash, q)
    requires forall i :: 0 <= i < CANDIDATE_COUNT ==> u.proofs[i].response != 0
    ensures Verified(u, a, hash, q)
    ensures forall i :: 0 <= i < CANDIDATE_COUNT ==> AppliesDealtScalar(u, a, i, [secret] + coefficients, q)
  {
    DleqComplete(u, u.trusteeIndex, key.privateShare, a, nonces, hash, q);
    forall i | 0 <= i < CANDIDATE_COUNT ensures AppliesDealtScalar(u, a, i, [secret] + coefficients, q) {
      HonestShareApplies(u, key, u.trusteeIndex, secret, coefficients, a, nonces, hash, q, i);
    }
  }

  lemma AggregateKey(a: Ciphertext, aggregates: seq<Ciphertext>, batches: seq<seq<Ciphertext>>, votes: seq<Vote>, privateKey: int, q: int)
    requires Prime(q)
    requires AggregatesOf(aggregates, batches, q) && Aggregatable(aggregates) && IsAggregate(a, aggregates, q)
    requires EncryptsVotes(Flatten(batches), votes, privateKey, q)
    ensures a.publicKey == Mul(GENERATOR, privateKey, q) && a.keyHash == KeyHash(a.publicKey)
  {
    AggregateOfAggregates(a, aggregates, batches, q);
    assert IsEncryption(Flatten(batches)[0], Mul(GENERATOR, privateKey, q), votes[0].selectedIndex, votes[0].randomness, q);
  }

  /** Decryption always has an outcome. */
  lemma SomeOutcome(ct: Ciphertext, privateKey: int, maxVotes: int, q: Modulus) returns (r: Option<seq<int>>)
    ensures DecryptsTo(ct, privateKey, maxVotes, q, r)
  {
    if !(IsScalar(privateKey, q) && maxVotes >= 0 && ct.publicKey == Mul(GENERATOR, privateKey, q) && |ct.c1| <= |ct.c2|) {
      return None;
    }
    var messages := Messages(ct, privateKey, q);
    var counts: seq<int> := [];
    for k := 0 to |messages|
      invariant |counts| == k
      invariant forall i :: 0 <= i < k ==> IsFirstCount(messages[i], counts[i], maxVotes, q)
    {
      if OutOfRange(messages[k], maxVotes, q) {
        return None;
      }
      var c := FirstCount(messages[k], maxVotes, q);
      counts := counts + [c];
    }
    return Some(counts);
  }

  lemma FirstCount(m: Point, maxVotes: int, q: int) returns (c: int)
    requires q > 0 && !OutOfRange(m, maxVotes, q)
    ensures IsFirstCount(m, c, maxVotes, q)
  {
    var d :| 0 <= d <= maxVotes && Mul(GENERATOR, d, q) == m;
    c := 0;
    while Mul(GENERATOR, c, q) != m
      invariant 0 <= c <= d
      invariant forall e :: 0 <= e < c ==> Mul(GENERATOR, e, q) != m
      decreases d - c
    {
      c := c + 1;
    }
  }
}
