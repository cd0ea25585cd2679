/** Exponential ElGamal over a cyclic group of prime order q: encrypting a ballot, aggregating
    ciphertexts and decrypting a tally with the private key. */
module ElGamal {
  import opened Wrappers
  import opened Field

  const CANDIDATE_COUNT: nat := 4

  /** An element of the group, named by its discrete logarithm to the generator. */
  datatype Point = Point(log: int)

  const IDENTITY := Point(0)
  const GENERATOR := Point(1)

  predicate InGroup(p: Point, q: int) {
    0 <= p.log < q
  }

  function Add(a: Point, b: Point, q: Modulus): Point {
    Point((a.log + b.log) % q)
  }

  function Neg(a: Point, q: Modulus): Point {
    Point(-a.log % q)
  }

  function Mul(a: Point, k: int, q: Modulus): Point {
    Point((a.log * k) % q)
  }

  /** Collision-free hash of an election public key. */
  datatype KeyHash = KeyHash(key: Point)

  datatype Ciphertext = Ciphertext(keyHash: KeyHash, publicKey: Point, c1: seq<Point>, c2: seq<Point>)

  predicate Wellformed(ct: Ciphertext, q: int) {
    && |ct.c1| == CANDIDATE_COUNT && |ct.c2| == CANDIDATE_COUNT
    && (forall p :: p in ct.c1 ==> InGroup(p, q))
    && (forall p :: p in ct.c2 ==> InGroup(p, q))
  }

  predicate IsScalar(k: int, q: int) {
    0 < k < q
  }

  // ----- residues of point operations

  lemma PointEq(a: Point, b: Point, q: int)
    requires q > 0 && InGroup(a, q) && InGroup(b, q) && Cong(a.log, b.log, q)
    ensures a == b
  {
    ModUnique(a.log, 0, a.log, q);
    ModUnique(b.log, 0, b.log, q);
  }

  lemma AddLog(a: Point, b: Point, q: Modulus)
    ensures InGroup(Add(a, b, q), q) && Cong(Add(a, b, q).log, a.log + b.log, q)
  {
    CongMod(a.log + b.log, q);
  }

  lemma MulLog(a: Point, k: int, q: Modulus)
    ensures InGroup(Mul(a, k, q), q) && Cong(Mul(a, k, q).log, a.log * k, q)
  {
    CongMod(a.log * k, q);
  }

  lemma SubLog(a: Point, b: Point, q: Modulus)
    ensures InGroup(Add(a, Neg(b, q), q), q) && Cong(Add(a, Neg(b, q), q).log, a.log - b.log, q)
  {
    AddLog(a, Neg(b, q), q);
    CongMod(-b.log, q);
    CongAdd(a.log, a.log, Neg(b, q).log, -b.log, q);
  }

  // ----- encryption

  /** The point encrypted at one position, seen by the holder of the private key. */
  function Message(c1: Point, c2: Point, privateKey: int, q: Modulus): Point {
    Add(c2, Neg(Mul(c1, privateKey, q), q), q)
  }

  predicate ValidBallotInput(selectedIndex: int, randomness: seq<int>, q: int) {
    && 0 <= selectedIndex < CANDIDATE_COUNT
    && |randomness| == CANDIDATE_COUNT
    && forall i :: 0 <= i < |randomness| ==> IsScalar(randomness[i], q)
  }

  /** What an honest ballot is: position i carries the selection bit under nonce i. */
  ghost predicate IsEncryption(ct: Ciphertext, publicKey: Point, selectedIndex: int, randomness: seq<int>, q: int)
    requires q > 0 && ValidBallotInput(selectedIndex, randomness, q)
  {
    && ct.keyHash == KeyHash(publicKey) && ct.publicKey == publicKey
    && |ct.c1| == CANDIDATE_COUNT && |ct.c2| == CANDIDATE_COUNT
    && forall i :: 0 <= i < CANDIDATE_COUNT ==>
         && ct.c1[i] == Mul(GENERATOR, randomness[i], q)
         && ct.c2[i] == Add(Mul(publicKey, randomness[i], q), if i == selectedIndex then GENERATOR else IDENTITY, q)
  }

  /** `encryptProofCompatibleBallot`, with its random scalars as a parameter. */
  method EncryptBallot(publicKey: Point, selectedIndex: int, randomness: seq<int>, q: int) returns (r: Option<Ciphertext>)
    requires Prime(q) && InGroup(publicKey, q)
    ensures r.Some? <==>
      0 <= selectedIndex < 4 && |randomness| == 4 && forall i :: 0 <= i < |randomness| ==> 0 < randomness[i] < q
    ensures r.Some? <==> ValidBallotInput(selectedIndex, randomness, q)
    ensures r.Some? ==> Wellformed(r.value, q) && IsEncryption(r.value, publicKey, selectedIndex, randomness, q)
  {
    if !(0 <= selectedIndex < CANDIDATE_COUNT) || |randomness| != CANDIDATE_COUNT {
      return None;
    }
    if exists i :: 0 <= i < |randomness| && !IsScalar(randomness[i], q) {
      return None;
    }
    var c1: seq<Point> := [];
    var c2: seq<Point> := [];
    for index := 0 to CANDIDATE_COUNT
      invariant |c1| == |c2| == index
      invariant forall i :: 0 <= i < index ==>
        && InGroup(c1[i], q) && InGroup(c2[i], q)
        && c1[i] == Mul(GENERATOR, randomness[i], q)
        && c2[i] == Add(Mul(publicKey, randomness[i], q), if i == selectedIndex then GENERATOR else IDENTITY, q)
    {
      var firstPoint := Mul(GENERATOR, randomness[index], q);
      var sharedSecret := Mul(publicKey, randomness[index], q);
      var encryptedMessage := if index == selectedIndex then Add(sharedSecret, GENERATOR, q) else sharedSecret;
      MulLog(GENERATOR, randomness[index], q);
      MulLog(publicKey, randomness[index], q);
      AddLog(sharedSecret, GENERATOR, q);
      ModUnique(sharedSecret.log, 0, sharedSecret.log, q);
      c1 := c1 + [firstPoint];
      c2 := c2 + [encryptedMessage];
    }
    r := Some(Ciphertext(KeyHash(publicKey), publicKey, c1, c2));
  }

  /** Decryption undoes encryption: the message at position i is the selection bit. */
  lemma EncryptionDecrypts(ct: Ciphertext, privateKey: int, selectedIndex: int, randomness: seq<int>, q: int, i: nat)
    requires Prime(q) && ValidBallotInput(selectedIndex, randomness, q) && i < CANDIDATE_COUNT
    requires IsEncryption(ct, Mul(GENERATOR, privateKey, q), selectedIndex, randomness, q)
    ensures Message(ct.c1[i], ct.c2[i], privateKey, q) == if i == selectedIndex then GENERATOR else IDENTITY
  {
    var publicKey, k := Mul(GENERATOR, privateKey, q), randomness[i];
    var bit := if i == selectedIndex then GENERATOR else IDENTITY;
    MulLog(GENERATOR, privateKey, q);
    MulLog(GENERATOR, k, q);
    MulLog(publicKey, k, q);
    MulLog(ct.c1[i], privateKey, q);
    CongMul(publicKey.log, privateKey, k, k, q);
    CongMul(ct.c1[i].log, k, privateKey, privateKey, q);
    AddLog(Mul(publicKey, k, q), bit, q);
    CongAdd(Mul(publicKey, k, q).log, privateKey * k, bit.log, bit.log, q);
    SubLog(ct.c2[i], Mul(ct.c1[i], privateKey, q), q);
    CongAdd(ct.c2[i].log, privateKey * k + bit.log, Mul(ct.c1[i], privateKey, q).log, k * privateKey, q);
    PointEq(Message(ct.c1[i], ct.c2[i], privateKey, q), bit, q);
  }

  // ----- aggregation

  function LogSum(ps: seq<Point>): int {
    if ps == [] then 0 else LogSum(ps[..|ps| - 1]) + ps[|ps| - 1].log
  }

  function FirstColumn(cts: seq<Ciphertext>, i: nat): (r: seq<Point>)
    requires forall ct :: ct in cts ==> i < |ct.c1|
    ensures |r| == |cts|
  {
    seq(|cts|, k requires 0 <= k < |cts| => cts[k].c1[i])
  }

  function SecondColumn(cts: seq<Ciphertext>, i: nat): (r: seq<Point>)
    requires forall ct :: ct in cts ==> i < |ct.c2|
    ensures |r| == |cts|
  {
    seq(|cts|, k requires 0 <= k < |cts| => cts[k].c2[i])
  }

  predicate Aggregatable(cts: seq<Ciphertext>) {
    && cts != []
    && forall ct :: ct in cts ==>
         && ct.keyHash == cts[0].keyHash && ct.publicKey == cts[0].publicKey
         && |ct.c1| == CANDIDATE_COUNT && |ct.c2| == CANDIDATE_COUNT
  }

  /** What aggregation means: position by position, logarithms add up modulo q. */
  ghost predicate IsAggregate(a: Ciphertext, cts: seq<Ciphertext>, q: int)
    requires q > 0 && Aggregatable(cts)
  {
    && a.keyHash == cts[0].keyHash && a.publicKey == cts[0].publicKey
    && Wellformed(a, q)
    && (forall i :: 0 <= i < CANDIDATE_COUNT ==> Cong(a.c1[i].log, LogSum(FirstColumn(cts, i)), q))
    && (forall i :: 0 <= i < CANDIDATE_COUNT ==> Cong(a.c2[i].log, LogSum(SecondColumn(cts, i)), q))
  }

  /** `aggregateProofCompatibleCiphertexts`; None is a failed assertion. */
  method Aggregate(cts: seq<Ciphertext>, q: int) returns (r: Option<Ciphertext>)
    requires q > 0 && forall ct :: ct in cts && |ct.c1| == |ct.c2| == CANDIDATE_COUNT ==> Wellformed(ct, q)
    ensures r.Some? <==>
      && cts != []
      && forall k :: 0 <= k < |cts| ==>
           cts[k].keyHash == cts[0].keyHash && cts[k].publicKey == cts[0].publicKey && |cts[k].c1| == |cts[k].c2| == 4
    ensures r.Some? <==> Aggregatable(cts)
    ensures r.Some? ==> IsAggregate(r.value, cts, q)
  {
    if !Aggregatable(cts) {
      return None;
    }
    var c1: seq<Point> := [];
    var c2: seq<Point> := [];
    for index := 0 to CANDIDATE_COUNT
      invariant |c1| == |c2| == index
      invariant forall i :: 0 <= i < index ==> InGroup(c1[i], q) && Cong(c1[i].log, LogSum(FirstColumn(cts, i)), q)
      invariant forall i :: 0 <= i < index ==> InGroup(c2[i], q) && Cong(c2[i].log, LogSum(SecondColumn(cts, i)), q)
    {
      var first := cts[0].c1[index];
      var second := cts[0].c2[index];
      ghost var col1, col2 := FirstColumn(cts, index), SecondColumn(cts, index);
      assert cts[0] in cts && col1[..1] == [first] && col2[..1] == [second];
      for ballotIndex := 1 to |cts|
        invariant InGroup(first, q) && Cong(first.log, LogSum(col1[..ballotIndex]), q)
        invariant InGroup(second, q) && Cong(second.log, LogSum(col2[..ballotIndex]), q)
      {
        LogSumStep(col1, ballotIndex, first, q);
        LogSumStep(col2, ballotIndex, second, q);
        first := Add(first, cts[ballotIndex].c1[index], q);
        second := Add(second, cts[ballotIndex].c2[index], q);
      }
      assert col1[..|cts|] == col1 && col2[..|cts|] == col2;
      c1 := c1 + [first];
      c2 := c2 + [second];
    }
    r := Some(Ciphertext(cts[0].keyHash, cts[0].publicKey, c1, c2));
  }

  lemma LogSumStep(col: seq<Point>, k: nat, acc: Point, q: int)
    requires q > 0 && k < |col| && Cong(acc.log, LogSum(col[..k]), q)
    ensures InGroup(Add(acc, col[k], q), q) && Cong(Add(acc, col[k], q).log, LogSum(col[..k + 1]), q)
  {
    assert col[..k + 1][..k] == col[..k];
    AddLog(acc, col[k], q);
    CongAdd(acc.log, LogSum(col[..k]), col[k].log, col[k].log, q);
  }

  // ----- decryption

  /** c is the first count up to maxVotes whose multiple of the generator is m. */
  ghost predicate IsFirstCount(m: Point, c: int, maxVotes: int, q: Modulus) {
    && 0 <= c <= maxVotes && Mul(GENERATOR, c, q) == m
    && forall d :: 0 <= d < c ==> Mul(GENERATOR, d, q) != m
  }

  ghost predicate OutOfRange(m: Point, maxVotes: int, q: Modulus) {
    forall d :: 0 <= d <= maxVotes ==> Mul(GENERATOR, d, q) != m
  }

  /** The decryption loops: counts for all messages, or failure when some message is out of range. */
  ghost predicate Decodes(messages: seq<Point>, maxVotes: int, q: Modulus, r: Option<seq<int>>) {
    match r
    case Some(counts) =>
      && |counts| == |messages|
      && forall i :: 0 <= i < |messages| ==> IsFirstCount(messages[i], counts[i], maxVotes, q)
    case None =>
      exists i :: 0 <= i < |messages| && OutOfRange(messages[i], maxVotes, q)
  }

  /** The scan over candidate counts shared by both decryption functions. */
  method ScanCount(message: Point, maxVotes: int, q: Modulus) returns (r: Option<int>)
    ensures r.Some? ==> IsFirstCount(message, r.value, maxVotes, q)
    ensures r.None? ==> OutOfRange(message, maxVotes, q)
  {
    var count := 0;
    while count <= maxVotes
      invariant 0 <= count
      invariant forall d :: 0 <= d < count ==> Mul(GENERATOR, d, q) != message
      decreases maxVotes - count
    {
      if Mul(GENERATOR, count, q) == message {
        return Some(count);
      }
      count := count + 1;
    }
    return None;
  }

  /** A message determines the outcome of decryption. */
  lemma DecodesUnique(messages: seq<Point>, maxVotes: int, q: int, r: Option<seq<int>>, s: Option<seq<int>>)
    requires q > 0 && Decodes(messages, maxVotes, q, r) && Decodes(messages, maxVotes, q, s)
    ensures r == s
  {
    if r.Some? && s.Some? {
      forall i | 0 <= i < |messages| ensures r.value[i] == s.value[i] {
        assert IsFirstCount(messages[i], r.value[i], maxVotes, q) && IsFirstCount(messages[i], s.value[i], maxVotes, q);
      }
      assert r.value == s.value;
    }
  }

  lemma NoNegativeCounts(messages: seq<Point>, maxVotes: int, q: int, r: Option<seq<int>>)
    requires q > 0 && messages != [] && maxVotes < 0 && Decodes(messages, maxVotes, q, r)
    ensures r == None
  {
    var first := messages[0];
  }

  function Messages(ct: Ciphertext, privateKey: int, q: int): (r: seq<Point>)
    requires q > 0 && |ct.c1| <= |ct.c2|
    ensures |r| == |ct.c1|
  {
    seq(|ct.c1|, i requires 0 <= i < |ct.c1| => Message(ct.c1[i], ct.c2[i], privateKey, q))
  }

  /** The outcomes `decryptProofCompatibleTally` may have. */
  ghost predicate DecryptsTo(ct: Ciphertext, privateKey: int, maxVotes: int, q: Modulus, r: Option<seq<int>>) {
    if IsScalar(privateKey, q) && maxVotes >= 0 && ct.publicKey == Mul(GENERATOR, privateKey, q) && |ct.c1| <= |ct.c2|
    then Decodes(Messages(ct, privateKey, q), maxVotes, q, r)
    else r == None
  }

  method DecryptTally(privateKey: int, ct: Ciphertext, maxVotes: int, q: Modulus) returns (r: Option<seq<int>>)
    ensures DecryptsTo(ct, privateKey, maxVotes, q, r)
    ensures r.Some? ==> 0 < privateKey < q && maxVotes >= 0 && ct.publicKey == Mul(GENERATOR, privateKey, q) && |r.value| == |ct.c1|
  {
    if !IsScalar(privateKey, q) || maxVotes < 0 || ct.publicKey != Mul(GENERATOR, privateKey, q) || |ct.c1| > |ct.c2| {
      return None;
    }
    var counts: seq<int> := [];
    ghost var messages := Messages(ct, privateKey, q);
    for index := 0 to |ct.c1|
      invariant |counts| == index
      invariant forall i :: 0 <= i < index ==> IsFirstCount(messages[i], counts[i], maxVotes, q)
    {
      var shared := Mul(ct.c1[index], privateKey, q);
      var message := Add(ct.c2[index], Neg(shared, q), q);
      var count := ScanCount(message, maxVotes, q);
      if count.None? {
        assert OutOfRange(messages[index], maxVotes, q);
        return None;
      }
      counts := counts + [count.value];
    }
    return Some(counts);
  }
}
