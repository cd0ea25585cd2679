/** Trustees: dealing key shares, decryption shares with DLEQ proofs, and threshold decryption. */
module Threshold {
  import opened Wrappers
  import opened Sequences
  import opened Field
  import opened Shamir
  import opened ElGamal

  // ----- dealing

  datatype KeyShare = KeyShare(trusteeIndex: int, privateShare: int, publicShare: Point)

  datatype KeySet = KeySet(threshold: int, trusteeCount: int, publicKey: Point, shares: seq<KeyShare>)

  predicate ValidDealing(threshold: int, trusteeCount: int, secret: int, coefficients: seq<int>, q: int) {
    && threshold >= 2 && trusteeCount >= threshold
    && IsScalar(secret, q)
    && |coefficients| == threshold - 1
    && forall i :: 0 <= i < |coefficients| ==> IsScalar(coefficients[i], q)
  }

  /** No trustee would be dealt the zero share. */
  ghost predicate NoZeroShare(secret: int, coefficients: seq<int>, trusteeCount: int, q: Modulus) {
    forall x :: 1 <= x <= trusteeCount ==> !Cong(Eval([secret] + coefficients, x), 0, q)
  }

  /** Share number x is the value at x of the polynomial with the secret as constant term. */
  ghost predicate IsDealt(s: KeyShare, x: int, secret: int, coefficients: seq<int>, q: Modulus) {
    && s.trusteeIndex == x
    && IsScalar(s.privateShare, q) && Cong(s.privateShare, Eval([secret] + coefficients, x), q)
    && s.publicShare == Mul(GENERATOR, s.privateShare, q)
  }

  function Power(x: int, n: nat): int {
    if n == 0 then 1 else Power(x, n - 1) * x
  }

  lemma {:induction false} EvalSnoc(cs: seq<int>, c: int, x: int)
    ensures Eval(cs + [c], x) == Eval(cs, x) + c * Power(x, |cs|)
  {
    if cs == [] {
      assert [c][1..] == [];
    } else {
      EvalSnoc(cs[1..], c, x);
      assert (cs + [c])[1..] == cs[1..] + [c];
      SnocRing(x, Eval(cs[1..], x), c, Power(x, |cs| - 1));
    }
  }

  lemma SnocRing(x: int, e: int, c: int, p: int)
    ensures x * (e + c * p) == x * e + c * (p * x)
  {
    assert x * (c * p) == c * (p * x);
  }

  /** The inner dealing loop for one trustee. */
  method EvaluateShare(secret: int, coefficients: seq<int>, x: int, q: Modulus) returns (privateShare: int)
    ensures Cong(privateShare, Eval([secret] + coefficients, x), q)
    ensures coefficients != [] ==> 0 <= privateShare < q
  {
    privateShare := secret;
    var power := x;
    assert [secret] + coefficients[..0] == [secret];
    assert Eval([secret], x) == secret + x * Eval([], x);
    assert Power(x, 1) == Power(x, 0) * x;
    for k := 0 to |coefficients|
      invariant Cong(privateShare, Eval([secret] + coefficients[..k], x), q)
      invariant Cong(power, Power(x, k + 1), q)
      invariant k > 0 ==> 0 <= privateShare < q
    {
      var coefficient := coefficients[k];
      var front := [secret] + coefficients[..k];
      EvalSnoc(front, coefficient, x);
      assert [secret] + coefficients[..k + 1] == front + [coefficient];
      CongScale(coefficient, power, Power(x, k + 1), q);
      CongAdd(privateShare, Eval(front, x), coefficient * power, coefficient * Power(x, k + 1), q);
      CongMod(privateShare + coefficient * power, q);
      CongMul(power, Power(x, k + 1), x, x, q);
      CongMod(power * x, q);
      privateShare := Mod(privateShare + coefficient * power, q);
      power := Mod(power * x, q);
    }
    assert coefficients[..|coefficients|] == coefficients;
  }

  /** `createProofCompatibleThresholdKeySet`, with its random scalars as parameters. It throws on invalid
      parameters and when some trustee would receive the zero share. */
  method CreateKeySet(threshold: int, trusteeCount: int, secret: int, coefficients: seq<int>, q: int)
    returns (r: Option<KeySet>)
    requires Prime(q)
    ensures r.Some? <==>
      && 2 <= threshold <= trusteeCount && 0 < secret < q
      && |coefficients| == threshold - 1 && (forall i :: 0 <= i < |coefficients| ==> 0 < coefficients[i] < q)
      && NoZeroShare(secret, coefficients, trusteeCount, q)
    ensures r.Some? ==>
      && r.value.threshold == threshold && r.value.trusteeCount == trusteeCount
      && r.value.publicKey == Mul(GENERATOR, secret, q)
      && |r.value.shares| == trusteeCount
      && forall k :: 0 <= k < trusteeCount ==> IsDealt(r.value.shares[k], k + 1, secret, coefficients, q)
  {
    if !ValidDealing(threshold, trusteeCount, secret, coefficients, q) {
      return None;
    }
    var publicKey := Mul(GENERATOR, secret, q);
    var shares: seq<KeyShare> := [];
    for trusteeIndex := 1 to trusteeCount + 1
      invariant |shares| == trusteeIndex - 1
      invariant forall k :: 0 <= k < |shares| ==> IsDealt(shares[k], k + 1, secret, coefficients, q)
      invariant NoZeroShare(secret, coefficients, trusteeIndex - 1, q)
    {
      var privateShare := EvaluateShare(secret, coefficients, trusteeIndex, q);
      assert coefficients != [];
      ModUnique(privateShare, 0, privateShare, q);
      if !IsScalar(privateShare, q) {
        assert Cong(Eval([secret] + coefficients, trusteeIndex), 0, q);
        assert !NoZeroShare(secret, coefficients, trusteeCount, q);
        return None;
      }
      shares := shares + [KeyShare(trusteeIndex, privateShare, Mul(GENERATOR, privateShare, q))];
    }
    r := Some(KeySet(threshold, trusteeCount, publicKey, shares));
  }

  // ----- decryption shares

  /** What the Fiat-Shamir challenge binds. */
  datatype Statement = Statement(
    keyHash: KeyHash, trusteeIndex: int, publicShare: Point, ciphertextPoint: Point,
    sharePoint: Point, commitmentToGenerator: Point, commitmentToCiphertext: Point)

  datatype DleqProof = DleqProof(commitmentToGenerator: Point, commitmentToCiphertext: Point, response: int)

  datatype DecryptionShare = DecryptionShare(
    trusteeIndex: int, publicShare: Point, keyHash: KeyHash, points: seq<Point>, proofs: seq<DleqProof>)

  const UINT32: nat := 0x1_0000_0000

  /** The challenge encodes the trustee index as a uint32; any other index makes the encoder throw. */
  predicate Encodable(trusteeIndex: int) {
    0 <= trusteeIndex < UINT32
  }

  function StatementOf(share: DecryptionShare, c1: seq<Point>, i: nat): Statement
    requires i < |c1| && i < |share.points| && i < |share.proofs|
  {
    Statement(share.keyHash, share.trusteeIndex, share.publicShare, c1[i], share.points[i],
              share.proofs[i].commitmentToGenerator, share.proofs[i].commitmentToCiphertext)
  }

  /** The honest share of a trustee holding x, under the given nonces. */
  ghost predicate IsHonestShare(share: DecryptionShare, trusteeIndex: int, x: int, ct: Ciphertext, nonces: seq<int>,
                                hash: Statement -> nat, q: Modulus)
  {
    && share.trusteeIndex == trusteeIndex && Encodable(trusteeIndex) && share.keyHash == ct.keyHash
    && share.publicShare == Mul(GENERATOR, x, q)
    && |share.points| == |share.proofs| == |nonces| == CANDIDATE_COUNT <= |ct.c1|
    && forall i :: 0 <= i < CANDIDATE_COUNT ==>
         && share.points[i] == Mul(ct.c1[i], x, q)
         && share.proofs[i].commitmentToGenerator == Mul(GENERATOR, nonces[i], q)
         && share.proofs[i].commitmentToCiphertext == Mul(ct.c1[i], nonces[i], q)
         && share.proofs[i].response == (nonces[i] + hash(StatementOf(share, ct.c1, i)) % q * x) % q
  }

  /** `createProofCompatibleDecryptionShare`, with its nonces as a parameter. */
  method CreateDecryptionShare(trusteeIndex: int, privateShare: int, ct: Ciphertext, nonces: seq<int>,
                               hash: Statement -> nat, q: int) returns (r: Option<DecryptionShare>)
    requires Prime(q)
    ensures r.Some? <==>
      && IsScalar(privateShare, q) && Encodable(trusteeIndex) && |nonces| == CANDIDATE_COUNT <= |ct.c1|
      && forall i :: 0 <= i < |nonces| ==> IsScalar(nonces[i], q)
    ensures r.Some? ==> IsHonestShare(r.value, trusteeIndex, privateShare, ct, nonces, hash, q)
  {
    if !IsScalar(privateShare, q) || !Encodable(trusteeIndex) || |nonces| != CANDIDATE_COUNT || |ct.c1| < CANDIDATE_COUNT {
      return None;
    }
    var publicShare := Mul(GENERATOR, privateShare, q);
    var points: seq<Point> := [];
    var proofs: seq<DleqProof> := [];
    for index := 0 to CANDIDATE_COUNT
      invariant |points| == |proofs| == index
      invariant forall i :: 0 <= i < index ==> IsScalar(nonces[i], q)
      invariant forall i :: 0 <= i < index ==>
        && points[i] == Mul(ct.c1[i], privateShare, q)
        && proofs[i].commitmentToGenerator == Mul(GENERATOR, nonces[i], q)
        && proofs[i].commitmentToCiphertext == Mul(ct.c1[i], nonces[i], q)
        && proofs[i].response == (nonces[i] + hash(Statement(ct.keyHash, trusteeIndex, publicShare, ct.c1[i], points[i],
             proofs[i].commitmentToGenerator, proofs[i].commitmentToCiphertext)) % q * privateShare) % q
    {
      var nonce := nonces[index];
      if !IsScalar(nonce, q) {
        return None;
      }
      var sharePoint := Mul(ct.c1[index], privateShare, q);
      var toGenerator := Mul(GENERATOR, nonce, q);
      var toCiphertext := Mul(ct.c1[index], nonce, q);
      var challenge := Mod(hash(Statement(ct.keyHash, trusteeIndex, publicShare, ct.c1[index], sharePoint, toGenerator, toCiphertext)), q);
      points := points + [sharePoint];
      proofs := proofs + [DleqProof(toGenerator, toCiphertext, Mod(nonce + challenge * privateShare, q))];
    }
    r := Some(DecryptionShare(trusteeIndex, publicShare, ct.keyHash, points, proofs));
  }

  /** The two verification equations of a Chaum-Pedersen proof. */
  predicate DleqEquations(publicShare: Point, c: Point, d: Point, proof: DleqProof, challenge: int, q: Modulus) {
    && Mul(GENERATOR, proof.response, q) == Add(proof.commitmentToGenerator, Mul(publicShare, challenge, q), q)
    && Mul(c, proof.response, q) == Add(proof.commitmentToCiphertext, Mul(d, challenge, q), q)
  }

  predicate Verified(share: DecryptionShare, ct: Ciphertext, hash: Statement -> nat, q: Modulus) {
    && share.keyHash == ct.keyHash && Encodable(share.trusteeIndex)
    && |share.points| == |share.proofs| == CANDIDATE_COUNT <= |ct.c1|
    && forall i :: 0 <= i < CANDIDATE_COUNT ==>
         && IsScalar(share.proofs[i].response, q)
         && DleqEquations(share.publicShare, ct.c1[i], share.points[i], share.proofs[i],
                          hash(StatementOf(share, ct.c1, i)) % q, q)
  }

  /** `verifyProofCompatibleDecryptionShare`: every thrown assertion is caught and reads as false. */
  method VerifyDecryptionShare(ct: Ciphertext, share: DecryptionShare, hash: Statement -> nat, q: Modulus) returns (ok: bool)
    ensures ok == Verified(share, ct, hash, q)
  {
    if share.keyHash != ct.keyHash || |share.points| != CANDIDATE_COUNT || |share.proofs| != CANDIDATE_COUNT
       || |ct.c1| < CANDIDATE_COUNT || !Encodable(share.trusteeIndex) {
      return false;
    }
    for index := 0 to CANDIDATE_COUNT
      invariant forall i :: 0 <= i < index ==>
        && IsScalar(share.proofs[i].response, q)
        && DleqEquations(share.publicShare, ct.c1[i], share.points[i], share.proofs[i],
                         hash(StatementOf(share, ct.c1, i)) % q, q)
    {
      var challenge := Mod(hash(StatementOf(share, ct.c1, index)), q);
      if !IsScalar(share.proofs[index].response, q) {
        return false;
      }
      if !DleqEquations(share.publicShare, ct.c1[index], share.points[index], share.proofs[index], challenge, q) {
        return false;
      }
    }
    return true;
  }

  // ----- the DLEQ proof

  /** Completeness is exact: the equations always hold for an honest share, so it verifies precisely when no
      response is zero (the verifier insists on a nonzero scalar, the prover does not). */
  lemma DleqComplete(share: DecryptionShare, trusteeIndex: int, x: int, ct: Ciphertext, nonces: seq<int>,
                     hash: Statement -> nat, q: int)
    requires Prime(q) && IsHonestShare(share, trusteeIndex, x, ct, nonces, hash, q)
    ensures Verified(share, ct, hash, q) <==>
      forall i :: 0 <= i < CANDIDATE_COUNT ==> (nonces[i] + hash(StatementOf(share, ct.c1, i)) % q * x) % q != 0
  {
    forall i | 0 <= i < CANDIDATE_COUNT
      ensures DleqEquations(share.publicShare, ct.c1[i], share.points[i], share.proofs[i], hash(StatementOf(share, ct.c1, i)) % q, q)
    {
      var e := hash(StatementOf(share, ct.c1, i)) % q;
      DleqEquation(GENERATOR, x, nonces[i], e, q);
      DleqEquation(ct.c1[i], x, nonces[i], e, q);
    }
  }

  /** Zero responses are not an artefact of one group: in every group and for every ciphertext, trustee scalar and
      nonce there is a challenge under which the honest share has one and its own verifier rejects it. */
  lemma HonestShareRejected(ct: Ciphertext, trusteeIndex: int, x: int, k: int, q: int)
    returns (share: DecryptionShare, hash: Statement -> nat)
    requires Prime(q) && Wellformed(ct, q) && IsScalar(x, q) && Encodable(trusteeIndex)
    ensures IsHonestShare(share, trusteeIndex, x, ct, [k, k, k, k], hash, q) && !Verified(share, ct, hash, q)
  {
    var e := BadChallenge(x, k, q);
    hash := (s: Statement) => e;
    var nonces := [k, k, k, k];
    var points := seq(CANDIDATE_COUNT, i requires 0 <= i < CANDIDATE_COUNT => Mul(ct.c1[i], x, q));
    var proofs := seq(CANDIDATE_COUNT, i requires 0 <= i < CANDIDATE_COUNT => DleqProof(Mul(GENERATOR, k, q), Mul(ct.c1[i], k, q), 0));
    share := DecryptionShare(trusteeIndex, Mul(GENERATOR, x, q), ct.keyHash, points, proofs);
    assert forall i :: 0 <= i < CANDIDATE_COUNT ==> nonces[i] == k && hash(StatementOf(share, ct.c1, i)) == e;
    assert share.proofs[0].response == 0;
  }

  /** The challenge that cancels a nonce. */
  lemma BadChallenge(x: int, k: int, q: int) returns (e: nat)
    requires Prime(q) && IsScalar(x, q)
    ensures e < q && (k + e % q * x) % q == 0
  {
    ModUnique(x, 0, x, q);
    var i := Inv(x, q);
    e := (-k * i) % q;
    ModUnique(e, 0, e, q);
    CongMod(-k * i, q);
    CongMul(e, -k * i, x, x, q);
    CongScale(-k, i * x, 1, q);
    assert -k * i * x == -k * (i * x);
    CongAdd(k, k, e * x, -k, q);
  }

  lemma DleqEquation(base: Point, x: int, nonce: int, e: int, q: int)
    requires Prime(q)
    ensures Mul(base, (nonce + e * x) % q, q) == Add(Mul(base, nonce, q), Mul(Mul(base, x, q), e, q), q)
  {
    var z := (nonce + e * x) % q;
    var left, right := Mul(base, z, q), Add(Mul(base, nonce, q), Mul(Mul(base, x, q), e, q), q);
    var b := base.log;
    MulLog(base, z, q);
    CongMod(nonce + e * x, q);
    CongScale(b, z, nonce + e * x, q);
    MulLog(base, nonce, q);
    MulLog(base, x, q);
    MulLog(Mul(base, x, q), e, q);
    CongMul(Mul(base, x, q).log, b * x, e, e, q);
    AddLog(Mul(base, nonce, q), Mul(Mul(base, x, q), e, q), q);
    CongAdd(Mul(base, nonce, q).log, b * nonce, Mul(Mul(base, x, q), e, q).log, (b * x) * e, q);
    assert b * (nonce + e * x) == b * nonce + (b * x) * e;
    PointEq(left, right, q);
  }

  /** Special soundness: two accepting responses to different challenges on the same commitments expose one
      scalar that is both the logarithm of the public share and the exponent of the decryption share. */
  lemma DleqSpeciallySound(publicShare: Point, c: Point, d: Point, first: DleqProof, second: DleqProof, e: int, f: int, q: int)
    returns (w: int)
    requires Prime(q) && InGroup(publicShare, q) && InGroup(d, q) && (e - f) % q != 0
    requires first.commitmentToGenerator == second.commitmentToGenerator
    requires first.commitmentToCiphertext == second.commitmentToCiphertext
    requires DleqEquations(publicShare, c, d, first, e, q) && DleqEquations(publicShare, c, d, second, f, q)
    ensures 0 <= w < q && publicShare == Mul(GENERATOR, w, q) && d == Mul(c, w, q)
    ensures forall v :: 0 <= v < q && publicShare == Mul(GENERATOR, v, q) ==> v == w
  {
    w := ((first.response - second.response) * Inv(e - f, q)) % q;
    Extract(GENERATOR, publicShare, first.commitmentToGenerator, first.response, second.response, e, f, q);
    Extract(c, d, first.commitmentToCiphertext, first.response, second.response, e, f, q);
    forall v | 0 <= v < q && publicShare == Mul(GENERATOR, v, q)
      ensures v == w
    {
      ModUnique(v, 0, v, q);
      ModUnique(w, 0, w, q);
    }
  }

  lemma Extract(base: Point, target: Point, commitment: Point, z: int, y: int, e: int, f: int, q: int)
    requires Prime(q) && InGroup(target, q) && (e - f) % q != 0
    requires Mul(base, z, q) == Add(commitment, Mul(target, e, q), q)
    requires Mul(base, y, q) == Add(commitment, Mul(target, f, q), q)
    ensures target == Mul(base, ((z - y) * Inv(e - f, q)) % q, q)
  {
    var b, t, a, i := base.log, target.log, commitment.log, Inv(e - f, q);
    Equation(base, target, commitment, z, e, q);
    Equation(base, target, commitment, y, f, q);
    ExtractStep(b, t, a, i, z, y, e, f, q);
    CongMod((z - y) * i, q);
    CongScale(b, ((z - y) * i) % q, (z - y) * i, q);
    MulLog(base, ((z - y) * i) % q, q);
    PointEq(target, Mul(base, ((z - y) * i) % q, q), q);
  }

  /** Subtracting two equations and dividing by the difference of the challenges. */
  lemma ExtractStep(b: int, t: int, a: int, i: int, z: int, y: int, e: int, f: int, q: int)
    requires q > 0 && Cong(b * z, a + t * e, q) && Cong(b * y, a + t * f, q) && Cong(i * (e - f), 1, q)
    ensures Cong(b * ((z - y) * i), t, q)
  {
    CongAdd(b * z, a + t * e, b * y, a + t * f, q);
    Difference(b, z, y);
    Difference(t, e, f);
    CongScale(i, b * (z - y), t * (e - f), q);
    CongScale(t, i * (e - f), 1, q);
    Reorder(i, t, e - f);
    Reorder(i, b, z - y);
  }

  lemma Difference(c: int, x: int, y: int)
    ensures c * x - c * y == c * (x - y)
  {
  }

  lemma Reorder(i: int, t: int, d: int)
    ensures i * (t * d) == t * (i * d) == t * (d * i)
  {
  }

  lemma Equation(base: Point, target: Point, commitment: Point, z: int, e: int, q: int)
    requires q > 0 && Mul(base, z, q) == Add(commitment, Mul(target, e, q), q)
    ensures Cong(base.log * z, commitment.log + target.log * e, q)
  {
    MulLog(base, z, q);
    MulLog(target, e, q);
    AddLog(commitment, Mul(target, e, q), q);
    CongAdd(commitment.log, commitment.log, Mul(target, e, q).log, target.log * e, q);
  }

  // ----- threshold decryption

  function Indexes(shares: seq<DecryptionShare>): (r: seq<int>)
    ensures |r| == |shares|
  {
    seq(|shares|, k requires 0 <= k < |shares| => shares[k].trusteeIndex)
  }

  /** The interpolation weights of these indexes are defined. */
  ghost predicate Weighable(xs: seq<int>, q: Modulus) {
    forall x :: x in xs ==> Separated(x, xs, q)
  }

  /** Logarithm of the sum of the points, each times the interpolation weight of its index. */
  ghost function WeightedLog(xs: seq<int>, points: seq<Point>, all: seq<int>, q: int): int
    requires Prime(q) && |xs| == |points| && forall x :: x in xs ==> Separated(x, all, q)
  {
    if xs == [] then 0
    else
      var n := |xs| - 1;
      assert forall x :: x in xs[..n] ==> x in xs;
      WeightedLog(xs[..n], points[..n], all, q) + Lagrange(xs[n], all, q) * points[n].log
  }

  function SharePoints(shares: seq<DecryptionShare>, i: nat): (r: seq<Point>)
    requires forall s :: s in shares ==> i < |s.points|
    ensures |r| == |shares|
  {
    seq(|shares|, k requires 0 <= k < |shares| => shares[k].points[i])
  }

  /** The messages left when the weighted shares are taken off the second components. */
  ghost function ShareMessages(c2: seq<Point>, selected: seq<DecryptionShare>, q: int): (r: seq<Point>)
    requires Prime(q) && Weighable(Indexes(selected), q)
    requires forall s :: s in selected ==> |s.points| == |c2|
    ensures |r| == |c2|
  {
    var xs := Indexes(selected);
    seq(|c2|, i requires 0 <= i < |c2| =>
      Add(c2[i], Neg(Point(WeightedLog(xs, SharePoints(selected, i), xs, q) % q), q), q))
  }

  predicate Accepted(selected: seq<DecryptionShare>, ct: Ciphertext, hash: Statement -> nat, q: Modulus) {
    && NoDuplicates(Indexes(selected))
    && forall s :: s in selected ==> Verified(s, ct, hash, q)
  }

  /** The outcomes `decryptProofCompatibleTallyWithShares` may have; None is a thrown assertion. */
  ghost predicate ThresholdDecryptsTo(ct: Ciphertext, shares: seq<DecryptionShare>, threshold: int, maxVotes: int,
                                      hash: Statement -> nat, q: int, r: Option<seq<int>>)
    requires Prime(q)
  {
    var selected := Slice(shares, threshold);
    if && |shares| >= threshold && Accepted(selected, ct, hash, q)
       && Weighable(Indexes(selected), q) && |ct.c2| >= CANDIDATE_COUNT
    then Decodes(ShareMessages(ct.c2[..CANDIDATE_COUNT], selected, q), maxVotes, q, r)
    else r == None
  }

  /** The inner loop of threshold decryption: the weighted sum of one point per index. */
  method CombinePoints(xs: seq<int>, points: seq<Point>, q: int) returns (r: Option<Point>)
    requires Prime(q) && |xs| == |points|
    ensures r.Some? <==> Weighable(xs, q)
    ensures r.Some? ==> r.value == Point(WeightedLog(xs, points, xs, q) % q)
  {
    var combined := IDENTITY;
    for k := 0 to |xs|
      invariant forall j :: 0 <= j < k ==> Separated(xs[j], xs, q)
      invariant InGroup(combined, q)
      invariant Weighable(xs, q) ==> Cong(combined.log, WeightedLog(xs[..k], points[..k], xs, q), q)
    {
      var coefficient := LagrangeCoefficientAtZero(xs[k], xs, q);
      if coefficient.None? {
        return None;
      }
      var term := Mul(points[k], coefficient.value, q);
      AddLog(combined, term, q);
      if Weighable(xs, q) {
        WeightedStep(xs, points, k, combined, q);
      }
      combined := Add(combined, term, q);
    }
    assert xs[..|xs|] == xs && points[..|xs|] == points;
    ModUnique(combined.log, 0, combined.log, q);
    r := Some(combined);
  }

  lemma WeightedStep(xs: seq<int>, points: seq<Point>, k: nat, acc: Point, q: int)
    requires Prime(q) && |xs| == |points| && Weighable(xs, q) && k < |xs|
    requires Cong(acc.log, WeightedLog(xs[..k], points[..k], xs, q), q)
    ensures Cong(Add(acc, Mul(points[k], Lagrange(xs[k], xs, q), q), q).log, WeightedLog(xs[..k + 1], points[..k + 1], xs, q), q)
  {
    var weight, p := Lagrange(xs[k], xs, q), points[k].log;
    var term := Mul(points[k], weight, q);
    assert xs[..k + 1][..k] == xs[..k] && points[..k + 1][..k] == points[..k];
    MulLog(points[k], weight, q);
    AddLog(acc, term, q);
    CongAdd(acc.log, WeightedLog(xs[..k], points[..k], xs, q), term.log, p * weight, q);
    assert p * weight == weight * p;
  }

  /** `decryptProofCompatibleTallyWithShares`; nothing but the number of shares limits the threshold. */
  method DecryptTallyWithShares(ct: Ciphertext, shares: seq<DecryptionShare>, threshold: int, maxVotes: int,
                                hash: Statement -> nat, q: int) returns (r: Option<seq<int>>)
    requires Prime(q)
    ensures ThresholdDecryptsTo(ct, shares, threshold, maxVotes, hash, q, r)
  {
    if |shares| < threshold {
      return None;
    }
    var selected := Slice(shares, threshold);
    if !NoDuplicates(Indexes(selected)) {
      return None;
    }
    for k := 0 to |selected|
      invariant forall j :: 0 <= j < k ==> Verified(selected[j], ct, hash, q)
    {
      var ok := VerifyDecryptionShare(ct, selected[k], hash, q);
      if !ok {
        return None;
      }
    }
    if |ct.c2| < CANDIDATE_COUNT {
      return None;
    }
    var counts: seq<int> := [];
    for i := 0 to CANDIDATE_COUNT
      invariant |counts| == i
      invariant i > 0 ==> Weighable(Indexes(selected), q)
      invariant Weighable(Indexes(selected), q) ==>
        forall j :: 0 <= j < i ==> IsFirstCount(ShareMessages(ct.c2[..CANDIDATE_COUNT], selected, q)[j], counts[j], maxVotes, q)
    {
      var combined := CombinePoints(Indexes(selected), SharePoints(selected, i), q);
      if combined.None? {
        return None;
      }
      var message := Add(ct.c2[i], Neg(combined.value, q), q);
      assert message == ShareMessages(ct.c2[..CANDIDATE_COUNT], selected, q)[i];
      var count := ScanCount(message, maxVotes, q);
      if count.None? {
        return None;
      }
      counts := counts + [count.value];
    }
    return Some(counts);
  }

  /** The verification equations of a share at one position, with a challenge that binds all of the statement. */
  ghost predicate Proven(s: DecryptionShare, ct: Ciphertext, i: nat, hash: Statement -> nat, q: int)
    requires q > 0 && i < |ct.c1| && i < |s.points| && i < |s.proofs|
  {
    var challenge := hash(Statement(ct.keyHash, s.trusteeIndex, s.publicShare, ct.c1[i], s.points[i],
                                    s.proofs[i].commitmentToGenerator, s.proofs[i].commitmentToCiphertext)) % q;
    && 0 < s.proofs[i].response < q
    && Mul(GENERATOR, s.proofs[i].response, q) == Add(s.proofs[i].commitmentToGenerator, Mul(s.publicShare, challenge, q), q)
    && Mul(ct.c1[i], s.proofs[i].response, q) == Add(s.proofs[i].commitmentToCiphertext, Mul(s.points[i], challenge, q), q)
  }

  /** Counts are returned only if there are enough shares and the used ones are of distinct trustees, made for this
      ciphertext's key and proven at every position. */
  lemma CountsNeedProofs(ct: Ciphertext, shares: seq<DecryptionShare>, threshold: int, maxVotes: int, hash: Statement -> nat,
                         q: int, r: Option<seq<int>>)
    requires Prime(q) && ThresholdDecryptsTo(ct, shares, threshold, maxVotes, hash, q, r) && r.Some?
    ensures |shares| >= threshold && |r.value| == 4 <= |ct.c2| && NoDuplicates(Indexes(Slice(shares, threshold)))
    ensures forall s :: s in Slice(shares, threshold) ==>
      && s.keyHash == ct.keyHash && 0 <= s.trusteeIndex < 0x1_0000_0000 && |s.points| == |s.proofs| == 4 <= |ct.c1|
      && forall i :: 0 <= i < 4 ==> Proven(s, ct, i, hash, q)
  {
  }

  // ----- any threshold subset decrypts like the private key

  /** At position i the share is the trustee's dealt scalar applied to the ciphertext. */
  ghost predicate AppliesDealtScalar(s: DecryptionShare, ct: Ciphertext, i: nat, cs: seq<int>, q: Modulus) {
    && i < |s.points| && i < |ct.c1|
    && Cong(s.points[i].log, ct.c1[i].log * Eval(cs, s.trusteeIndex), q)
  }

  lemma HonestShareApplies(share: DecryptionShare, key: KeyShare, x: int, secret: int, coefficients: seq<int>,
                           ct: Ciphertext, nonces: seq<int>, hash: Statement -> nat, q: int, i: nat)
    requires Prime(q) && i < CANDIDATE_COUNT
    requires IsDealt(key, x, secret, coefficients, q)
    requires IsHonestShare(share, x, key.privateShare, ct, nonces, hash, q)
    ensures AppliesDealtScalar(share, ct, i, [secret] + coefficients, q)
  {
    MulLog(ct.c1[i], key.privateShare, q);
    CongScale(ct.c1[i].log, key.privateShare, Eval([secret] + coefficients, x), q);
  }

  /** Points that are multiples c * f(x) of one logarithm combine to c times the recombined polynomial. */
  lemma {:induction false} WeightedIsRecombined(xs: seq<int>, points: seq<Point>, all: seq<int>, c: int, cs: seq<int>, q: int)
    requires Prime(q) && |xs| == |points| && forall x :: x in xs ==> Separated(x, all, q)
    requires forall k :: 0 <= k < |xs| ==> Cong(points[k].log, c * Eval(cs, xs[k]), q)
    ensures Cong(WeightedLog(xs, points, all, q), c * Recombine(xs, all, cs, q), q)
  {
    if xs != [] {
      var n := |xs| - 1;
      assert forall x :: x in xs[..n] ==> x in xs;
      WeightedIsRecombined(xs[..n], points[..n], all, c, cs, q);
      var l, e, w := Lagrange(xs[n], all, q), Eval(cs, xs[n]), Recombine(xs[..n], all, cs, q);
      CongScale(l, points[n].log, c * e, q);
      CongAdd(WeightedLog(xs[..n], points[..n], all, q), c * w, l * points[n].log, l * (c * e), q);
      CommonFactor(c, w, l, e);
    }
  }

  lemma CommonFactor(c: int, w: int, l: int, e: int)
    ensures c * w + l * (c * e) == c * (w + l * e)
  {
    assert l * (c * e) == c * (l * e);
  }

  lemma SharesRecombine(selected: seq<DecryptionShare>, ct: Ciphertext, i: nat, secret: int, coefficients: seq<int>, q: int)
    requires Prime(q) && selected != [] && DistinctMod(Indexes(selected), q)
    requires |coefficients| + 1 <= |selected| && i < |ct.c1| && forall s :: s in selected ==> i < |s.points|
    requires forall s :: s in selected ==> AppliesDealtScalar(s, ct, i, [secret] + coefficients, q)
    ensures Weighable(Indexes(selected), q)
    ensures Cong(WeightedLog(Indexes(selected), SharePoints(selected, i), Indexes(selected), q), ct.c1[i].log * secret, q)
  {
    var xs, cs, c := Indexes(selected), [secret] + coefficients, ct.c1[i].log;
    Interpolation(xs, cs, q);
    forall k | 0 <= k < |xs| ensures Cong(SharePoints(selected, i)[k].log, c * Eval(cs, xs[k]), q) {
      assert selected[k] in selected;
    }
    WeightedIsRecombined(xs, SharePoints(selected, i), xs, c, cs, q);
    assert Eval(cs, 0) == secret;
    CongScale(c, Recombine(xs, xs, cs, q), secret, q);
  }

  lemma SmallIndexesDistinct(xs: seq<int>, n: int, q: int)
    requires NoDuplicates(xs) && n < q && forall x :: x in xs ==> 1 <= x <= n
    ensures q > 0 ==> DistinctMod(xs, q)
  {
    if q > 0 {
      forall i, j | 0 <= i < |xs| && 0 <= j < |xs| && i != j
        ensures (xs[i] - xs[j]) % q != 0
      {
        assert xs[i] in xs && xs[j] in xs && xs[i] != xs[j];
        var d := xs[i] - xs[j];
        if d > 0 { ModUnique(d, 0, d, q); } else { ModUnique(d, -1, d + q, q); }
      }
    }
  }

  /** The threshold theorem. For a prime order q, fewer than q trustees and any coefficients, decrypting with
      any threshold of distinct dealt shares, in any order, has exactly the outcome of decrypting with the
      private key: the same counts, or failure for both. */
  lemma ThresholdMatchesPrivateKey(ct: Ciphertext, shares: seq<DecryptionShare>, threshold: nat, maxVotes: int,
                                   hash: Statement -> nat, trusteeCount: int, secret: int, coefficients: seq<int>, q: int,
                                   r: Option<seq<int>>, s: Option<seq<int>>)
    requires Prime(q) && ValidDealing(threshold, trusteeCount, secret, coefficients, q) && trusteeCount < q
    requires Wellformed(ct, q) && ct.publicKey == Mul(GENERATOR, secret, q)
    requires |shares| >= threshold && Accepted(shares[..threshold], ct, hash, q)
    requires forall u :: u in shares[..threshold] ==> 1 <= u.trusteeIndex <= trusteeCount
    requires forall u, i :: u in shares[..threshold] && 0 <= i < CANDIDATE_COUNT ==>
               AppliesDealtScalar(u, ct, i, [secret] + coefficients, q)
    requires ThresholdDecryptsTo(ct, shares, threshold, maxVotes, hash, q, r)
    requires DecryptsTo(ct, secret, maxVotes, q, s)
    ensures r == s
  {
    var selected := shares[..threshold];
    forall x | x in Indexes(selected) ensures 1 <= x <= trusteeCount {
      var k :| 0 <= k < |selected| && Indexes(selected)[k] == x;
      assert selected[k] in selected;
    }
    SmallIndexesDistinct(Indexes(selected), trusteeCount, q);
    DistinctSeparated(Indexes(selected), q);
    assert ct.c2[..CANDIDATE_COUNT] == ct.c2;
    forall i | 0 <= i < CANDIDATE_COUNT
      ensures ShareMessages(ct.c2, selected, q)[i] == Messages(ct, secret, q)[i]
    {
      SharesRecombine(selected, ct, i, secret, coefficients, q);
      SameMessage(ct.c1[i], ct.c2[i], secret, WeightedLog(Indexes(selected), SharePoints(selected, i), Indexes(selected), q), q);
    }
    assert ShareMessages(ct.c2, selected, q) == Messages(ct, secret, q);
    if maxVotes < 0 {
      NoNegativeCounts(Messages(ct, secret, q), maxVotes, q, r);
    } else {
      DecodesUnique(Messages(ct, secret, q), maxVotes, q, r, s);
    }
  }

  // ----- accepted shares that were never dealt

  /** The relation a share proof is about: one scalar under the public share and every decryption share. */
  ghost predicate DleqRelation(share: DecryptionShare, c1: seq<Point>, q: Modulus) {
    && |share.points| == |c1|
    && forall i :: 0 <= i < |c1| ==> share.points[i] == Mul(c1[i], share.publicShare.log, q)
  }

  function PublicShares(shares: seq<DecryptionShare>): (r: seq<Point>)
    ensures |r| == |shares|
  {
    seq(|shares|, k requires 0 <= k < |shares| => shares[k].publicShare)
  }

  /** Logarithm of the key that the selected public shares combine to. */
  ghost function CombinedKeyLog(selected: seq<DecryptionShare>, q: int): int
    requires Prime(q) && Weighable(Indexes(selected), q)
  {
    WeightedLog(Indexes(selected), PublicShares(selected), Indexes(selected), q)
  }

  lemma {:induction false} WeightedScales(xs: seq<int>, points: seq<Point>, keys: seq<Point>, all: seq<int>, c: int, q: int)
    requires Prime(q) && |xs| == |points| == |keys| && forall x :: x in xs ==> Separated(x, all, q)
    requires forall k :: 0 <= k < |xs| ==> Cong(points[k].log, c * keys[k].log, q)
    ensures Cong(WeightedLog(xs, points, all, q), c * WeightedLog(xs, keys, all, q), q)
  {
    if xs != [] {
      var n := |xs| - 1;
      assert forall x :: x in xs[..n] ==> x in xs;
      WeightedScales(xs[..n], points[..n], keys[..n], all, c, q);
      var l, e, w := Lagrange(xs[n], all, q), keys[n].log, WeightedLog(xs[..n], keys[..n], all, q);
      CongScale(l, points[n].log, c * e, q);
      CongAdd(WeightedLog(xs[..n], points[..n], all, q), c * w, l * points[n].log, l * (c * e), q);
      CommonFactor(c, w, l, e);
    }
  }

  /** Under the relation the shares combine to the combined key applied to the ciphertext. */
  lemma RelatedSharesCombine(selected: seq<DecryptionShare>, c1: seq<Point>, i: nat, q: int)
    requires Prime(q) && Weighable(Indexes(selected), q) && i < |c1|
    requires forall s :: s in selected ==> |s.points| == |c1| && DleqRelation(s, c1, q)
    ensures Cong(WeightedLog(Indexes(selected), SharePoints(selected, i), Indexes(selected), q),
                 c1[i].log * CombinedKeyLog(selected, q), q)
  {
    var xs, points, keys := Indexes(selected), SharePoints(selected, i), PublicShares(selected);
    forall k | 0 <= k < |xs| ensures Cong(points[k].log, c1[i].log * keys[k].log, q) {
      assert selected[k] in selected;
      MulLog(c1[i], keys[k].log, q);
    }
    WeightedScales(xs, points, keys, xs, c1[i].log, q);
  }

  lemma SameMessageIff(c1: Point, c2: Point, secret: int, combined: int, q: int)
    requires Prime(q) && InGroup(c1, q)
    ensures Add(c2, Neg(Point((c1.log * combined) % q), q), q) == Message(c1, c2, secret, q) <==>
            c1 == IDENTITY || Cong(combined, secret, q)
  {
    var left, right := Add(c2, Neg(Point((c1.log * combined) % q), q), q), Message(c1, c2, secret, q);
    SubLog(c2, Point((c1.log * combined) % q), q);
    SubLog(c2, Point((c1.log * secret) % q), q);
    ModUnique(c1.log, 0, c1.log, q);
    if left == right {
      CongAdd(c2.log - (c1.log * combined) % q, c2.log - (c1.log * secret) % q, c2.log, c2.log, q);
      CongNegate((c1.log * combined) % q, (c1.log * secret) % q, q);
      CongMod(c1.log * combined, q);
      CongMod(c1.log * secret, q);
      if c1 != IDENTITY {
        CongCancel(c1.log, combined, secret, q);
      }
    } else if Cong(combined, secret, q) {
      CongScale(c1.log, combined, secret, q);
    }
  }

  lemma CongNegate(a: int, b: int, q: int)
    requires q > 0 && Cong(-a, -b, q)
    ensures Cong(a, b, q)
  {
    CongScale(-1, -a, -b, q);
  }

  /** This path never compares the combined key with the election key. For shares that satisfy the relation,
      whoever dealt them, the messages are those of the private key exactly when at every position the first
      component is the identity or the public shares combine to the election key. */
  lemma RelatedMessagesExact(ct: Ciphertext, selected: seq<DecryptionShare>, secret: int, q: int)
    requires Prime(q) && Wellformed(ct, q) && Weighable(Indexes(selected), q)
    requires forall s :: s in selected ==> |s.points| == CANDIDATE_COUNT && DleqRelation(s, ct.c1, q)
    ensures ShareMessages(ct.c2, selected, q) == Messages(ct, secret, q) <==>
      forall i :: 0 <= i < CANDIDATE_COUNT ==> ct.c1[i] == IDENTITY || Cong(CombinedKeyLog(selected, q), secret, q)
  {
    forall i | 0 <= i < CANDIDATE_COUNT
      ensures ShareMessages(ct.c2, selected, q)[i] == Messages(ct, secret, q)[i] <==>
              ct.c1[i] == IDENTITY || Cong(CombinedKeyLog(selected, q), secret, q)
    {
      assert ct.c1[i] in ct.c1;
      RelatedSharesCombine(selected, ct.c1, i, q);
      SameMessageIff(ct.c1[i], ct.c2[i], secret, CombinedKeyLog(selected, q), q);
    }
  }

  /** So under that condition the whole call has the outcome of decryption with the private key. */
  lemma RelatedSharesMatchPrivateKey(ct: Ciphertext, shares: seq<DecryptionShare>, threshold: int, maxVotes: nat,
                                     hash: Statement -> nat, secret: int, q: int, r: Option<seq<int>>, s: Option<seq<int>>)
    requires Prime(q) && IsScalar(secret, q) && Wellformed(ct, q) && ct.publicKey == Mul(GENERATOR, secret, q)
    requires |shares| >= threshold && Accepted(Slice(shares, threshold), ct, hash, q) && Weighable(Indexes(Slice(shares, threshold)), q)
    requires forall u :: u in Slice(shares, threshold) ==> |u.points| == CANDIDATE_COUNT && DleqRelation(u, ct.c1, q)
    requires forall i :: 0 <= i < CANDIDATE_COUNT ==>
               ct.c1[i] == IDENTITY || Cong(CombinedKeyLog(Slice(shares, threshold), q), secret, q)
    requires ThresholdDecryptsTo(ct, shares, threshold, maxVotes, hash, q, r)
    requires DecryptsTo(ct, secret, maxVotes, q, s)
    ensures r == s
  {
    RelatedMessagesExact(ct, Slice(shares, threshold), secret, q);
    assert ct.c2[..CANDIDATE_COUNT] == ct.c2;
    DecodesUnique(Messages(ct, secret, q), maxVotes, q, r, s);
  }

  /** Taking off any point congruent to the private key times the first component leaves the message. */
  lemma SameMessage(c1: Point, c2: Point, secret: int, combined: int, q: int)
    requires q > 0 && Cong(combined, c1.log * secret, q)
    ensures Add(c2, Neg(Point(combined % q), q), q) == Message(c1, c2, secret, q)
  {
  }
}
