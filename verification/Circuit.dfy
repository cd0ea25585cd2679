/** The eligible-ballot circuit: its field equations, what they mean, and the witness the client builds. */
module Circuit {
  import opened Wrappers
  import opened Sequences
  import opened Field
  import opened ElGamal
  import opened Eligibility

  const NULLIFIER_DOMAIN: nat := 2026071301
  const ELIGIBILITY_TREE_DEPTH: nat := 24

  datatype Public = Public(
    electionId: Fe, candidateListHash: Fe, eligibilityRoot: Fe, ballotNullifier: Fe, packageCommitment: Fe,
    publicKey: Point, c1: seq<Point>, c2: seq<Point>)

  datatype Witness = Witness(
    credentialSecret: Fe, credentialNonce: Fe, pathElements: seq<Fe>, pathIndices: seq<int>,
    selection: seq<int>, randomness: seq<int>)

  /** Affine coordinates of group elements in the circuit's field. */
  type Coordinates = Point -> (nat, nat)

  ghost predicate IsEmbedding(xy: Coordinates, p: int, q: int) {
    && xy(IDENTITY) == (0, 1)
    && (forall a :: InGroup(a, q) ==> xy(a).0 < p && xy(a).1 < p)
    && (forall a, b :: InGroup(a, q) && InGroup(b, q) && xy(a) == xy(b) ==> a == b)
  }

  function Nullifier(electionId: Fe, secret: Fe): Fe {
    Poseidon([Num(NULLIFIER_DOMAIN), electionId, secret])
  }

  /** A nullifier stands for one secret in one election: it changes with either. */
  lemma NullifierInjective(electionId: Fe, secret: Fe, other: Fe, another: Fe)
    ensures Nullifier(electionId, secret) == Nullifier(other, another) <==> electionId == other && secret == another
  {
    var a, b := [Num(NULLIFIER_DOMAIN), electionId, secret], [Num(NULLIFIER_DOMAIN), other, another];
    assert a[1] == electionId && a[2] == secret && b[1] == other && b[2] == another;
  }

  /** The circuit's wiring of the `nullifierHash` component, input by input. */
  predicate NullifierInputs(pub: Public, w: Witness, inputs: seq<Fe>) {
    && |inputs| == 3
    && inputs[0] == Num(2026071301) && inputs[1] == pub.electionId && inputs[2] == w.credentialSecret
  }

  ghost predicate NullifierEquation(pub: Public, w: Witness) {
    exists inputs :: NullifierInputs(pub, w, inputs) && Poseidon(inputs) == pub.ballotNullifier
  }

  /** The client computes the nullifier that the circuit's wiring demands. */
  lemma NullifierAgrees(pub: Public, w: Witness)
    ensures NullifierEquation(pub, w) <==> pub.ballotNullifier == Nullifier(pub.electionId, w.credentialSecret)
  {
    var wired := [Num(NULLIFIER_DOMAIN), pub.electionId, w.credentialSecret];
    assert NullifierInputs(pub, w, wired);
    forall inputs | NullifierInputs(pub, w, inputs) ensures inputs == wired {
    }
  }

  // ----- one-hot selections over a prime field

  /** The constraint s * (s - 1) === 0. */
  predicate BitEquation(s: int, p: Modulus) {
    Cong(s * (s - 1), 0, p)
  }

  /** The running `selectionSum` signals. */
  function SelectionSum(selection: seq<int>, p: Modulus): int {
    if selection == [] then 0 else (SelectionSum(selection[..|selection| - 1], p) + selection[|selection| - 1]) % p
  }

  predicate Canonical(signals: seq<int>, p: int) {
    forall i :: 0 <= i < |signals| ==> 0 <= signals[i] < p
  }

  predicate OneHotEquations(selection: seq<int>, p: Modulus) {
    (forall i :: 0 <= i < |selection| ==> BitEquation(selection[i], p)) && SelectionSum(selection, p) == 1
  }

  ghost predicate OneHotAt(selection: seq<int>, j: int) {
    0 <= j < |selection| && forall i :: 0 <= i < |selection| ==> selection[i] == if i == j then 1 else 0
  }

  lemma BitsOnly(s: int, p: int)
    requires Prime(p) && 0 <= s < p
    ensures BitEquation(s, p) <==> s == 0 || s == 1
  {
    if s > 1 {
      ModUnique(s, 0, s, p);
      ModUnique(s - 1, 0, s - 1, p);
      NoZeroDivisors(s, s - 1, p);
    } else {
      assert s * (s - 1) == 0;
    }
  }

  function Ones(selection: seq<int>): nat {
    if selection == [] then 0 else Ones(selection[..|selection| - 1]) + if selection[|selection| - 1] == 1 then 1 else 0
  }

  lemma {:induction false} SumCountsOnes(selection: seq<int>, p: int)
    requires p > 1 && |selection| < p && Bits(selection)
    ensures SelectionSum(selection, p) == Ones(selection) <= |selection|
  {
    if selection != [] {
      SumCountsOnes(selection[..|selection| - 1], p);
      ModUnique(Ones(selection), 0, Ones(selection), p);
    }
  }

  lemma {:induction false} OnesZero(selection: seq<int>)
    requires Bits(selection)
    ensures Ones(selection) == 0 <==> forall i :: 0 <= i < |selection| ==> selection[i] == 0
  {
    if selection != [] {
      var n := |selection| - 1;
      OnesZero(selection[..n]);
      assert forall i :: 0 <= i < n ==> selection[..n][i] == selection[i];
    }
  }

  lemma {:induction false} OnesOne(selection: seq<int>)
    requires Bits(selection)
    ensures Ones(selection) == 1 <==> exists j :: OneHotAt(selection, j)
  {
    if selection != [] {
      var n := |selection| - 1;
      var front := selection[..n];
      OnesZero(front);
      OnesOne(front);
      if selection[n] == 1 {
        if Ones(front) == 0 {
          assert OneHotAt(selection, n);
        }
        forall j | OneHotAt(selection, j) ensures Ones(front) == 0 {
          assert j == n;
        }
      } else {
        forall j | OneHotAt(front, j) ensures OneHotAt(selection, j) {
        }
        forall j | OneHotAt(selection, j) ensures OneHotAt(front, j) {
        }
      }
    }
  }

  /** Over a prime field larger than the number of candidates, the bit and sum equations hold exactly for
      one-hot selections. */
  lemma OneHotExact(selection: seq<int>, p: int)
    requires Prime(p) && |selection| < p && Canonical(selection, p)
    ensures OneHotEquations(selection, p) <==> exists j :: OneHotAt(selection, j)
  {
    forall i | 0 <= i < |selection| ensures BitEquation(selection[i], p) <==> selection[i] == 0 || selection[i] == 1 {
      BitsOnly(selection[i], p);
    }
    if Bits(selection) {
      SumCountsOnes(selection, p);
      OnesOne(selection);
    }
  }

  // ----- the encryption equations

  /** The `c2Add` component: the selected point has coordinates (s * Bx, 1 + s * (By - 1)). */
  ghost predicate AddsSelected(shared: Point, s: int, c2: Point, xy: Coordinates, p: Modulus, q: Modulus) {
    exists m :: IsSelectedPoint(m, s, xy, p, q) && c2 == Add(shared, m, q)
  }

  ghost predicate IsSelectedPoint(m: Point, s: int, xy: Coordinates, p: Modulus, q: int) {
    && InGroup(m, q)
    && xy(m).0 == (s * xy(GENERATOR).0) % p
    && xy(m).1 == (1 + s * (xy(GENERATOR).1 - 1)) % p
  }

  lemma SelectedPoint(m: Point, s: int, xy: Coordinates, p: int, q: int)
    requires p > 1 && q > 1 && IsEmbedding(xy, p, q) && (s == 0 || s == 1)
    ensures IsSelectedPoint(m, s, xy, p, q) <==> m == if s == 1 then GENERATOR else IDENTITY
  {
    var x: int, y: int := xy(GENERATOR).0, xy(GENERATOR).1;
    assert InGroup(GENERATOR, q) && InGroup(IDENTITY, q);
    if s == 0 {
      assert s * x == 0 && s * (y - 1) == 0;
      ModUnique(0, 0, 0, p);
      ModUnique(1, 0, 1, p);
    } else {
      assert s * x == x && 1 + s * (y - 1) == y;
      ModUnique(x, 0, x, p);
      ModUnique(y, 0, y, p);
    }
  }

  ghost predicate EncryptionEquations(pub: Public, w: Witness, i: nat, xy: Coordinates, p: int, q: int)
    requires p > 0 && q > 0 && i < |pub.c1| && i < |pub.c2| && i < |w.selection| && i < |w.randomness|
  {
    && IsScalar(w.randomness[i], q)
    && pub.c1[i] == Mul(GENERATOR, w.randomness[i], q)
    && AddsSelected(Mul(pub.publicKey, w.randomness[i], q), w.selection[i], pub.c2[i], xy, p, q)
  }

  // ----- the package commitment

  function CoordinateFields(points: seq<Point>, xy: Coordinates): (r: seq<Fe>)
    ensures |r| == 2 * |points|
    ensures forall k :: 0 <= k < |points| ==> r[2 * k] == Num(xy(points[k]).0) && r[2 * k + 1] == Num(xy(points[k]).1)
  {
    if points == [] then []
    else CoordinateFields(points[..|points| - 1], xy) + [Num(xy(points[|points| - 1]).0), Num(xy(points[|points| - 1]).1)]
  }

  function StatementFields(pub: Public, xy: Coordinates): seq<Fe> {
    [pub.electionId, pub.candidateListHash, pub.eligibilityRoot, pub.ballotNullifier,
     Num(xy(pub.publicKey).0), Num(xy(pub.publicKey).1)] + CoordinateFields(pub.c1, xy) + CoordinateFields(pub.c2, xy)
  }

  function PadToSix(chunk: seq<Fe>): seq<Fe>
    decreases 6 - |chunk|
  {
    if |chunk| < 6 then PadToSix(chunk + [ZERO]) else chunk
  }

  /** `slice(leafIndex * 6, leafIndex * 6 + 6)`, padded with zeros. */
  function Chunk(statement: seq<Fe>, leafIndex: nat): seq<Fe> {
    var lo := if leafIndex * 6 <= |statement| then leafIndex * 6 else |statement|;
    var hi := if leafIndex * 6 + 6 <= |statement| then leafIndex * 6 + 6 else |statement|;
    PadToSix(statement[lo..hi])
  }

  /** `computeEligiblePackageCommitment`. */
  function PackageCommitment(pub: Public, xy: Coordinates): Fe {
    var s := StatementFields(pub, xy);
    Poseidon([Poseidon(Chunk(s, 0)), Poseidon(Chunk(s, 1)), Poseidon(Chunk(s, 2)), Poseidon(Chunk(s, 3))])
  }

  function X(p: Point, xy: Coordinates): Fe { Num(xy(p).0) }

  function Y(p: Point, xy: Coordinates): Fe { Num(xy(p).1) }

  /** The circuit's own wiring of the four commitment leaves. */
  function WiredCommitment(pub: Public, xy: Coordinates): Fe
    requires |pub.c1| == |pub.c2| == 4
  {
    var c1, c2 := pub.c1, pub.c2;
    Poseidon([
      Poseidon([pub.electionId, pub.candidateListHash, pub.eligibilityRoot, pub.ballotNullifier, X(pub.publicKey, xy), Y(pub.publicKey, xy)]),
      Poseidon([X(c1[0], xy), Y(c1[0], xy), X(c1[1], xy), Y(c1[1], xy), X(c1[2], xy), Y(c1[2], xy)]),
      Poseidon([X(c1[3], xy), Y(c1[3], xy), X(c2[0], xy), Y(c2[0], xy), X(c2[1], xy), Y(c2[1], xy)]),
      Poseidon([X(c2[2], xy), Y(c2[2], xy), X(c2[3], xy), Y(c2[3], xy), ZERO, ZERO])])
  }

  /** The client's generic chunking computes the same commitment as the circuit's explicit wiring. */
  lemma CommitmentAgrees(pub: Public, xy: Coordinates)
    requires |pub.c1| == |pub.c2| == 4
    ensures PackageCommitment(pub, xy) == WiredCommitment(pub, xy)
  {
    var s := StatementFields(pub, xy);
    assert |s| == 22;
    var f1, f2 := CoordinateFields(pub.c1, xy), CoordinateFields(pub.c2, xy);
    assert forall k :: 0 <= k < 8 ==> s[6 + k] == f1[k];
    assert forall k :: 0 <= k < 8 ==> s[14 + k] == f2[k];
    FirstChunks(s);
    LastChunk(s);
    ByPoint(pub.c1, xy);
    ByPoint(pub.c2, xy);
  }

  /** Everything a package commitment binds. */
  predicate SameStatement(a: Public, b: Public) {
    && a.electionId == b.electionId && a.candidateListHash == b.candidateListHash
    && a.eligibilityRoot == b.eligibilityRoot && a.ballotNullifier == b.ballotNullifier
    && a.publicKey == b.publicKey && a.c1 == b.c1 && a.c2 == b.c2
  }

  ghost predicate PointsInGroup(pub: Public, q: int) {
    && |pub.c1| == |pub.c2| == 4 && InGroup(pub.publicKey, q)
    && forall i :: 0 <= i < 4 ==> InGroup(pub.c1[i], q) && InGroup(pub.c2[i], q)
  }

  /** The commitment binds the whole statement: election, candidate list, eligibility root, nullifier, key and every
      ciphertext point. */
  lemma CommitmentBinds(a: Public, b: Public, xy: Coordinates, p: int, q: int)
    requires IsEmbedding(xy, p, q) && PointsInGroup(a, q) && PointsInGroup(b, q)
    ensures PackageCommitment(a, xy) == PackageCommitment(b, xy) <==> SameStatement(a, b)
  {
    CommitmentAgrees(a, xy);
    CommitmentAgrees(b, xy);
    if SameStatement(a, b) {
      assert WiredCommitment(a, xy) == WiredCommitment(b, xy);
    }
    if PackageCommitment(a, xy) == PackageCommitment(b, xy) {
      WiredBinds(a, b, xy);
      forall i | 0 <= i < 4 ensures a.c1[i] == b.c1[i] && a.c2[i] == b.c2[i] {
        SamePoint(a.c1[i], b.c1[i], xy, p, q);
        SamePoint(a.c2[i], b.c2[i], xy, p, q);
      }
      SamePoint(a.publicKey, b.publicKey, xy, p, q);
      assert a.c1 == b.c1 && a.c2 == b.c2;
    }
  }

  lemma SamePoint(a: Point, b: Point, xy: Coordinates, p: int, q: int)
    requires IsEmbedding(xy, p, q) && InGroup(a, q) && InGroup(b, q)
    ensures X(a, xy) == X(b, xy) && Y(a, xy) == Y(b, xy) ==> a == b
  {
  }

  lemma WiredBinds(a: Public, b: Public, xy: Coordinates)
    requires |a.c1| == |a.c2| == |b.c1| == |b.c2| == 4 && WiredCommitment(a, xy) == WiredCommitment(b, xy)
    ensures a.electionId == b.electionId && a.candidateListHash == b.candidateListHash
    ensures a.eligibilityRoot == b.eligibilityRoot && a.ballotNullifier == b.ballotNullifier
    ensures X(a.publicKey, xy) == X(b.publicKey, xy) && Y(a.publicKey, xy) == Y(b.publicKey, xy)
    ensures forall i :: 0 <= i < 4 ==> X(a.c1[i], xy) == X(b.c1[i], xy) && Y(a.c1[i], xy) == Y(b.c1[i], xy)
    ensures forall i :: 0 <= i < 4 ==> X(a.c2[i], xy) == X(b.c2[i], xy) && Y(a.c2[i], xy) == Y(b.c2[i], xy)
  {
    var s, t := WiredCommitment(a, xy).inputs, WiredCommitment(b, xy).inputs;
    forall k | 0 <= k < 4 ensures s[k].inputs == t[k].inputs {
    }
    forall k, l | 0 <= k < 4 && 0 <= l < 6 ensures s[k].inputs[l] == t[k].inputs[l] {
    }
    assert forall l :: 0 <= l < 6 ==> s[0].inputs[l] == t[0].inputs[l];
    assert forall l :: 0 <= l < 6 ==> s[1].inputs[l] == t[1].inputs[l];
    assert forall l :: 0 <= l < 6 ==> s[2].inputs[l] == t[2].inputs[l];
    assert forall l :: 0 <= l < 6 ==> s[3].inputs[l] == t[3].inputs[l];
  }

  lemma ByPoint(points: seq<Point>, xy: Coordinates)
    requires |points| == 4
    ensures var f := CoordinateFields(points, xy);
            && |f| == 8 && f[0] == X(points[0], xy) && f[1] == Y(points[0], xy) && f[2] == X(points[1], xy) && f[3] == Y(points[1], xy)
            && f[4] == X(points[2], xy) && f[5] == Y(points[2], xy) && f[6] == X(points[3], xy) && f[7] == Y(points[3], xy)
  {
    var f := CoordinateFields(points, xy);
    assert f[2 * 0] == X(points[0], xy) && f[2 * 1] == X(points[1], xy) && f[2 * 2] == X(points[2], xy) && f[2 * 3] == X(points[3], xy);
    assert f[2 * 0 + 1] == Y(points[0], xy) && f[2 * 1 + 1] == Y(points[1], xy) && f[2 * 2 + 1] == Y(points[2], xy) && f[2 * 3 + 1] == Y(points[3], xy);
  }

  lemma FirstChunks(s: seq<Fe>)
    requires |s| == 22
    ensures Chunk(s, 0) == [s[0], s[1], s[2], s[3], s[4], s[5]]
    ensures Chunk(s, 1) == [s[6], s[7], s[8], s[9], s[10], s[11]]
    ensures Chunk(s, 2) == [s[12], s[13], s[14], s[15], s[16], s[17]]
  {
  }

  lemma LastChunk(s: seq<Fe>)
    requires |s| == 22
    ensures Chunk(s, 3) == [s[18], s[19], s[20], s[21], ZERO, ZERO]
  {
    var c := s[18..22];
    assert |c + [ZERO]| == 5 && |c + [ZERO] + [ZERO]| == 6;
    assert PadToSix(c) == PadToSix(c + [ZERO]) == PadToSix(c + [ZERO] + [ZERO]);
  }

  // ----- the whole circuit

  predicate WitnessShape(pub: Public, w: Witness, depth: nat, p: int) {
    && |pub.c1| == |pub.c2| == |w.selection| == |w.randomness| == CANDIDATE_COUNT
    && |w.pathElements| == |w.pathIndices| == depth
    && Canonical(w.selection, p) && Canonical(w.pathIndices, p)
  }

  /** The constraints of `EligibleBallot(4, depth)`. Num2Bits, LessThan and IsZero on a nonce together say that
      it is a nonzero scalar; BabyCheck holds of every group element. */
  ghost predicate Satisfies(pub: Public, w: Witness, depth: nat, xy: Coordinates, p: Modulus, q: Modulus) {
    && WitnessShape(pub, w, depth, p)
    && w.credentialSecret != ZERO
    && (forall l :: 0 <= l < depth ==> BitEquation(w.pathIndices[l], p))
    && ClimbPath(Poseidon([w.credentialSecret, w.credentialNonce]), w.pathElements, w.pathIndices) == pub.eligibilityRoot
    && NullifierEquation(pub, w)
    && OneHotEquations(w.selection, p)
    && (forall i :: 0 <= i < CANDIDATE_COUNT ==> EncryptionEquations(pub, w, i, xy, p, q))
    && WiredCommitment(pub, xy) == pub.packageCommitment
  }

  /** The ciphertext of a statement. */
  function CiphertextOf(pub: Public): Ciphertext {
    Ciphertext(KeyHash(pub.publicKey), pub.publicKey, pub.c1, pub.c2)
  }

  /** What the circuit is meant to prove. */
  ghost predicate ProvesBallot(pub: Public, w: Witness, depth: nat, xy: Coordinates, p: int, q: Modulus) {
    && WitnessShape(pub, w, depth, p)
    && w.credentialSecret != ZERO && Bits(w.pathIndices)
    && ClimbPath(Poseidon([w.credentialSecret, w.credentialNonce]), w.pathElements, w.pathIndices) == pub.eligibilityRoot
    && pub.ballotNullifier == Nullifier(pub.electionId, w.credentialSecret)
    && pub.packageCommitment == PackageCommitment(pub, xy)
    && exists j :: OneHotAt(w.selection, j) && EncryptsAt(pub, w, j, q)
  }

  ghost predicate EncryptsAt(pub: Public, w: Witness, j: int, q: Modulus) {
    ValidBallotInput(j, w.randomness, q) && IsEncryption(CiphertextOf(pub), pub.publicKey, j, w.randomness, q)
  }

  lemma AddsSelectedExact(shared: Point, s: int, c2: Point, xy: Coordinates, p: int, q: int)
    requires p > 1 && q > 1 && IsEmbedding(xy, p, q) && (s == 0 || s == 1)
    ensures AddsSelected(shared, s, c2, xy, p, q) <==> c2 == Add(shared, if s == 1 then GENERATOR else IDENTITY, q)
  {
    var m := if s == 1 then GENERATOR else IDENTITY;
    SelectedPoint(m, s, xy, p, q);
    forall n | IsSelectedPoint(n, s, xy, p, q) ensures n == m {
      SelectedPoint(n, s, xy, p, q);
    }
  }

  /** Position i of a ciphertext, as an honest encryption has it. */
  ghost predicate HonestPosition(pub: Public, w: Witness, i: nat, j: int, q: int)
    requires q > 0 && i < |pub.c1| && i < |pub.c2| && i < |w.randomness|
  {
    && IsScalar(w.randomness[i], q)
    && pub.c1[i] == Mul(GENERATOR, w.randomness[i], q)
    && pub.c2[i] == Add(Mul(pub.publicKey, w.randomness[i], q), if i == j then GENERATOR else IDENTITY, q)
  }

  lemma EncryptionExact(pub: Public, w: Witness, j: int, xy: Coordinates, p: int, q: int)
    requires p > 1 && q > 1 && IsEmbedding(xy, p, q)
    requires |pub.c1| == |pub.c2| == |w.selection| == |w.randomness| == CANDIDATE_COUNT && OneHotAt(w.selection, j)
    ensures (forall i :: 0 <= i < CANDIDATE_COUNT ==> EncryptionEquations(pub, w, i, xy, p, q)) <==> EncryptsAt(pub, w, j, q)
  {
    forall i | 0 <= i < CANDIDATE_COUNT
      ensures EncryptionEquations(pub, w, i, xy, p, q) <==> HonestPosition(pub, w, i, j, q)
    {
      AddsSelectedExact(Mul(pub.publicKey, w.randomness[i], q), w.selection[i], pub.c2[i], xy, p, q);
    }
    HonestPositions(pub, w, j, q);
  }

  lemma HonestPositions(pub: Public, w: Witness, j: int, q: int)
    requires q > 1 && |pub.c1| == |pub.c2| == |w.randomness| == CANDIDATE_COUNT && 0 <= j < CANDIDATE_COUNT
    ensures (forall i :: 0 <= i < CANDIDATE_COUNT ==> HonestPosition(pub, w, i, j, q)) <==> EncryptsAt(pub, w, j, q)
  {
    var ct := CiphertextOf(pub);
    if forall i :: 0 <= i < CANDIDATE_COUNT ==> HonestPosition(pub, w, i, j, q) {
      forall i | 0 <= i < CANDIDATE_COUNT
        ensures IsScalar(w.randomness[i], q) && ct.c1[i] == Mul(GENERATOR, w.randomness[i], q)
        ensures ct.c2[i] == Add(Mul(pub.publicKey, w.randomness[i], q), if i == j then GENERATOR else IDENTITY, q)
      {
        assert HonestPosition(pub, w, i, j, q);
      }
    }
    if EncryptsAt(pub, w, j, q) {
      forall i | 0 <= i < CANDIDATE_COUNT ensures HonestPosition(pub, w, i, j, q) {
        assert IsScalar(w.randomness[i], q) && ct.c1[i] == Mul(GENERATOR, w.randomness[i], q);
      }
    }
  }

  /** The circuit's equations hold exactly of a statement and witness that prove a ballot: a nonzero secret
      whose commitment climbs to the eligibility root, its nullifier, and one encrypted one-hot selection. */
  lemma CircuitExact(pub: Public, w: Witness, depth: nat, xy: Coordinates, p: int, q: int)
    requires Prime(p) && CANDIDATE_COUNT < p && q > 1 && IsEmbedding(xy, p, q)
    ensures Satisfies(pub, w, depth, xy, p, q) <==> ProvesBallot(pub, w, depth, xy, p, q)
  {
    if WitnessShape(pub, w, depth, p) {
      CommitmentAgrees(pub, xy);
      NullifierAgrees(pub, w);
      OneHotExact(w.selection, p);
      forall l | 0 <= l < depth ensures BitEquation(w.pathIndices[l], p) <==> w.pathIndices[l] == 0 || w.pathIndices[l] == 1 {
        BitsOnly(w.pathIndices[l], p);
      }
      forall j | OneHotAt(w.selection, j)
        ensures (forall i :: 0 <= i < CANDIDATE_COUNT ==> EncryptionEquations(pub, w, i, xy, p, q)) <==> EncryptsAt(pub, w, j, q)
      {
        EncryptionExact(pub, w, j, xy, p, q);
      }
    }
  }

  // ----- the client's witness

  /** `buildEligibleBallotWitness`; None is a failed assertion. */
  method BuildEligibleBallotWitness(electionId: Fe, candidateListHash: Fe, publicKey: Point, credential: Credential,
                                    membership: Membership, selectedIndex: int, randomness: seq<int>,
                                    xy: Coordinates, p: int, q: int) returns (r: Option<(Public, Witness)>)
    requires Prime(q) && p > 1 && InGroup(publicKey, q)
    requires Canonical(membership.pathIndices, p)
    ensures r.Some? <==>
      && |membership.pathElements| == |membership.pathIndices| == ELIGIBILITY_TREE_DEPTH
      && ValidBallotInput(selectedIndex, randomness, q) && credential.secret != ZERO
    ensures r.Some? ==>
      && r.value.0.electionId == electionId && r.value.0.candidateListHash == candidateListHash
      && r.value.0.eligibilityRoot == membership.eligibilityRoot && r.value.0.publicKey == publicKey
      && r.value.0.ballotNullifier == Poseidon([Num(2026071301), electionId, credential.secret])
      && |r.value.0.c1| == |r.value.0.c2| == CANDIDATE_COUNT && r.value.0.packageCommitment == WiredCommitment(r.value.0, xy)
      && r.value.1.credentialSecret == credential.secret && r.value.1.credentialNonce == credential.nonce
      && r.value.1.pathElements == membership.pathElements && r.value.1.pathIndices == membership.pathIndices
      && r.value.1.randomness == randomness
      && OneHotAt(r.value.1.selection, selectedIndex) && EncryptsAt(r.value.0, r.value.1, selectedIndex, q)
    ensures r.Some? && Bits(membership.pathIndices)
      && ClimbPath(Commit(credential), membership.pathElements, membership.pathIndices) == membership.eligibilityRoot
      ==> ProvesBallot(r.value.0, r.value.1, ELIGIBILITY_TREE_DEPTH, xy, p, q)
  {
    if |membership.pathElements| != ELIGIBILITY_TREE_DEPTH || |membership.pathIndices| != ELIGIBILITY_TREE_DEPTH {
      return None;
    }
    var encrypted := EncryptBallot(publicKey, selectedIndex, randomness, q);
    if encrypted.None? || credential.secret == ZERO {
      return None;
    }
    var ct := encrypted.value;
    var selection := seq(CANDIDATE_COUNT, i => if i == selectedIndex then 1 else 0);
    var ballotNullifier := Nullifier(electionId, credential.secret);
    var draft := Public(electionId, candidateListHash, membership.eligibilityRoot, ballotNullifier, ZERO, publicKey, ct.c1, ct.c2);
    var pub := draft.(packageCommitment := PackageCommitment(draft, xy));
    assert StatementFields(pub, xy) == StatementFields(draft, xy);
    CommitmentAgrees(pub, xy);
    var w := Witness(credential.secret, credential.nonce, membership.pathElements, membership.pathIndices, selection, randomness);
    assert OneHotAt(selection, selectedIndex) && CiphertextOf(pub) == ct;
    r := Some((pub, w));
  }

  /** Honest witnesses satisfy the circuit: for a member of the credential set with the path built for it. */
  lemma HonestWitnessSatisfies(pub: Public, w: Witness, credentials: seq<Credential>, k: nat, m: Membership, depth: nat,
                               j: int, xy: Coordinates, p: int, q: int)
    requires Prime(p) && CANDIDATE_COUNT < p && q > 1 && IsEmbedding(xy, p, q)
    requires NoDuplicates(Indices(credentials)) && k < |credentials| && 0 <= credentials[k].index < Exp2(depth)
    requires IsMembershipOf(m, credentials, credentials[k].index, depth)
    requires WitnessShape(pub, w, depth, p) && w.pathElements == m.pathElements && w.pathIndices == m.pathIndices
    requires w.credentialSecret == credentials[k].secret != ZERO && w.credentialNonce == credentials[k].nonce
    requires pub.eligibilityRoot == m.eligibilityRoot && pub.ballotNullifier == Nullifier(pub.electionId, w.credentialSecret)
    requires pub.packageCommitment == PackageCommitment(pub, xy)
    requires OneHotAt(w.selection, j) && EncryptsAt(pub, w, j, q)
    ensures Satisfies(pub, w, depth, xy, p, q)
  {
    LeafOfMember(credentials, k);
    PathFoldsToRoot(m, credentials, credentials[k].index, depth);
    CircuitExact(pub, w, depth, xy, p, q);
  }

  // ----- one credential, one ballot

  datatype Ballot = Ballot(pub: Public, w: Witness)

  /** Some registered credential has the secret and nonce of this witness. */
  ghost predicate Registered(w: Witness, credentials: seq<Credential>) {
    exists k :: 0 <= k < |credentials| && Owns(credentials[k], w)
  }

  predicate Owns(c: Credential, w: Witness) {
    c.secret == w.credentialSecret && c.nonce == w.credentialNonce
  }

  /** Ballots of one election against the root of one credential set. */
  ghost predicate BallotsOf(ballots: seq<Ballot>, electionId: Fe, credentials: seq<Credential>, depth: nat, xy: Coordinates, p: Modulus, q: Modulus)
  {
    forall k :: 0 <= k < |ballots| ==>
      && Satisfies(ballots[k].pub, ballots[k].w, depth, xy, p, q)
      && ballots[k].pub.electionId == electionId
      && ballots[k].pub.eligibilityRoot == DenseNode(credentials, depth, 0)
  }

  lemma {:induction false} Pigeonhole(xs: seq<nat>, n: nat)
    requires NoDuplicates(xs)
    requires forall i :: 0 <= i < |xs| ==> xs[i] < n
    ensures |xs| <= n
    decreases n
  {
    if xs != [] {
      assert xs[0] < n;
      if k :| 0 <= k < |xs| && xs[k] == n - 1 {
        Pigeonhole(xs[..k] + xs[k + 1..], n - 1);
      } else {
        Pigeonhole(xs, n - 1);
      }
    }
  }

  /** Every satisfying ballot comes from a registered credential. */
  lemma CredentialOf(b: Ballot, credentials: seq<Credential>, depth: nat, xy: Coordinates, p: int, q: int) returns (k: nat)
    requires Prime(p) && CANDIDATE_COUNT < p && q > 1 && IsEmbedding(xy, p, q)
    requires Satisfies(b.pub, b.w, depth, xy, p, q) && b.pub.eligibilityRoot == DenseNode(credentials, depth, 0)
    ensures k < |credentials| && Owns(credentials[k], b.w)
  {
    CircuitExact(b.pub, b.w, depth, xy, p, q);
    k := MembershipSound(b.w.credentialSecret, b.w.credentialNonce, b.w.pathElements, b.w.pathIndices, credentials);
  }

  lemma AllRegistered(ballots: seq<Ballot>, electionId: Fe, credentials: seq<Credential>, depth: nat, xy: Coordinates, p: int, q: int)
    requires Prime(p) && CANDIDATE_COUNT < p && q > 1 && IsEmbedding(xy, p, q)
    requires BallotsOf(ballots, electionId, credentials, depth, xy, p, q)
    ensures forall i :: 0 <= i < |ballots| ==> Registered(ballots[i].w, credentials)
  {
    forall i | 0 <= i < |ballots| ensures Registered(ballots[i].w, credentials) {
      var k := CredentialOf(ballots[i], credentials, depth, xy, p, q);
    }
  }

  lemma OwnersOf(ballots: seq<Ballot>, credentials: seq<Credential>) returns (owners: seq<nat>)
    requires forall i :: 0 <= i < |ballots| ==> Registered(ballots[i].w, credentials)
    ensures |owners| == |ballots|
    ensures forall i :: 0 <= i < |ballots| ==> owners[i] < |credentials| && Owns(credentials[owners[i]], ballots[i].w)
  {
    owners := [];
    for n := 0 to |ballots|
      invariant |owners| == n
      invariant forall i :: 0 <= i < n ==> owners[i] < |credentials| && Owns(credentials[owners[i]], ballots[i].w)
    {
      var k :| 0 <= k < |credentials| && Owns(credentials[k], ballots[n].w);
      owners := owners + [k];
    }
  }

  lemma OwnersDistinct(ballots: seq<Ballot>, credentials: seq<Credential>, owners: seq<nat>)
    requires |owners| == |ballots|
    requires forall i :: 0 <= i < |ballots| ==> owners[i] < |credentials| && Owns(credentials[owners[i]], ballots[i].w)
    requires forall i, j :: 0 <= i < j < |ballots| ==> ballots[i].w.credentialSecret != ballots[j].w.credentialSecret
    ensures NoDuplicates(owners)
  {
    forall i, j | 0 <= i < j < |owners| ensures owners[i] != owners[j] {
      assert Owns(credentials[owners[i]], ballots[i].w) && Owns(credentials[owners[j]], ballots[j].w);
    }
  }

  /** Two ballots that satisfy the circuit share a nullifier exactly when they are of one election and from one
      secret: a second ballot of a voter is always caught, and two voters never get in each other's way. */
  lemma SameNullifierIff(a: Ballot, b: Ballot, depth: nat, xy: Coordinates, p: int, q: int)
    requires p > 1 && q > 1 && Satisfies(a.pub, a.w, depth, xy, p, q) && Satisfies(b.pub, b.w, depth, xy, p, q)
    ensures a.pub.ballotNullifier == b.pub.ballotNullifier <==>
            a.pub.electionId == b.pub.electionId && a.w.credentialSecret == b.w.credentialSecret
  {
    NullifierAgrees(a.pub, a.w);
    NullifierAgrees(b.pub, b.w);
    NullifierInjective(a.pub.electionId, a.w.credentialSecret, b.pub.electionId, b.w.credentialSecret);
  }

  /** Within one election: nullifiers are pairwise distinct exactly when the secrets are. */
  lemma DistinctNullifiersIff(ballots: seq<Ballot>, electionId: Fe, credentials: seq<Credential>, depth: nat, xy: Coordinates, p: int, q: int)
    requires p > 1 && q > 1 && BallotsOf(ballots, electionId, credentials, depth, xy, p, q)
    ensures (forall i, j :: 0 <= i < j < |ballots| ==> ballots[i].pub.ballotNullifier != ballots[j].pub.ballotNullifier) <==>
            (forall i, j :: 0 <= i < j < |ballots| ==> ballots[i].w.credentialSecret != ballots[j].w.credentialSecret)
  {
    forall i, j | 0 <= i < j < |ballots|
      ensures ballots[i].pub.ballotNullifier == ballots[j].pub.ballotNullifier <==>
              ballots[i].w.credentialSecret == ballots[j].w.credentialSecret
    {
      SameNullifierIff(ballots[i], ballots[j], depth, xy, p, q);
    }
  }

  /** Ballots with pairwise distinct nullifiers come from pairwise distinct secrets of registered credentials,
      so there are no more of them than credentials. */
  lemma OneBallotPerCredential(ballots: seq<Ballot>, electionId: Fe, credentials: seq<Credential>, depth: nat, xy: Coordinates, p: int, q: int)
    requires Prime(p) && CANDIDATE_COUNT < p && q > 1 && IsEmbedding(xy, p, q)
    requires BallotsOf(ballots, electionId, credentials, depth, xy, p, q)
    requires forall i, j :: 0 <= i < j < |ballots| ==> ballots[i].pub.ballotNullifier != ballots[j].pub.ballotNullifier
    ensures forall i, j :: 0 <= i < j < |ballots| ==> ballots[i].w.credentialSecret != ballots[j].w.credentialSecret
    ensures forall i :: 0 <= i < |ballots| ==> Registered(ballots[i].w, credentials)
    ensures |ballots| <= |credentials|
  {
    DistinctNullifiersIff(ballots, electionId, credentials, depth, xy, p, q);
    AllRegistered(ballots, electionId, credentials, depth, xy, p, q);
    var owners := OwnersOf(ballots, credentials);
    OwnersDistinct(ballots, credentials, owners);
    Pigeonhole(owners, |credentials|);
  }
}
