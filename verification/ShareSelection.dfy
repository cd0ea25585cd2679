/** Which decryption shares the secp256k1 path uses, and why the others and the order do not matter. */
module ShareSelection {
  import opened Wrappers
  import opened Sequences
  import opened Sorting
  import opened Field
  import opened Shamir
  import opened ElGamal
  import opened Threshold
  import opened CheckedTally

  // ----- the selection

  predicate Ascending(shares: seq<DecryptionShare>) {
    forall i, j :: 0 <= i < j < |shares| ==> shares[i].trusteeIndex <= shares[j].trusteeIndex
  }

  /** No share of the one list has a higher index than any of the other. */
  ghost predicate AllBelow(low: seq<DecryptionShare>, high: seq<DecryptionShare>) {
    forall u, v :: u in low && v in high ==> u.trusteeIndex <= v.trusteeIndex
  }

  ghost predicate AllPositive(shares: seq<DecryptionShare>) {
    forall s :: s in shares ==> s.trusteeIndex > 0
  }

  /** The selected shares ascend in trustee index, are shares that were given, and every unselected share has an index
      no smaller than every selected one. */
  lemma SelectionIsLowest(shares: seq<DecryptionShare>, threshold: nat) returns (rest: seq<DecryptionShare>)
    requires threshold <= |shares| && AllPositive(shares)
    ensures Ascending(Selected(shares, threshold)) && |Selected(shares, threshold)| == threshold
    ensures multiset(shares) == multiset(Selected(shares, threshold)) + multiset(rest)
    ensures AllBelow(Selected(shares, threshold), rest)
  {
    var sorted := SortBy(shares, IndexKey);
    rest := sorted[threshold..];
    SortContents(shares, IndexKey);
    SortSorted(shares, IndexKey);
    SortedAscending(sorted, IndexKey);
    SameMembers(sorted, shares);
    assert sorted == sorted[..threshold] + rest;
    forall i | 0 <= i < |sorted| ensures IndexKey(sorted[i]) == sorted[i].trusteeIndex {
      assert sorted[i] in shares;
    }
  }

  lemma SubMultiset<T>(a: multiset<T>, b: multiset<T>)
    requires a <= b && |a| == |b|
    ensures a == b
  {
    assert b == a + (b - a);
    assert |b - a| == 0;
  }

  /** A list of `threshold` shares below all the others is the selection, up to order. */
  lemma LowestAreSelected(shares: seq<DecryptionShare>, threshold: nat, low: seq<DecryptionShare>, high: seq<DecryptionShare>)
    requires threshold <= |shares| && AllPositive(shares) && |low| == threshold
    requires multiset(shares) == multiset(low) + multiset(high)
    requires forall u, v :: u in low && v in high ==> u.trusteeIndex < v.trusteeIndex
    ensures multiset(Selected(shares, threshold)) == multiset(low)
  {
    var selected := Selected(shares, threshold);
    var rest := SelectionIsLowest(shares, threshold);
    if v :| v in selected && v in high {
      forall u | u in low ensures multiset(low)[u] <= multiset(selected)[u] {
        LowNotLeft(u, v, selected, rest, low, high);
      }
      assert multiset(low) <= multiset(selected);
      SubMultiset(multiset(low), multiset(selected));
    } else {
      forall u | u in selected ensures multiset(selected)[u] <= multiset(low)[u] {
        assert multiset(high)[u] == 0;
        assert (multiset(low) + multiset(high))[u] == (multiset(selected) + multiset(rest))[u];
      }
      assert multiset(selected) <= multiset(low);
      SubMultiset(multiset(selected), multiset(low));
    }
  }

  /** A low share cannot be left over while a high one is selected. */
  lemma LowNotLeft(u: DecryptionShare, v: DecryptionShare, selected: seq<DecryptionShare>, rest: seq<DecryptionShare>,
                   low: seq<DecryptionShare>, high: seq<DecryptionShare>)
    requires multiset(selected) + multiset(rest) == multiset(low) + multiset(high) && AllBelow(selected, rest)
    requires forall x, y :: x in low && y in high ==> x.trusteeIndex < y.trusteeIndex
    requires u in low && v in selected && v in high
    ensures multiset(low)[u] <= multiset(selected)[u]
  {
    assert u !in high;
    assert u !in rest;
    assert multiset(high)[u] == 0 && multiset(rest)[u] == 0;
    assert (multiset(selected) + multiset(rest))[u] == (multiset(low) + multiset(high))[u];
  }

  // ----- order is immaterial

  lemma DistinctKeys(shares: seq<DecryptionShare>)
    requires NoDuplicates(Indexes(shares)) && AllPositive(shares)
    ensures forall x, y :: x in shares && y in shares && IndexKey(x) == IndexKey(y) ==> x == y
  {
    forall x, y | x in shares && y in shares && IndexKey(x) == IndexKey(y) ensures x == y {
      var i :| 0 <= i < |shares| && shares[i] == x;
      var j :| 0 <= j < |shares| && shares[j] == y;
      assert Indexes(shares)[i] == Indexes(shares)[j];
    }
  }

  /** For shares of distinct trustees, the order in which they are supplied does not change the outcome. */
  lemma OutcomeIgnoresOrder(ct: Pairs, a: seq<DecryptionShare>, b: seq<DecryptionShare>, threshold: int, maxVotes: int,
                            hash: Statement -> nat, q: int, r: Option<seq<int>>, s: Option<seq<int>>)
    requires Prime(q) && UINT32 <= q && multiset(a) == multiset(b) && NoDuplicates(Indexes(a))
    requires CheckedDecryptsTo(ct, a, threshold, maxVotes, hash, q, r)
    requires CheckedDecryptsTo(ct, b, threshold, maxVotes, hash, q, s)
    ensures r == s
  {
    SameMembers(a, b);
    if forall u :: u in a ==> ValidShare(u, ct, q) {
      DistinctKeys(a);
      SortPermutation(a, b, IndexKey);
      if Passes(ct, a, threshold, maxVotes, hash, q) {
        VerifiedSharesWeigh(Selected(a, threshold), ct, hash, q);
        DecodesUnique(ShareMessages(ct.c2, Selected(a, threshold), q), maxVotes, q, r, s);
      }
    }
  }

  // ----- the other shares are immaterial

  lemma DistinctAfterPermuting(a: seq<DecryptionShare>, b: seq<DecryptionShare>)
    requires multiset(a) == multiset(b) && NoDuplicates(Indexes(a))
    ensures NoDuplicates(Indexes(b))
  {
    forall i, j | 0 <= i < j < |b| ensures Indexes(b)[i] != Indexes(b)[j] {
      var k, l := PositionsBefore(a, b, i, j);
      assert Indexes(a)[k] != Indexes(a)[l];
    }
  }

  /** If the `threshold` shares of lowest index are of distinct dealt trustees, verify and satisfy the proof relation,
      the outcome is that of direct decryption, whatever the other well-formed shares are and in whatever order
      all of them are supplied. */
  lemma LowestSharesDecide(ct: Pairs, shares: seq<DecryptionShare>, low: seq<DecryptionShare>, high: seq<DecryptionShare>,
                           threshold: int, maxVotes: int, hash: Statement -> nat, trusteeCount: int, secret: int,
                           coefficients: seq<int>, q: int, r: Option<seq<int>>)
    requires Prime(q) && UINT32 <= q && ValidDealing(threshold, trusteeCount, secret, coefficients, q) && trusteeCount < q
    requires 0 <= maxVotes < q && ValidPairs(ct, q) && ct.keyHash == KeyHash(Mul(GENERATOR, secret, q))
    requires forall s :: s in shares ==> ValidShare(s, ct, q)
    requires multiset(shares) == multiset(low) + multiset(high) && |low| == threshold && NoDuplicates(Indexes(low))
    requires forall u, v :: u in low && v in high ==> u.trusteeIndex < v.trusteeIndex
    requires forall s :: s in low ==>
               && VerifiedShare(s, ct, hash, q) && UnderDealtKey(s, trusteeCount, [secret] + coefficients, q)
               && DleqRelation(s, ct.c1, q)
    requires CheckedDecryptsTo(ct, shares, threshold, maxVotes, hash, q, r)
    ensures Decodes(DirectMessages(ct, secret, q), maxVotes, q, r)
  {
    assert |multiset(shares)| == |shares| && |multiset(low)| == |low|;
    var selected := Selected(shares, threshold);
    LowestAreSelected(shares, threshold, low, high);
    DistinctAfterPermuting(low, selected);
    SameMembers(low, selected);
    DealtSharesPass(ct, shares, threshold, maxVotes, hash, trusteeCount, secret, coefficients, q);
    CheckedSharesMatchPrivateKey(ct, shares, threshold, maxVotes, hash, secret, q, r);
  }

  /** A share created by the holder of a dealt key is of the kind that decides. */
  lemma HonestShareQualifies(x: nat, privateShare: int, ct: Pairs, nonces: seq<int>, hash: Statement -> nat, trusteeCount: int,
                             secret: int, coefficients: seq<int>, q: int)
    requires Prime(q) && ValidShareInput(x, privateShare, ct, nonces, q) && x <= trusteeCount
    requires IsDealt(KeyShare(x, privateShare, Mul(GENERATOR, privateShare, q)), x, secret, coefficients, q)
    ensures var share := HonestShare(x, privateShare, ct, nonces, hash, q);
      UnderDealtKey(share, trusteeCount, [secret] + coefficients, q) && DleqRelation(share, ct.c1, q)
  {
    var share := HonestShare(x, privateShare, ct, nonces, hash, q);
    ModUnique(privateShare, 0, privateShare, q);
    assert share.publicShare.log == privateShare;
  }

  // ----- what success requires

  /** The equations at one position, under a nonzero challenge. */
  ghost predicate ProvenAt(s: DecryptionShare, ct: Pairs, i: nat, hash: Statement -> nat, q: int)
    requires q > 0 && i < |ct.c1| && i < |s.points| && i < |s.proofs|
  {
    && hash(Statement(ct.keyHash, s.trusteeIndex, s.publicShare, ct.c1[i], s.points[i],
                      s.proofs[i].commitmentToGenerator, s.proofs[i].commitmentToCiphertext)) % q != 0
    && Proven(s, Ciphertext(ct.keyHash, GENERATOR, ct.c1, ct.c2), i, hash, q)
  }

  /** Counts are returned only for a threshold of at least two, a bound that is not negative, and well-formed shares for
      this ciphertext's key, of which the selected ones are of distinct trustees and proven at every position. */
  lemma CountsNeedProof(ct: Pairs, shares: seq<DecryptionShare>, threshold: int, maxVotes: int, hash: Statement -> nat, q: int,
                        r: Option<seq<int>>)
    requires Prime(q) && UINT32 <= q && CheckedDecryptsTo(ct, shares, threshold, maxVotes, hash, q, r) && r.Some?
    ensures 2 <= threshold <= |shares| && 0 <= maxVotes < q && |ct.c1| == |ct.c2| == |r.value| >= 2
    ensures forall s :: s in shares ==>
      s.trusteeIndex > 0 && s.keyHash == ct.keyHash && |s.points| == |s.proofs| == |ct.c1| && s.publicShare != IDENTITY
    ensures NoDuplicates(Indexes(Selected(shares, threshold)))
    ensures forall s, i :: s in Selected(shares, threshold) && 0 <= i < |ct.c1| ==>
      s.trusteeIndex < 0x1_0000_0000 && |s.points| == |s.proofs| == |ct.c1| && ProvenAt(s, ct, i, hash, q)
  {
    forall s, i | s in Selected(shares, threshold) && 0 <= i < |ct.c1|
      ensures s.trusteeIndex < 0x1_0000_0000 && |s.points| == |s.proofs| == |ct.c1| && ProvenAt(s, ct, i, hash, q)
    {
      assert VerifiedShare(s, ct, hash, q);
      VerifiedIffEquations(s, ct, hash, q);
      assert s.proofs[i] in s.proofs;
    }
  }
}
