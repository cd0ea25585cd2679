/** Merkle trees with odd-node duplication: root, inclusion proof and verification. */
module Merkle {
  import opened Wrappers
  import opened Sequences
  import opened Sorting

  datatype Domain = NullifierDomain | PackageDomain

  /** Collision-free, domain-separated hashes: distinct inputs are distinct terms. */
  datatype Digest =
    | ZeroHash
    | Leaf(domain: Domain, fields: seq<nat>)
    | Pair(left: Digest, right: Digest)

  datatype Direction = Left | Right

  datatype Step = Step(sibling: Digest, direction: Direction)

  // ----- root

  function ParentAt(level: seq<Digest>, i: nat): Digest
    requires 2 * i < |level|
  {
    Pair(level[2 * i], if 2 * i + 1 < |level| then level[2 * i + 1] else level[2 * i])
  }

  function NextLevel(level: seq<Digest>): (r: seq<Digest>)
    ensures |r| == (|level| + 1) / 2
  {
    seq((|level| + 1) / 2, i requires 0 <= i < (|level| + 1) / 2 => ParentAt(level, i))
  }

  function Root(leaves: seq<Digest>): Digest
    decreases |leaves|
  {
    if |leaves| == 0 then ZeroHash
    else if |leaves| == 1 then leaves[0]
    else Root(NextLevel(leaves))
  }

  /** The shape of small trees: a single leaf is its own root, left before right, the odd leaf paired with itself. */
  lemma SmallRoots(a: Digest, b: Digest, c: Digest)
    ensures Root([]) == ZeroHash && Root([a]) == a && Root([a, b]) == Pair(a, b)
    ensures Root([a, b, c]) == Pair(Pair(a, b), Pair(c, c))
  {
    assert NextLevel([a, b]) == [Pair(a, b)];
    assert NextLevel([a, b, c]) == [Pair(a, b), Pair(c, c)];
    var pairs := [Pair(a, b), Pair(c, c)];
    assert NextLevel(pairs) == [Pair(Pair(a, b), Pair(c, c))];
    assert Root([a, b, c]) == Root(pairs) == Root(NextLevel(pairs));
  }

  method BuildNextLevel(level: seq<Digest>) returns (nextLevel: seq<Digest>)
    ensures nextLevel == NextLevel(level)
  {
    nextLevel := [];
    var index := 0;
    while index < |level|
      invariant index % 2 == 0 && index <= |level| + 1
      invariant |nextLevel| == index / 2 && nextLevel == NextLevel(level)[..index / 2]
    {
      var left := level[index];
      var right := if index + 1 < |level| then level[index + 1] else left;
      assert Pair(left, right) == NextLevel(level)[index / 2];
      nextLevel := nextLevel + [Pair(left, right)];
      index := index + 2;
    }
  }

  /** `merkleRoot`. */
  method MerkleRoot(leaves: seq<Digest>) returns (root: Digest)
    ensures root == Root(leaves)
  {
    if |leaves| == 0 {
      return ZeroHash;
    }
    var level := leaves;
    while |level| > 1
      invariant level != [] && Root(level) == Root(leaves)
      decreases |level|
    {
      level := BuildNextLevel(level);
    }
    root := level[0];
  }

  // ----- proofs

  function StepAt(level: seq<Digest>, index: nat): Step
    requires index < |level|
  {
    if index % 2 == 0
    then Step(if index + 1 < |level| then level[index + 1] else level[index], Right)
    else Step(level[index - 1], Left)
  }

  function ProofOf(level: seq<Digest>, index: nat): seq<Step>
    requires index < |level|
    decreases |level|
  {
    if |level| == 1 then [] else [StepAt(level, index)] + ProofOf(NextLevel(level), index / 2)
  }

  lemma ProofSnoc(steps: seq<Step>, level: seq<Digest>, index: nat)
    requires index < |level| && |level| > 1
    ensures steps + ProofOf(level, index) == (steps + [StepAt(level, index)]) + ProofOf(NextLevel(level), index / 2)
  {
  }

  /** `merkleProof`; None is the range assertion. */
  method MerkleProof(leaves: seq<Digest>, leafIndex: int) returns (proof: Option<seq<Step>>)
    ensures proof.Some? <==> 0 <= leafIndex < |leaves|
    ensures proof.Some? ==> proof.value == ProofOf(leaves, leafIndex)
  {
    if !(0 <= leafIndex < |leaves|) {
      return None;
    }
    var index := leafIndex;
    var level := leaves;
    var steps: seq<Step> := [];
    while |level| > 1
      invariant 0 <= index < |level|
      invariant steps + ProofOf(level, index) == ProofOf(leaves, leafIndex)
      decreases |level|
    {
      var siblingIndex := if index % 2 == 0 then index + 1 else index - 1;
      var sibling := if siblingIndex < |level| then level[siblingIndex] else level[index];
      var direction := if index % 2 == 0 then Right else Left;
      ProofSnoc(steps, level, index);
      steps := steps + [Step(sibling, direction)];
      level := BuildNextLevel(level);
      index := index / 2;
    }
    return Some(steps);
  }

  function Climb(cursor: Digest, step: Step): Digest {
    if step.direction == Left then Pair(step.sibling, cursor) else Pair(cursor, step.sibling)
  }

  function Fold(leaf: Digest, proof: seq<Step>): Digest {
    if proof == [] then leaf else Climb(Fold(leaf, proof[..|proof| - 1]), proof[|proof| - 1])
  }

  /** `verifyMerkleProof`. */
  method VerifyMerkleProof(leafHash: Digest, proof: seq<Step>, expectedRoot: Digest) returns (ok: bool)
    ensures ok <==> Fold(leafHash, proof) == expectedRoot
  {
    var cursor := leafHash;
    for k := 0 to |proof|
      invariant cursor == Fold(leafHash, proof[..k])
    {
      assert proof[..k + 1][..k] == proof[..k];
      cursor := if proof[k].direction == Left then Pair(proof[k].sibling, cursor) else Pair(cursor, proof[k].sibling);
    }
    assert proof[..|proof|] == proof;
    ok := cursor == expectedRoot;
  }

  lemma {:induction false} FoldCons(leaf: Digest, step: Step, proof: seq<Step>)
    ensures Fold(leaf, [step] + proof) == Fold(Climb(leaf, step), proof)
  {
    var all := [step] + proof;
    if proof == [] {
      assert all[..0] == [];
    } else {
      FoldCons(leaf, step, proof[..|proof| - 1]);
      assert all[..|all| - 1] == [step] + proof[..|proof| - 1];
    }
  }

  /** Completeness: the proof of every position verifies. */
  lemma {:induction false} ProofComplete(leaves: seq<Digest>, index: nat)
    requires index < |leaves|
    ensures Fold(leaves[index], ProofOf(leaves, index)) == Root(leaves)
    decreases |leaves|
  {
    if |leaves| > 1 {
      var next := NextLevel(leaves);
      FoldCons(leaves[index], StepAt(leaves, index), ProofOf(next, index / 2));
      assert Climb(leaves[index], StepAt(leaves, index)) == next[index / 2];
      ProofComplete(next, index / 2);
    }
  }

  // ----- soundness

  /** h occurs in the tree d. */
  predicate Within(h: Digest, d: Digest) {
    h == d || (d.Pair? && (Within(h, d.left) || Within(h, d.right)))
  }

  lemma {:induction false} WithinClimbs(h: Digest, proof: seq<Step>)
    ensures Within(h, Fold(h, proof))
  {
    if proof != [] {
      WithinClimbs(h, proof[..|proof| - 1]);
    }
  }

  lemma {:induction false} PathTo(h: Digest, d: Digest) returns (proof: seq<Step>)
    requires Within(h, d)
    ensures Fold(h, proof) == d
  {
    if h == d {
      proof := [];
    } else {
      var step := if Within(h, d.left) then Step(d.right, Right) else Step(d.left, Left);
      var rest := PathTo(h, if Within(h, d.left) then d.left else d.right);
      proof := rest + [step];
      assert proof[..|rest|] == rest;
    }
  }

  /** Exactly the hashes that occur in a root, leaves or inner nodes, have a verifying proof. */
  lemma VerifiesIffWithin(h: Digest, root: Digest)
    ensures (exists proof :: Fold(h, proof) == root) <==> Within(h, root)
  {
    if Within(h, root) {
      var proof := PathTo(h, root);
    }
    forall proof | Fold(h, proof) == root ensures Within(h, root) {
      WithinClimbs(h, proof);
    }
  }

  /** A leaf occurs in a root exactly when it occurs under some node of the bottom level. */
  lemma {:induction false} WithinRoot(h: Digest, level: seq<Digest>)
    requires h.Leaf?
    ensures Within(h, Root(level)) <==> exists k :: 0 <= k < |level| && Within(h, level[k])
    decreases |level|
  {
    if |level| == 1 {
      assert Within(h, level[0]) <==> Within(h, Root(level));
    } else if |level| > 1 {
      var next := NextLevel(level);
      WithinRoot(h, next);
      forall j | 0 <= j < |next| && Within(h, next[j])
        ensures exists k :: 0 <= k < |level| && Within(h, level[k])
      {
        assert next[j] == ParentAt(level, j);
        assert Within(h, level[2 * j]) || (2 * j + 1 < |level| && Within(h, level[2 * j + 1]));
      }
      forall k | 0 <= k < |level| && Within(h, level[k])
        ensures exists j :: 0 <= j < |next| && Within(h, next[j])
      {
        assert next[k / 2] == ParentAt(level, k / 2);
        assert Within(h, next[k / 2]);
      }
    }
  }

  ghost predicate AllLeaves(leaves: seq<Digest>) {
    forall d :: d in leaves ==> d.Leaf?
  }

  /** Soundness: over a list of leaf-domain hashes, a leaf-domain hash has a verifying proof exactly when it
      is a member of the list. */
  lemma LeafVerifiesIffMember(h: Digest, leaves: seq<Digest>)
    requires h.Leaf? && AllLeaves(leaves)
    ensures (exists proof :: Fold(h, proof) == Root(leaves)) <==> h in leaves
  {
    VerifiesIffWithin(h, Root(leaves));
    WithinRoot(h, leaves);
    forall k | 0 <= k < |leaves| ensures Within(h, leaves[k]) <==> h == leaves[k] {
      assert leaves[k] in leaves;
    }
  }

  // ----- injectivity

  /** A complete tree of the given height over leaf-domain hashes. */
  ghost predicate Perfect(d: Digest, height: nat) {
    if height == 0 then d.Leaf?
    else d.Pair? && Perfect(d.left, height - 1) && Perfect(d.right, height - 1)
  }

  ghost predicate AllPerfect(level: seq<Digest>, height: nat) {
    forall k :: 0 <= k < |level| ==> Perfect(level[k], height)
  }

  ghost function Rounds(n: nat): nat {
    if n <= 1 then 0 else 1 + Rounds((n + 1) / 2)
  }

  lemma NextLevelPerfect(level: seq<Digest>, height: nat)
    requires AllPerfect(level, height)
    ensures AllPerfect(NextLevel(level), height + 1)
  {
    forall k | 0 <= k < |NextLevel(level)| ensures Perfect(NextLevel(level)[k], height + 1) {
      assert NextLevel(level)[k] == ParentAt(level, k);
    }
  }

  lemma {:induction false} RootPerfect(level: seq<Digest>, height: nat)
    requires level != [] && AllPerfect(level, height)
    ensures Perfect(Root(level), height + Rounds(|level|))
    decreases |level|
  {
    if |level| > 1 {
      NextLevelPerfect(level, height);
      RootPerfect(NextLevel(level), height + 1);
    }
  }

  lemma {:induction false} HeightUnique(d: Digest, a: nat, b: nat)
    requires Perfect(d, a) && Perfect(d, b)
    ensures a == b
  {
    if a > 0 && b > 0 {
      HeightUnique(d.left, a - 1, b - 1);
    }
  }

  lemma NextLevelNoDuplicates(level: seq<Digest>)
    requires NoDuplicates(level)
    ensures NoDuplicates(NextLevel(level))
  {
    forall i, j | 0 <= i < j < |NextLevel(level)| ensures NextLevel(level)[i] != NextLevel(level)[j] {
      assert level[2 * i] != level[2 * j];
    }
  }

  lemma NextLevelInjective(a: seq<Digest>, b: seq<Digest>)
    requires NoDuplicates(a) && NoDuplicates(b) && NextLevel(a) == NextLevel(b)
    ensures a == b
  {
    var n := |NextLevel(a)|;
    forall k | 0 <= k < n
      ensures a[2 * k] == b[2 * k]
      ensures 2 * k + 1 < |a| <==> 2 * k + 1 < |b|
      ensures 2 * k + 1 < |a| ==> a[2 * k + 1] == b[2 * k + 1]
    {
      assert NextLevel(a)[k] == ParentAt(a, k) && NextLevel(b)[k] == ParentAt(b, k);
    }
    if n > 0 {
      assert 2 * (n - 1) + 1 < |a| <==> 2 * (n - 1) + 1 < |b|;
    }
    assert |a| == |b|;
    forall k | 0 <= k < |a| ensures a[k] == b[k] {
      assert k == 2 * (k / 2) || k == 2 * (k / 2) + 1;
    }
  }

  lemma {:induction false} PerfectRootInjective(a: seq<Digest>, b: seq<Digest>, height: nat)
    requires a != [] && b != [] && AllPerfect(a, height) && AllPerfect(b, height)
    requires NoDuplicates(a) && NoDuplicates(b) && Root(a) == Root(b)
    ensures a == b
    decreases |a|
  {
    RootPerfect(a, height);
    RootPerfect(b, height);
    HeightUnique(Root(a), height + Rounds(|a|), height + Rounds(|b|));
    if |a| > 1 && |b| > 1 {
      NextLevelPerfect(a, height);
      NextLevelPerfect(b, height);
      NextLevelNoDuplicates(a);
      NextLevelNoDuplicates(b);
      PerfectRootInjective(NextLevel(a), NextLevel(b), height + 1);
      NextLevelInjective(a, b);
    }
  }

  /** The root binds a duplicate-free list of leaf-domain hashes of any length, the empty list included. */
  lemma RootInjective(a: seq<Digest>, b: seq<Digest>)
    requires AllLeaves(a) && AllLeaves(b) && NoDuplicates(a) && NoDuplicates(b)
    ensures Root(a) == Root(b) <==> a == b
  {
    assert AllPerfect(a, 0) && AllPerfect(b, 0);
    if a != [] { RootPerfect(a, 0); NotZero(Root(a), Rounds(|a|)); }
    if b != [] { RootPerfect(b, 0); NotZero(Root(b), Rounds(|b|)); }
    if a != [] && b != [] && Root(a) == Root(b) {
      PerfectRootInjective(a, b, 0);
    }
  }

  lemma NotZero(d: Digest, height: nat)
    requires Perfect(d, height)
    ensures d != ZeroHash
  {
  }

  /** Duplicate-freedom is needed: repeating the last element of any odd list of two or more keeps the root. */
  lemma {:induction false} DuplicatedLastCollides(leaves: seq<Digest>)
    requires |leaves| > 1 && |leaves| % 2 == 1
    ensures Root(leaves + [leaves[|leaves| - 1]]) == Root(leaves)
  {
    SameNextLevel(leaves, leaves + [leaves[|leaves| - 1]]);
  }

  lemma SameNextLevel(leaves: seq<Digest>, longer: seq<Digest>)
    requires |leaves| % 2 == 1 && longer == leaves + [leaves[|leaves| - 1]]
    ensures NextLevel(longer) == NextLevel(leaves)
  {
    var n := |leaves|;
    assert |NextLevel(longer)| == |NextLevel(leaves)|;
    forall k | 0 <= k < |NextLevel(leaves)| ensures NextLevel(longer)[k] == NextLevel(leaves)[k] {
      assert 2 * k < n && longer[2 * k] == leaves[2 * k];
      assert 2 * k + 1 < n ==> longer[2 * k + 1] == leaves[2 * k + 1];
      assert 2 * k + 1 >= n ==> longer[2 * k + 1] == leaves[2 * k];
    }
  }
}
