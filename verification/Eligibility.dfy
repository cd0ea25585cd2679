/** The eligibility tree: the sparse level maps of the client against the dense tree they stand for. */
module Eligibility {
  import opened Wrappers
  import opened Sequences

  /** Field elements under a collision-free Poseidon: plain numbers, or hashes of elements. Leaves and inner
      nodes use the same two-input hash, so nothing separates their domains except the tree depth. */
  datatype Fe = Num(value: nat) | Poseidon(inputs: seq<Fe>)

  const ZERO := Num(0)

  datatype Credential = Credential(secret: Fe, nonce: Fe, index: int)

  datatype Membership = Membership(credentialCommitment: Fe, eligibilityRoot: Fe, pathElements: seq<Fe>, pathIndices: seq<int>)

  function Commit(c: Credential): Fe {
    Poseidon([c.secret, c.nonce])
  }

  function Exp2(n: nat): nat {
    if n == 0 then 1 else 2 * Exp2(n - 1)
  }

  // ----- the dense tree

  function LeafAt(credentials: seq<Credential>, index: int): Fe {
    if credentials == [] then ZERO
    else if credentials[0].index == index then Commit(credentials[0])
    else LeafAt(credentials[1..], index)
  }

  /** Node `index` of a level of the full tree whose empty leaves are zero. */
  function DenseNode(credentials: seq<Credential>, level: nat, index: int): Fe {
    if level == 0 then LeafAt(credentials, index)
    else Poseidon([DenseNode(credentials, level - 1, 2 * index), DenseNode(credentials, level - 1, 2 * index + 1)])
  }

  function EmptyNode(level: nat): Fe {
    if level == 0 then ZERO else Poseidon([EmptyNode(level - 1), EmptyNode(level - 1)])
  }

  function Ancestor(index: int, level: nat): int {
    if level == 0 then index else Ancestor(index, level - 1) / 2
  }

  /** `index ^ 1` on the 31-bit indexes of the tree. */
  function Sibling(index: int): int {
    if index % 2 == 0 then index + 1 else index - 1
  }

  function Indices(credentials: seq<Credential>): (r: seq<int>)
    ensures |r| == |credentials|
  {
    seq(|credentials|, k requires 0 <= k < |credentials| => credentials[k].index)
  }

  lemma {:induction false} LeafOfMember(credentials: seq<Credential>, k: nat)
    requires NoDuplicates(Indices(credentials)) && k < |credentials|
    ensures LeafAt(credentials, credentials[k].index) == Commit(credentials[k])
  {
    if k > 0 {
      assert Indices(credentials)[0] != Indices(credentials)[k];
      assert Indices(credentials[1..]) == Indices(credentials)[1..];
      LeafOfMember(credentials[1..], k - 1);
    }
  }

  lemma {:induction false} LeafIsMember(credentials: seq<Credential>, index: int) returns (k: nat)
    requires LeafAt(credentials, index) != ZERO
    ensures k < |credentials| && credentials[k].index == index && LeafAt(credentials, index) == Commit(credentials[k])
  {
    if credentials[0].index == index {
      k := 0;
    } else {
      k := LeafIsMember(credentials[1..], index);
      k := k + 1;
    }
  }

  lemma {:induction false} LeafOfOther(credentials: seq<Credential>, index: int)
    requires forall c :: c in credentials ==> c.index != index
    ensures LeafAt(credentials, index) == ZERO
  {
    if credentials != [] {
      LeafOfOther(credentials[1..], index);
    }
  }

  // ----- the sparse level maps

  /** A level map holds dense nodes, and every index it leaves out is an empty subtree. */
  ghost predicate Sparse(nodes: map<int, Fe>, credentials: seq<Credential>, level: nat) {
    && (forall i :: i in nodes ==> nodes[i] == DenseNode(credentials, level, i))
    && (forall i :: i !in nodes ==> DenseNode(credentials, level, i) == EmptyNode(level))
  }

  function Lookup(nodes: map<int, Fe>, i: int, empty: Fe): Fe {
    if i in nodes then nodes[i] else empty
  }

  method BuildLeaves(credentials: seq<Credential>) returns (nodes: map<int, Fe>)
    requires NoDuplicates(Indices(credentials))
    ensures Sparse(nodes, credentials, 0)
    ensures forall i :: i in nodes ==> exists k :: 0 <= k < |credentials| && credentials[k].index == i
    ensures forall k :: 0 <= k < |credentials| ==> credentials[k].index in nodes
  {
    nodes := map[];
    for k := 0 to |credentials|
      invariant forall i :: i in nodes ==> exists j :: 0 <= j < k && credentials[j].index == i && nodes[i] == Commit(credentials[j])
      invariant forall j :: 0 <= j < k ==> credentials[j].index in nodes
    {
      nodes := nodes[credentials[k].index := Commit(credentials[k])];
    }
    forall i | i in nodes ensures nodes[i] == DenseNode(credentials, 0, i) {
      var j :| 0 <= j < |credentials| && credentials[j].index == i && nodes[i] == Commit(credentials[j]);
      LeafOfMember(credentials, j);
    }
    forall i | i !in nodes ensures DenseNode(credentials, 0, i) == ZERO {
      LeafOfOther(credentials, i);
    }
  }

  method BuildParents(nodes: map<int, Fe>, credentials: seq<Credential>, level: nat) returns (parents: map<int, Fe>)
    requires Sparse(nodes, credentials, level)
    ensures Sparse(parents, credentials, level + 1)
  {
    parents := map[];
    var parentIndices := set i | i in nodes.Keys :: i / 2;
    assert forall i :: i in nodes ==> i / 2 in parentIndices;
    var rest := parentIndices;
    while rest != {}
      invariant rest <= parentIndices
      invariant forall p :: p in parents <==> p in parentIndices - rest
      invariant forall p :: p in parents ==> parents[p] == DenseNode(credentials, level + 1, p)
      decreases rest
    {
      var parentIndex :| parentIndex in rest;
      var left := Lookup(nodes, parentIndex * 2, EmptyNode(level));
      var right := Lookup(nodes, parentIndex * 2 + 1, EmptyNode(level));
      assert DenseNode(credentials, level + 1, parentIndex) == Poseidon([left, right]);
      parents := parents[parentIndex := Poseidon([left, right])];
      rest := rest - {parentIndex};
    }
    forall p | p !in parents ensures DenseNode(credentials, level + 1, p) == EmptyNode(level + 1) {
      assert (2 * p) / 2 == p && (2 * p + 1) / 2 == p;
      assert 2 * p !in nodes && 2 * p + 1 !in nodes;
    }
  }

  predicate ValidRequest(credentials: seq<Credential>, targetIndex: int, depth: int) {
    && 0 < depth <= 30
    && 0 <= targetIndex < Exp2(depth)
    && (exists k :: 0 <= k < |credentials| && credentials[k].index == targetIndex)
    && NoDuplicates(Indices(credentials))
    && forall k :: 0 <= k < |credentials| ==> 0 <= credentials[k].index < Exp2(depth)
  }

  /** The sparse tree refines the dense one: its root, and the path of the target. */
  ghost predicate IsMembershipOf(m: Membership, credentials: seq<Credential>, targetIndex: int, depth: nat) {
    && m.credentialCommitment == LeafAt(credentials, targetIndex)
    && m.eligibilityRoot == DenseNode(credentials, depth, 0)
    && |m.pathElements| == |m.pathIndices| == depth
    && forall l :: 0 <= l < depth ==> PathStep(credentials, targetIndex, l, m.pathElements[l], m.pathIndices[l])
  }

  ghost predicate AllSparse(levelMaps: seq<map<int, Fe>>, credentials: seq<Credential>) {
    forall l :: 0 <= l < |levelMaps| ==> Sparse(levelMaps[l], credentials, l)
  }

  ghost predicate AllEmpty(zeroHashes: seq<Fe>) {
    forall l :: 0 <= l < |zeroHashes| ==> zeroHashes[l] == EmptyNode(l)
  }

  method BuildZeroHashes(depth: nat) returns (zeroHashes: seq<Fe>)
    ensures |zeroHashes| == depth + 1 && AllEmpty(zeroHashes)
  {
    zeroHashes := [ZERO];
    for level := 0 to depth
      invariant |zeroHashes| == level + 1 && AllEmpty(zeroHashes)
    {
      zeroHashes := zeroHashes + [Poseidon([zeroHashes[level], zeroHashes[level]])];
    }
  }

  method BuildLevelMaps(credentials: seq<Credential>, depth: nat) returns (levelMaps: seq<map<int, Fe>>)
    requires NoDuplicates(Indices(credentials))
    ensures |levelMaps| == depth + 1 && AllSparse(levelMaps, credentials)
    ensures forall k :: 0 <= k < |credentials| ==> credentials[k].index in levelMaps[0]
  {
    var current := BuildLeaves(credentials);
    levelMaps := [current];
    for level := 0 to depth
      invariant |levelMaps| == level + 1 && levelMaps[level] == current
      invariant AllSparse(levelMaps, credentials)
      invariant forall k :: 0 <= k < |credentials| ==> credentials[k].index in levelMaps[0]
    {
      current := BuildParents(current, credentials, level);
      levelMaps := levelMaps + [current];
    }
  }

  lemma LookupIsDense(nodes: map<int, Fe>, credentials: seq<Credential>, level: nat, i: int)
    requires Sparse(nodes, credentials, level)
    ensures Lookup(nodes, i, EmptyNode(level)) == DenseNode(credentials, level, i)
  {
  }

  /** The path at one level: the target's side bit and its dense sibling. */
  ghost predicate PathStep(credentials: seq<Credential>, targetIndex: int, l: nat, element: Fe, bit: int) {
    bit == Ancestor(targetIndex, l) % 2 && element == DenseNode(credentials, l, Sibling(Ancestor(targetIndex, l)))
  }

  method BuildPath(levelMaps: seq<map<int, Fe>>, zeroHashes: seq<Fe>, credentials: seq<Credential>, targetIndex: int, depth: nat)
    returns (pathElements: seq<Fe>, pathIndices: seq<int>)
    requires |levelMaps| == |zeroHashes| == depth + 1 && AllSparse(levelMaps, credentials) && AllEmpty(zeroHashes)
    ensures |pathElements| == |pathIndices| == depth
    ensures forall l :: 0 <= l < depth ==> PathStep(credentials, targetIndex, l, pathElements[l], pathIndices[l])
  {
    pathElements, pathIndices := [], [];
    var index := targetIndex;
    for level := 0 to depth
      invariant |pathElements| == |pathIndices| == level
      invariant index == Ancestor(targetIndex, level)
      invariant forall l :: 0 <= l < level ==> PathStep(credentials, targetIndex, l, pathElements[l], pathIndices[l])
    {
      LookupIsDense(levelMaps[level], credentials, level, Sibling(index));
      pathIndices := pathIndices + [index % 2];
      pathElements := pathElements + [Lookup(levelMaps[level], Sibling(index), zeroHashes[level])];
      index := index / 2;
    }
  }

  lemma MembersByIndex(credentials: seq<Credential>)
    ensures forall index :: index in Indices(credentials) <==> exists k :: 0 <= k < |credentials| && credentials[k].index == index
    ensures forall k :: 0 <= k < |credentials| ==> credentials[k].index in Indices(credentials)
  {
    forall k | 0 <= k < |credentials| ensures credentials[k].index in Indices(credentials) {
      assert Indices(credentials)[k] == credentials[k].index;
    }
  }

  /** `buildEligibilityMembership`; None is a failed assertion. */
  method BuildEligibilityMembership(credentials: seq<Credential>, targetIndex: int, depth: int) returns (r: Option<Membership>)
    ensures r.Some? <==>
      && 0 < depth <= 30 && 0 <= targetIndex < Exp2(depth) && targetIndex in Indices(credentials)
      && NoDuplicates(Indices(credentials)) && forall index :: index in Indices(credentials) ==> 0 <= index < Exp2(depth)
    ensures r.Some? ==> IsMembershipOf(r.value, credentials, targetIndex, depth)
  {
    MembersByIndex(credentials);
    if !ValidRequest(credentials, targetIndex, depth) {
      return None;
    }
    var zeroHashes := BuildZeroHashes(depth);
    var levelMaps := BuildLevelMaps(credentials, depth);
    var pathElements, pathIndices := BuildPath(levelMaps, zeroHashes, credentials, targetIndex, depth);
    LookupIsDense(levelMaps[depth], credentials, depth, 0);
    r := Some(Membership(levelMaps[0][targetIndex], Lookup(levelMaps[depth], 0, zeroHashes[depth]), pathElements, pathIndices));
  }

  /** All members of one credential set are given the same root. */
  lemma SameRootForEveryTarget(credentials: seq<Credential>, depth: nat, s: int, t: int, m: Membership, n: Membership)
    requires IsMembershipOf(m, credentials, s, depth) && IsMembershipOf(n, credentials, t, depth)
    ensures m.eligibilityRoot == n.eligibilityRoot
  {
  }

  /** A tree of two levels, written out: leaf zero on the left, leaf one on the right, each a hash of secret and nonce. */
  lemma TwoLeaves(left: Credential, right: Credential)
    requires left.index == 0 && right.index == 1
    ensures DenseNode([left, right], 1, 0) ==
            Poseidon([Poseidon([left.secret, left.nonce]), Poseidon([right.secret, right.nonce])])
    ensures DenseNode([left], 1, 0) == Poseidon([Poseidon([left.secret, left.nonce]), Num(0)])
  {
    assert [left, right][1..] == [right] && [left][1..] == [];
    assert LeafAt([left, right], 1) == LeafAt([right], 1) == Commit(right);
    assert LeafAt([left], 1) == LeafAt([], 1) == ZERO;
  }

  // ----- the circuit's recurrence over a path

  /** `a + bit * (b - a)` for a bit; the circuit forces the selector to be one. */
  function Choose(a: Fe, b: Fe, bit: int): Fe {
    if bit == 0 then a else b
  }

  function ClimbPath(leaf: Fe, pathElements: seq<Fe>, pathIndices: seq<int>): Fe
    requires |pathElements| == |pathIndices|
    decreases |pathElements|
  {
    if pathElements == [] then leaf
    else
      var n := |pathElements| - 1;
      var node := ClimbPath(leaf, pathElements[..n], pathIndices[..n]);
      Poseidon([Choose(node, pathElements[n], pathIndices[n]), Choose(pathElements[n], node, pathIndices[n])])
  }

  predicate Bits(pathIndices: seq<int>) {
    forall l :: 0 <= l < |pathIndices| ==> pathIndices[l] == 0 || pathIndices[l] == 1
  }

  /** The leaf position that path bits spell, below node `top` of their level. */
  function Position(pathIndices: seq<int>, top: int): int
    decreases |pathIndices|
  {
    if pathIndices == [] then top
    else Position(pathIndices[..|pathIndices| - 1], 2 * top + pathIndices[|pathIndices| - 1])
  }

  lemma {:induction false} AncestorRange(index: int, level: nat, depth: nat)
    requires 0 <= index < Exp2(depth) && level <= depth
    ensures 0 <= Ancestor(index, level) < Exp2(depth - level)
  {
    if level > 0 {
      AncestorRange(index, level - 1, depth);
    }
  }

  lemma {:induction false} PathClimbs(m: Membership, credentials: seq<Credential>, targetIndex: int, depth: nat, level: nat)
    requires IsMembershipOf(m, credentials, targetIndex, depth) && level <= depth
    ensures ClimbPath(m.credentialCommitment, m.pathElements[..level], m.pathIndices[..level]) ==
            DenseNode(credentials, level, Ancestor(targetIndex, level))
  {
    if level > 0 {
      PathClimbs(m, credentials, targetIndex, depth, level - 1);
      assert PathStep(credentials, targetIndex, level - 1, m.pathElements[level - 1], m.pathIndices[level - 1]);
      assert m.pathElements[..level][..level - 1] == m.pathElements[..level - 1];
      assert m.pathIndices[..level][..level - 1] == m.pathIndices[..level - 1];
      var below, here := Ancestor(targetIndex, level - 1), Ancestor(targetIndex, level);
      if below % 2 == 0 {
        assert below == 2 * here;
      } else {
        assert below == 2 * here + 1;
      }
    }
  }

  /** Completeness, for any depth: the path of a target folds to the root under the circuit's recurrence. */
  lemma PathFoldsToRoot(m: Membership, credentials: seq<Credential>, targetIndex: int, depth: nat)
    requires IsMembershipOf(m, credentials, targetIndex, depth) && 0 <= targetIndex < Exp2(depth)
    ensures Bits(m.pathIndices)
    ensures ClimbPath(m.credentialCommitment, m.pathElements, m.pathIndices) == m.eligibilityRoot
  {
    PathClimbs(m, credentials, targetIndex, depth, depth);
    AncestorRange(targetIndex, depth, depth);
    assert m.pathElements[..depth] == m.pathElements && m.pathIndices[..depth] == m.pathIndices;
  }

  lemma {:induction false} ClimbInverts(leaf: Fe, pathElements: seq<Fe>, pathIndices: seq<int>, credentials: seq<Credential>, top: int)
    requires |pathElements| == |pathIndices| && Bits(pathIndices)
    requires ClimbPath(leaf, pathElements, pathIndices) == DenseNode(credentials, |pathElements|, top)
    ensures leaf == LeafAt(credentials, Position(pathIndices, top))
    decreases |pathElements|
  {
    if pathElements != [] {
      var n := |pathElements| - 1;
      var node := ClimbPath(leaf, pathElements[..n], pathIndices[..n]);
      var l, r := Choose(node, pathElements[n], pathIndices[n]), Choose(pathElements[n], node, pathIndices[n]);
      var dl, dr := DenseNode(credentials, n, 2 * top), DenseNode(credentials, n, 2 * top + 1);
      assert Poseidon([l, r]) == Poseidon([dl, dr]);
      assert [l, r][0] == [dl, dr][0] && [l, r][1] == [dl, dr][1];
      ClimbInverts(leaf, pathElements[..n], pathIndices[..n], credentials, 2 * top + pathIndices[n]);
    }
  }

  /** Soundness: a two-input hash whose full-depth path folds to the root is a registered commitment, at the
      position its path bits spell. */
  lemma MembershipSound(secret: Fe, nonce: Fe, pathElements: seq<Fe>, pathIndices: seq<int>, credentials: seq<Credential>)
    returns (k: nat)
    requires |pathElements| == |pathIndices| && Bits(pathIndices)
    requires ClimbPath(Poseidon([secret, nonce]), pathElements, pathIndices) == DenseNode(credentials, |pathElements|, 0)
    ensures k < |credentials| && credentials[k].secret == secret && credentials[k].nonce == nonce
    ensures credentials[k].index == Position(pathIndices, 0)
  {
    ClimbInverts(Poseidon([secret, nonce]), pathElements, pathIndices, credentials, 0);
    k := LeafIsMember(credentials, Position(pathIndices, 0));
    assert [secret, nonce][0] == [credentials[k].secret, credentials[k].nonce][0];
    assert [secret, nonce][1] == [credentials[k].secret, credentials[k].nonce][1];
  }
}
