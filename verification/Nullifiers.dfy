/** The set-based nullifier accumulator. */
module Nullifiers {
  import opened Wrappers
  import opened Merkle
  import opened Sequences
  import opened Sorting

  function Identity(n: nat): nat {
    n
  }

  /** `[...new Set(xs)]`: the first occurrences, in order. */
  function Dedup(xs: seq<nat>): seq<nat> {
    if xs == [] then []
    else
      var front := Dedup(Front(xs));
      if Last(xs) in front then front else front + [Last(xs)]
  }

  function NullifierLeaves(ns: seq<nat>): (r: seq<Digest>)
    ensures |r| == |ns|
  {
    seq(|ns|, k requires 0 <= k < |ns| => Leaf(NullifierDomain, [ns[k]]))
  }

  /** `nullifierSetRoot`. */
  function SetRoot(nullifiers: seq<nat>): Digest {
    Root(NullifierLeaves(SortBy(Dedup(nullifiers), Identity)))
  }

  ghost function Elements(xs: seq<nat>): set<nat> {
    set x | x in xs
  }

  lemma {:induction false} DedupContents(xs: seq<nat>)
    ensures NoDuplicates(Dedup(xs))
    ensures forall x :: x in Dedup(xs) <==> x in xs
  {
    if xs != [] {
      SplitLast(xs);
      DedupContents(Front(xs));
    }
  }

  lemma {:induction false} NoDuplicatesMultiset(xs: seq<nat>)
    requires NoDuplicates(xs)
    ensures multiset(xs) == multiset(Elements(xs))
  {
    if xs == [] {
      assert Elements(xs) == {};
    } else {
      SplitLast(xs);
      NoDuplicatesMultiset(Front(xs));
      assert Elements(xs) == Elements(Front(xs)) + {Last(xs)};
      assert Last(xs) !in Front(xs);
    }
  }

  lemma MultisetNoDuplicates(xs: seq<nat>, ys: seq<nat>)
    requires NoDuplicates(xs) && multiset(xs) == multiset(ys)
    ensures NoDuplicates(ys)
  {
    NoDuplicatesMultiset(xs);
    forall i, j | 0 <= i < j < |ys| ensures ys[i] != ys[j] {
      assert ys == ys[..i] + [ys[i]] + ys[i + 1..j] + [ys[j]] + ys[j + 1..];
      assert multiset(ys)[ys[i]] <= 1;
    }
  }

  lemma SortedSetContents(xs: seq<nat>)
    ensures var r := SortBy(Dedup(xs), Identity);
            NoDuplicates(r) && (forall x :: x in r <==> x in xs) && SortedBy(r, Identity)
  {
    DedupContents(xs);
    SortContents(Dedup(xs), Identity);
    SortSorted(Dedup(xs), Identity);
    SameMembers(SortBy(Dedup(xs), Identity), Dedup(xs));
    MultisetNoDuplicates(Dedup(xs), SortBy(Dedup(xs), Identity));
  }

  lemma SameSetSameSort(xs: seq<nat>, ys: seq<nat>)
    requires Elements(xs) == Elements(ys)
    ensures SortBy(Dedup(xs), Identity) == SortBy(Dedup(ys), Identity)
  {
    DedupContents(xs);
    DedupContents(ys);
    assert Elements(Dedup(xs)) == Elements(xs) && Elements(Dedup(ys)) == Elements(ys);
    NoDuplicatesMultiset(Dedup(xs));
    NoDuplicatesMultiset(Dedup(ys));
    SortPermutation(Dedup(xs), Dedup(ys), Identity);
  }

  lemma LeavesInjective(a: seq<nat>, b: seq<nat>)
    ensures NullifierLeaves(a) == NullifierLeaves(b) ==> a == b
    ensures NoDuplicates(a) ==> NoDuplicates(NullifierLeaves(a))
    ensures AllLeaves(NullifierLeaves(a))
  {
    forall i, j | 0 <= i < j < |a| && a[i] != a[j]
      ensures NullifierLeaves(a)[i] != NullifierLeaves(a)[j]
    {
      assert [a[i]][0] != [a[j]][0];
    }
    if NullifierLeaves(a) == NullifierLeaves(b) {
      forall k | 0 <= k < |a| ensures a[k] == b[k] {
        assert NullifierLeaves(a)[k].fields[0] == NullifierLeaves(b)[k].fields[0];
      }
    }
  }

  /** Two nullifier lists have the same root exactly when they hold the same set of nullifiers. */
  lemma SetRootBindsSet(xs: seq<nat>, ys: seq<nat>)
    ensures SetRoot(xs) == SetRoot(ys) <==> Elements(xs) == Elements(ys)
  {
    var a, b := SortBy(Dedup(xs), Identity), SortBy(Dedup(ys), Identity);
    SortedSetContents(xs);
    SortedSetContents(ys);
    LeavesInjective(a, b);
    LeavesInjective(b, a);
    RootInjective(NullifierLeaves(a), NullifierLeaves(b));
    if a == b {
      assert Elements(xs) == Elements(ys);
    }
    if Elements(xs) == Elements(ys) {
      SameSetSameSort(xs, ys);
    }
  }

  // ----- the accumulator

  /** How many of the nullifiers `addMany` takes before it throws on a duplicate. */
  function Taken(seen: seq<nat>, ns: seq<nat>): (k: nat)
    ensures k <= |ns|
    decreases |ns|
  {
    if ns == [] || ns[0] in seen then 0 else 1 + Taken(seen + [ns[0]], ns[1..])
  }

  /** `addMany` takes everything exactly when old and new nullifiers together are pairwise distinct. */
  lemma {:induction false} TakenAllIff(seen: seq<nat>, ns: seq<nat>)
    requires NoDuplicates(seen)
    ensures Taken(seen, ns) == |ns| <==> NoDuplicates(seen + ns)
    ensures NoDuplicates(seen + ns[..Taken(seen, ns)])
    decreases |ns|
  {
    if ns == [] {
      assert seen + ns == seen;
    } else if ns[0] in seen {
      var i :| 0 <= i < |seen| && seen[i] == ns[0];
      assert (seen + ns)[i] == (seen + ns)[|seen|];
      assert seen + ns[..0] == seen;
    } else {
      TakenAllIff(seen + [ns[0]], ns[1..]);
      var k := Taken(seen + [ns[0]], ns[1..]);
      assert seen + ns == seen + [ns[0]] + ns[1..];
      assert seen + ns[..k + 1] == seen + [ns[0]] + ns[1..][..k];
    }
  }

  /** It stops only at a nullifier that is taken already, by an earlier call or earlier in this one. */
  lemma {:induction false} TakenStops(seen: seq<nat>, ns: seq<nat>)
    ensures var k := Taken(seen, ns); k < |ns| ==> ns[k] in seen + ns[..k]
    decreases |ns|
  {
    if ns != [] && ns[0] !in seen {
      TakenStops(seen + [ns[0]], ns[1..]);
      var k := Taken(seen + [ns[0]], ns[1..]);
      assert seen + ns[..k + 1] == seen + [ns[0]] + ns[1..][..k];
    }
  }

  /** The root is the Merkle root of the nullifier-domain leaves of the elements in ascending order. */
  lemma SetRootOf(xs: seq<nat>, ascending: seq<nat>)
    requires forall i, j :: 0 <= i < j < |ascending| ==> ascending[i] < ascending[j]
    requires forall x :: x in ascending <==> x in xs
    ensures SetRoot(xs) == Root(seq(|ascending|, k requires 0 <= k < |ascending| => Leaf(NullifierDomain, [ascending[k]])))
  {
    var sorted := SortBy(Dedup(xs), Identity);
    SortedSetContents(xs);
    AscendingSorted(ascending);
    NoDuplicatesMultiset(sorted);
    NoDuplicatesMultiset(ascending);
    assert Elements(sorted) == Elements(ascending);
    SortedUnique(sorted, ascending, Identity);
    assert NullifierLeaves(ascending) == seq(|ascending|, k requires 0 <= k < |ascending| => Leaf(NullifierDomain, [ascending[k]]));
  }

  lemma {:induction false} AscendingSorted(xs: seq<nat>)
    requires forall i, j :: 0 <= i < j < |xs| ==> xs[i] < xs[j]
    ensures SortedBy(xs, Identity)
  {
    if xs != [] {
      AscendingSorted(Front(xs));
    }
  }

  class NullifierAccumulator {
    /** The JavaScript Set, in insertion order. */
    var seen: seq<nat>

    ghost predicate Valid()
      reads this
    {
      NoDuplicates(seen)
    }

    constructor ()
      ensures Valid() && seen == []
    {
      seen := [];
    }

    /** The constructor with initial nullifiers, which throws on a duplicate. */
    static method Create(initialNullifiers: seq<nat>) returns (r: Option<NullifierAccumulator>)
      ensures r.Some? <==> NoDuplicates(initialNullifiers)
      ensures r.Some? ==> fresh(r.value) && r.value.Valid() && r.value.seen == initialNullifiers
    {
      var accumulator := new NullifierAccumulator();
      var ok := accumulator.AddMany(initialNullifiers);
      assert [] + initialNullifiers == initialNullifiers;
      r := if ok then Some(accumulator) else None;
    }

    method GetRoot() returns (root: Digest)
      ensures root == SetRoot(seen)
    {
      root := MerkleRoot(NullifierLeaves(SortBy(Dedup(seen), Identity)));
    }

    method Has(nullifier: nat) returns (r: bool)
      ensures r <==> nullifier in seen
    {
      r := nullifier in seen;
    }

    /** False is the thrown "duplicate ballot nullifier". */
    method Add(nullifier: nat) returns (ok: bool)
      requires Valid()
      modifies this
      ensures Valid()
      ensures ok <==> nullifier !in old(seen)
      ensures seen == if ok then old(seen) + [nullifier] else old(seen)
    {
      if nullifier in seen {
        return false;
      }
      seen := seen + [nullifier];
      return true;
    }

    /** Not atomic: the nullifiers before the duplicate stay in the set after the throw. */
    method AddMany(nullifiers: seq<nat>) returns (ok: bool)
      requires Valid()
      modifies this
      ensures Valid()
      ensures seen == old(seen) + nullifiers[..Taken(old(seen), nullifiers)]
      ensures ok <==> Taken(old(seen), nullifiers) == |nullifiers|
      ensures ok <==> NoDuplicates(old(seen) + nullifiers)
    {
      ghost var before := seen;
      TakenAllIff(before, nullifiers);
      for k := 0 to |nullifiers|
        invariant Valid() && seen == before + nullifiers[..k]
        invariant Taken(before, nullifiers) == k + Taken(seen, nullifiers[k..])
      {
        ok := Add(nullifiers[k]);
        if !ok {
          return;
        }
        assert nullifiers[k..][1..] == nullifiers[k + 1..];
        assert before + nullifiers[..k] + [nullifiers[k]] == before + nullifiers[..k + 1];
      }
      return true;
    }
  }
}
