/** The stable sort of the JavaScript runtime, by a numeric key. Hex digests of equal length compare as
    the numbers they write, so a digest is its own key. */
module Sorting {
  ghost predicate Below<T(!new)>(xs: seq<T>, bound: nat, key: T -> nat) {
    forall x :: x in xs ==> key(x) <= bound
  }

  ghost predicate SortedBy<T(!new)>(xs: seq<T>, key: T -> nat) {
    xs == [] || (Below(Front(xs), key(Last(xs)), key) && SortedBy(Front(xs), key))
  }

  function Front<T>(xs: seq<T>): seq<T>
    requires xs != []
  {
    xs[..|xs| - 1]
  }

  function Last<T>(xs: seq<T>): T
    requires xs != []
  {
    xs[|xs| - 1]
  }

  function Insert<T>(x: T, xs: seq<T>, key: T -> nat): (r: seq<T>)
    ensures |r| == |xs| + 1
  {
    if xs == [] then [x]
    else if key(Last(xs)) <= key(x) then xs + [x]
    else Insert(x, Front(xs), key) + [Last(xs)]
  }

  function SortBy<T>(xs: seq<T>, key: T -> nat): (r: seq<T>)
    ensures |r| == |xs|
  {
    if xs == [] then [] else Insert(Last(xs), SortBy(Front(xs), key), key)
  }

  // ----- the sort permutes

  lemma SplitLast<T>(xs: seq<T>)
    requires xs != []
    ensures multiset(xs) == multiset(Front(xs)) + multiset{Last(xs)}
    ensures forall x :: x in xs <==> x in Front(xs) || x == Last(xs)
  {
    assert xs == Front(xs) + [Last(xs)];
  }

  lemma {:induction false} InsertContents<T>(x: T, xs: seq<T>, key: T -> nat)
    ensures multiset(Insert(x, xs, key)) == multiset(xs) + multiset{x}
  {
    if xs != [] {
      SplitLast(xs);
      InsertContents(x, Front(xs), key);
    }
  }

  lemma {:induction false} SortContents<T>(xs: seq<T>, key: T -> nat)
    ensures multiset(SortBy(xs, key)) == multiset(xs)
  {
    if xs != [] {
      SplitLast(xs);
      SortContents(Front(xs), key);
      InsertContents(Last(xs), SortBy(Front(xs), key), key);
    }
  }

  lemma SameMembers<T>(a: seq<T>, b: seq<T>)
    requires multiset(a) == multiset(b)
    ensures |a| == |b| && forall x :: x in a <==> x in b
  {
    assert |multiset(a)| == |a| && |multiset(b)| == |b|;
    assert forall x :: x in a <==> x in multiset(a);
    assert forall x :: x in b <==> x in multiset(b);
  }

  // ----- the sort sorts

  lemma {:induction false} InsertSorted<T(!new)>(x: T, xs: seq<T>, key: T -> nat)
    requires SortedBy(xs, key)
    ensures SortedBy(Insert(x, xs, key), key)
  {
    if xs == [] {
    } else if key(Last(xs)) <= key(x) {
      SplitLast(xs);
      assert Front(xs + [x]) == xs;
    } else {
      var inner := Insert(x, Front(xs), key);
      InsertSorted(x, Front(xs), key);
      InsertContents(x, Front(xs), key);
      SameMembers(inner, Front(xs) + [x]);
      assert Front(inner + [Last(xs)]) == inner;
    }
  }

  lemma {:induction false} SortSorted<T(!new)>(xs: seq<T>, key: T -> nat)
    ensures SortedBy(SortBy(xs, key), key)
  {
    if xs != [] {
      SortSorted(Front(xs), key);
      InsertSorted(Last(xs), SortBy(Front(xs), key), key);
    }
  }

  /** Elements that the key tells apart have only one sorted order. */
  lemma {:induction false} SortedUnique<T(!new)>(a: seq<T>, b: seq<T>, key: T -> nat)
    requires multiset(a) == multiset(b) && SortedBy(a, key) && SortedBy(b, key)
    requires forall x, y :: x in a && y in a && key(x) == key(y) ==> x == y
    ensures a == b
  {
    SameMembers(a, b);
    if a != [] {
      LastsAgree(a, b, key);
      FrontContents(a);
      FrontContents(b);
      SortedUnique(Front(a), Front(b), key);
      Rejoin(a, b);
    }
  }

  lemma Rejoin<T>(a: seq<T>, b: seq<T>)
    requires a != [] && b != [] && Front(a) == Front(b) && Last(a) == Last(b)
    ensures a == b
  {
    assert a == Front(a) + [Last(a)] && b == Front(b) + [Last(b)];
  }

  lemma LastsAgree<T(!new)>(a: seq<T>, b: seq<T>, key: T -> nat)
    requires a != [] && b != [] && SortedBy(a, key) && SortedBy(b, key)
    requires forall x :: x in a <==> x in b
    requires forall x, y :: x in a && y in a && key(x) == key(y) ==> x == y
    ensures Last(a) == Last(b)
  {
    LastIsGreatest(a, Last(b), key);
    LastIsGreatest(b, Last(a), key);
  }

  lemma LastIsGreatest<T(!new)>(a: seq<T>, x: T, key: T -> nat)
    requires SortedBy(a, key) && x in a
    ensures Last(a) in a && key(x) <= key(Last(a))
  {
    SplitLast(a);
  }

  lemma FrontContents<T>(xs: seq<T>)
    requires xs != []
    ensures multiset(Front(xs)) == multiset(xs) - multiset{Last(xs)}
    ensures forall x :: x in Front(xs) ==> x in xs
  {
    SplitLast(xs);
  }

  /** Permutations of elements that the key tells apart sort to the same list. */
  lemma SortPermutation<T(!new)>(a: seq<T>, b: seq<T>, key: T -> nat)
    requires multiset(a) == multiset(b)
    requires forall x, y :: x in a && y in a && key(x) == key(y) ==> x == y
    ensures SortBy(a, key) == SortBy(b, key)
  {
    SortSorted(a, key);
    SortSorted(b, key);
    SortContents(a, key);
    SortContents(b, key);
    SameMembers(SortBy(a, key), a);
    SortedUnique(SortBy(a, key), SortBy(b, key), key);
  }

  /** The elements with one key, in order. */
  function WithKey<T>(xs: seq<T>, key: T -> nat, k: nat): seq<T> {
    if xs == [] then []
    else if key(Last(xs)) == k then WithKey(Front(xs), key, k) + [Last(xs)]
    else WithKey(Front(xs), key, k)
  }

  lemma {:induction false} InsertStable<T(!new)>(x: T, xs: seq<T>, key: T -> nat, k: nat)
    requires SortedBy(xs, key)
    ensures WithKey(Insert(x, xs, key), key, k) == WithKey(xs, key, k) + if key(x) == k then [x] else []
  {
    if xs == [] {
      assert Front([x]) == [];
    } else if key(Last(xs)) <= key(x) {
      assert Front(xs + [x]) == xs;
    } else {
      var inner := Insert(x, Front(xs), key);
      InsertStable(x, Front(xs), key, k);
      assert Front(inner + [Last(xs)]) == inner;
    }
  }

  /** The sort is stable: elements with equal keys keep their order. */
  lemma {:induction false} SortStable<T(!new)>(xs: seq<T>, key: T -> nat, k: nat)
    ensures WithKey(SortBy(xs, key), key, k) == WithKey(xs, key, k)
  {
    if xs != [] {
      SortStable(Front(xs), key, k);
      SortSorted(Front(xs), key);
      InsertStable(Last(xs), SortBy(Front(xs), key), key, k);
    }
  }

  /** Sortedness, element by element. */
  lemma {:induction false} SortedAscending<T(!new)>(xs: seq<T>, key: T -> nat)
    requires SortedBy(xs, key)
    ensures forall i, j :: 0 <= i < j < |xs| ==> key(xs[i]) <= key(xs[j])
  {
    if xs != [] {
      SortedAscending(Front(xs), key);
      forall i | 0 <= i < |xs| - 1 ensures key(xs[i]) <= key(Last(xs)) {
        assert xs[i] == Front(xs)[i] && xs[i] in Front(xs);
      }
    }
  }

  lemma RemoveAt<T>(xs: seq<T>, k: nat)
    requires k < |xs|
    ensures multiset(xs[..k] + xs[k + 1..]) == multiset(xs) - multiset{xs[k]}
  {
    assert xs == xs[..k] + [xs[k]] + xs[k + 1..];
  }

  lemma TwoPositions<T>(xs: seq<T>, x: T) returns (i: nat, j: nat)
    requires multiset(xs)[x] >= 2
    ensures i < |xs| && j < |xs| && i != j && xs[i] == x && xs[j] == x
  {
    assert x in multiset(xs);
    i :| 0 <= i < |xs| && xs[i] == x;
    RemoveAt(xs, i);
    var rest := xs[..i] + xs[i + 1..];
    assert x in multiset(rest);
    var k :| 0 <= k < |rest| && rest[k] == x;
    j := if k < i then k else k + 1;
  }

  /** Two positions of a permuted list come from two positions of the original. */
  lemma PositionsBefore<T>(a: seq<T>, b: seq<T>, i: nat, j: nat) returns (k: nat, l: nat)
    requires multiset(a) == multiset(b) && i < j < |b|
    ensures k < |a| && l < |a| && k != l && a[k] == b[i] && a[l] == b[j]
  {
    SameMembers(a, b);
    assert b[i] in b && b[j] in b;
    if b[i] == b[j] {
      assert b == b[..j] + [b[j]] + b[j + 1..] && b[..j] == b[..i] + [b[i]] + b[i + 1..j];
      k, l := TwoPositions(a, b[i]);
    } else {
      k :| 0 <= k < |a| && a[k] == b[i];
      l :| 0 <= l < |a| && a[l] == b[j];
    }
  }
}
