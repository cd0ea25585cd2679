/** Shared notions on sequences. */
module Sequences {
  predicate NoDuplicates<T(==)>(xs: seq<T>) {
    forall i, j :: 0 <= i < j < |xs| ==> xs[i] != xs[j]
  }

  function Total(counts: seq<int>): int {
    if counts == [] then 0 else Total(counts[..|counts| - 1]) + counts[|counts| - 1]
  }

  /** JavaScript's `slice(0, n)`: a negative n counts from the end. */
  function Slice<T>(xs: seq<T>, n: int): (r: seq<T>)
    ensures r <= xs
    ensures 0 <= n <= |xs| ==> |r| == n
    ensures n > |xs| ==> |r| == |xs|
    ensures -|xs| <= n < 0 ==> |r| == |xs| + n
    ensures n < -|xs| ==> |r| == 0
  {
    if 0 <= n <= |xs| then xs[..n] else if n > |xs| then xs else if -n <= |xs| then xs[..|xs| + n] else []
  }
}
