/** Shamir sharing over the scalar field: dealing loops, Lagrange weights at zero, and the interpolation
    theorem that makes any threshold subset of shares recombine to the secret. */
module Shamir {
  import opened Wrappers
  import opened Field

  /** A polynomial given by its coefficients, constant term first. */
  function Eval(cs: seq<int>, x: int): int {
    if cs == [] then 0 else cs[0] + x * Eval(cs[1..], x)
  }

  // ----- Lagrange weights at zero

  /** Product of -other over the indexes different from x. */
  function Numerator(x: int, xs: seq<int>): int {
    if xs == [] then 1
    else
      var other := xs[|xs| - 1];
      var p := Numerator(x, xs[..|xs| - 1]);
      if other == x then p else p * -other
  }

  /** Product of x - other over the indexes different from x. */
  function Denominator(x: int, xs: seq<int>): int {
    if xs == [] then 1
    else
      var other := xs[|xs| - 1];
      var p := Denominator(x, xs[..|xs| - 1]);
      if other == x then p else p * (x - other)
  }

  /** Every index other than x stays different from x modulo q. */
  ghost predicate Separated(x: int, xs: seq<int>, q: Modulus) {
    forall y :: y in xs ==> y == x || (x - y) % q != 0
  }

  ghost predicate DistinctMod(xs: seq<int>, q: Modulus) {
    forall i, j :: 0 <= i < |xs| && 0 <= j < |xs| && i != j ==> (xs[i] - xs[j]) % q != 0
  }

  lemma DenominatorNonzero(x: int, xs: seq<int>, q: int)
    requires Prime(q) && Separated(x, xs, q)
    ensures Denominator(x, xs) % q != 0
  {
    if xs == [] {
      ModUnique(1, 0, 1, q);
    } else {
      var front, other := xs[..|xs| - 1], xs[|xs| - 1];
      assert forall y :: y in front ==> y in xs;
      DenominatorNonzero(x, front, q);
      assert other in xs;
      if other != x {
        NoZeroDivisors(Denominator(x, front), x - other, q);
      }
    }
  }

  ghost function Lagrange(x: int, xs: seq<int>, q: int): (l: int)
    requires Prime(q) && Separated(x, xs, q)
    ensures 0 <= l < q && Cong(Denominator(x, xs) * l, Numerator(x, xs), q)
  {
    DenominatorNonzero(x, xs, q);
    var n, d := Numerator(x, xs), Denominator(x, xs);
    WeightSolves(n, d, q);
    (n * Inv(d, q)) % q
  }

  lemma WeightSolves(n: int, d: int, q: int)
    requires Prime(q) && d % q != 0
    ensures Cong(d * ((n * Inv(d, q)) % q), n, q)
  {
    var i := Inv(d, q);
    CongMod(n * i, q);
    CongScale(d, (n * i) % q, n * i, q);
    CongScale(n, i * d, 1, q);
    assert d * (n * i) == n * (i * d);
  }

  /** `lagrangeCoefficientAtZero`: the loop computes the weight exactly when every other index differs
      from this one modulo q; otherwise the denominator has no inverse and the call throws. */
  method LagrangeCoefficientAtZero(index: int, indexes: seq<int>, q: int) returns (r: Option<int>)
    requires Prime(q)
    ensures r.Some? <==> Separated(index, indexes, q)
    ensures r.Some? ==> r.value == Lagrange(index, indexes, q)
  {
    var numerator := 1;
    var denominator := 1;
    for k := 0 to |indexes|
      invariant Cong(numerator, Numerator(index, indexes[..k]), q)
      invariant Cong(denominator, Denominator(index, indexes[..k]), q)
    {
      var other := indexes[k];
      assert indexes[..k + 1][..k] == indexes[..k];
      if other != index {
        CongMul(numerator, Numerator(index, indexes[..k]), -other, -other, q);
        CongMul(denominator, Denominator(index, indexes[..k]), index - other, index - other, q);
        CongMod(numerator * -other, q);
        CongMod(denominator * (index - other), q);
        numerator := Mod(numerator * -other, q);
        denominator := Mod(denominator * (index - other), q);
      }
    }
    assert indexes[..|indexes|] == indexes;
    var inverse := ModInverse(denominator, q);
    InverseIff(denominator, q);
    DenominatorUnit(index, indexes, q);
    if inverse.None? {
      return None;
    }
    CoefficientAgrees(numerator, denominator, index, indexes, q);
    r := Some(Mod(numerator * inverse.value, q));
  }

  lemma DenominatorUnit(x: int, xs: seq<int>, q: int)
    requires Prime(q)
    ensures Denominator(x, xs) % q != 0 <==> Separated(x, xs, q)
  {
    if Separated(x, xs, q) {
      DenominatorNonzero(x, xs, q);
    } else {
      DenominatorZero(x, xs, q);
    }
  }

  lemma DenominatorZero(x: int, xs: seq<int>, q: int)
    requires Prime(q) && !Separated(x, xs, q)
    ensures Cong(Denominator(x, xs), 0, q)
  {
    var front, other := xs[..|xs| - 1], xs[|xs| - 1];
    if other != x && Cong(x - other, 0, q) {
      CongScale(Denominator(x, front), x - other, 0, q);
    } else {
      var y :| y in xs && !(y == x || (x - y) % q != 0);
      assert y in front;
      DenominatorZero(x, front, q);
      if other != x {
        CongMul(Denominator(x, front), 0, x - other, x - other, q);
      }
    }
  }

  lemma CoefficientAgrees(n: int, d: int, x: int, xs: seq<int>, q: int)
    requires Prime(q) && Separated(x, xs, q) && d % q != 0
    requires Cong(n, Numerator(x, xs), q) && Cong(d, Denominator(x, xs), q)
    ensures (n * Inv(d, q)) % q == Lagrange(x, xs, q)
  {
    DenominatorNonzero(x, xs, q);
    var i, j := Inv(d, q), Inv(Denominator(x, xs), q);
    CongMul(i, i, d, Denominator(x, xs), q);
    InverseUnique(i, j, Denominator(x, xs), q);
    CongMul(n, Numerator(x, xs), i, i, q);
  }

  // ----- the interpolation theorem

  /** Adding the index a to the list multiplies the weight of x by -a / (x - a). */
  lemma LagrangeDrop(x: int, r: seq<int>, a: int, q: int)
    requires Prime(q) && Separated(x, r + [a], q) && x != a
    ensures Separated(x, r, q)
    ensures Cong(Lagrange(x, r + [a], q) * (x - a), Lagrange(x, r, q) * -a, q)
  {
    ProductSnoc(x, r, a);
    FewerSeparated(x, r, a, q);
    DenominatorNonzero(x, r, q);
    DropStep(Denominator(x, r), Numerator(x, r), Lagrange(x, r, q), Lagrange(x, r + [a], q), x, a, q);
  }

  lemma FewerSeparated(x: int, r: seq<int>, a: int, q: int)
    requires q > 0 && Separated(x, r + [a], q)
    ensures Separated(x, r, q)
  {
    assert forall y :: y in r ==> y in r + [a];
  }

  lemma DropStep(d: int, n: int, l: int, big: int, x: int, a: int, q: int)
    requires Prime(q) && d % q != 0
    requires Cong(d * l, n, q) && Cong((d * (x - a)) * big, n * -a, q)
    ensures Cong(big * (x - a), l * -a, q)
  {
    CongMul(d * l, n, -a, -a, q);
    Regroup(d, x - a, big);
    Regroup(d, -a, l);
    assert (d * l) * -a == (d * -a) * l;
    CongCancel(d, big * (x - a), l * -a, q);
  }

  lemma Regroup(d: int, u: int, v: int)
    ensures (d * u) * v == d * (v * u)
  {
  }

  lemma ProductSnoc(x: int, r: seq<int>, a: int)
    ensures Numerator(x, r + [a]) == if a == x then Numerator(x, r) else Numerator(x, r) * -a
    ensures Denominator(x, r + [a]) == if a == x then Denominator(x, r) else Denominator(x, r) * (x - a)
  {
    assert (r + [a])[..|r|] == r;
  }

  lemma LagrangeSwap(x: int, r: seq<int>, a: int, b: int, q: int)
    requires Prime(q) && Separated(x, r + [a, b], q)
    ensures Separated(x, r + [b, a], q)
    ensures Lagrange(x, r + [a, b], q) == Lagrange(x, r + [b, a], q)
  {
    assert r + [a, b] == (r + [a]) + [b] && r + [b, a] == (r + [b]) + [a];
    ProductSnoc(x, r, a);
    ProductSnoc(x, r, b);
    ProductSnoc(x, r + [a], b);
    ProductSnoc(x, r + [b], a);
    assert forall y :: y in r + [b, a] ==> y in r + [a, b];
    ProductSwap(Numerator(x, r), -a, -b);
    ProductSwap(Denominator(x, r), x - a, x - b);
    LagrangeSame(x, r + [a, b], r + [b, a], q);
  }

  lemma LagrangeSame(x: int, xs: seq<int>, ys: seq<int>, q: int)
    requires Prime(q) && Separated(x, xs, q) && Separated(x, ys, q)
    requires Numerator(x, xs) == Numerator(x, ys) && Denominator(x, xs) == Denominator(x, ys)
    ensures Lagrange(x, xs, q) == Lagrange(x, ys, q)
  {
  }

  lemma ProductSwap(p: int, a: int, b: int)
    ensures (p * a) * b == (p * b) * a
  {
  }

  /** Sum of weight times value over the indexes in `part`, with weights taken in the whole list. */
  ghost function Recombine(part: seq<int>, all: seq<int>, cs: seq<int>, q: int): int
    requires Prime(q) && forall x :: x in part ==> Separated(x, all, q)
  {
    if part == [] then 0
    else
      var x := part[|part| - 1];
      assert forall y :: y in part[..|part| - 1] ==> y in part;
      Recombine(part[..|part| - 1], all, cs, q) + Lagrange(x, all, q) * Eval(cs, x)
  }

  lemma RecombineSnoc(part: seq<int>, x: int, all: seq<int>, cs: seq<int>, q: int)
    requires Prime(q) && forall y :: y in part + [x] ==> Separated(y, all, q)
    ensures forall y :: y in part ==> Separated(y, all, q)
    ensures Separated(x, all, q)
    ensures Recombine(part + [x], all, cs, q) == Recombine(part, all, cs, q) + Lagrange(x, all, q) * Eval(cs, x)
  {
    assert (part + [x])[..|part|] == part;
    assert forall y :: y in part ==> y in part + [x];
    assert x in part + [x];
  }

  lemma DistinctSeparated(xs: seq<int>, q: int)
    requires q > 0 && DistinctMod(xs, q)
    ensures forall x :: x in xs ==> Separated(x, xs, q)
  {
  }

  /** Neville's step for one weight: (b - a) L_x = -a L_x without a, plus b L_x without b. */
  lemma NevilleWeight(x: int, r: seq<int>, b: int, a: int, q: int)
    requires Prime(q) && Separated(x, r + [b, a], q) && x != a && x != b
    ensures Separated(x, r + [b], q) && Separated(x, r + [a], q)
    ensures Cong((b - a) * Lagrange(x, r + [b, a], q),
                 -a * Lagrange(x, r + [b], q) + b * Lagrange(x, r + [a], q), q)
  {
    LagrangeSwap(x, r, b, a, q);
    assert r + [b, a] == (r + [b]) + [a] && r + [a, b] == (r + [a]) + [b];
    LagrangeDrop(x, r + [b], a, q);
    LagrangeDrop(x, r + [a], b, q);
    var l, lb, la := Lagrange(x, r + [b, a], q), Lagrange(x, r + [b], q), Lagrange(x, r + [a], q);
    CongAdd(l * (x - a), lb * -a, l * (x - b), la * -b, q);
    NevilleRing(l, x, a, b, la, lb);
  }

  lemma NevilleRing(l: int, x: int, a: int, b: int, la: int, lb: int)
    ensures l * (x - a) - l * (x - b) == (b - a) * l
    ensures lb * -a - la * -b == -a * lb + b * la
  {
  }

  lemma {:induction false} NevilleSum(part: seq<int>, r: seq<int>, b: int, a: int, q: int)
    requires Prime(q) && a !in part && b !in part
    requires forall x :: x in part ==> Separated(x, r + [b, a], q)
    ensures forall x :: x in part ==> Separated(x, r + [b], q) && Separated(x, r + [a], q)
    ensures Cong((b - a) * Recombine(part, r + [b, a], [1], q),
                 -a * Recombine(part, r + [b], [1], q) + b * Recombine(part, r + [a], [1], q), q)
  {
    forall x | x in part
      ensures Separated(x, r + [b], q) && Separated(x, r + [a], q)
    {
      NevilleWeight(x, r, b, a, q);
    }
    if part != [] {
      var front, x := part[..|part| - 1], part[|part| - 1];
      assert forall y :: y in front ==> y in part;
      NevilleSum(front, r, b, a, q);
      NevilleWeight(x, r, b, a, q);
      var w, wb, wa := Recombine(front, r + [b, a], [1], q), Recombine(front, r + [b], [1], q), Recombine(front, r + [a], [1], q);
      var l, lb, la := Lagrange(x, r + [b, a], q), Lagrange(x, r + [b], q), Lagrange(x, r + [a], q);
      EvalOne(x);
      CongAdd((b - a) * w, -a * wb + b * wa, (b - a) * l, -a * lb + b * la, q);
      Distribute(b - a, w, l);
      Distribute(-a, wb, lb);
      Distribute(b, wa, la);
    }
  }

  lemma Distribute(c: int, x: int, y: int)
    ensures c * (x + y) == c * x + c * y
  {
  }

  lemma EvalOne(x: int)
    ensures Eval([1], x) == 1
  {
    assert Eval([1][1..], x) == 0;
  }

  /** The weights of any distinct indexes sum to one. */
  lemma {:induction false} WeightsSumToOne(xs: seq<int>, q: int)
    requires Prime(q) && xs != [] && DistinctMod(xs, q)
    ensures forall x :: x in xs ==> Separated(x, xs, q)
    ensures Cong(Recombine(xs, xs, [1], q), 1, q)
    decreases |xs|
  {
    DistinctSeparated(xs, q);
    var n := |xs|;
    if n == 1 {
      OneWeight(xs[0], q);
      assert xs == [xs[0]];
    } else {
      var r, b, a := xs[..n - 2], xs[n - 2], xs[n - 1];
      assert xs == r + [b, a];
      DistinctParts(r, b, a, q);
      WeightsSumToOne(r + [b], q);
      WeightsSumToOne(r + [a], q);
      NevilleSum(r, r, b, a, q);
      UnitStep(r, b, a, q);
    }
  }

  lemma OneWeight(x: int, q: int)
    requires Prime(q) && Separated(x, [x], q)
    ensures Cong(Recombine([x], [x], [1], q), 1, q)
  {
    EvalOne(x);
    assert [] + [x] == [x];
    ProductSnoc(x, [], x);
    RecombineSnoc([], x, [x], [1], q);
  }

  lemma DistinctPrefix(r: seq<int>, b: int, q: int)
    requires q > 0 && DistinctMod(r + [b], q)
    ensures DistinctMod(r, q)
  {
    assert forall i :: 0 <= i < |r| ==> (r + [b])[i] == r[i];
  }

  lemma DistinctWithout(r: seq<int>, b: int, a: int, q: int)
    requires q > 0 && DistinctMod(r + [b, a], q)
    ensures DistinctMod(r + [a], q)
  {
    var xs, n, ra := r + [b, a], |r|, r + [a];
    forall i, j | 0 <= i < |ra| && 0 <= j < |ra| && i != j ensures (ra[i] - ra[j]) % q != 0 {
      assert ra[i] == xs[if i < n then i else n + 1] && ra[j] == xs[if j < n then j else n + 1];
    }
  }

  lemma DistinctMember(r: seq<int>, a: int, q: int)
    requires q > 0 && DistinctMod(r + [a], q)
    ensures a !in r
  {
    ModUnique(0, 0, 0, q);
    assert (r + [a])[|r|] == a && forall i :: 0 <= i < |r| ==> (r + [a])[i] == r[i];
  }

  /** Leaving out one of the last two indexes keeps the others distinct. */
  lemma DistinctParts(r: seq<int>, b: int, a: int, q: int)
    requires q > 0 && DistinctMod(r + [b, a], q)
    ensures DistinctMod(r + [b], q) && DistinctMod(r + [a], q)
    ensures a !in r && b !in r && a != b && (b - a) % q != 0
    ensures forall x :: x in r ==> x in r + [b, a]
  {
    assert r + [b, a] == (r + [b]) + [a];
    DistinctPrefix(r + [b], a, q);
    DistinctWithout(r, b, a, q);
    DistinctMember(r + [b], a, q);
    DistinctMember(r, b, q);
    assert (r + [b, a])[|r|] == b && (r + [b, a])[|r| + 1] == a;
  }

  lemma NevillePair(r: seq<int>, b: int, a: int, q: int)
    requires Prime(q) && a != b && Separated(b, r + [b, a], q) && Separated(a, r + [b, a], q)
    ensures Separated(b, r + [b], q) && Separated(a, r + [a], q)
    ensures Cong(Lagrange(b, r + [b, a], q) * (b - a), Lagrange(b, r + [b], q) * -a, q)
    ensures Cong(Lagrange(a, r + [b, a], q) * (a - b), Lagrange(a, r + [a], q) * -b, q)
  {
    assert r + [b, a] == (r + [b]) + [a] && r + [a, b] == (r + [a]) + [b];
    LagrangeDrop(b, r + [b], a, q);
    LagrangeSwap(a, r, b, a, q);
    LagrangeDrop(a, r + [a], b, q);
  }

  lemma RecombineTwo(r: seq<int>, b: int, a: int, all: seq<int>, q: int)
    requires Prime(q) && forall x :: x in r + [b, a] ==> Separated(x, all, q)
    ensures forall x :: x in r ==> Separated(x, all, q)
    ensures Separated(b, all, q) && Separated(a, all, q)
    ensures Recombine(r + [b, a], all, [1], q) == Recombine(r, all, [1], q) + Lagrange(b, all, q) + Lagrange(a, all, q)
  {
    assert r + [b, a] == (r + [b]) + [a];
    EvalOne(a);
    EvalOne(b);
    RecombineSnoc(r + [b], a, all, [1], q);
    RecombineSnoc(r, b, all, [1], q);
  }

  lemma {:induction false} UnitStep(r: seq<int>, b: int, a: int, q: int)
    requires Prime(q) && a != b && (b - a) % q != 0
    requires forall x :: x in r + [b, a] ==> Separated(x, r + [b, a], q)
    requires forall x :: x in r + [b] ==> Separated(x, r + [b], q)
    requires forall x :: x in r + [a] ==> Separated(x, r + [a], q)
    requires Cong(Recombine(r + [b], r + [b], [1], q), 1, q)
    requires Cong(Recombine(r + [a], r + [a], [1], q), 1, q)
    requires forall x :: x in r ==> Separated(x, r + [b, a], q) && Separated(x, r + [b], q) && Separated(x, r + [a], q)
    requires Cong((b - a) * Recombine(r, r + [b, a], [1], q),
                  -a * Recombine(r, r + [b], [1], q) + b * Recombine(r, r + [a], [1], q), q)
    ensures Cong(Recombine(r + [b, a], r + [b, a], [1], q), 1, q)
  {
    var rb, ra, all := r + [b], r + [a], r + [b, a];
    var w, wb, wa := Recombine(r, all, [1], q), Recombine(r, rb, [1], q), Recombine(r, ra, [1], q);
    var bigB, bigA, lb, la := Lagrange(b, all, q), Lagrange(a, all, q), Lagrange(b, rb, q), Lagrange(a, ra, q);
    EvalOne(a);
    EvalOne(b);
    RecombineTwo(r, b, a, all, q);
    RecombineSnoc(r, b, rb, [1], q);
    RecombineSnoc(r, a, ra, [1], q);
    NevillePair(r, b, a, q);
    UnitArithmetic(w, wb, wa, bigB, bigA, lb, la, a, b, q);
  }

  lemma UnitArithmetic(w: int, wb: int, wa: int, bigB: int, bigA: int, lb: int, la: int, a: int, b: int, q: int)
    requires Prime(q) && (b - a) % q != 0
    requires Cong((b - a) * w, -a * wb + b * wa, q)
    requires Cong(bigB * (b - a), lb * -a, q) && Cong(bigA * (a - b), la * -b, q)
    requires Cong(wb + lb, 1, q) && Cong(wa + la, 1, q)
    ensures Cong(w + bigB + bigA, 1, q)
  {
    CongAdd((b - a) * w, -a * wb + b * wa, bigB * (b - a), lb * -a, q);
    CongAdd((b - a) * w + bigB * (b - a), -a * wb + b * wa + lb * -a, bigA * (a - b), la * -b, q);
    CongScale(-a, wb + lb, 1, q);
    CongScale(b, wa + la, 1, q);
    CongAdd(-a * (wb + lb), -a * 1, b * (wa + la), b * 1, q);
    UnitRing(w, wb, wa, bigB, bigA, lb, la, a, b);
    CongCancel(b - a, w + bigB + bigA, 1, q);
  }

  lemma UnitRing(w: int, wb: int, wa: int, bigB: int, bigA: int, lb: int, la: int, a: int, b: int)
    ensures (b - a) * w + bigB * (b - a) - bigA * (a - b) == (b - a) * (w + bigB + bigA)
    ensures -a * wb + b * wa + lb * -a - la * -b == -a * (wb + lb) + b * (wa + la)
    ensures -a * 1 + b * 1 == (b - a) * 1
  {
  }

  /** Synthetic division of a polynomial by (x - a). */
  function Quotient(cs: seq<int>, a: int): (h: seq<int>)
    ensures |h| == if cs == [] then 0 else |cs| - 1
  {
    if |cs| <= 1 then [] else [Eval(cs[1..], a)] + Quotient(cs[1..], a)
  }

  lemma {:induction false} FactorTheorem(cs: seq<int>, a: int, x: int)
    ensures Eval(cs, x) == Eval(cs, a) + (x - a) * Eval(Quotient(cs, a), x)
  {
    if |cs| <= 1 {
      if |cs| == 1 {
        assert Eval(cs[1..], x) == 0 && Eval(cs[1..], a) == 0;
      }
    } else {
      var g := cs[1..];
      FactorTheorem(g, a, x);
      var gx, ga, h := Eval(g, x), Eval(g, a), Eval(Quotient(g, a), x);
      assert Quotient(cs, a)[1..] == Quotient(g, a);
      assert Eval(Quotient(cs, a), x) == ga + x * h;
      FactorRing(x, a, gx, ga, h);
    }
  }

  lemma FactorRing(x: int, a: int, gx: int, ga: int, h: int)
    requires gx == ga + (x - a) * h
    ensures x * gx == a * ga + (x - a) * (ga + x * h)
  {
    calc {
      x * gx;
      x * ga + x * ((x - a) * h);
      x * ga + (x - a) * (x * h);
      a * ga + (x - a) * ga + (x - a) * (x * h);
    }
  }

  /** Splitting the values of cs into the value at a and the quotient by (x - a). */
  lemma {:induction false} RecombineSplit(part: seq<int>, r: seq<int>, a: int, cs: seq<int>, q: int)
    requires Prime(q) && a !in part
    requires forall x :: x in part ==> Separated(x, r + [a], q)
    ensures forall x :: x in part ==> Separated(x, r, q)
    ensures Cong(Recombine(part, r + [a], cs, q),
                 Eval(cs, a) * Recombine(part, r + [a], [1], q) + -a * Recombine(part, r, Quotient(cs, a), q), q)
  {
    assert forall y :: y in r ==> y in r + [a];
    if part != [] {
      var front, x := part[..|part| - 1], part[|part| - 1];
      assert forall y :: y in front ==> y in part;
      RecombineSplit(front, r, a, cs, q);
      LagrangeDrop(x, r, a, q);
      FactorTheorem(cs, a, x);
      EvalOne(x);
      var l, small, c, h := Lagrange(x, r + [a], q), Lagrange(x, r, q), Eval(cs, a), Eval(Quotient(cs, a), x);
      SplitTerm(l, small, c, h, x, a, q);
      CongAdd(Recombine(front, r + [a], cs, q),
              c * Recombine(front, r + [a], [1], q) + -a * Recombine(front, r, Quotient(cs, a), q),
              l * Eval(cs, x), c * l + -a * (small * h), q);
      Distribute(c, Recombine(front, r + [a], [1], q), l);
      Distribute(-a, Recombine(front, r, Quotient(cs, a), q), small * h);
    }
  }

  lemma SplitTerm(l: int, small: int, c: int, h: int, x: int, a: int, q: int)
    requires q > 0 && Cong(l * (x - a), small * -a, q)
    ensures Cong(l * (c + (x - a) * h), c * l + -a * (small * h), q)
  {
    CongMul(l * (x - a), small * -a, h, h, q);
    calc {
      l * (c + (x - a) * h);
      l * c + l * ((x - a) * h);
      c * l + (l * (x - a)) * h;
    }
    assert (small * -a) * h == -a * (small * h);
    CongAdd((l * (x - a)) * h, -a * (small * h), c * l, c * l, q);
  }

  /** Lagrange interpolation at zero: for a prime q, the weights of any distinct indexes recombine the
      values of every polynomial with no more coefficients than indexes to its constant term. */
  lemma {:induction false} Interpolation(xs: seq<int>, cs: seq<int>, q: int)
    requires Prime(q) && xs != [] && DistinctMod(xs, q) && |cs| <= |xs|
    ensures forall x :: x in xs ==> Separated(x, xs, q)
    ensures Cong(Recombine(xs, xs, cs, q), Eval(cs, 0), q)
    decreases |xs|
  {
    DistinctSeparated(xs, q);
    var r, a := xs[..|xs| - 1], xs[|xs| - 1];
    assert xs == r + [a];
    DistinctFront(r, a, q);
    if r != [] {
      Interpolation(r, Quotient(cs, a), q);
    } else {
      assert Quotient(cs, a) == [];
    }
    WeightsSumToOne(xs, q);
    InterpolationStep(r, a, cs, q);
  }

  lemma DistinctFront(r: seq<int>, a: int, q: int)
    requires Prime(q) && DistinctMod(r + [a], q)
    ensures DistinctMod(r, q) && a !in r
    ensures forall x :: x in r ==> Separated(x, r, q)
  {
    DistinctPrefix(r, a, q);
    DistinctMember(r, a, q);
    DistinctSeparated(r, q);
  }

  /** One more index and one more coefficient. */
  lemma InterpolationStep(r: seq<int>, a: int, cs: seq<int>, q: int)
    requires Prime(q) && a !in r
    requires forall x :: x in r + [a] ==> Separated(x, r + [a], q)
    requires forall x :: x in r ==> Separated(x, r, q)
    requires Cong(Recombine(r, r, Quotient(cs, a), q), Eval(Quotient(cs, a), 0), q)
    requires Cong(Recombine(r + [a], r + [a], [1], q), 1, q)
    ensures Cong(Recombine(r + [a], r + [a], cs, q), Eval(cs, 0), q)
  {
    var xs, h := r + [a], Quotient(cs, a);
    RecombineSnoc(r, a, xs, cs, q);
    RecombineSnoc(r, a, xs, [1], q);
    RecombineSplit(r, r, a, cs, q);
    FactorTheorem(cs, a, 0);
    EvalOne(a);
    FinalStep(Recombine(r, xs, cs, q), Lagrange(a, xs, q), Eval(cs, a), Recombine(r, xs, [1], q), a, Recombine(r, r, h, q), Eval(h, 0), q);
  }

  lemma FinalStep(s: int, l: int, c: int, w: int, a: int, t: int, h: int, q: int)
    requires q > 0 && Cong(s, c * w + -a * t, q) && Cong(w + l, 1, q) && Cong(t, h, q)
    ensures Cong(s + l * c, c + (0 - a) * h, q)
  {
    CongScale(c, w + l, 1, q);
    CongScale(-a, t, h, q);
    CongAdd(c * (w + l), c * 1, -a * t, -a * h, q);
    CongAdd(s, c * w + -a * t, l * c, l * c, q);
    assert c * w + -a * t + l * c == c * (w + l) + -a * t;
  }
}
