/** Arithmetic modulo the group order: JavaScript's truncating remainder, the `mod` that repairs it,
    and the extended Euclidean inverse. */
module Field {
  import opened Wrappers

  /** A modulus of residues. */
  type Modulus = q: int | q > 0 witness 1

  ghost predicate Divides(d: int, n: int) {
    exists k :: IsMultiple(n, k, d)
  }

  predicate IsMultiple(n: int, k: int, d: int) {
    n == k * d
  }

  ghost predicate Prime(q: int) {
    q > 1 && forall d :: 1 < d < q ==> !Divides(d, q)
  }

  /** Congruence modulo q, as equality of canonical residues. */
  predicate Cong(a: int, b: int, q: int)
    requires q > 0
  {
    a % q == b % q
  }

  /** JavaScript's `%` on BigInt: the remainder takes the sign of the dividend. */
  function TruncRem(a: int, b: int): (r: int)
    requires b > 0
    ensures -b < r < b && (r > 0 ==> a > 0) && (r < 0 ==> a < 0)
    ensures Divides(b, a - r)
  {
    if a >= 0 then
      assert IsMultiple(a - a % b, a / b, b);
      a % b
    else
      assert IsMultiple(a + (-a) % b, -((-a) / b), b);
      -((-a) % b)
  }

  /** `mod`: repairs the truncating remainder to the canonical residue. */
  function Mod(value: int, q: int): (r: int)
    requires q > 0
    ensures 0 <= r < q && r == value % q
  {
    var result := TruncRem(value, q);
    var r := if result >= 0 then result else result + q;
    assert r == value % q by {
      var k :| IsMultiple(value - result, k, q);
      ModUnique(value, if result >= 0 then k else k - 1, r, q);
    }
    r
  }

  // ----- residues

  lemma MultipleGrows(m: int, q: int)
    requires q > 0
    ensures m > 0 ==> m * q >= q
    ensures m < 0 ==> m * q <= -q
  {
    if m > 0 {
      assert (m - 1) * q >= 0;
    } else if m < 0 {
      assert (-1 - m) * q >= 0;
    }
  }

  lemma ModUnique(a: int, k: int, r: int, q: int)
    requires 0 <= r < q && a == k * q + r
    ensures a % q == r && a / q == k
  {
    var m := k - a / q;
    assert m * q == k * q - (a / q) * q == a % q - r;
    MultipleGrows(m, q);
  }

  lemma CongMultiple(a: int, b: int, k: int, q: int)
    requires q > 0 && a == b + k * q
    ensures Cong(a, b, q)
  {
    ModUnique(a, b / q + k, b % q, q);
  }

  lemma CongWitness(a: int, b: int, q: int) returns (k: int)
    requires q > 0 && Cong(a, b, q)
    ensures a == b + k * q
  {
    k := a / q - b / q;
  }

  lemma CongMod(a: int, q: int)
    requires q > 0
    ensures Cong(a % q, a, q)
  {
    CongMultiple(a, a % q, a / q, q);
  }

  lemma CongAdd(a: int, b: int, c: int, d: int, q: int)
    requires q > 0 && Cong(a, b, q) && Cong(c, d, q)
    ensures Cong(a + c, b + d, q) && Cong(a - c, b - d, q)
  {
    var k := CongWitness(a, b, q);
    var l := CongWitness(c, d, q);
    CongMultiple(a + c, b + d, k + l, q);
    CongMultiple(a - c, b - d, k - l, q);
  }

  lemma Expand(b: int, u: int, d: int, v: int)
    ensures (b + u) * (d + v) == b * d + b * v + u * d + u * v
  {
    assert (b + u) * (d + v) == (b + u) * d + (b + u) * v;
  }

  lemma Collect(b: int, k: int, d: int, l: int, q: int)
    ensures b * (l * q) + (k * q) * d + (k * q) * (l * q) == (b * l + k * d + k * l * q) * q
  {
    assert b * (l * q) == (b * l) * q;
    assert (k * q) * d == (k * d) * q;
    assert (k * q) * (l * q) == (k * l * q) * q by {
      assert (k * q) * (l * q) == k * (q * (l * q)) == k * ((l * q) * q) == (k * (l * q)) * q;
      assert k * (l * q) == k * l * q;
    }
  }

  lemma CongMul(a: int, b: int, c: int, d: int, q: int)
    requires q > 0 && Cong(a, b, q) && Cong(c, d, q)
    ensures Cong(a * c, b * d, q)
  {
    var k := CongWitness(a, b, q);
    var l := CongWitness(c, d, q);
    Expand(b, k * q, d, l * q);
    Collect(b, k, d, l, q);
    CongMultiple(a * c, b * d, b * l + k * d + k * l * q, q);
  }

  lemma CongScale(c: int, a: int, b: int, q: int)
    requires q > 0 && Cong(a, b, q)
    ensures Cong(c * a, c * b, q)
  {
    CongMul(c, c, a, b, q);
  }

  // ----- inverses

  /** Bezout by Euclid's algorithm. */
  lemma {:induction false} Bezout(a: nat, b: nat) returns (g: nat, s: int, t: int)
    requires a + b > 0
    ensures g > 0 && Divides(g, a) && Divides(g, b) && s * a + t * b == g
    decreases b
  {
    if b == 0 {
      g, s, t := a, 1, 0;
      assert IsMultiple(a, 1, g) && IsMultiple(b, 0, g);
    } else {
      var s', t';
      g, s', t' := Bezout(b, a % b);
      s, t := t', s' - t' * (a / b);
      var u :| IsMultiple(b, u, g);
      var v :| IsMultiple(a % b, v, g);
      BezoutStep(a, b, a / b, a % b, u, v, g, s', t');
      assert IsMultiple(a, (a / b) * u + v, g);
    }
  }

  lemma BezoutStep(a: int, b: int, k: int, rest: int, u: int, v: int, g: int, s: int, t: int)
    requires a == k * b + rest && b == u * g && rest == v * g && s * b + t * rest == g
    ensures a == (k * u + v) * g && t * a + (s - t * k) * b == g
  {
    assert k * (u * g) == (k * u) * g;
    calc {
      t * a + (s - t * k) * b;
      t * (k * b + rest) + s * b - (t * k) * b;
      t * (k * b) + t * rest + s * b - (t * k) * b;
      t * rest + s * b;
    }
  }

  ghost predicate IsInverse(r: int, v: int, q: int)
    requires q > 0
  {
    Cong(r * v, 1, q)
  }

  /** In a prime field every nonzero residue has an inverse. */
  lemma InverseExists(v: int, q: int) returns (r: int)
    requires Prime(q) && v % q != 0
    ensures 0 <= r < q && IsInverse(r, v, q)
  {
    var g, s, t := Bezout(v % q, q);
    DivisorBound(g, v % q);
    assert g == 1;
    r := s % q;
    CongMod(s, q);
    CongMod(v, q);
    CongMul(s % q, s, v, v % q, q);
    CongMultiple(1, s * (v % q), t, q);
  }

  lemma DivisorBound(d: int, n: int)
    requires d > 0 && n > 0 && Divides(d, n)
    ensures d <= n
  {
    var k :| IsMultiple(n, k, d);
    assert k > 0;
  }

  ghost function Inv(v: int, q: int): (r: int)
    requires Prime(q) && v % q != 0
    ensures 0 <= r < q && IsInverse(r, v, q)
  {
    assert exists r :: 0 <= r < q && IsInverse(r, v, q) by {
      var r := InverseExists(v, q);
    }
    var r :| 0 <= r < q && IsInverse(r, v, q);
    r
  }

  /** A nonzero factor cancels modulo a prime. */
  lemma CongCancel(c: int, a: int, b: int, q: int)
    requires Prime(q) && c % q != 0 && Cong(c * a, c * b, q)
    ensures Cong(a, b, q)
  {
    var r := Inv(c, q);
    CongScale(r, c * a, c * b, q);
    assert r * (c * a) == (r * c) * a && r * (c * b) == (r * c) * b;
    CongMul(r * c, 1, a, a, q);
    CongMul(r * c, 1, b, b, q);
  }

  /** A prime divides a product only if it divides a factor. */
  lemma NoZeroDivisors(a: int, b: int, q: int)
    requires Prime(q) && a % q != 0 && b % q != 0
    ensures (a * b) % q != 0
  {
    if Cong(a * b, a * 0, q) {
      CongCancel(a, b, 0, q);
    }
  }

  lemma InverseUnique(r: int, s: int, v: int, q: int)
    requires q > 0 && 0 <= r < q && 0 <= s < q && IsInverse(r, v, q) && IsInverse(s, v, q)
    ensures r == s
  {
    CongMul(r * v, 1, s, s, q);
    CongMul(s * v, 1, r, r, q);
    assert (r * v) * s == (s * v) * r;
    ModUnique(r, 0, r, q);
    ModUnique(s, 0, s, q);
  }

  /** The state of the loop of `modInverse`: both remainders are multiples of the argument modulo q, and
      every common divisor of them divides the argument's residue and q. */
  ghost predicate EuclidInvariant(v: int, q: int, low: int, high: int, lowC: int, highC: int) {
    && 0 <= low < high <= q && 1 < high
    && Cong(low, lowC * v, q) && Cong(high, highC * v, q)
    && forall d :: Divides(d, low) && Divides(d, high) ==> Divides(d, v % q) && Divides(d, q)
  }

  lemma EuclidStep(v: int, q: int, low: int, high: int, lowC: int, highC: int)
    requires EuclidInvariant(v, q, low, high, lowC, highC) && low > 1
    ensures var ratio := high / low;
            && high - low * ratio < low
            && EuclidInvariant(v, q, high - low * ratio, low, highC - lowC * ratio, lowC)
  {
    var ratio := high / low;
    var rest := high - low * ratio;
    EuclidRemainder(high, low);
    EuclidCoefficients(v, q, low, high, lowC, highC, ratio);
    forall d | Divides(d, rest) && Divides(d, low)
      ensures Divides(d, high)
    {
      DividesCombination(d, rest, low, ratio);
    }
  }

  lemma EuclidRemainder(high: int, low: int)
    requires low > 0
    ensures 0 <= high - low * (high / low) < low
  {
    assert high - low * (high / low) == high % low;
  }

  lemma EuclidCoefficients(v: int, q: int, low: int, high: int, lowC: int, highC: int, ratio: int)
    requires q > 0 && Cong(low, lowC * v, q) && Cong(high, highC * v, q)
    ensures Cong(high - low * ratio, (highC - lowC * ratio) * v, q)
  {
    CongScale(ratio, low, lowC * v, q);
    CongAdd(high, highC * v, ratio * low, ratio * (lowC * v), q);
    assert highC * v - ratio * (lowC * v) == (highC - lowC * ratio) * v;
    assert ratio * low == low * ratio;
  }

  lemma Factor(r: int, a: int, k: int, b: int, d: int)
    ensures r * (a * d) - k * (b * d) == (r * a - k * b) * d
  {
    assert r * (a * d) == (r * a) * d && k * (b * d) == (k * b) * d;
  }

  lemma DividesCombination(d: int, m: int, n: int, ratio: int)
    requires Divides(d, m) && Divides(d, n)
    ensures Divides(d, m + n * ratio)
  {
    var a :| IsMultiple(m, a, d);
    var b :| IsMultiple(n, b, d);
    Factor(1, a, -ratio, b, d);
    assert ratio * (b * d) == (b * d) * ratio && a - (-ratio) * b == a + b * ratio;
    assert IsMultiple(m + n * ratio, a + b * ratio, d);
  }

  /** Common divisors of a unit and the modulus are trivial. */
  lemma UnitHasNoDivisor(v: int, q: int, d: int, r: int)
    requires q > 0 && d > 0 && Divides(d, v % q) && Divides(d, q) && IsInverse(r, v, q)
    ensures d == 1
  {
    var a :| IsMultiple(v % q, a, d);
    var b :| IsMultiple(q, b, d);
    CongMod(v, q);
    CongScale(r, v % q, v, q);
    var k := CongWitness(r * (v % q), 1, q);
    Factor(r, a, k, b, d);
    MultipleGrows(r * a - k * b, d);
  }

  /** `modInverse`: the loop finds the canonical inverse exactly when there is one; None is the failed
      assertion "value has no subgroup inverse". Nothing is assumed of the modulus beyond q > 1. */
  method ModInverse(value: int, q: int) returns (r: Option<int>)
    requires q > 1
    ensures r.Some? ==> 0 <= r.value < q && IsInverse(r.value, value, q)
    ensures r.None? ==> forall s :: !IsInverse(s, value, q)
  {
    var low := Mod(value, q);
    var high := q;
    var lowCoefficient := 1;
    var highCoefficient := 0;
    EuclidStart(value, q);
    while low > 1
      invariant EuclidInvariant(value, q, low, high, lowCoefficient, highCoefficient)
      decreases low
    {
      var ratio := high / low;
      EuclidStep(value, q, low, high, lowCoefficient, highCoefficient);
      high, low := low, high - low * ratio;
      highCoefficient, lowCoefficient := lowCoefficient, highCoefficient - lowCoefficient * ratio;
    }
    if low != 1 {
      assert IsMultiple(low, 0, high) && IsMultiple(high, 1, high);
      forall s | IsInverse(s, value, q) ensures high == 1 {
        UnitHasNoDivisor(value, q, high, s);
      }
      return None;
    }
    CongMod(lowCoefficient, q);
    CongMul(lowCoefficient % q, lowCoefficient, value, value, q);
    r := Some(Mod(lowCoefficient, q));
  }

  /** In a prime field the two outcomes of `ModInverse` are decided by the argument alone. */
  lemma InverseIff(v: int, q: int)
    requires Prime(q)
    ensures (exists r :: 0 <= r < q && IsInverse(r, v, q)) <==> v % q != 0
    ensures forall r | 0 <= r < q && IsInverse(r, v, q) :: v % q != 0 && r == Inv(v, q)
  {
    forall r | 0 <= r < q && IsInverse(r, v, q)
      ensures v % q != 0 && r == Inv(v, q)
    {
      if v % q == 0 {
        CongScale(r, v, 0, q);
      }
      InverseUnique(r, Inv(v, q), v, q);
    }
    if v % q != 0 {
      assert IsInverse(Inv(v, q), v, q);
    }
  }

  lemma EuclidStart(v: int, q: int)
    requires q > 1
    ensures EuclidInvariant(v, q, v % q, q, 1, 0)
  {
    CongMod(v, q);
    CongMultiple(q, 0 * v, 1, q);
  }
}
