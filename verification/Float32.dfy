/**
 Single-precision arithmetic on non-negative numbers: the exact result rounded to 24
 significant bits, ties to even (IEEE 754-2019, section 4.3.1). The values the services
 compute lie far inside the normal range, so overflow and subnormals do not arise.

 Multiples `k * u` are written `Scale(k, u)`, which keeps the proofs linear.
 */
module Float32 {

  const P23 := 8388608  // 2^23
  const P24 := 16777216 // 2^24

  // ----- powers of two and multiples -----

  function Pow2(e: int): (p: real)
    ensures p > 0.0
    decreases if e < 0 then -e else e
  {
    if e == 0 then 1.0 else if e > 0 then 2.0 * Pow2(e - 1) else Pow2(e + 1) / 2.0
  }

  function IntPow2(k: nat): (p: nat)
    ensures p > 0
  {
    if k == 0 then 1 else 2 * IntPow2(k - 1)
  }

  function Scale(k: nat, u: real): real {
    if k == 0 then 0.0 else Scale(k - 1, u) + u
  }

  lemma {:induction false} ScaleIsProduct(k: nat, u: real)
    ensures Scale(k, u) == k as real * u
  {
    if k > 0 {
      ScaleIsProduct(k - 1, u);
    }
  }

  lemma {:induction false} ScaleMonotone(a: nat, b: nat, u: real)
    requires a <= b && u > 0.0
    ensures Scale(a, u) <= Scale(b, u) && (a < b ==> Scale(a, u) + u <= Scale(b, u))
    decreases b - a
  {
    if a < b {
      ScaleMonotone(a, b - 1, u);
    }
  }

  lemma {:induction false} ScaleDouble(a: nat, u: real)
    ensures Scale(2 * a, u) == Scale(a, 2.0 * u)
  {
    if a > 0 {
      ScaleDouble(a - 1, u);
      assert Scale(2 * a, u) == Scale(2 * a - 1, u) + u;
      assert Scale(2 * a - 1, u) == Scale(2 * a - 2, u) + u;
    }
  }

  lemma {:induction false} ScaleCompose(n: nat, d: nat, u: real)
    ensures Scale(n * d, u) == Scale(n, Scale(d, u))
  {
    if n > 0 {
      ScaleCompose(n - 1, d, u);
      ScaleAdd((n - 1) * d, d, u);
      assert n * d == (n - 1) * d + d;
    } else {
      assert n * d == 0;
    }
  }

  lemma {:induction false} ScaleAdd(a: nat, b: nat, u: real)
    ensures Scale(a + b, u) == Scale(a, u) + Scale(b, u)
  {
    if b > 0 {
      ScaleAdd(a, b - 1, u);
    }
  }

  lemma Pow2Next(e: int)
    ensures Pow2(e + 1) == 2.0 * Pow2(e)
  {
  }

  lemma {:induction false} Pow2Monotone(a: int, b: int)
    requires a <= b
    ensures Pow2(a) <= Pow2(b)
    decreases b - a
  {
    if a < b {
      Pow2Next(b - 1);
      Pow2Monotone(a, b - 1);
    }
  }

  lemma {:induction false} ScaleShift(k: nat, e: int)
    ensures Scale(IntPow2(k), Pow2(e - k)) == Pow2(e)
  {
    if k == 0 {
      assert Scale(1, Pow2(e)) == Scale(0, Pow2(e)) + Pow2(e);
    } else {
      ScaleShift(k - 1, e);
      ScaleDouble(IntPow2(k - 1), Pow2(e - k));
      Pow2Next(e - k);
    }
  }

  lemma IntPow2Of23()
    ensures IntPow2(23) == P23
  {
    assert IntPow2(8) == 256;
    assert IntPow2(16) == 65536;
  }

  // ----- rounding -----

  /** The binade of `x`: the largest power of two not above it. */
  function Exponent(x: real): (e: int)
    requires x > 0.0
    ensures Pow2(e) <= x < Pow2(e + 1)
    decreases if x >= 1.0 then x.Floor else (1.0 / x).Floor + 2
  {
    if x >= 2.0 then
      var e := Exponent(x / 2.0);
      Pow2Next(e); Pow2Next(e + 1);
      e + 1
    else if x >= 1.0 then
      assert Pow2(1) == 2.0 * Pow2(0);
      0
    else
      HalvingShrinks(x);
      var e := Exponent(2.0 * x);
      Pow2Next(e - 1); Pow2Next(e);
      e - 1
  }

  lemma HalvingShrinks(x: real)
    requires 0.0 < x < 1.0
    ensures (1.0 / (2.0 * x)).Floor < (1.0 / x).Floor
    ensures 2.0 * x >= 1.0 ==> (2.0 * x).Floor < (1.0 / x).Floor + 2
  {
    var y := 1.0 / x;
    assert y > 1.0 by {
      assert y * x == 1.0;
    }
    assert 1.0 / (2.0 * x) == y / 2.0 by {
      assert (y / 2.0) * (2.0 * x) == 1.0;
    }
  }

  /** The spacing of the 24-bit numbers around `x`. */
  function Ulp(x: real): (u: real)
    requires x > 0.0
    ensures u > 0.0
  {
    Pow2(Exponent(x) - 23)
  }

  /** The largest `j <= k` with `j * u <= x`. */
  function Below(x: real, u: real, k: nat): (j: nat)
    requires x >= 0.0 && u > 0.0
    ensures j <= k && Scale(j, u) <= x && (j < k ==> x < Scale(j + 1, u))
  {
    if k == 0 || Scale(k, u) <= x then k else Below(x, u, k - 1)
  }

  /** The nearest multiple of `u`, the even one of two equally near, for `x` below 2^24 spacings. */
  function Nearest(x: real, u: real): (n: nat)
    requires x >= 0.0 && u > 0.0
  {
    var k := Below(x, u, P24);
    var down, up := x - Scale(k, u), Scale(k + 1, u) - x;
    if down < up || (down == up && k % 2 == 0) then k else k + 1
  }

  function Round(x: real): (r: real)
    requires x >= 0.0
  {
    if x == 0.0 then 0.0 else Scale(Nearest(x, Ulp(x)), Ulp(x))
  }

  lemma Binade(x: real)
    requires x > 0.0
    ensures Scale(P23, Ulp(x)) == Pow2(Exponent(x)) <= x < Pow2(Exponent(x) + 1) == Scale(P24, Ulp(x))
  {
    var u := Ulp(x);
    IntPow2Of23();
    ScaleShift(23, Exponent(x));
    Pow2Next(Exponent(x));
    ScaleIsProduct(P23, u);
    ScaleIsProduct(P24, u);
  }

  lemma BelowIs(x: real, u: real, k: nat)
    requires u > 0.0 && k < P24 && Scale(k, u) <= x < Scale(k + 1, u)
    requires x >= 0.0
    ensures Below(x, u, P24) == k
  {
    var j := Below(x, u, P24);
    if j < k {
      ScaleMonotone(j + 1, k, u);
    } else if k < j {
      ScaleMonotone(k + 1, j, u);
    }
  }

  /** Rounding moves a number by at most half its spacing and stays inside the closed binade. */
  lemma RoundNear(x: real)
    requires x > 0.0
    ensures x - Ulp(x) / 2.0 <= Round(x) <= x + Ulp(x) / 2.0
    ensures Pow2(Exponent(x)) <= Round(x) <= Pow2(Exponent(x) + 1)
  {
    hide Ulp, Exponent, Pow2, Below, Scale, Round;
    var u := Ulp(x);
    Binade(x);
    var k := BelowInBinade(x);
    if k < P23 {
      ScaleMonotone(k + 1, P23, u);
    }
    ScaleMonotone(P23, k, u);
    ScaleMonotone(k + 1, P24, u);
  }

  lemma BelowInBinade(x: real) returns (k: nat)
    requires x > 0.0
    ensures k == Below(x, Ulp(x), P24) < P24 && Scale(k, Ulp(x)) <= x < Scale(k + 1, Ulp(x))
    ensures Round(x) == Scale(Nearest(x, Ulp(x)), Ulp(x)) && Scale(k + 1, Ulp(x)) == Scale(k, Ulp(x)) + Ulp(x)
  {
    Binade(x);
    k := Below(x, Ulp(x), P24);
  }

  /** No other multiple of the spacing is nearer, and of two equally near ones the even one is taken. */
  lemma RoundIsNearest(x: real, m: nat)
    requires x > 0.0 && m != Nearest(x, Ulp(x))
    ensures Distance(Round(x), x) <= Distance(Scale(m, Ulp(x)), x)
    ensures Distance(Round(x), x) == Distance(Scale(m, Ulp(x)), x) ==> Nearest(x, Ulp(x)) % 2 == 0
  {
    var k := BelowInBinade(x);
    if m < k {
      ScaleMonotone(m, k, Ulp(x));
    } else if m > k + 1 {
      ScaleMonotone(k + 1, m, Ulp(x));
    }
  }

  function Distance(a: real, b: real): real {
    if a < b then b - a else a - b
  }

  /** `2^e` is the largest power of two not above `x`. */
  predicate InBinade(x: real, e: int) {
    Pow2(e) <= x < Pow2(e + 1)
  }

  /** The multiple `m * u` is further from `x` than `n * u`, or as far and `n` is even. */
  predicate NotNearer(n: nat, m: nat, u: real, x: real) {
    var d, d' := Distance(Scale(n, u), x), Distance(Scale(m, u), x);
    d < d' || (d == d' && n % 2 == 0)
  }

  ghost predicate NoneNearer(n: nat, u: real, x: real) {
    forall m: nat :: m != n ==> NotNearer(n, m, u, x)
  }

  ghost predicate RoundsTo(r: real, x: real, e: int, n: nat) {
    InBinade(x, e) && NoneNearer(n, Pow2(e - 23), x) && r == Scale(n, Pow2(e - 23))
  }

  /**
   `r` is the single-precision number for `x`: with 2^e the binade of `x`, the multiple of
   2^(e - 23) nearest to `x`, and of two equally near ones the even one.
   */
  ghost predicate IsRounded(r: real, x: real) {
    (x == 0.0 && r == 0.0) || exists e: int, n: nat :: RoundsTo(r, x, e, n)
  }

  lemma BinadeIsUnique(x: real, e: int)
    requires x > 0.0 && InBinade(x, e)
    ensures e == Exponent(x)
  {
    if e < Exponent(x) {
      Pow2Monotone(e + 1, Exponent(x));
    } else if Exponent(x) < e {
      Pow2Monotone(Exponent(x) + 1, e);
    }
  }

  /** Of two multiples within half a spacing only one is preferred. */
  lemma NearestIsUnique(n: nat, k: nat, u: real, x: real)
    requires u > 0.0 && n < k && Distance(Scale(n, u), x) <= u / 2.0 && Distance(Scale(k, u), x) <= u / 2.0
    ensures !(NotNearer(n, k, u, x) && NotNearer(k, n, u, x))
  {
    if n + 1 < k {
      ScaleMonotone(n, n + 1, u);
      ScaleMonotone(n + 1, k, u);
    }
  }

  /** `Round` gives the single-precision number, and nothing else is one. */
  lemma RoundIff(x: real, r: real)
    requires x >= 0.0
    ensures r == Round(x) <==> IsRounded(r, x)
  {
    hide Nearest, Scale, Pow2;
    if x > 0.0 {
      RoundIsIt(x);
      if IsRounded(r, x) {
        RoundIsOnly(x, r);
      }
    }
  }

  lemma NothingNearer(x: real)
    requires x > 0.0
    ensures NoneNearer(Nearest(x, Ulp(x)), Ulp(x), x)
  {
    hide Nearest, Scale, Ulp;
    var n := Nearest(x, Ulp(x));
    forall m: nat | m != n ensures NotNearer(n, m, Ulp(x), x) {
      RoundIsNearest(x, m);
    }
  }

  lemma RoundIsIt(x: real)
    requires x > 0.0
    ensures IsRounded(Round(x), x)
  {
    hide Nearest, Scale, Pow2, NoneNearer;
    NothingNearer(x);
    assert RoundsTo(Round(x), x, Exponent(x), Nearest(x, Ulp(x)));
  }

  lemma RoundIsOnly(x: real, r: real)
    requires x > 0.0 && IsRounded(r, x)
    ensures r == Round(x)
  {
    hide Round, Nearest, Pow2, Scale, NoneNearer;
    var e: int, n: nat :| RoundsTo(r, x, e, n);
    BinadeIsUnique(x, e);
    PreferredIsNearest(x, n);
  }

  lemma PreferredIsNearest(x: real, n: nat)
    requires x > 0.0 && NoneNearer(n, Ulp(x), x)
    ensures Scale(n, Ulp(x)) == Round(x)
  {
    hide Ulp, Nearest, Scale;
    var u, k := Ulp(x), Nearest(x, Ulp(x));
    if n != k {
      NothingNearer(x);
      RoundNear(x);
      assert NotNearer(n, k, u, x) && NotNearer(k, n, u, x);
      if n < k {
        NearestIsUnique(n, k, u, x);
      } else {
        NearestIsUnique(k, n, u, x);
      }
    }
  }

  /** The relative error is at most 2^-24. */
  lemma RoundRelative(x: real)
    requires x >= 0.0
    ensures x - x / P24 as real <= Round(x) <= x + x / P24 as real
  {
    if x > 0.0 {
      RoundNear(x);
      Binade(x);
      ScaleIsProduct(P23, Ulp(x));
    }
  }

  const UP := 16777217.0 / 16777216.0   // 1 + 2^-24
  const DOWN := 16777215.0 / 16777216.0 // 1 - 2^-24

  lemma RoundedFactor(w: real)
    requires w >= 0.0
    ensures 0.0 <= Round(w) && DOWN * w <= Round(w) <= UP * w
  {
    RoundRelative(w);
    RoundNonNegative(w);
  }

  lemma ExponentMonotone(x: real, y: real)
    requires 0.0 < x <= y
    ensures Exponent(x) <= Exponent(y)
  {
    if Exponent(y) < Exponent(x) {
      Pow2Monotone(Exponent(y) + 1, Exponent(x));
    }
  }

  lemma NearestMonotone(x: real, y: real, u: real)
    requires 0.0 <= x <= y < Scale(P24, u) && u > 0.0
    ensures Nearest(x, u) <= Nearest(y, u)
  {
    var j, k := Below(x, u, P24), Below(y, u, P24);
    if k < j {
      ScaleMonotone(k + 1, j, u);
    }
  }

  lemma RoundMonotone(x: real, y: real)
    requires 0.0 <= x <= y
    ensures Round(x) <= Round(y)
  {
    if x == 0.0 {
      if y > 0.0 {
        RoundNear(y);
      }
    } else {
      ExponentMonotone(x, y);
      if Exponent(x) == Exponent(y) {
        var u := Ulp(x);
        Binade(y);
        NearestMonotone(x, y, u);
        ScaleMonotone(Nearest(x, u), Nearest(y, u), u);
      } else {
        RoundNear(x);
        RoundNear(y);
        Pow2Monotone(Exponent(x) + 1, Exponent(y));
      }
    }
  }

  lemma RoundNonNegative(x: real)
    requires x >= 0.0
    ensures Round(x) >= 0.0 && (x > 0.0 ==> Round(x) > 0.0)
  {
    if x > 0.0 {
      RoundNear(x);
    }
  }

  // ----- exact values -----

  lemma {:induction false} ScaleOfOne(n: nat)
    ensures Scale(n, 1.0) == n as real
  {
    if n > 0 {
      ScaleOfOne(n - 1);
    }
  }

  /** A whole multiple of its spacing is not changed by rounding. */
  lemma RoundMultiple(x: real, k: nat)
    requires x > 0.0 && x == Scale(k, Ulp(x))
    ensures Round(x) == x
  {
    var u := Ulp(x);
    Binade(x);
    if k >= P24 {
      ScaleMonotone(P24, k, u);
    }
    BelowIs(x, u, k);
  }

  lemma ExponentOfInt(n: nat)
    requires 1 <= n <= P24
    ensures 0 <= Exponent(n as real) <= 24 && (Exponent(n as real) == 24 ==> n == P24)
  {
    var e := Exponent(n as real);
    Pow2Of24();
    if e < 0 {
      Pow2Monotone(e + 1, 0);
    }
    if e > 24 {
      Pow2Next(24);
      Pow2Monotone(25, e);
    }
  }

  lemma Pow2Of24()
    ensures Pow2(24) == P24 as real
  {
    IntPow2Of23();
    ScaleShift(23, 23);
    ScaleOfOne(P23);
    Pow2Next(23);
  }

  lemma MultipleOfSpacing(n: nat, e: nat) returns (k: nat)
    requires e <= 23
    ensures Scale(k, Pow2(e - 23)) == n as real
  {
    var d := IntPow2(23 - e);
    ScaleShift(23 - e, 0);
    ScaleCompose(n, d, Pow2(e - 23));
    ScaleOfOne(n);
    k := n * d;
  }

  /** Integers up to 2^24 are exact. */
  lemma RoundExact(n: nat)
    requires n <= P24
    ensures Round(n as real) == n as real
  {
    if n > 0 {
      var e := Exponent(n as real);
      ExponentOfInt(n);
      if e == 24 {
        Pow2Of24();
        Binade(n as real);
        RoundMultiple(n as real, P23);
      } else {
        var k := MultipleOfSpacing(n, e);
        RoundMultiple(n as real, k);
      }
    }
  }

  lemma {:induction false} Pow2IsInt(k: nat)
    ensures Pow2(k) == IntPow2(k) as real
  {
    if k > 0 {
      Pow2IsInt(k - 1);
    }
  }

  // ----- conversions -----

  function Ceil(x: real): int {
    -((-x).Floor)
  }

  /** `x as u32`, which saturates. */
  function ToU32(x: int): nat
    requires x >= 0
  {
    if x > 0xFFFF_FFFF then 0xFFFF_FFFF else x
  }

  // ----- operations -----

  /** `a as f32 / b as f32` */
  function FloatQuotient(a: nat, b: nat): (q: real)
    requires b > 0
    ensures q >= 0.0
  {
    RoundNonNegative(a as real);
    RoundNonNegative(b as real);
    RoundNonNegative(Round(a as real) / Round(b as real));
    Round(Round(a as real) / Round(b as real))
  }

  /** `x * y` in single precision */
  function FloatProduct(x: real, y: real): (p: real)
    requires x >= 0.0 && y >= 0.0
    ensures p >= 0.0
  {
    assert x * y >= 0.0;
    RoundNonNegative(x * y);
    Round(x * y)
  }

  /** Both numbers converted, divided, and rounded. */
  ghost predicate IsQuotientOf(a: nat, b: nat, x: real, y: real, q: real) {
    IsRounded(x, a as real) && IsRounded(y, b as real) && y > 0.0 && IsRounded(q, x / y)
  }

  ghost predicate IsQuotient(a: nat, b: nat, q: real) {
    exists x, y :: IsQuotientOf(a, b, x, y, q)
  }

  lemma QuotientIff(a: nat, b: nat, q: real)
    requires b > 0
    ensures q == FloatQuotient(a, b) <==> IsQuotient(a, b, q)
  {
    hide Round, IsRounded;
    var x0, y0 := Round(a as real), Round(b as real);
    RoundNonNegative(a as real);
    RoundNonNegative(b as real);
    RoundIff(a as real, x0);
    RoundIff(b as real, y0);
    RoundIff(x0 / y0, q);
    assert q == FloatQuotient(a, b) ==> IsQuotientOf(a, b, x0, y0, q);
    if IsQuotient(a, b, q) {
      var x, y :| IsQuotientOf(a, b, x, y, q);
      RoundIff(a as real, x);
      RoundIff(b as real, y);
    }
  }

  lemma ProductIff(x: real, y: real, p: real)
    requires x >= 0.0 && y >= 0.0
    ensures p == FloatProduct(x, y) <==> IsRounded(p, x * y)
  {
    hide Round, IsRounded;
    ProductNonNegative(x, y);
    RoundIff(x * y, p);
  }

  lemma ProductNonNegative(x: real, y: real)
    requires x >= 0.0 && y >= 0.0
    ensures x * y >= 0.0
  {
  }

  lemma QuotientAtMostOne(a: nat, b: nat)
    requires a <= b && b > 0
    ensures FloatQuotient(a, b) <= 1.0
  {
    hide Round;
    RoundNonNegative(a as real);
    RoundNonNegative(b as real);
    RoundMonotone(a as real, b as real);
    ShareAtMostOne(Round(a as real), Round(b as real));
    RoundMonotone(Round(a as real) / Round(b as real), 1.0);
    RoundExact(1);
  }

  lemma ShareAtMostOne(x: real, d: real)
    requires 0.0 <= x <= d && d > 0.0
    ensures 0.0 <= x / d <= 1.0
  {
  }

  lemma DivideMonotone(x: real, y: real, d: real)
    requires 0.0 <= x <= y && d > 0.0
    ensures 0.0 <= x / d <= y / d
  {
  }

  lemma QuotientMonotone(a: nat, a': nat, b: nat)
    requires a <= a' && b > 0
    ensures FloatQuotient(a, b) <= FloatQuotient(a', b)
  {
    hide Round;
    RoundNonNegative(a as real);
    RoundNonNegative(b as real);
    RoundMonotone(a as real, a' as real);
    DivideMonotone(Round(a as real), Round(a' as real), Round(b as real));
    RoundMonotone(Round(a as real) / Round(b as real), Round(a' as real) / Round(b as real));
  }

  lemma ProductMonotoneIn(x: real, y: real, c: real)
    requires 0.0 <= x <= y && c >= 0.0
    ensures FloatProduct(x, c) <= FloatProduct(y, c) && FloatProduct(c, x) <= FloatProduct(c, y)
  {
    hide Round;
    assert 0.0 <= x * c <= y * c;
    RoundMonotone(x * c, y * c);
  }
}
