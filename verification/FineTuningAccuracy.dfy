/** How close the shown progress and loss are to the exact ones, at every epoch. */
module FineTuningAccuracy {
  import opened Float32
  import opened FineTuning

  lemma LeTimes(x: real, y: real, b: real)
    requires b >= 0.0 && x <= y
    ensures x * b <= y * b && b * x <= b * y
  {
  }

  lemma Reorder(a: real, b: real, c: real)
    ensures (a * b) * c == a * (b * c) == (a * c) * b
  {
  }

  /** A quotient of rounded numbers, rounded: two factors from the operands, one from the quotient. */
  lemma QuotientFactors(e: real, t: real, x: real, y: real, z: real, q: real)
    requires 0.0 <= e && t > 0.0 && DOWN * e <= x <= UP * e && DOWN * t <= y <= UP * t && y > 0.0
    requires z == x / y && DOWN * z <= q <= UP * z && q >= 0.0
    ensures (DOWN * DOWN) * e <= UP * (q * t) && DOWN * (q * t) <= (UP * UP) * e
  {
    assert z * y == x;
    assert q * y <= UP * x by {
      LeTimes(q, UP * z, y);
      Reorder(UP, z, y);
    }
    assert DOWN * x <= q * y by {
      LeTimes(DOWN * z, q, y);
      Reorder(DOWN, z, y);
    }
    ScaledFactor(DOWN, q, t, y);
    ScaledFactor(UP, q, t, y);
    FactorsChain(e, x, q * y, q * t);
  }

  /** A factor between `c * t` bounds is one between `c * (q * t)` after multiplication. */
  lemma ScaledFactor(c: real, q: real, t: real, y: real)
    requires q >= 0.0
    ensures c * t <= y ==> c * (q * t) <= q * y
    ensures y <= c * t ==> q * y <= c * (q * t)
  {
    assert q * (c * t) == c * (q * t) by {
      Reorder(c, q, t);
      Reorder(q, c, t);
    }
    if c * t <= y {
      LeTimes(c * t, y, q);
    }
    if y <= c * t {
      LeTimes(y, c * t, q);
    }
  }

  lemma FactorsChain(e: real, x: real, qy: real, qt: real)
    requires DOWN * e <= x <= UP * e && DOWN * x <= qy <= UP * x && DOWN * qt <= qy <= UP * qt
    ensures (DOWN * DOWN) * e <= UP * qt && DOWN * qt <= (UP * UP) * e
  {
  }

  lemma EpochQuotient(epoch: nat, total: nat)
    requires 0 < epoch <= total
    ensures var e, t, q := epoch as real, total as real, FloatQuotient(epoch, total);
            (DOWN * DOWN) * e <= UP * (q * t) && DOWN * (q * t) <= (UP * UP) * e
  {
    hide Round;
    var e, t := epoch as real, total as real;
    RoundedFactor(e);
    RoundedFactor(t);
    RoundNonNegative(t);
    var z := Round(e) / Round(t);
    DivideNonNegative(Round(e), Round(t));
    RoundedFactor(z);
    QuotientFactors(e, t, Round(e), Round(t), z, Round(z));
  }

  lemma DivideNonNegative(x: real, y: real)
    requires x >= 0.0 && y > 0.0
    ensures x / y >= 0.0
  {
  }

  /** The shown progress of every epoch is 100 e / t up to a relative error of 5 * 2^-24. */
  lemma ProgressIsNear(epoch: nat, total: nat)
    requires 0 < epoch <= total
    ensures var exact, shown := 100.0 * epoch as real, Progress(epoch, total) * total as real;
            exact - 5.0 * exact / P24 as real <= shown <= exact + 5.0 * exact / P24 as real
  {
    hide Round;
    var e, t, q := epoch as real, total as real, FloatQuotient(epoch, total);
    EpochQuotient(epoch, total);
    RoundedFactor(q * 100.0);
    var p := Progress(epoch, total);
    assert p == Round(q * 100.0);
    LeTimes(p, UP * (q * 100.0), t);
    LeTimes(DOWN * (q * 100.0), p, t);
    PercentTimes(UP, q, t);
    PercentTimes(DOWN, q, t);
    ProgressBounds(e, q * t, p * t);
  }

  lemma PercentTimes(c: real, q: real, t: real)
    ensures (c * (q * 100.0)) * t == (100.0 * c) * (q * t)
  {
    Reorder(100.0 * c, q, t);
    assert c * (q * 100.0) == (100.0 * c) * q;
  }

  lemma ProgressBounds(e: real, share: real, shown: real)
    requires e >= 0.0 && (DOWN * DOWN) * e <= UP * share && DOWN * share <= (UP * UP) * e
    requires (100.0 * DOWN) * share <= shown <= (100.0 * UP) * share
    ensures 100.0 * e - 500.0 * e / P24 as real <= shown <= 100.0 * e + 500.0 * e / P24 as real
  {
  }

  /** The shown loss of every epoch is 2 (1 - e / t) up to an error of 2^-20. */
  lemma LossIsNear(epoch: nat, total: nat)
    requires 0 < epoch <= total
    ensures var exact := 2.0 * (1.0 - epoch as real / total as real);
            exact - 16.0 / P24 as real <= Loss(epoch, total) <= exact + 16.0 / P24 as real
  {
    hide Round;
    var q, share := FloatQuotient(epoch, total), epoch as real / total as real;
    QuotientIsNear(epoch, total);
    QuotientAtMostOne(epoch, total);
    RoundedFactor(1.0 - q);
    RoundedFactor(2.0 * Round(1.0 - q));
    LossBounds(share, q, Round(1.0 - q), Loss(epoch, total));
  }

  lemma QuotientIsNear(epoch: nat, total: nat)
    requires 0 < epoch <= total
    ensures var q, share := FloatQuotient(epoch, total), epoch as real / total as real;
            0.0 <= share <= 1.0 && share - 4.0 / P24 as real <= q <= share + 4.0 / P24 as real
  {
    hide FloatQuotient;
    var e, t, q := epoch as real, total as real, FloatQuotient(epoch, total);
    EpochQuotient(epoch, total);
    NearByTotal(e, t, q, e / t);
  }

  lemma NearByTotal(e: real, t: real, q: real, share: real)
    requires 0.0 < e <= t && share * t == e
    requires (DOWN * DOWN) * e <= UP * (q * t) && DOWN * (q * t) <= (UP * UP) * e
    ensures 0.0 <= share <= 1.0 && share - 4.0 / P24 as real <= q <= share + 4.0 / P24 as real
  {
    var u := 4.0 / P24 as real;
    TotalBounds(e, t, q * t);
    AtMostBy(q, share + u, t, q * t);
    AtMostBy(share - u, q, t, (share - u) * t);
    AtMostBy(share, 1.0, t, e);
    AtMostBy(0.0, share, t, 0.0);
  }

  lemma TotalBounds(e: real, t: real, shown: real)
    requires 0.0 < e <= t && (DOWN * DOWN) * e <= UP * shown && DOWN * shown <= (UP * UP) * e
    ensures e - (4.0 / P24 as real) * t <= shown <= e + (4.0 / P24 as real) * t
  {
  }

  lemma AtMostBy(x: real, y: real, t: real, xt: real)
    requires t > 0.0 && xt == x * t && xt <= y * t
    ensures x <= y
  {
  }

  lemma LossBounds(share: real, q: real, r: real, loss: real)
    requires 0.0 <= share <= 1.0 && 0.0 <= q <= 1.0
    requires share - 4.0 / P24 as real <= q <= share + 4.0 / P24 as real
    requires DOWN * (1.0 - q) <= r <= UP * (1.0 - q) && DOWN * (2.0 * r) <= loss <= UP * (2.0 * r)
    ensures 2.0 * (1.0 - share) - 16.0 / P24 as real <= loss <= 2.0 * (1.0 - share) + 16.0 / P24 as real
  {
  }

  // ----- one rounding after another -----

  /** `p` is the rounded product of the rounded quotient and 100. */
  ghost predicate IsProgress(epoch: nat, total: nat, p: real) {
    exists q :: IsQuotient(epoch, total, q) && IsRounded(p, q * 100.0)
  }

  /** `l` is twice the rounded difference of 1 and the rounded quotient, rounded. */
  ghost predicate IsLoss(epoch: nat, total: nat, l: real) {
    exists q :: IsQuotient(epoch, total, q) && TwiceOneMinus(q, l)
  }

  ghost predicate TwiceOneMinus(q: real, l: real) {
    exists d :: TwiceRounded(q, d, l)
  }

  ghost predicate TwiceRounded(q: real, d: real, l: real) {
    IsRounded(d, 1.0 - q) && IsRounded(l, 2.0 * d)
  }

  lemma ProgressIff(epoch: nat, total: nat, p: real)
    requires 0 < epoch <= total
    ensures p == Progress(epoch, total) <==> IsProgress(epoch, total, p)
  {
    hide IsRounded, FloatQuotient, FloatProduct, IsQuotient;
    var q := FloatQuotient(epoch, total);
    ProductIff(q, 100.0, p);
    QuotientIff(epoch, total, q);
    if IsProgress(epoch, total, p) {
      var q' :| IsQuotient(epoch, total, q') && IsRounded(p, q' * 100.0);
      QuotientIff(epoch, total, q');
    }
  }

  lemma TwiceOneMinusIff(q: real, l: real)
    requires 0.0 <= q <= 1.0
    ensures Round(1.0 - q) >= 0.0
    ensures l == FloatProduct(2.0, Round(1.0 - q)) <==> TwiceOneMinus(q, l)
  {
    hide Round, IsRounded, FloatProduct;
    var d := Round(1.0 - q);
    RoundNonNegative(1.0 - q);
    RoundIff(1.0 - q, d);
    ProductIff(2.0, d, l);
    assert IsRounded(l, 2.0 * d) ==> TwiceRounded(q, d, l);
    if TwiceOneMinus(q, l) {
      var d' :| TwiceRounded(q, d', l);
      RoundIff(1.0 - q, d');
    }
  }

  lemma LossIff(epoch: nat, total: nat, l: real)
    requires 0 < epoch <= total
    ensures l == Loss(epoch, total) <==> IsLoss(epoch, total, l)
  {
    hide Round, FloatQuotient, FloatProduct, IsQuotient, TwiceOneMinus;
    var q := FloatQuotient(epoch, total);
    QuotientAtMostOne(epoch, total);
    TwiceOneMinusIff(q, l);
    QuotientIff(epoch, total, q);
    if IsLoss(epoch, total, l) {
      var q' :| IsQuotient(epoch, total, q') && TwiceOneMinus(q', l);
      QuotientIff(epoch, total, q');
    }
  }
}
