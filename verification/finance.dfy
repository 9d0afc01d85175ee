/**
 * The annuity (capital recovery) factor the scripts use to turn an overnight
 * investment cost into a yearly one.
 */
module Finance {

  /** Product of positives. */
  lemma MulPositive(a: real, b: real)
    requires a > 0.0 && b > 0.0
    ensures a * b > 0.0
  {
  }

  /** Multiplying by a positive number keeps a strict order. */
  lemma MulStrict(x: real, y: real, p: real)
    requires p > 0.0 && x < y
    ensures x * p < y * p
  {
  }

  /** A strict order between products with a positive factor holds between the other factors. */
  lemma MulCancel(x: real, y: real, p: real)
    requires p > 0.0 && x * p < y * p
    ensures x < y
  {
  }

  /** `1 / p` is the inverse of `p`. */
  lemma Inverse(p: real)
    requires p != 0.0
    ensures (1.0 / p) * p == 1.0
  {
  }

  /** `x` to the natural power `k`. */
  function Power(x: real, k: nat): real
  {
    if k == 0 then 1.0 else x * Power(x, k - 1)
  }

  /** A base above one raised to a positive power stays above one. */
  lemma {:induction false} PowerAboveOne(x: real, k: nat)
    requires x > 1.0 && k > 0
    ensures Power(x, k) > 1.0
  {
    if k > 1 {
      PowerAboveOne(x, k - 1);
      var p := Power(x, k - 1);
      assert x * p - p == (x - 1.0) * p;
      assert (x - 1.0) * p > 0.0;
    }
  }

  /** A positive base gives a positive power. */
  lemma {:induction false} PowerPositive(x: real, k: nat)
    requires x > 0.0
    ensures Power(x, k) > 0.0
  {
    if k > 0 {
      PowerPositive(x, k - 1);
    }
  }

  /** The discount factor `(1 + r) ** -n` for an integer lifetime `n`. */
  function Discount(n: int, r: real): real
    requires r > 0.0
  {
    PowerPositive(1.0 + r, if n >= 0 then n else -n);
    if n >= 0 then 1.0 / Power(1.0 + r, n) else Power(1.0 + r, -n)
  }

  /** At a positive rate and a non-zero lifetime the discount factor is not one. */
  lemma DiscountNotOne(n: int, r: real)
    requires r > 0.0 && n != 0
    ensures 0.0 < Discount(n, r) < 1.0 || Discount(n, r) > 1.0
    ensures n > 0 ==> 0.0 < Discount(n, r) < 1.0
  {
    if n > 0 {
      PowerAboveOne(1.0 + r, n);
    } else {
      PowerAboveOne(1.0 + r, -n);
    }
  }

  /**
   * `annuity(n, r)`: `r / (1 - (1 + r) ** -n)` for a positive rate, `1 / n`
   * otherwise (a zero or negative rate). Python raises ZeroDivisionError for
   * `n == 0` in both branches.
   *
   * At a positive rate the factor repays the rate on the whole cost over the
   * discounted lifetime; otherwise it spreads the cost evenly over `n` years.
   * Over a positive lifetime at a positive rate it exceeds the rate itself.
   */
  function Annuity(n: int, r: real): (a: real)
    requires n != 0
    ensures r > 0.0 ==> a * (1.0 - Discount(n, r)) == r
    ensures r <= 0.0 ==> a * (n as real) == 1.0
    ensures r > 0.0 && n > 0 ==> a > r
  {
    if r > 0.0 then
      DiscountNotOne(n, r);
      var d := Discount(n, r);
      assert n > 0 ==> r / (1.0 - d) > r by {
        if n > 0 {
          var q := r / (1.0 - d);
          assert q * (1.0 - d) == r;
          MulStrict(1.0 - d, 1.0, r);
          assert r * (1.0 - d) < q * (1.0 - d);
          MulCancel(r, q, 1.0 - d);
        }
      }
      r / (1.0 - d)
    else
      1.0 / (n as real)
  }

  /** The inductive step of `ShrinkingProduct`, on plain numbers: from `n - 1` to `n`. */
  lemma ShrinkingStep(n: real, r: real, p: real)
    requires n >= 1.0 && r > 0.0 && p > 0.0
    requires (1.0 - (n - 1.0) * r) * p <= 1.0
    ensures (1.0 - n * r) * ((1.0 + r) * p) < 1.0
  {
    var u := 1.0 - (n - 1.0) * r;
    var w := r * r * n;
    assert (u - r) * (1.0 + r) == u - w;
    MulPositive(r, n);
    MulPositive(r, r * n);
    assert w == r * (r * n);
    MulPositive(w, p);
    calc {
      (1.0 - n * r) * ((1.0 + r) * p);
      ((u - r) * (1.0 + r)) * p;
      (u - w) * p;
      u * p - w * p;
    }
  }

  /** `ShrinkingStep` with the previous count `m` and the next power `q == (1 + r) p` named. */
  lemma ShrinkingStepAt(m: real, n: real, r: real, p: real, q: real)
    requires m >= 0.0 && n == m + 1.0 && r > 0.0 && p > 0.0 && q == (1.0 + r) * p
    requires (1.0 - m * r) * p <= 1.0
    ensures (1.0 - n * r) * q < 1.0
  {
    assert n - 1.0 == m;
    ShrinkingStep(n, r, p);
  }

  /**
   * Bernoulli-type bound: `(1 - n r) (1 + r) ** n <= 1`, strictly once
   * `n >= 1`.
   */
  lemma {:induction false} ShrinkingProduct(n: nat, r: real)
    requires r > 0.0
    ensures (1.0 - (n as real) * r) * Power(1.0 + r, n) <= 1.0
    ensures n > 0 ==> (1.0 - (n as real) * r) * Power(1.0 + r, n) < 1.0
  {
    if n > 0 {
      ShrinkingProduct(n - 1, r);
      PowerPositive(1.0 + r, n - 1);
      ShrinkingStepAt((n - 1) as real, n as real, r, Power(1.0 + r, n - 1), Power(1.0 + r, n));
    }
  }

  /** A number whose product with `p > 0` stays below one is below `1 / p`. */
  lemma BelowInverse(c: real, p: real)
    requires p > 0.0 && c * p < 1.0
    ensures c < 1.0 / p
  {
    Inverse(p);
    var q := 1.0 / p;
    var cp, qp := c * p, q * p;
    assert qp == 1.0;
    assert cp < qp;
    MulCancel(c, q, p);
  }

  /** From `a e == r` with `0 < e < n r` follows `a n > 1`. */
  lemma ProductAboveOne(a: real, e: real, nr: real, r: real)
    requires r > 0.0 && 0.0 < e < nr * r && a * e == r
    ensures a * nr > 1.0
  {
    var ae := a * e;
    assert 0.0 * e < ae;
    MulCancel(0.0, a, e);
    var m := nr * r;
    MulStrict(e, m, a);
    var ma := m * a;
    assert ae < ma;
    var an := a * nr;
    assert ma == an * r;
    assert 1.0 * r < an * r;
    MulCancel(1.0, an, r);
  }

  /** The discount factor lies above its tangent `1 - n r`. */
  lemma DiscountAboveTangent(n: nat, r: real)
    requires n > 0 && r > 0.0
    ensures Discount(n, r) > 1.0 - (n as real) * r
  {
    ShrinkingProduct(n, r);
    PowerAboveOne(1.0 + r, n);
    var c := 1.0 - (n as real) * r;
    var pw := Power(1.0 + r, n);
    var cpw := c * pw;
    assert cpw < 1.0;
    BelowInverse(c, pw);
  }

  /**
   * With interest the yearly factor is dearer than straight-line
   * depreciation: for `r > 0` the annuity exceeds `annuity(n, 0) = 1 / n`.
   */
  lemma AnnuityAboveStraightLine(n: nat, r: real)
    requires n > 0 && r > 0.0
    ensures Annuity(n, r) > Annuity(n, 0.0)
  {
    var nr := n as real;
    var d := Discount(n, r);
    DiscountAboveTangent(n, r);
    DiscountNotOne(n, r);
    var a := Annuity(n, r);
    assert a * (1.0 - d) == r;
    ProductAboveOne(a, 1.0 - d, nr, r);
    Inverse(nr);
    var inv := 1.0 / nr;
    var x, y := inv * nr, a * nr;
    assert x < y;
    MulCancel(inv, a, nr);
    assert Annuity(n, 0.0) == inv;
  }
}
