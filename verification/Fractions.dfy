/** Quotients of integers, compared as real numbers. */
module Fractions {

  lemma CastMul(a: int, b: int)
    ensures (a * b) as real == a as real * b as real
  {
  }

  lemma MulMonotone(a: int, b: int, k: nat)
    requires a <= b
    ensures a * k <= b * k
  {
  }

  lemma DivMonotone(r: nat, f: nat, k: nat)
    requires k > 0 && r <= f
    ensures r / k <= f / k
  {
    if r / k >= f / k + 1 {
      MulMonotone(f / k + 1, r / k, k);
    }
  }

  lemma DivBelow(v: nat, f: nat, k: nat)
    requires f > 0 && v < k * f
    ensures v / f < k
  {
    if v / f >= k {
      MulMonotone(k, v / f, f);
    }
  }

  lemma DivAtLeast(v: nat, f: nat, k: nat)
    requires f > 0 && k * f <= v
    ensures k <= v / f
  {
    if v / f + 1 <= k {
      MulMonotone(v / f + 1, k, f);
    }
  }

  lemma RealMul(a: real, b: real, k: real)
    requires a <= b && k > 0.0
    ensures a * k <= b * k
  {
  }

  lemma LessByFactor(a: real, b: real, k: real)
    requires k > 0.0 && a * k < b * k
    ensures a < b
  {
    if a >= b {
      RealMul(b, a, k);
    }
  }

  lemma Ratio(b: real, c: real) returns (x: real)
    requires c > 0.0
    ensures x == b / c && x * c == b
  {
    x := b / c;
  }

  lemma NegatedProduct(e: real, c: real)
    ensures (0.0 - e) * c == 0.0 - e * c
  {
  }

  lemma Within(d: real, e: real, c: real, f: real, n: real)
    requires c > 0.0 && f > 0.0 && e * c == 1.0 && d * c * f == n && 0.0 - f < n < f
    ensures 0.0 - e < d < e
  {
    var z := d * c;
    LessByFactor(z, 1.0, f);
    LessByFactor(0.0 - 1.0, z, f);
    LessByFactor(d, e, c);
    NegatedProduct(e, c);
    LessByFactor(0.0 - e, d, c);
  }

  lemma CrossMultiplied(x: real, y: real, c: real, f: real, b: real, r: real)
    requires x * c == b && y * f == r
    ensures (x - y) * c * f == b * f - r * c
  {
    assert (x - y) * c * f == (x * c) * f - (y * f) * c;
  }

  /** Two fractions whose cross products differ by less than f are less than 1/c apart. */
  lemma FractionsAreClose(b: nat, c: nat, r: nat, f: nat)
    requires c > 0 && f > 0 && 0 - f < b * f - r * c < f
    ensures
      var d := b as real / c as real - r as real / f as real;
      0.0 - 1.0 / c as real < d < 1.0 / c as real
  {
    var x := Ratio(b as real, c as real);
    var y := Ratio(r as real, f as real);
    var e := Ratio(1.0, c as real);
    CrossMultiplied(x, y, c as real, f as real, b as real, r as real);
    CastMul(b, f);
    CastMul(r, c);
    var n := (b * f - r * c) as real;
    assert n == b as real * f as real - r as real * c as real;
    Within(x - y, e, c as real, f as real, n);
  }

  /** A quotient is its whole part and the fraction of the remainder. */
  lemma WholeAndPart(v: nat, f: nat)
    requires f > 0
    ensures v as real / f as real == (v / f) as real + (v % f) as real / f as real
  {
    SumOfRatios(v % f, f, v / f, v);
  }

  lemma SumOfRatios(p: nat, c: nat, w: nat, x: nat)
    requires c > 0 && p + c * w == x
    ensures p as real / c as real + w as real == x as real / c as real
  {
    CastMul(c, w);
    var q := Ratio(p as real, c as real);
    var s := Ratio(x as real, c as real);
    assert (q + w as real) * c as real == s * c as real;
    if q + w as real < s {
      SameFactor(q + w as real, s, c as real);
    }
    if s < q + w as real {
      SameFactor(s, q + w as real, c as real);
    }
  }

  lemma SameFactor(a: real, b: real, k: real)
    requires a < b && k > 0.0
    ensures a * k < b * k
  {
  }
}
