/** Greatest common divisors. */
module Divisors {
  import opened Bytes

  function Gcd(a: nat, b: nat): nat
    decreases b
  {
    if b == 0 then a else Gcd(b, a % b)
  }

  /** The divisor is a combination of the two numbers. */
  lemma {:induction false} Bezout(a: nat, b: nat) returns (x: int, y: int)
    ensures a * x + b * y == Gcd(a, b)
    decreases b
  {
    if b == 0 {
      x, y := 1, 0;
    } else {
      var u, v := Bezout(b, a % b);
      var q := a / b;
      x, y := v, u - q * v;
      assert a == b * q + a % b;
      assert a * v == b * q * v + (a % b) * v;
      assert b * (u - q * v) == b * u - b * q * v;
    }
  }

  lemma {:induction false} GcdDivides(a: nat, b: nat)
    requires a + b > 0
    ensures Gcd(a, b) > 0 && a % Gcd(a, b) == 0 && b % Gcd(a, b) == 0
    decreases b
  {
    if b == 0 {
      DivModUnique(a, a, 1, 0);
      DivModUnique(0, a, 0, 0);
    } else {
      GcdDivides(b, a % b);
      var g := Gcd(a, b);
      CombineMultiples(b, a / b, a % b, g);
    }
  }

  lemma CombineMultiples(b: nat, q: nat, r: nat, g: nat)
    requires g > 0 && b % g == 0 && r % g == 0
    ensures (b * q + r) % g == 0
  {
    var m, n := b / g, r / g;
    assert b == g * m && r == g * n;
    assert b * q + r == (m * q + n) * g;
    MultipleMod(m * q + n, g);
  }

  lemma {:induction false} GcdAtMost(a: nat, b: nat)
    requires a > 0
    ensures Gcd(a, b) <= a
  {
    GcdDivides(a, b);
    var g := Gcd(a, b);
    if g > a {
      DivModUnique(a, g, 0, a);
    }
  }
}
