/** Bytes, machine-word arithmetic and the few bitwise operations the radio code
    uses, all written over mathematical integers. */
module Bytes {
  type byte = x: int | 0 <= x < 256

  const TWO_TO_32: nat := 0x1_0000_0000
  const TWO_TO_64: nat := 0x1_0000_0000_0000_0000

  function Pow2(n: nat): (p: nat)
    ensures p > 0
  {
    if n == 0 then 1 else 2 * Pow2(n - 1)
  }

  /** Bitwise exclusive or of the low `width` bits. */
  function XorBits(a: nat, b: nat, width: nat): (r: nat)
    ensures r < Pow2(width)
  {
    if width == 0 then 0
    else (if a % 2 == b % 2 then 0 else 1) + 2 * XorBits(a / 2, b / 2, width - 1)
  }

  /** Bitwise or of the low `width` bits. */
  function OrBits(a: nat, b: nat, width: nat): (r: nat)
    ensures r < Pow2(width)
  {
    if width == 0 then 0
    else (if a % 2 == 1 || b % 2 == 1 then 1 else 0) + 2 * OrBits(a / 2, b / 2, width - 1)
  }

  /** Bitwise and of the low `width` bits. */
  function AndBits(a: nat, b: nat, width: nat): (r: nat)
    ensures r < Pow2(width)
  {
    if width == 0 then 0
    else (if a % 2 == 1 && b % 2 == 1 then 1 else 0) + 2 * AndBits(a / 2, b / 2, width - 1)
  }

  lemma Pow2Of8()
    ensures Pow2(8) == 256
  {
    assert Pow2(4) == 16;
    assert Pow2(8) == 2 * 2 * 2 * 2 * Pow2(4);
  }

  function Xor(a: byte, b: byte): byte {
    Pow2Of8();
    XorBits(a, b, 8)
  }

  function Or(a: byte, b: byte): byte {
    Pow2Of8();
    OrBits(a, b, 8)
  }

  function And(a: byte, b: byte): byte {
    Pow2Of8();
    AndBits(a, b, 8)
  }

  /** Bit k of a byte. */
  predicate BitOf(x: byte, k: nat)
    requires k < 8
  {
    x / [1, 2, 4, 8, 16, 32, 64, 128][k] % 2 == 1
  }

  lemma DivTwice(x: nat, d: nat, p: nat)
    requires d > 0 && p > 0
    ensures d * p > 0 && x / (d * p) == x / d / p
  {
    var y := x / d;
    var q, r := y / p, y % p;
    assert x == d * y + x % d && y == p * q + r;
    assert d * (p * q + r) == q * (d * p) + d * r;
    MulLess(r, p, d, x % d);
    DivModUnique(x, d * p, q, d * r + x % d);
  }

  lemma MulLess(r: nat, p: nat, d: nat, s: nat)
    requires r < p && s < d
    ensures 0 <= d * r + s < d * p && d * p > 0
  {
    assert d * r <= d * (p - 1);
  }

  lemma LowAndRest(x: nat, low: nat, rest: nat)
    requires low < 2 && x == low + 2 * rest
    ensures x % 2 == low && x / 2 == rest
  {
  }

  lemma BitOfHalf(x: nat, k: nat)
    requires k > 0
    ensures x / Pow2(k) == x / 2 / Pow2(k - 1)
  {
    DivTwice(x, 2, Pow2(k - 1));
  }

  lemma {:induction false} BitsOfXor(a: nat, b: nat, width: nat, k: nat)
    requires k < width
    ensures XorBits(a, b, width) / Pow2(k) % 2 == 1 <==> a / Pow2(k) % 2 != b / Pow2(k) % 2
    decreases k
  {
    var x := XorBits(a, b, width);
    LowAndRest(x, if a % 2 == b % 2 then 0 else 1, XorBits(a / 2, b / 2, width - 1));
    hide XorBits;
    assert Pow2(0) == 1;
    if k > 0 {
      BitsOfXor(a / 2, b / 2, width - 1, k - 1);
      BitOfHalf(x, k);
      BitOfHalf(a, k);
      BitOfHalf(b, k);
      hide Pow2;
    }
  }

  lemma {:induction false} BitsOfOr(a: nat, b: nat, width: nat, k: nat)
    requires k < width
    ensures OrBits(a, b, width) / Pow2(k) % 2 == 1 <==> a / Pow2(k) % 2 == 1 || b / Pow2(k) % 2 == 1
    decreases k
  {
    var x := OrBits(a, b, width);
    LowAndRest(x, if a % 2 == 1 || b % 2 == 1 then 1 else 0, OrBits(a / 2, b / 2, width - 1));
    hide OrBits;
    assert Pow2(0) == 1;
    if k > 0 {
      BitsOfOr(a / 2, b / 2, width - 1, k - 1);
      BitOfHalf(x, k);
      BitOfHalf(a, k);
      BitOfHalf(b, k);
      hide Pow2;
    }
  }

  lemma {:induction false} BitsOfAnd(a: nat, b: nat, width: nat, k: nat)
    requires k < width
    ensures AndBits(a, b, width) / Pow2(k) % 2 == 1 <==> a / Pow2(k) % 2 == 1 && b / Pow2(k) % 2 == 1
    decreases k
  {
    var x := AndBits(a, b, width);
    LowAndRest(x, if a % 2 == 1 && b % 2 == 1 then 1 else 0, AndBits(a / 2, b / 2, width - 1));
    hide AndBits;
    assert Pow2(0) == 1;
    if k > 0 {
      BitsOfAnd(a / 2, b / 2, width - 1, k - 1);
      BitOfHalf(x, k);
      BitOfHalf(a, k);
      BitOfHalf(b, k);
      hide Pow2;
    }
  }

  lemma {:induction false} Pow2Values(k: nat)
    requires k < 8
    ensures Pow2(k) == [1, 2, 4, 8, 16, 32, 64, 128][k]
  {
    assert Pow2(0) == 1 && Pow2(2) == 4 && Pow2(4) == 16 && Pow2(6) == 64;
  }

  /** Exclusive or: a bit is set exactly if it is set in one of the two and not in both. */
  lemma XorBit(a: byte, b: byte, k: nat)
    requires k < 8
    ensures BitOf(Xor(a, b), k) <==> BitOf(a, k) != BitOf(b, k)
  {
    Pow2Of8();
    Pow2Values(k);
    BitsOfXor(a, b, 8, k);
  }

  /** Or: a bit is set exactly if it is set in one of the two. */
  lemma OrBit(a: byte, b: byte, k: nat)
    requires k < 8
    ensures BitOf(Or(a, b), k) <==> BitOf(a, k) || BitOf(b, k)
  {
    Pow2Of8();
    Pow2Values(k);
    BitsOfOr(a, b, 8, k);
  }

  /** And: a bit is set exactly if it is set in both. */
  lemma AndBit(a: byte, b: byte, k: nat)
    requires k < 8
    ensures BitOf(And(a, b), k) <==> BitOf(a, k) && BitOf(b, k)
  {
    Pow2Of8();
    Pow2Values(k);
    BitsOfAnd(a, b, 8, k);
  }

  lemma {:induction false} XorBitsTwice(a: nat, b: nat, width: nat)
    requires a < Pow2(width)
    ensures XorBits(XorBits(a, b, width), b, width) == a
  {
    if width > 0 {
      XorBitsTwice(a / 2, b / 2, width - 1);
      var x := XorBits(a, b, width);
      assert x / 2 == XorBits(a / 2, b / 2, width - 1);
    }
  }

  /** Masking a byte twice with the same key gives the byte back. */
  lemma XorTwice(a: byte, b: byte)
    ensures Xor(Xor(a, b), b) == a
  {
    Pow2Of8();
    XorBitsTwice(a, b, 8);
  }

  /** Or of values with no common bit is their sum: the low `k` bits of `high`
      are zero and `low` fits in them. */
  lemma {:induction false} OrBitsDisjoint(high: nat, low: nat, k: nat, width: nat)
    requires k <= width
    requires high < Pow2(width) && low < Pow2(k)
    requires high % Pow2(k) == 0
    ensures OrBits(high, low, width) == high + low
  {
    if width > 0 {
      if k == 0 {
        assert low == 0;
        OrBitsDisjoint(high / 2, 0, 0, width - 1);
      } else {
        HalfOfMultiple(high, Pow2(k - 1));
        OrBitsDisjoint(high / 2, low / 2, k - 1, width - 1);
      }
    }
  }

  lemma HalfOfMultiple(x: nat, p: nat)
    requires p > 0 && x % (2 * p) == 0
    ensures x % 2 == 0 && (x / 2) % p == 0
  {
    var q := x / (2 * p);
    assert x == 2 * p * q;
    assert 2 * p * q == 2 * (q * p);
    MultipleMod(q, p);
  }

  lemma MultipleMod(q: nat, p: nat)
    requires p > 0
    ensures (q * p) % p == 0
  {
    DivModUnique(q * p, p, q, 0);
  }

  lemma MulAtLeast(k: int, d: int)
    requires k >= 1 && d > 0
    ensures k * d >= d
  {
  }

  /** A quotient and remainder are determined by their defining equation. */
  lemma DivModUnique(x: int, d: int, q: int, r: int)
    requires d > 0 && 0 <= r < d && x == q * d + r
    ensures x / d == q && x % d == r
  {
    var q', r' := x / d, x % d;
    var k := q' - q;
    assert k * d == r - r' by {
      assert x == d * q' + r';
      assert k * d == q' * d - q * d;
    }
    if k >= 1 { MulAtLeast(k, d); }
    if k <= -1 { MulAtLeast(-k, d); }
  }

  /** The `width` low bytes of n, most significant first. */
  function BigEndian(n: nat, width: nat): (b: seq<byte>)
    ensures |b| == width
  {
    if width == 0 then [] else BigEndian(n / 256, width - 1) + [n % 256]
  }

  function FromBigEndian(b: seq<byte>): nat {
    if b == [] then 0 else 256 * FromBigEndian(b[..|b| - 1]) + b[|b| - 1]
  }

  lemma {:induction false} FourBytes(n: nat)
    ensures BigEndian(n, 4) == [n / 256 / 256 / 256 % 256, n / 256 / 256 % 256, n / 256 % 256, n % 256]
  {
    var n1, n2, n3 := n / 256, n / 256 / 256, n / 256 / 256 / 256;
    assert BigEndian(n3, 1) == [] + [n3 % 256];
    assert BigEndian(n2, 2) == BigEndian(n3, 1) + [n2 % 256];
    assert BigEndian(n1, 3) == BigEndian(n2, 2) + [n1 % 256];
  }

  /** Byte i is the number divided by the place value of what follows it, modulo 256. */
  lemma {:induction false} BigEndianWord(n: nat, i: nat)
    requires i < 4
    ensures BigEndian(n, 4)[i] == n / [0x100_0000, 0x1_0000, 0x100, 1][i] % 256
  {
    FourBytes(n);
    DivTwice(n, 256, 256);
    DivTwice(n, 0x1_0000, 256);
    hide BigEndian;
  }

  function Pow256(n: nat): (p: nat)
    ensures p > 0
  {
    if n == 0 then 1 else 256 * Pow256(n - 1)
  }

  lemma {:induction false} BigEndianRoundTrip(n: nat, width: nat)
    requires n < Pow256(width)
    ensures FromBigEndian(BigEndian(n, width)) == n
  {
    if width > 0 {
      BigEndianRoundTrip(n / 256, width - 1);
      var b := BigEndian(n, width);
      assert b[..width - 1] == BigEndian(n / 256, width - 1);
    }
  }

  lemma Pow256Values()
    ensures Pow256(2) == 0x1_0000 && Pow256(4) == TWO_TO_32
  {
    assert Pow256(1) == 256;
    assert Pow256(2) == 256 * Pow256(1);
    assert Pow256(3) == 256 * Pow256(2);
    assert Pow256(4) == 256 * Pow256(3);
  }
}
