/** The divider fields of an Si5351 synthesiser and the eight registers that hold them. */
module SynthRegisters {
  import opened Bytes
  import opened Fractions

  /** A divider a + b/c, as the chip has it. */
  datatype Fields = Fields(p1: nat, p2: nat, p3: nat)

  const TWO_TO_18: nat := 0x4_0000
  const TWO_TO_20: nat := 0x10_0000

  predicate Fits(f: Fields) {
    f.p1 < TWO_TO_18 && f.p2 < TWO_TO_20 && 0 < f.p3 < TWO_TO_20
  }

  /** P1 as an unsigned word, which wraps round if a is under 4. */
  function FieldsFor(a: nat, b: nat, c: nat): Fields
    requires c > 0
  {
    var whole := 128 * b / c;
    Quotient(128 * b, c);
    Fields((128 * a + whole - 512) % TWO_TO_32, 128 * b - c * whole, c)
  }

  lemma Quotient(x: nat, c: nat)
    requires c > 0
    ensures 0 <= x - c * (x / c) < c
  {
  }

  /** The divider the chip makes of its fields. */
  function Divider(f: Fields): real
    requires f.p3 > 0
  {
    (f.p1 as real + 512.0 + f.p2 as real / f.p3 as real) / 128.0
  }

  /** The fields mean exactly a + b/c. */
  lemma FieldsDecode(a: nat, b: nat, c: nat)
    requires c > 0 && 4 <= a && 128 * a + 128 * b / c < TWO_TO_32
    ensures FieldsFor(a, b, c).p2 < c && FieldsFor(a, b, c).p1 == 128 * a + 128 * b / c - 512
    ensures Divider(FieldsFor(a, b, c)) == a as real + b as real / c as real
  {
    var f := FieldsFor(a, b, c);
    var whole := 128 * b / c;
    Quotient(128 * b, c);
    assert f.p1 == 128 * a + whole - 512;
    assert f.p2 + c * whole == 128 * b;
    SumOfRatios(f.p2, c, whole, 128 * b);
    CastMul(128, b);
    var x := Ratio(b as real, c as real);
    var y := Ratio((128 * b) as real, c as real);
    assert y * c as real == 128.0 * x * c as real;
    if y < 128.0 * x {
      SameFactor(y, 128.0 * x, c as real);
    }
    if 128.0 * x < y {
      SameFactor(128.0 * x, y, c as real);
    }
  }

  // ----- the registers -----

  /** The eight registers, with `top` in the high bits of the third. */
  function Pack(f: Fields, top: nat): (v: seq<byte>)
    requires top < 256 && top % 4 == 0
    ensures |v| == 8
  {
    [f.p3 / 256 % 256, f.p3 % 256,
     top + f.p1 / 0x1_0000 % 4, f.p1 / 256 % 256, f.p1 % 256,
     f.p3 / 0x1_0000 % 16 * 16 + f.p2 / 0x1_0000 % 16, f.p2 / 256 % 256, f.p2 % 256]
  }

  function Joined(high: nat, middle: byte, low: byte): nat {
    high * 0x1_0000 + middle as int * 256 + low
  }

  function Unpack(v: seq<byte>): Fields
    requires |v| == 8
  {
    Fields(Joined(v[2] % 4, v[3], v[4]), Joined(v[5] % 16, v[6], v[7]), Joined(v[5] / 16, v[0], v[1]))
  }

  function TopOf(v: seq<byte>): nat
    requires |v| == 8
  {
    v[2] - v[2] % 4
  }

  lemma SplitBytes(n: nat, k: nat)
    requires k > 0 && n < k * 0x1_0000
    ensures n == Joined(n / 0x1_0000 % k, n / 256 % 256, n % 256)
  {
    assert n / 0x1_0000 < k;
    assert n / 256 / 256 == n / 0x1_0000;
  }

  /** The registers give back what was packed, whenever the fields fit. */
  lemma UnpackPack(f: Fields, top: nat)
    requires Fits(f) && top < 256 && top % 4 == 0
    ensures Unpack(Pack(f, top)) == f && TopOf(Pack(f, top)) == top
  {
    var v := Pack(f, top);
    SplitBytes(f.p1, 4);
    SplitBytes(f.p2, 16);
    SplitBytes(f.p3, 16);
    hide Joined;
    var h1, h2, h3 := f.p1 / 0x1_0000 % 4, f.p2 / 0x1_0000 % 16, f.p3 / 0x1_0000 % 16;
    assert v[2] == top + h1 && v[5] == h3 * 16 + h2;
    LowPart(top / 4, h1, 4);
    LowPart(h3, h2, 16);
    assert v[3] == f.p1 / 256 % 256 && v[4] == f.p1 % 256;
    assert v[6] == f.p2 / 256 % 256 && v[7] == f.p2 % 256;
    assert v[0] == f.p3 / 256 % 256 && v[1] == f.p3 % 256;
  }

  lemma LowPart(q: nat, r: nat, k: nat)
    requires r < k
    ensures (q * k + r) % k == r && (q * k + r) / k == q
  {
    DivModUnique(q * k + r, k, q, r);
  }
}
