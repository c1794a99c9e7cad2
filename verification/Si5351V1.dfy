/** Si5351 clocks from a fixed VCO (first radio): a fraction reduced to twenty bits. */
module Si5351V1 {
  import opened Bytes
  import opened Fractions
  import opened SynthRegisters

  const MIN_HZ: nat := 500_000
  const MAX_HZ: nat := 109_000_000

  /** Both halves of a fraction are halved until the lower one has twenty bits. */
  function Reduce(b: nat, c: nat): (nat, nat) {
    if c >= TWO_TO_20 then Reduce(b / 2, c / 2) else (b, c)
  }

  function Fraction(vcoa: nat, fout: nat): (nat, nat)
    requires fout > 0
  {
    Reduce(vcoa % fout, fout)
  }

  /** The field values for a clock, before the output divider is put over P1. */
  function ClockFields(vcoa: nat, fout: nat): Fields
    requires 0 < fout && Fraction(vcoa, fout).1 > 0
  {
    FieldsFor(vcoa / fout, Fraction(vcoa, fout).0, Fraction(vcoa, fout).1)
  }

  // ----- the reduction -----

  /** By one power of two, of which both remainders are short of a whole. */
  lemma {:induction false} ReduceIs(b: nat, c: nat) returns (k: nat)
    requires c > 0
    ensures k == Pow2k(c)
    ensures Reduce(b, c).1 == c / k && Reduce(b, c).0 == b / k
    ensures 0 < Reduce(b, c).1 < TWO_TO_20
    ensures k > 1 ==> Reduce(b, c).1 >= TWO_TO_20 / 2
    decreases c
  {
    if c >= TWO_TO_20 {
      k := ReduceIs(b / 2, c / 2);
      HalfThen(c, k);
      HalfThen(b, k);
      k := 2 * k;
    } else {
      k := 1;
    }
  }

  function Pow2k(c: nat): (k: nat)
    ensures k > 0
  {
    if c >= TWO_TO_20 then 2 * Pow2k(c / 2) else 1
  }

  lemma HalfThen(x: nat, k: nat)
    requires k > 0
    ensures x / 2 / k == x / (2 * k)
  {
    var q := x / (2 * k);
    var r := x % (2 * k);
    assert x == q * (2 * k) + r;
    assert x / 2 == q * k + r / 2;
    DivModUnique(x / 2, k, q, r / 2);
  }

  /** Cutting both halves of r/f off at k moves the fraction by less than 1/c. */
  lemma CutFraction(r: nat, f: nat, k: nat)
    requires k > 0 && r < f && f / k > 0
    ensures
      var b, c := r / k, f / k;
      b <= c && 0 - f < b * f - r * c < f
  {
    var b, c := r / k, f / k;
    var x, y := r % k, f % k;
    assert r == b * k + x && f == c * k + y;
    assert b <= c by {
      DivMonotone(r, f, k);
    }
    assert b * f - r * c == b * y - x * c by {
      assert b * f == b * c * k + b * y;
      assert r * c == b * k * c + x * c;
      assert b * c * k == b * k * c;
    }
    Below(b, c, y, k);
    Below(c, c, x, k);
  }

  /** Numerator and denominator come out equal exactly if what is missing to a whole is
      no more than what the halving cuts off the denominator. */
  lemma {:induction false} EqualHalvesExactly(vcoa: nat, fout: nat)
    requires fout > 0
    ensures Fraction(vcoa, fout).0 == Fraction(vcoa, fout).1 <==> fout - vcoa % fout <= fout % Pow2k(fout)
  {
    var r := vcoa % fout;
    var k := ReduceIs(r, fout);
    hide Reduce, Pow2k;
    SameQuotients(r, fout, k);
  }

  lemma SameQuotients(r: nat, f: nat, k: nat)
    requires k > 0 && r < f
    ensures r / k == f / k <==> f - r <= f % k
  {
    var c := f / k;
    assert f == k * c + f % k;
    if f - r <= f % k {
      DivModUnique(r, k, c, r - c * k);
    } else {
      assert r < c * k;
      DivBelow(r, k, c);
    }
  }

  /** Such a clock is 87 500 001 Hz from a VCO of 875 MHz. */
  lemma EqualHalves()
    ensures Fraction(875_000_000, 87_500_001) == (683_593, 683_593)
  {
    DivModUnique(875_000_000, 87_500_001, 9, 87_499_991);
    assert Pow2k(683_593) == 1;
    assert Pow2k(5_468_750) == 8 by {
      assert Pow2k(1_367_187) == 2;
      assert Pow2k(2_734_375) == 4;
    }
    assert Pow2k(87_500_001) == 128 by {
      assert Pow2k(10_937_500) == 16;
      assert Pow2k(21_875_000) == 32;
      assert Pow2k(43_750_000) == 64;
    }
    var k := ReduceIs(87_499_991, 87_500_001);
  }

  lemma Below(b: nat, c: nat, y: nat, k: nat)
    requires b <= c && y < k && c > 0
    ensures 0 <= b * y < c * k && 0 <= y * b
  {
    assert b * y <= c * y;
    assert c * y <= c * (k - 1);
    assert c * (k - 1) < c * k;
  }

  // ----- the clock -----

  /** The VCO values for which the fields of every clock in range fit. */
  const VCO_MIN: nat := 436_000_000
  const VCO_MAX: nat := 1_026_000_000

  lemma IntegerPart(vcoa: nat, fout: nat)
    requires VCO_MIN <= vcoa < VCO_MAX && MIN_HZ <= fout <= MAX_HZ
    ensures 4 <= vcoa / fout < 2052 && (fout >= TWO_TO_20 ==> vcoa / fout < 979)
  {
    DivAtLeast(vcoa, fout, 4);
    DivBelow(vcoa, fout, 2052);
    if fout >= TWO_TO_20 {
      DivBelow(vcoa, fout, 979);
    }
  }

  lemma EighthsOfPart(b: nat, c: nat)
    requires b <= c && c > 0
    ensures 128 * b / c <= 128 && (b < c ==> 128 * b / c < 128)
  {
    DivBelow(128 * b, c, 129);
    if b < c {
      DivBelow(128 * b, c, 128);
    }
  }

  lemma FieldsFit(a: nat, b: nat, c: nat)
    requires 4 <= a && b <= c && 0 < c < TWO_TO_20
    requires a < 2051 || (a == 2051 && b < c)
    ensures Fits(FieldsFor(a, b, c)) && FieldsFor(a, b, c).p2 < c && FieldsFor(a, b, c).p3 == c
  {
    EighthsOfPart(b, c);
    FieldsDecode(a, b, c);
    assert FieldsFor(a, b, c).p3 == c;
    hide FieldsFor, Divider;
  }

  /** a + b/c against a + r/f. */
  lemma PartsAreClose(a: nat, b: nat, c: nat, r: nat, f: nat, ratio: real)
    requires 4 <= a < 2052 && b <= c && c > 0 && f > 0 && 0 - f < b * f - r * c < f
    requires ratio == a as real + r as real / f as real
    ensures 0.0 - 1.0 / c as real < Divider(FieldsFor(a, b, c)) - ratio < 1.0 / c as real
    ensures b == r && c == f ==> Divider(FieldsFor(a, b, c)) == ratio
  {
    EighthsOfPart(b, c);
    FieldsDecode(a, b, c);
    FractionsAreClose(b, c, r, f);
    hide FieldsFor, Divider;
  }

  /** The divider set for a clock: its fields fit, and it is off the wanted ratio by
      less than one part of its denominator, or not at all if nothing was halved. */
  lemma ClockIsAccurate(vcoa: nat, fout: nat)
    requires VCO_MIN <= vcoa < VCO_MAX && MIN_HZ <= fout <= MAX_HZ
    ensures Fraction(vcoa, fout).1 > 0
    ensures
      var f := ClockFields(vcoa, fout);
      && Fits(f) && f.p2 < f.p3 && f.p3 == Fraction(vcoa, fout).1
      && 0.0 - 1.0 / f.p3 as real < Divider(f) - vcoa as real / fout as real < 1.0 / f.p3 as real
    ensures fout >= TWO_TO_20 ==> ClockFields(vcoa, fout).p3 >= TWO_TO_20 / 2
    ensures fout < TWO_TO_20 ==> Divider(ClockFields(vcoa, fout)) == vcoa as real / fout as real
  {
    var a, r := vcoa / fout, vcoa % fout;
    var k := ReduceIs(r, fout);
    assert fout >= TWO_TO_20 ==> k > 1;
    assert fout < TWO_TO_20 ==> k == 1;
    hide Divider, Fits, Reduce, Pow2k;
    var b, c := r / k, fout / k;
    CutFraction(r, fout, k);
    IntegerPart(vcoa, fout);
    FieldsFit(a, b, c);
    hide FieldsFor;
    WholeAndPart(vcoa, fout);
    PartsAreClose(a, b, c, r, fout, vcoa as real / fout as real);
    if fout < TWO_TO_20 {
      assert b == r && c == fout;
    }
  }

  /** The upper end is exact: from it on, some clock in range does not fit P1. */
  lemma FitsExactlyBelow(vcoa: nat)
    requires VCO_MIN <= vcoa < TWO_TO_32
    ensures
      (forall fout | MIN_HZ <= fout <= MAX_HZ ::
         Fraction(vcoa, fout).1 > 0 && ClockFields(vcoa, fout).p1 < TWO_TO_18)
      <==> vcoa < VCO_MAX
  {
    hide FieldsFor, Divider, Reduce;
    if vcoa < VCO_MAX {
      forall fout | MIN_HZ <= fout <= MAX_HZ
        ensures Fraction(vcoa, fout).1 > 0 && ClockFields(vcoa, fout).p1 < TWO_TO_18
      {
        ClockIsAccurate(vcoa, fout);
      }
    } else {
      LowestClock(vcoa);
    }
  }

  lemma LowestClock(vcoa: nat)
    requires VCO_MAX <= vcoa < TWO_TO_32
    ensures Fraction(vcoa, MIN_HZ).1 > 0 && ClockFields(vcoa, MIN_HZ).p1 >= TWO_TO_18
  {
    var a, b := vcoa / MIN_HZ, vcoa % MIN_HZ;
    assert Reduce(b, MIN_HZ) == (b, MIN_HZ);
    assert 2052 <= a < 8590;
    EighthsOfPart(b, MIN_HZ);
  }

  // ----- the registers of a clock -----

  lemma Pow2Values()
    ensures Pow2(20) == TWO_TO_20 && Pow2(32) == TWO_TO_32
  {
    assert Pow2(5) == 32;
    assert Pow2(10) == 32 * Pow2(5);
    assert Pow2(15) == 32 * Pow2(10);
    assert Pow2(20) == 32 * Pow2(15);
    assert Pow2(25) == 32 * Pow2(20);
    assert Pow2(30) == 32 * Pow2(25);
    assert Pow2(32) == 4 * Pow2(30);
  }

  /** Byte `k` of a word, as BB0, BB1 and BB2 take it. */
  function WordByte(x: nat, k: nat): byte
    requires k < 3
  {
    (if k == 0 then x else if k == 1 then x / 256 else x / 0x1_0000) % 256
  }

  /** The bytes sent: the output divider or-ed over P1, and the top nibbles of P3
      and P2 or-ed into one byte. */
  function Sent(f: Fields, rdiv: byte): (v: seq<byte>)
    ensures |v| == 8
  {
    var p1 := OrBits(rdiv as int * TWO_TO_20, f.p1, 32);
    var top := OrBits(f.p3 / 0x1_0000 % 16 * TWO_TO_20, f.p2, 32);
    [WordByte(f.p3, 1), WordByte(f.p3, 0), WordByte(p1, 2), WordByte(p1, 1), WordByte(p1, 0),
     WordByte(top, 2), WordByte(f.p2, 1), WordByte(f.p2, 0)]
  }

  lemma WordBytes(h: nat, m: byte, l: byte)
    ensures
      var x := Joined(h, m, l);
      WordByte(x, 0) == l && WordByte(x, 1) == m && WordByte(x, 2) == h % 256
  {
    var x := Joined(h, m, l);
    DivModUnique(x, 256, h * 256 + m as int, l);
    DivModUnique(h * 256 + m as int, 256, h, m);
    DivModUnique(x, 0x1_0000, h, m as int * 256 + l as int);
  }

  /** A field of twenty bits with another one over it. */
  lemma {:induction false} OrOver(high: nat, low: nat)
    requires high < 0x1000 && low < TWO_TO_20
    ensures OrBits(high * TWO_TO_20, low, 32) == Joined(high * 16 + low / 0x1_0000 % 16, low / 256 % 256, low % 256)
  {
    Pow2Values();
    MultipleMod(high, TWO_TO_20);
    OrBitsDisjoint(high * TWO_TO_20, low, 20, 32);
    SplitBytes(low, 16);
    hide OrBits, Pow2;
  }

  /** If the fields fit, the registers hold them and the output divider apart. */
  lemma SentIsPacked(f: Fields, rdiv: byte)
    requires Fits(f) && rdiv < 8
    ensures Sent(f, rdiv) == Pack(f, rdiv as int * 16)
  {
    hide OrBits, Joined, WordByte;
    var h3, h1, h2 := f.p3 / 0x1_0000 % 16, f.p1 / 0x1_0000 % 16, f.p2 / 0x1_0000 % 16;
    OrOver(rdiv, f.p1);
    OrOver(h3, f.p2);
    SplitBytes(f.p2, 16);
    SplitBytes(f.p3, 16);
    WordBytes(rdiv as int * 16 + h1, f.p1 / 256 % 256, f.p1 % 256);
    WordBytes(h3 * 16 + h2, f.p2 / 256 % 256, f.p2 % 256);
    WordBytes(h2, f.p2 / 256 % 256, f.p2 % 256);
    WordBytes(h3, f.p3 / 256 % 256, f.p3 % 256);
    assert h1 == f.p1 / 0x1_0000 % 4 by {
      assert f.p1 / 0x1_0000 < 4;
    }
    LowPart(0, rdiv as int * 16 + h1, 256);
    LowPart(0, h3 * 16 + h2, 256);
  }

  /** What the chip makes of the registers: the fields, the output divider in bits 4
      to 6 of the third register, and a ratio less than 1/c from the wanted one. */
  lemma RegistersAreAccurate(vcoa: nat, fout: nat, rdiv: byte)
    requires VCO_MIN <= vcoa < VCO_MAX && MIN_HZ <= fout <= MAX_HZ && rdiv < 8
    ensures Fraction(vcoa, fout).1 > 0
    ensures
      var v := Sent(ClockFields(vcoa, fout), rdiv);
      var c := Fraction(vcoa, fout).1 as real;
      && TopOf(v) == rdiv as int * 16 && Unpack(v) == ClockFields(vcoa, fout) && Unpack(v).p3 > 0
      && 0.0 - 1.0 / c < Divider(Unpack(v)) - vcoa as real / fout as real < 1.0 / c
  {
    hide Sent, Divider, ClockFields, Fraction, Pack, Unpack, TopOf;
    ClockIsAccurate(vcoa, fout);
    var f := ClockFields(vcoa, fout);
    SentIsPacked(f, rdiv);
    UnpackPack(f, rdiv as int * 16);
  }

  // ----- the enable register -----

  /** Bit clknum cleared to enable a clock, set to shut it down. */
  function Enabled(clken: byte, clknum: nat, on: bool): byte
    requires clknum < 3
  {
    var bit: byte := [1, 2, 4][clknum];
    if on then And(clken, 255 - bit) else Or(clken, bit)
  }

  lemma MaskBits(clknum: nat, k: nat)
    requires clknum < 3 && k < 8
    ensures BitOf([1, 2, 4][clknum], k) <==> k == clknum
    ensures BitOf(255 - [1, 2, 4][clknum], k) <==> k != clknum
  {
  }

  /** Enabling a clock clears its bit and shutting it down sets it; the bits of the
      others stay. */
  lemma OtherClocksKeepRunning(clken: byte, clknum: nat, k: nat, on: bool)
    requires clknum < 3 && k < 8
    ensures BitOf(Enabled(clken, clknum, on), k) <==> if k == clknum then !on else BitOf(clken, k)
  {
    var bit: byte := [1, 2, 4][clknum];
    MaskBits(clknum, k);
    AndBit(clken, 255 - bit, k);
    OrBit(clken, bit, k);
    hide BitOf, And, Or;
  }

  /** The registers that belong to one clock. */
  predicate OfClock(clknum: nat, i: nat) {
    i == 16 + clknum || 42 + 8 * clknum <= i < 50 + 8 * clknum
  }

  // ----- the code -----

  class Chip {
    var vcoa: nat
    var rdiv: byte
    var drive: seq<byte>
    var clken: byte
    const regs: array<byte>

    ghost predicate Valid()
      reads this
    {
      vcoa < TWO_TO_32 && |drive| == 3 && regs.Length == 256
    }

    constructor (calibration: int)
      requires 0 <= 875_000_000 + calibration < TWO_TO_32
      ensures Valid() && fresh(regs) && vcoa == 875_000_000 + calibration && clken == 0xFF
    {
      vcoa := 875_000_000 + calibration;
      rdiv, drive, clken := 0, [3, 3, 3], 0xFF;
      regs := new byte[256](_ => 0);
    }

    /** i2cWriten: consecutive registers. */
    method WriteRegisters(reg: nat, v: seq<byte>)
      requires reg + |v| <= regs.Length
      modifies regs
      ensures forall i :: 0 <= i < regs.Length ==>
        regs[i] == if reg <= i < reg + |v| then v[i - reg] else old(regs[i])
    {
      var k := 0;
      while k < |v|
        invariant k <= |v|
        invariant forall i :: 0 <= i < regs.Length ==>
          regs[i] == if reg <= i < reg + k then v[i - reg] else old(regs[i])
      {
        regs[reg + k] := v[k];
        k := k + 1;
      }
    }

    /** The reduction loop. */
    static method ReduceFraction(b: nat, c: nat) returns (msb: nat, msc: nat)
      requires c > 0
      ensures (msb, msc) == Reduce(b, c) && 0 < msc < TWO_TO_20
    {
      msb, msc := b, c;
      while msc >= TWO_TO_20
        invariant Reduce(msb, msc) == Reduce(b, c) && msc > 0
        decreases msc
      {
        msb := msb / 2;
        msc := msc / 2;
      }
    }

    method Enable(clknum: nat, on: bool)
      requires clknum < 3
      modifies this`clken
      ensures clken == Enabled(old(clken), clknum, on)
      ensures forall k :: 0 <= k < 8 ==> (BitOf(clken, k) <==> if k == clknum then !on else BitOf(old(clken), k))
    {
      forall k | 0 <= k < 8
        ensures BitOf(Enabled(clken, clknum, on), k) <==> if k == clknum then !on else BitOf(clken, k)
      {
        OtherClocksKeepRunning(clken, clknum, k, on);
      }
      hide Enabled, BitOf;
      clken := Enabled(clken, clknum, on);
    }

    /** si5351bx_setfreq: the clock's registers, or its output shut down. */
    method SetFreq(clknum: nat, fout: nat)
      requires Valid() && clknum < 3 && fout < TWO_TO_32
      modifies this`clken, regs
      ensures Valid()
      ensures regs[3] == clken == Enabled(old(clken), clknum, MIN_HZ <= fout <= MAX_HZ)
      ensures forall k :: 0 <= k < 8 ==>
        (BitOf(regs[3], k) <==> if k == clknum then !(500_000 <= fout <= 109_000_000) else BitOf(old(clken), k))
      ensures MIN_HZ <= fout <= MAX_HZ ==>
        && Fraction(vcoa, fout).1 > 0
        && (forall i :: 0 <= i < 8 ==> regs[42 + 8 * clknum + i] == Sent(ClockFields(vcoa, fout), rdiv)[i])
        && regs[16 + clknum] == Or(0x0C, drive[clknum])
      ensures forall i :: 0 <= i < 256 && i != 3 && !(MIN_HZ <= fout <= MAX_HZ && OfClock(clknum, i)) ==>
        regs[i] == old(regs[i])
    {
      hide Reduce, Or, Sent, FieldsFor, BitOf, Enabled;
      if fout < 500_000 || fout > 109_000_000 {
        Enable(clknum, false);
      } else {
        var msa := vcoa / fout;
        var msb := vcoa % fout;
        var msc := fout;
        msb, msc := ReduceFraction(msb, msc);
        var vals := FieldBytes(msa, msb, msc, rdiv);
        WriteRegisters(42 + clknum * 8, vals);
        regs[16 + clknum] := Or(0x0C, drive[clknum]);
        Enable(clknum, true);
      }
      regs[3] := clken;
    }

    static method FieldBytes(msa: nat, msb: nat, msc: nat, rdiv: byte) returns (vals: seq<byte>)
      requires 0 < msc < TWO_TO_20
      ensures vals == Sent(FieldsFor(msa, msb, msc), rdiv)
    {
      hide OrBits;
      var p1 := (128 * msa + 128 * msb / msc - 512) % TWO_TO_32;
      var msxp1 := OrBits(rdiv as int * TWO_TO_20, p1, 32);
      Quotient(128 * msb, msc);
      var msxp2 := 128 * msb - 128 * msb / msc * msc;
      var msxp3p2top := OrBits(msc / 0x1_0000 % 16 * TWO_TO_20, msxp2, 32);
      vals := [WordByte(msc, 1), WordByte(msc, 0), WordByte(msxp1, 2), WordByte(msxp1, 1), WordByte(msxp1, 0),
               WordByte(msxp3p2top, 2), WordByte(msxp2, 1), WordByte(msxp2, 0)];
    }
  }
}
