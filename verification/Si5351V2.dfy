/** Si5351 clocks from an even divider (second radio): the PLL carries the fraction. */
module Si5351V2 {
  import opened Bytes
  import opened Fractions
  import opened SynthRegisters

  const PLL_A: nat := 26
  const PLL_B: nat := 34
  const DENOM: nat := 0x8_0000
  const MIN_HZ: nat := 500_000
  const MAX_HZ: nat := 125_000_000
  const PLL_MIN: nat := 650_000_000
  const TWO_TO_31: nat := 0x8000_0000

  /** The quotient is always raised, as its product is compared with the frequency and
      not with the PLL's; then it is made even. */
  function EvenDivider(f: nat): nat
    requires f > 0
  {
    var q := PLL_MIN / f;
    var d := if q * PLL_MIN != f then q + 1 else q;
    if d % 2 == 1 then d + 1 else d
  }

  function Multiplier(pllfreq: nat, xtal: nat): nat
    requires xtal > 0
  {
    pllfreq / xtal
  }

  function Numerator(pllfreq: nat, xtal: nat): nat
    requires xtal > 0
  {
    pllfreq % xtal * DENOM / xtal
  }

  /** The whole part of 128 * num / denom, taken through floating point. All values
      are dyadic and short, so the real quotient is the one computed. */
  function FloatWhole(num: nat): nat {
    QuotientIsDyadic(num);
    (128.0 * (num as real / DENOM as real)).Floor
  }

  lemma QuotientIsDyadic(num: nat)
    ensures 128.0 * (num as real / DENOM as real) == num as real / 4096.0
    ensures (num as real / 4096.0).Floor == num / 4096
  {
    var q, r := num / 4096, num % 4096;
    assert num as real / 4096.0 == q as real + r as real / 4096.0;
  }

  function PllFields(mult: byte, num: nat): Fields
    requires num < DENOM
  {
    if num == 0 then Fields((128 * mult as int - 512) % TWO_TO_32, 0, 1)
    else
      var whole := FloatWhole(num);
      WholeOfNum(num);
      Fields((128 * mult as int + whole - 512) % TWO_TO_32, 128 * num - DENOM * whole, DENOM)
  }

  lemma WholeOfNum(num: nat)
    ensures FloatWhole(num) == 128 * num / DENOM == num / 4096
    ensures 0 <= 128 * num - DENOM * FloatWhole(num) < DENOM
  {
    QuotientIsDyadic(num);
  }

  /** Floating point or not, these are the fields for mult + num / denom. */
  lemma PllFieldsAre(mult: byte, num: nat)
    requires num < DENOM
    ensures PllFields(mult, num) == if num == 0 then FieldsFor(mult, 0, 1) else FieldsFor(mult, num, DENOM)
  {
    if num > 0 {
      WholeOfNum(num);
    }
  }

  /** An output divider of 4 has a setting of its own, and without a fraction the
      denominator is not used. */
  function SynthFields(divider: nat, num: nat, denom: nat): Fields
    requires num > 0 ==> denom > 0
  {
    if divider == 4 then Fields(0, 0, 1)
    else if num == 0 then FieldsFor(divider, 0, 1)
    else
      var w := 128 * num % TWO_TO_32;
      Quotient(w, denom);
      Fields((128 * divider + w / denom - 512) % TWO_TO_32, w - denom * (w / denom), denom)
  }

  /** A divider with a fraction means what it says, if 128 times the numerator fits a word. */
  lemma SynthFieldsMean(divider: nat, num: nat, denom: nat)
    requires 4 < divider && denom > 0 && 128 * num < TWO_TO_32 && 128 * divider + 128 * num / denom < TWO_TO_32
    ensures Divider(SynthFields(divider, num, denom)) == divider as real + num as real / denom as real
  {
    if num == 0 {
      FieldsDecode(divider, 0, 1);
      assert 0 as real / denom as real == 0.0 && 0 as real / 1 as real == 0.0;
    } else {
      FieldsDecode(divider, num, denom);
      DivModUnique(128 * num, TWO_TO_32, 0, 128 * num);
      assert SynthFields(divider, num, denom) == FieldsFor(divider, num, denom);
    }
    hide Divider;
  }

  function OutputFields(divider: nat): Fields {
    SynthFields(divider, 0, 1)
  }

  const DIVBY4: nat := 12

  function OutputTop(divider: nat): nat {
    if divider == 4 then DIVBY4 else 0
  }

  /** Dividing by four has its own bits; the parameters are then those of zero. */
  lemma DividesByFour(num: nat, denom: nat, divider: nat)
    requires num > 0 ==> denom > 0
    ensures SynthFields(4, num, denom) == Fields(0, 0, 1) && OutputTop(4) == 0x0C
    ensures divider != 4 ==> OutputTop(divider) == 0
  {
  }

  // ----- what the chip makes of its registers -----

  predicate UsesPllB(control: byte) {
    control / 0x20 % 2 == 1
  }

  function PllOf(clk: nat): nat {
    if clk == 1 then PLL_B else PLL_A
  }

  function PllDivider(v: seq<byte>): real
    requires |v| == 8
  {
    if Unpack(v).p3 == 0 then 0.0 else Divider(Unpack(v))
  }

  function OutputDivider(v: seq<byte>): real
    requires |v| == 8
  {
    (if TopOf(v) % 16 == DIVBY4 then 4.0 else PllDivider(v)) * Pow2(TopOf(v) / 16 % 8) as real
  }

  /** Hertz at an output, from the registers of its PLL and its own; 0 if the
      registers make no sense. */
  function Hertz(xtal: nat, pll: seq<byte>, output: seq<byte>): real
    requires |pll| == |output| == 8
  {
    if OutputDivider(output) == 0.0 then 0.0 else xtal as real * PllDivider(pll) / OutputDivider(output)
  }

  /** At or below the wanted frequency, by less than xtal / (2^19 d). */
  predicate JustBelow(hz: real, f: nat, d: nat, xtal: nat)
    requires d > 0
  {
    f as real - xtal as real / (DENOM as real * d as real) < hz <= f as real
  }

  // ----- the divider -----

  lemma RaisedAndEven(f: nat)
    requires MIN_HZ <= f <= MAX_HZ
    ensures
      var q, d := PLL_MIN / f, EvenDivider(f);
      5 <= q <= 1300 && d % 2 == 0 && (d == q + 1 || d == q + 2)
  {
    DivAtLeast(PLL_MIN, f, 5);
    DivBelow(PLL_MIN, f, 1301);
    assert PLL_MIN / f * PLL_MIN >= 5 * PLL_MIN;
  }

  /** The divider is even, at least 6, and takes the PLL just over 650 MHz. */
  lemma EvenDividerIs(f: nat)
    requires MIN_HZ <= f <= MAX_HZ
    ensures EvenDivider(f) % 2 == 0 && 6 <= EvenDivider(f) <= 1302
    ensures PLL_MIN < f * EvenDivider(f) <= PLL_MIN + 2 * f
  {
    RaisedAndEven(f);
    var q, d := PLL_MIN / f, EvenDivider(f);
    hide EvenDivider;
    assert PLL_MIN == f * q + PLL_MIN % f;
    assert f * (q + 1) == f * q + f && f * (q + 2) == f * q + 2 * f;
  }

  /** Exactly below 2^30 Hz the PLL frequency fits a signed word. */
  lemma ProductFitsExactly(f: nat)
    requires f > 0
    ensures f * EvenDivider(f) < TWO_TO_31 <==> f < TWO_TO_31 / 2
  {
    var q := PLL_MIN / f;
    if f >= PLL_MIN {
      DivBelow(PLL_MIN, f, 2);
      if f > PLL_MIN {
        DivBelow(PLL_MIN, f, 1);
      }
      assert EvenDivider(f) == 2;
    } else {
      var d := EvenDivider(f);
      assert d <= q + 2;
      hide EvenDivider;
      MulMonotone(d, q + 2, f);
      assert PLL_MIN == f * q + PLL_MIN % f;
      assert (q + 2) * f == f * q + 2 * f;
    }
  }

  /** Reference oscillators for which every multiplier fits; 25 MHz is one. */
  const XTAL_MIN: nat := 4_000_000
  const XTAL_MAX: nat := 160_000_000

  lemma MultiplierFits(f: nat, xtal: nat)
    requires MIN_HZ <= f <= MAX_HZ && XTAL_MIN <= xtal <= XTAL_MAX
    ensures 4 <= Multiplier(f * EvenDivider(f), xtal) < 256
    ensures f * EvenDivider(f) < TWO_TO_31 && Numerator(f * EvenDivider(f), xtal) < DENOM
  {
    EvenDividerIs(f);
    var pllfreq := f * EvenDivider(f);
    hide EvenDivider;
    DivAtLeast(pllfreq, xtal, 4);
    DivBelow(pllfreq, xtal, 256);
    MulLess(pllfreq % xtal, xtal, DENOM);
    DivBelow(pllfreq % xtal * DENOM, xtal, DENOM);
  }

  lemma MulLess(a: nat, b: nat, k: nat)
    requires a < b && k > 0
    ensures a * k < k * b
  {
  }

  /** The wanted PLL frequency against the multiplier the fields give, exactly. */
  lemma PllRemainder(pllfreq: nat, xtal: nat) returns (rem: nat)
    requires xtal > 0
    ensures rem < xtal
    ensures pllfreq * DENOM == xtal * (Multiplier(pllfreq, xtal) * DENOM + Numerator(pllfreq, xtal)) + rem
  {
    var m, r := pllfreq / xtal, pllfreq % xtal;
    var n := r * DENOM / xtal;
    rem := r * DENOM % xtal;
    assert r * DENOM == xtal * n + rem;
    assert pllfreq == xtal * m + r;
    assert pllfreq * DENOM == xtal * m * DENOM + r * DENOM;
    assert xtal * (m * DENOM + n) == xtal * m * DENOM + xtal * n;
  }

  lemma CloseBelow(f: nat, d: nat, xtal: nat, m: nat, n: nat, rem: nat, hz: real, divider: real)
    requires d > 0 && rem < xtal && f * d * DENOM == xtal * (m * DENOM + n) + rem
    requires divider == m as real + n as real / DENOM as real
    requires hz == xtal as real * divider / d as real
    ensures JustBelow(hz, f, d, xtal)
  {
    var k := DENOM as real * d as real;
    var e := Ratio(xtal as real, k);
    var n' := Ratio(n as real, DENOM as real);
    var h := Ratio(xtal as real * divider, d as real);
    CastMul(f, d);
    CastMul(f * d, DENOM);
    CastMul(xtal, m * DENOM + n);
    assert divider * DENOM as real == (m * DENOM + n) as real;
    HertzTimes(h, d as real, DENOM as real, xtal as real, divider);
    Gap(f as real, h, e, k, xtal as real, rem as real);
  }

  lemma HertzTimes(h: real, d: real, c: real, x: real, divider: real)
    requires h * d == x * divider
    ensures h * (c * d) == x * (divider * c)
  {
    assert h * (c * d) == (h * d) * c;
    assert x * (divider * c) == (x * divider) * c;
  }

  lemma Gap(f: real, h: real, e: real, k: real, x: real, rem: real)
    requires k > 0.0 && f * k == h * k + rem && e * k == x && 0.0 <= rem < x
    ensures f - e < h <= f
  {
    assert (f - e) * k == f * k - e * k;
    LessByFactor(f - e, h, k);
    if h > f {
      SameFactor(f, h, k);
    }
  }

  // ----- a clock as a whole -----

  /** The registers of the PLL and of the output for a frequency. */
  function PllRegisters(f: nat, xtal: nat): (v: seq<byte>)
    requires f > 0 && xtal > 0
    ensures |v| == 8
  {
    var pllfreq := f * EvenDivider(f);
    NumeratorBelow(pllfreq, xtal);
    Pack(PllFields(Multiplier(pllfreq, xtal) % 256, Numerator(pllfreq, xtal)), 0)
  }

  lemma NumeratorBelow(pllfreq: nat, xtal: nat)
    requires xtal > 0
    ensures Numerator(pllfreq, xtal) < DENOM
  {
    MulLess(pllfreq % xtal, xtal, DENOM);
    DivBelow(pllfreq % xtal * DENOM, xtal, DENOM);
  }

  function OutputRegisters(f: nat): (v: seq<byte>)
    requires f > 0
    ensures |v| == 8
  {
    Pack(OutputFields(EvenDivider(f)), OutputTop(EvenDivider(f)))
  }

  lemma NoTop(v: seq<byte>)
    requires |v| == 8 && TopOf(v) == 0
    ensures OutputDivider(v) == PllDivider(v)
  {
    hide PllDivider;
    assert Pow2(0) == 1;
  }

  lemma PackedDivider(f: Fields)
    requires Fits(f)
    ensures Unpack(Pack(f, 0)) == f && TopOf(Pack(f, 0)) == 0 && PllDivider(Pack(f, 0)) == Divider(f)
  {
    UnpackPack(f, 0);
    hide Pack, Unpack, Divider, TopOf;
  }

  lemma OutputFit(d: nat)
    requires 6 <= d <= 1302
    ensures Fits(OutputFields(d)) && OutputTop(d) == 0 && Divider(OutputFields(d)) == d as real
  {
    FieldsDecode(d, 0, 1);
    hide Divider;
    assert 0 as real / 1 as real == 0.0;
  }

  lemma OutputIsDivider(d: nat)
    requires 6 <= d <= 1302
    ensures Fits(Unpack(Pack(OutputFields(d), 0))) && OutputTop(d) == 0
    ensures OutputDivider(Pack(OutputFields(d), 0)) == d as real
  {
    OutputFit(d);
    hide Fits, Pack, Unpack, Divider, OutputFields, OutputDivider, PllDivider, TopOf;
    PackedDivider(OutputFields(d));
    NoTop(Pack(OutputFields(d), 0));
  }

  lemma PllFit(mult: nat, num: nat)
    requires 4 <= mult < 256 && num < DENOM
    ensures Fits(PllFields(mult, num))
    ensures Divider(PllFields(mult, num)) == mult as real + num as real / DENOM as real
  {
    PllFieldsAre(mult, num);
    DivBelow(128 * num, DENOM, 128);
    if num == 0 {
      FieldsDecode(mult, 0, 1);
      assert FieldsFor(mult, 0, 1).p3 == 1;
    } else {
      FieldsDecode(mult, num, DENOM);
      assert FieldsFor(mult, num, DENOM).p3 == DENOM;
    }
    hide PllFields, Divider, FieldsFor;
  }

  lemma PllIsMultiplier(mult: nat, num: nat)
    requires 4 <= mult < 256 && num < DENOM
    ensures Fits(Unpack(Pack(PllFields(mult, num), 0)))
    ensures PllDivider(Pack(PllFields(mult, num), 0)) == mult as real + num as real / DENOM as real
  {
    PllFit(mult, num);
    hide Fits, Pack, Unpack, Divider, PllFields, PllDivider, TopOf;
    PackedDivider(PllFields(mult, num));
  }

  lemma RegistersAre(f: nat, xtal: nat)
    requires MIN_HZ <= f <= MAX_HZ && XTAL_MIN <= xtal <= XTAL_MAX
    ensures
      var pllfreq := f * EvenDivider(f);
      && Multiplier(pllfreq, xtal) < 256 && Numerator(pllfreq, xtal) < DENOM && OutputTop(EvenDivider(f)) == 0
      && PllRegisters(f, xtal) == Pack(PllFields(Multiplier(pllfreq, xtal), Numerator(pllfreq, xtal)), 0)
      && OutputRegisters(f) == Pack(OutputFields(EvenDivider(f)), 0)
  {
    EvenDividerIs(f);
    MultiplierFits(f, xtal);
    OutputIsDivider(EvenDivider(f));
    hide EvenDivider, Multiplier, Numerator, PllFields, OutputFields, Pack, OutputDivider, Unpack;
    LowPart(0, Multiplier(f * EvenDivider(f), xtal), 256);
  }

  lemma HertzIs(xtal: nat, pll: seq<byte>, output: seq<byte>, d: nat)
    requires |pll| == |output| == 8 && d > 0 && OutputDivider(output) == d as real
    ensures Hertz(xtal, pll, output) == xtal as real * PllDivider(pll) / d as real
  {
    hide OutputDivider, PllDivider;
  }

  /** For every frequency in range the fields fit, and what the chip makes of its
      registers is never above the frequency and less than xtal / (2^19 d) below. */
  lemma ClockIsClose(f: nat, xtal: nat)
    requires MIN_HZ <= f <= MAX_HZ && XTAL_MIN <= xtal <= XTAL_MAX
    ensures Fits(Unpack(PllRegisters(f, xtal))) && Fits(Unpack(OutputRegisters(f)))
    ensures OutputDivider(OutputRegisters(f)) == EvenDivider(f) as real && EvenDivider(f) > 0
    ensures JustBelow(Hertz(xtal, PllRegisters(f, xtal), OutputRegisters(f)), f, EvenDivider(f), xtal)
  {
    hide EvenDivider, Multiplier, Numerator, Pack, Unpack, PllFields, OutputFields, OutputDivider, PllDivider,
         OutputTop, Fits, JustBelow, Hertz, PllRegisters, OutputRegisters;
    var d := EvenDivider(f);
    EvenDividerIs(f);
    MultiplierFits(f, xtal);
    RegistersAre(f, xtal);
    var m, n := Multiplier(f * d, xtal), Numerator(f * d, xtal);
    OutputIsDivider(d);
    PllIsMultiplier(m, n);
    var rem := PllRemainder(f * d, xtal);
    HertzIs(xtal, PllRegisters(f, xtal), OutputRegisters(f), d);
    CloseBelow(f, d, xtal, m, n, rem, Hertz(xtal, PllRegisters(f, xtal), OutputRegisters(f)),
               PllDivider(PllRegisters(f, xtal)));
  }

  // ----- the register file -----

  function OutputBase(clk: nat): nat {
    if clk == 0 then 42 else if clk == 1 then 50 else 58
  }

  function ControlRegister(clk: nat): nat {
    if clk == 0 then 16 else if clk == 1 then 17 else 18
  }

  /** Drive strength, source multisynth, the PLL, and integer mode without a fraction. */
  function ControlByte(pllSource: nat, num: nat, drive: nat): byte
    requires drive < 4
  {
    drive + 12 + (if pllSource == PLL_B then 0x20 else 0) + (if num == 0 then 0x40 else 0)
  }

  const FULL_DRIVE: nat := 3

  function Control(clk: nat): byte {
    ControlByte(PllOf(clk), 0, FULL_DRIVE)
  }

  function SourcePll(r: seq<byte>, clk: nat): nat
    requires |r| == 256
  {
    if UsesPllB(r[ControlRegister(clk)]) then PLL_B else PLL_A
  }

  /** Hertz at an output, from all registers. */
  function ClockHertz(r: seq<byte>, clk: nat, xtal: nat): real
    requires |r| == 256
  {
    var pll, base := SourcePll(r, clk), OutputBase(clk);
    Hertz(xtal, r[pll..pll + 8], r[base..base + 8])
  }

  /** The registers that belong to a clock alone, and those of its PLL. */
  predicate OfClock(clk: nat, i: nat) {
    i == ControlRegister(clk) || OutputBase(clk) <= i < OutputBase(clk) + 8
  }

  predicate OfPll(pll: nat, i: nat) {
    pll <= i < pll + 8
  }

  /** All the registers after setting a clock. */
  ghost predicate IsSet(was: seq<byte>, r: seq<byte>, clk: nat, f: nat, xtal: nat)
    requires |was| == |r| == 256 && f > 0 && xtal > 0
  {
    && r[PllOf(clk)..PllOf(clk) + 8] == PllRegisters(f, xtal)
    && r[OutputBase(clk)..OutputBase(clk) + 8] == OutputRegisters(f)
    && r[ControlRegister(clk)] == Control(clk)
    && forall i :: 0 <= i < 256 && !OfClock(clk, i) && !OfPll(PllOf(clk), i) ==> r[i] == was[i]
  }

  lemma SourceOfSet(was: seq<byte>, r: seq<byte>, clk: nat, f: nat, xtal: nat)
    requires |was| == |r| == 256 && f > 0 && xtal > 0 && IsSet(was, r, clk, f, xtal)
    ensures SourcePll(r, clk) == PllOf(clk)
  {
    hide PllRegisters, OutputRegisters;
    var c := Control(clk);
    assert c == 0x4F || c == 0x6F;
    assert 0x4F / 0x20 % 2 == 0 && 0x6F / 0x20 % 2 == 1;
  }

  /** A clock that was set runs just below its frequency. */
  lemma SetClockRuns(was: seq<byte>, r: seq<byte>, clk: nat, f: nat, xtal: nat)
    requires |was| == |r| == 256 && MIN_HZ <= f <= MAX_HZ && XTAL_MIN <= xtal <= XTAL_MAX
    requires IsSet(was, r, clk, f, xtal)
    ensures EvenDivider(f) > 0 && JustBelow(ClockHertz(r, clk, xtal), f, EvenDivider(f), xtal)
  {
    ClockIsClose(f, xtal);
    SourceOfSet(was, r, clk, f, xtal);
    hide Hertz, PllRegisters, OutputRegisters, EvenDivider, JustBelow, SourcePll, Control, OutputBase,
         Unpack, OutputDivider;
  }

  lemma OthersKept(was: seq<byte>, r: seq<byte>, clk: nat, f: nat, xtal: nat, other: nat)
    requires |was| == |r| == 256 && f > 0 && xtal > 0 && IsSet(was, r, clk, f, xtal)
    requires clk < 3 && other < 3 && other != clk
    ensures r[OutputBase(other)..OutputBase(other) + 8] == was[OutputBase(other)..OutputBase(other) + 8]
    ensures SourcePll(r, other) == SourcePll(was, other)
    ensures
      var pll := SourcePll(was, other);
      pll != PllOf(clk) ==> r[pll..pll + 8] == was[pll..pll + 8]
  {
    hide PllRegisters, OutputRegisters, Control, UsesPllB;
    assert r[ControlRegister(other)] == was[ControlRegister(other)];
  }

  /** A clock on the other PLL runs on as before; one on the same PLL keeps only its
      divider, and runs with the new PLL frequency. */
  lemma OtherClocks(was: seq<byte>, r: seq<byte>, clk: nat, f: nat, xtal: nat, other: nat)
    requires |was| == |r| == 256 && f > 0 && xtal > 0 && IsSet(was, r, clk, f, xtal)
    requires clk < 3 && other < 3 && other != clk
    ensures SourcePll(was, other) != PllOf(clk) ==> ClockHertz(r, other, xtal) == ClockHertz(was, other, xtal)
    ensures SourcePll(was, other) == PllOf(clk) ==>
      ClockHertz(r, other, xtal)
      == Hertz(xtal, PllRegisters(f, xtal), was[OutputBase(other)..OutputBase(other) + 8])
  {
    OthersKept(was, r, clk, f, xtal, other);
    hide Hertz, PllRegisters, OutputRegisters, SourcePll, Control, OfClock, OfPll;
  }

  lemma SameHertz(xtal: nat, a: seq<byte>, b: seq<byte>, output: seq<byte>)
    requires xtal > 0 && |a| == |b| == |output| == 8
    ensures Hertz(xtal, a, output) == Hertz(xtal, b, output)
      <==> OutputDivider(output) == 0.0 || PllDivider(a) == PllDivider(b)
  {
    hide PllDivider, OutputDivider;
    var d, x := OutputDivider(output), xtal as real;
    if d != 0.0 {
      SameQuotient(x * PllDivider(a), x * PllDivider(b), d);
      SameProduct(PllDivider(a), PllDivider(b), x);
    }
  }

  lemma SameQuotient(a: real, b: real, d: real)
    requires d != 0.0
    ensures a / d == b / d <==> a == b
  {
    assert (a / d) * d == a && (b / d) * d == b;
  }

  lemma SameProduct(a: real, b: real, x: real)
    requires x > 0.0
    ensures x * a == x * b <==> a == b
  {
    if a < b {
      SameFactor(a, b, x);
    } else if b < a {
      SameFactor(b, a, x);
    }
  }

  /** Setting one clock leaves the frequency of another exactly if that one uses the
      other PLL, was never set up, or its PLL registers mean the same multiplier. */
  lemma OthersRunOnExactly(was: seq<byte>, r: seq<byte>, clk: nat, f: nat, xtal: nat, other: nat)
    requires |was| == |r| == 256 && f > 0 && xtal > 0 && IsSet(was, r, clk, f, xtal)
    requires clk < 3 && other < 3 && other != clk
    ensures
      var pll, base := SourcePll(was, other), OutputBase(other);
      ClockHertz(r, other, xtal) == ClockHertz(was, other, xtal)
      <==> pll != PllOf(clk) || OutputDivider(was[base..base + 8]) == 0.0
           || PllDivider(PllRegisters(f, xtal)) == PllDivider(was[pll..pll + 8])
  {
    OtherClocks(was, r, clk, f, xtal, other);
    var pll, base := SourcePll(was, other), OutputBase(other);
    SameHertz(xtal, PllRegisters(f, xtal), was[pll..pll + 8], was[base..base + 8]);
    hide Hertz, PllRegisters, OutputDivider, PllDivider, IsSet;
  }

  /** The PLL multiplier in steps of 1/2^19. */
  function Steps(f: nat, xtal: nat): nat
    requires f > 0 && xtal > 0
  {
    f * EvenDivider(f) * DENOM / xtal
  }

  lemma PllIsSteps(f: nat, xtal: nat)
    requires MIN_HZ <= f <= MAX_HZ && XTAL_MIN <= xtal <= XTAL_MAX
    ensures PllDivider(PllRegisters(f, xtal)) * DENOM as real == Steps(f, xtal) as real
  {
    hide EvenDivider, Multiplier, Numerator, Pack, Unpack, PllFields, OutputFields, PllDivider, OutputTop, Fits,
         PllRegisters, OutputRegisters;
    RegistersAre(f, xtal);
    MultiplierFits(f, xtal);
    var pllfreq := f * EvenDivider(f);
    var m, n := Multiplier(pllfreq, xtal), Numerator(pllfreq, xtal);
    PllIsMultiplier(m, n);
    var rem := PllRemainder(pllfreq, xtal);
    DivModUnique(pllfreq * DENOM, xtal, m * DENOM + n, rem);
    var q := Ratio(n as real, DENOM as real);
  }

  lemma SameSteps(a: real, b: real, s: nat, t: nat)
    requires a * DENOM as real == s as real && b * DENOM as real == t as real
    ensures a == b <==> s == t
  {
  }

  lemma SourceIsSet(was: seq<byte>, r: seq<byte>, clk: nat, f: nat, xtal: nat)
    requires |was| == |r| == 256 && MIN_HZ <= f <= MAX_HZ && XTAL_MIN <= xtal <= XTAL_MAX && IsSet(was, r, clk, f, xtal)
    ensures
      var base := OutputBase(clk);
      && SourcePll(r, clk) == PllOf(clk) && r[PllOf(clk)..PllOf(clk) + 8] == PllRegisters(f, xtal)
      && OutputDivider(r[base..base + 8]) != 0.0
  {
    SourceOfSet(was, r, clk, f, xtal);
    ClockIsClose(f, xtal);
    hide Hertz, PllRegisters, OutputRegisters, OutputDivider, JustBelow, Fits, Unpack, EvenDivider, SourcePll, Control;
  }

  /** Of two clocks set one after the other, the first is left where it was exactly if
      they use different PLLs, or want multipliers that agree in whole steps of 1/2^19. */
  lemma TwoClocksExactly(was: seq<byte>, r0: seq<byte>, r1: seq<byte>, clk0: nat, f: nat, clk1: nat, g: nat, xtal: nat)
    requires |was| == |r0| == |r1| == 256 && clk0 < 3 && clk1 < 3 && clk0 != clk1
    requires MIN_HZ <= f <= MAX_HZ && MIN_HZ <= g <= MAX_HZ && XTAL_MIN <= xtal <= XTAL_MAX
    requires IsSet(was, r0, clk0, f, xtal) && IsSet(r0, r1, clk1, g, xtal)
    ensures ClockHertz(r1, clk0, xtal) == ClockHertz(r0, clk0, xtal)
      <==> PllOf(clk0) != PllOf(clk1) || Steps(f, xtal) == Steps(g, xtal)
  {
    hide Hertz, PllRegisters, OutputDivider, PllDivider, IsSet, SourcePll, ClockHertz, Steps;
    OthersRunOnExactly(r0, r1, clk1, g, xtal, clk0);
    SourceIsSet(was, r0, clk0, f, xtal);
    PllIsSteps(f, xtal);
    PllIsSteps(g, xtal);
    SameSteps(PllDivider(PllRegisters(f, xtal)), PllDivider(PllRegisters(g, xtal)), Steps(f, xtal), Steps(g, xtal));
  }

  lemma WholeQuotient(pllfreq: nat, xtal: nat, m: nat)
    requires xtal > 0 && pllfreq == m * xtal
    ensures Multiplier(pllfreq, xtal) == m && Numerator(pllfreq, xtal) == 0
  {
    DivModUnique(pllfreq, xtal, m, 0);
    DivModUnique(0, xtal, 0, 0);
  }

  /** Frequencies whose PLL needs no fraction. */
  lemma WholeMultiplier(f: nat, xtal: nat, m: nat)
    requires MIN_HZ <= f <= MAX_HZ && XTAL_MIN <= xtal <= XTAL_MAX && f * EvenDivider(f) == m * xtal
    ensures PllDivider(PllRegisters(f, xtal)) == m as real
  {
    hide PllDivider, Pack, PllFields, EvenDivider, PllRegisters, OutputRegisters, OutputFields, Multiplier, Numerator,
         Unpack, Fits;
    RegistersAre(f, xtal);
    MultiplierFits(f, xtal);
    WholeQuotient(f * EvenDivider(f), xtal, m);
    PllIsMultiplier(m, 0);
    assert 0 as real / DENOM as real == 0.0;
  }

  /** A clock just set, and what another PLL frequency would make of it. */
  lemma ClockOfOutput(was: seq<byte>, r: seq<byte>, f: nat, xtal: nat, pll: seq<byte>, d: nat)
    requires |was| == |r| == 256 && |pll| == 8 && MIN_HZ <= f <= MAX_HZ && XTAL_MIN <= xtal <= XTAL_MAX
    requires IsSet(was, r, 0, f, xtal) && d == EvenDivider(f)
    ensures ClockHertz(r, 0, xtal) == Hertz(xtal, PllRegisters(f, xtal), r[42..50]) && SourcePll(r, 0) == PLL_A
    ensures d > 0 && Hertz(xtal, pll, r[42..50]) == xtal as real * PllDivider(pll) / d as real
  {
    SourceOfSet(was, r, 0, f, xtal);
    ClockIsClose(f, xtal);
    hide Hertz, PllRegisters, OutputRegisters, OutputDivider, PllDivider, JustBelow, Fits, Unpack, EvenDivider,
         SourcePll, Control, OfClock, OfPll;
    HertzIs(xtal, pll, r[42..50], d);
  }

  lemma DividerFrom(f: nat, q: nat)
    requires f > 0 && q * f <= PLL_MIN < q * f + f && q * PLL_MIN != f
    ensures EvenDivider(f) == if q % 2 == 0 then q + 2 else q + 1
  {
    DivModUnique(PLL_MIN, f, q, PLL_MIN - q * f);
  }

  /** Clock 0 set to 25 MHz, then clock 2 to 12.5 MHz: clock 0 is moved to 24.1 MHz. */
  lemma SharedPllMovesClock(was: seq<byte>, r0: seq<byte>, r1: seq<byte>)
    requires |was| == |r0| == |r1| == 256
    requires IsSet(was, r0, 0, 25_000_000, 25_000_000) && IsSet(r0, r1, 2, 12_500_000, 25_000_000)
    ensures ClockHertz(r0, 0, 25_000_000) == 25_000_000.0
    ensures 28.0 * ClockHertz(r1, 0, 25_000_000) == 675_000_000.0
  {
    var xtal, f, g := 25_000_000, 25_000_000, 12_500_000;
    DividerFrom(f, 26);
    DividerFrom(g, 52);
    hide EvenDivider, Hertz, PllRegisters, OutputRegisters, OutputDivider, PllDivider, SourcePll, IsSet, ClockHertz;
    WholeMultiplier(f, xtal, 28);
    WholeMultiplier(g, xtal, 27);
    ClockOfOutput(was, r0, f, xtal, PllRegisters(f, xtal), 28);
    ClockOfOutput(was, r0, f, xtal, PllRegisters(g, xtal), 28);
    OtherClocks(r0, r1, 2, g, xtal, 0);
  }

  // ----- the code -----

  class Chip {
    var xtal: nat
    const regs: array<byte>

    constructor ()
      ensures xtal == 25_000_000 && regs.Length == 256 && fresh(regs)
    {
      xtal := 25_000_000;
      regs := new byte[256](_ => 0);
    }

    method SendRegister(reg: nat, val: byte)
      requires reg < regs.Length
      modifies regs
      ensures regs[..] == old(regs[..])[reg := val]
    {
      regs[reg] := val;
    }

    method SendFields(base: nat, f: Fields, top: nat)
      requires base + 8 <= regs.Length && top < 256 && top % 4 == 0
      modifies regs
      ensures regs[base..base + 8] == Pack(f, top)
      ensures forall i :: 0 <= i < regs.Length && !OfPll(base, i) ==> regs[i] == old(regs[i])
    {
      SendRegister(base, f.p3 / 256 % 256);
      SendRegister(base + 1, f.p3 % 256);
      SendRegister(base + 2, f.p1 / 0x1_0000 % 4 + top);
      SendRegister(base + 3, f.p1 / 256 % 256);
      SendRegister(base + 4, f.p1 % 256);
      SendRegister(base + 5, f.p3 / 0x1_0000 % 16 * 16 + f.p2 / 0x1_0000 % 16);
      SendRegister(base + 6, f.p2 / 256 % 256);
      SendRegister(base + 7, f.p2 % 256);
    }

    method SetupPll(pll: nat, mult: byte, num: nat)
      requires pll + 8 <= regs.Length && num < DENOM
      modifies regs
      ensures regs[pll..pll + 8] == Pack(PllFields(mult, num), 0)
      ensures forall i :: 0 <= i < regs.Length && !OfPll(pll, i) ==> regs[i] == old(regs[i])
    {
      hide Pack;
      var p1, p2, p3;
      if num == 0 {
        p1, p2, p3 := (128 * mult as int - 512) % TWO_TO_32, 0, 1;
      } else {
        WholeOfNum(num);
        p1 := FloatWhole(num);
        p1 := (128 * mult as int + p1 - 512) % TWO_TO_32;
        p2 := FloatWhole(num);
        p2 := 128 * num - DENOM * p2;
        p3 := DENOM;
        hide FloatWhole;
      }
      SendFields(pll, Fields(p1, p2, p3), 0);
    }

    /** rdiv is one of the R divider settings, drive one of the drive strengths. */
    method SetupMultisynth(clk: nat, pllSource: nat, divider: nat, num: nat, denom: nat, rdiv: nat, drive: nat)
      requires regs.Length == 256 && (num > 0 ==> denom > 0)
      requires rdiv < 128 && rdiv % 16 == 0 && drive < 4
      modifies regs
      ensures regs[OutputBase(clk)..OutputBase(clk) + 8]
           == Pack(SynthFields(divider, num, denom), OutputTop(divider) + rdiv)
      ensures regs[ControlRegister(clk)] == ControlByte(pllSource, num, drive)
      ensures ControlRegister(clk) == 16 + (if clk < 2 then clk else 2)
        && OutputBase(clk) == 42 + 8 * if clk < 2 then clk else 2
      ensures forall i :: 0 <= i < regs.Length && !OfClock(clk, i) ==> regs[i] == old(regs[i])
    {
      hide Pack;
      var synth, control := 58, 18;
      if clk == 0 {
        synth, control := 42, 16;
      } else if clk == 1 {
        synth, control := 50, 17;
      }
      var div4, p1, p2, p3 := 0, 0, 0, 1;
      if divider == 4 {
        div4 := DIVBY4;
      } else if num == 0 {
        p1 := (128 * divider - 512) % TWO_TO_32;
      } else {
        var w := 128 * num % TWO_TO_32;
        Quotient(w, denom);
        p1 := (128 * divider + w / denom - 512) % TWO_TO_32;
        p2 := w - denom * (w / denom);
        p3 := denom;
      }
      assert Fields(p1, p2, p3) == SynthFields(divider, num, denom);
      hide SynthFields;
      SendFields(synth, Fields(p1, p2, p3), div4 + rdiv);
      var dat := drive + 12;
      if pllSource == PLL_B {
        dat := dat + 0x20;
      }
      if num == 0 {
        dat := dat + 0x40;
      }
      regs[control] := dat;
      assert regs[synth..synth + 8] == Pack(Fields(p1, p2, p3), div4 + rdiv);
    }

    method SetFreqFixedDiv(clk: nat, pll: nat, f: nat, divider: nat)
      requires regs.Length == 256 && xtal > 0 && f > 0 && divider == EvenDivider(f) && pll == PllOf(clk)
      requires f * divider < TWO_TO_31
      modifies regs
      ensures IsSet(old(regs[..]), regs[..], clk, f, xtal)
    {
      hide EvenDivider, PllFields, SynthFields, OutputTop, Pack, ControlByte;
      var pllfreq := f * divider;
      var multi := pllfreq / xtal;
      NumeratorBelow(pllfreq, xtal);
      var num := pllfreq % xtal * DENOM / xtal;
      SetupPll(pll, multi % 256, num);
      SetupMultisynth(clk, pll, divider, 0, 1, 0, FULL_DRIVE);
      ghost var r := regs[..];
      assert r[PllOf(clk)..PllOf(clk) + 8] == regs[PllOf(clk)..PllOf(clk) + 8];
      assert r[OutputBase(clk)..OutputBase(clk) + 8] == regs[OutputBase(clk)..OutputBase(clk) + 8];
    }

    /** si5351bx_setfreq, for all frequencies whose PLL frequency fits a signed word. */
    method SetFreq(clk: nat, f: nat)
      requires regs.Length == 256 && xtal > 0 && 0 < f < TWO_TO_31 / 2
      modifies regs
      ensures IsSet(old(regs[..]), regs[..], clk, f, xtal)
      ensures MIN_HZ <= f <= MAX_HZ && XTAL_MIN <= xtal <= XTAL_MAX ==>
        EvenDivider(f) > 0 && JustBelow(ClockHertz(regs[..], clk, xtal), f, EvenDivider(f), xtal)
    {
      ghost var was := regs[..];
      var pll := if clk == 1 then PLL_B else PLL_A;
      var d := PLL_MIN / f;
      if d * PLL_MIN != f {
        d := d + 1;
      }
      if d % 2 == 1 {
        d := d + 1;
      }
      assert d == EvenDivider(f);
      ProductFitsExactly(f);
      hide EvenDivider, JustBelow, ClockHertz, IsSet;
      SetFreqFixedDiv(clk, pll, f, d);
      if MIN_HZ <= f <= MAX_HZ && XTAL_MIN <= xtal <= XTAL_MAX {
        SetClockRuns(was, regs[..], clk, f, xtal);
      }
    }
  }
}
