/** The settings file: save_user_settings prints the fields and the band stack, and
    user_settings_handler restores the band stack from what is parsed. */
module Settings {
  import opened IniLines
  import opened IniParser
  import opened IniRoundTrip

  const STACK_DEPTH: nat := 4
  const BANDS: nat := 8

  /** A field of the screen, by its command and its value. */
  datatype Field = Field(cmd: string, value: string)

  datatype Band = Band(name: string, freq: seq<int>, mode: seq<int>)

  /** The frequencies and modes are C ints. */
  predicate Int32(n: int) {
    -0x8000_0000 <= n < 0x8000_0000
  }

  function BandName(i: nat): string
    requires i < BANDS
  {
    ["80m", "40m", "30m", "20m", "17m", "15m", "12m", "10m"][i]
  }

  predicate Shaped(bands: seq<Band>) {
    |bands| == BANDS && forall i :: 0 <= i < BANDS ==> |bands[i].freq| == STACK_DEPTH && |bands[i].mode| == STACK_DEPTH
  }

  predicate AllInt32(b: Band) {
    && (forall n :: n in b.freq ==> Int32(n))
    && (forall n :: n in b.mode ==> Int32(n))
  }

  predicate ValidBands(bands: seq<Band>) {
    Shaped(bands) && forall i :: 0 <= i < BANDS ==> bands[i].name == BandName(i) && AllInt32(bands[i])
  }

  // ----- numbers as text -----

  function Digit(d: nat): char
    requires d < 10
  {
    ('0' as int + d) as char
  }

  predicate IsDigit(c: char) {
    '0' <= c <= '9'
  }

  lemma DigitIs(c: char)
    ensures IsDigit(c) <==> c in "0123456789"
  {
    if IsDigit(c) {
      var d := c as int - '0' as int;
      assert "0123456789"[d] == c;
    }
  }

  function Digits(n: nat): string {
    if n < 10 then [Digit(n)] else Digits(n / 10) + [Digit(n % 10)]
  }

  /** What %d prints. */
  function Decimal(n: int): string {
    if n < 0 then "-" + Digits(-n) else Digits(n)
  }

  function AtoiDigits(s: string, acc: nat): nat
    decreases |s|
  {
    if s == "" || !IsDigit(s[0]) then acc
    else AtoiDigits(s[1..], acc * 10 + (s[0] as int - '0' as int))
  }

  function Atoi(s: string): int
    decreases |s|
  {
    if s == "" then 0
    else if IsSpace(s[0]) then Atoi(s[1..])
    else if s[0] == '-' then 0 - AtoiDigits(s[1..], 0)
    else if s[0] == '+' then AtoiDigits(s[1..], 0)
    else AtoiDigits(s, 0)
  }

  predicate AllDigits(s: string) {
    forall k :: 0 <= k < |s| ==> IsDigit(s[k])
  }

  lemma {:induction false} DigitsAreDigits(n: nat)
    ensures Digits(n) != "" && AllDigits(Digits(n))
  {
    if n >= 10 {
      DigitsAreDigits(n / 10);
    }
  }

  lemma {:induction false} AtoiAppend(s: string, d: nat, acc: nat)
    requires AllDigits(s) && d < 10
    ensures AtoiDigits(s + [Digit(d)], acc) == AtoiDigits(s, acc) * 10 + d
    decreases |s|
  {
    if s == "" {
      assert s + [Digit(d)] == [Digit(d)];
      assert AtoiDigits("", acc * 10 + d) == acc * 10 + d;
    } else {
      assert (s + [Digit(d)])[1..] == s[1..] + [Digit(d)];
      AtoiAppend(s[1..], d, acc * 10 + (s[0] as int - '0' as int));
    }
  }

  lemma {:induction false} AtoiOfDigits(n: nat)
    ensures AtoiDigits(Digits(n), 0) == n
  {
    if n < 10 {
      AtoiAppend("", n, 0);
      assert "" + [Digit(n)] == Digits(n);
    } else {
      AtoiOfDigits(n / 10);
      DigitsAreDigits(n / 10);
      AtoiAppend(Digits(n / 10), n % 10, 0);
    }
  }

  /** atoi undoes %d. */
  lemma AtoiOfDecimal(n: int)
    ensures Atoi(Decimal(n)) == n
  {
    DigitsAreDigits(if n < 0 then -n else n);
    AtoiOfDigits(if n < 0 then -n else n);
    if n < 0 {
      assert Decimal(n)[1..] == Digits(-n);
    }
  }

  lemma AtoiOfNumber(n: nat, rest: string)
    requires rest != "" ==> rest[0] !in "0123456789"
    ensures
      var t := Decimal(n) + rest;
      t != "" && IsDigit(t[0]) && AtoiDigits(t, 0) == n
  {
    DigitsAreDigits(n);
    AtoiOfDigits(n);
    if rest != "" {
      DigitIs(rest[0]);
    }
    AtoiDigitsStop(Decimal(n), rest, 0);
  }

  lemma {:induction false} AtoiOfSigned(sign: string, t: string)
    requires sign in ["", "+", "-"] && t != "" && IsDigit(t[0])
    ensures Atoi(sign + t) == if sign == "-" then 0 - AtoiDigits(t, 0) else AtoiDigits(t, 0)
  {
    hide AtoiDigits;
    if sign == "" {
      assert sign + t == t;
    } else {
      assert (sign + t)[0] == sign[0] && (sign + t)[1..] == t;
    }
  }

  /** atoi skips blanks, reads one sign and the digits up to the first character that is none. */
  lemma {:induction false} AtoiReads(blanks: string, sign: string, n: nat, rest: string)
    requires forall k :: 0 <= k < |blanks| ==> IsSpace(blanks[k])
    requires sign in ["", "+", "-"] && (rest != "" ==> rest[0] !in "0123456789")
    ensures Atoi(blanks + sign + Decimal(n) + rest) == if sign == "-" then 0 - n else n
    decreases |blanks|
  {
    hide Decimal, AtoiDigits;
    var s := blanks + sign + Decimal(n) + rest;
    if blanks != "" {
      AtoiReads(blanks[1..], sign, n, rest);
      assert s[1..] == blanks[1..] + sign + Decimal(n) + rest;
    } else {
      AtoiOfNumber(n, rest);
      AtoiOfSigned(sign, Decimal(n) + rest);
      assert s == sign + (Decimal(n) + rest);
    }
  }

  lemma {:induction false} AtoiOfNoNumber(blanks: string, rest: string)
    requires forall k :: 0 <= k < |blanks| ==> IsSpace(blanks[k])
    requires rest != "" ==> !IsSpace(rest[0]) && rest[0] !in "0123456789+-"
    ensures Atoi(blanks + rest) == 0
    decreases |blanks|
  {
    if blanks != "" {
      AtoiOfNoNumber(blanks[1..], rest);
      assert (blanks + rest)[1..] == blanks[1..] + rest;
    } else {
      assert blanks + rest == rest;
      if rest != "" {
        DigitIs(rest[0]);
        assert rest[0] !in "0123456789" by {
          forall c | c in "0123456789"
            ensures c in "0123456789+-"
          {
            assert "0123456789+-" == "0123456789" + "+-";
          }
        }
        assert "0123456789+-"[10] == '+' && "0123456789+-"[11] == '-';
      }
    }
  }

  lemma {:induction false} AtoiDigitsStop(s: string, rest: string, acc: nat)
    requires AllDigits(s) && (rest != "" ==> !IsDigit(rest[0]))
    ensures AtoiDigits(s + rest, acc) == AtoiDigits(s, acc)
    decreases |s|
  {
    if s == "" {
      assert s + rest == rest;
    } else {
      assert (s + rest)[1..] == s[1..] + rest;
      AtoiDigitsStop(s[1..], rest, acc * 10 + (s[0] as int - '0' as int));
    }
  }

  function Pow10(k: nat): nat {
    if k == 0 then 1 else 10 * Pow10(k - 1)
  }

  lemma {:induction false} DigitsAreFew(n: nat, k: nat)
    requires k > 0 && n < Pow10(k)
    ensures |Digits(n)| <= k
    decreases k
  {
    if n >= 10 {
      assert k > 1 by {
        assert Pow10(1) == 10 * Pow10(0);
      }
      DigitsAreFew(n / 10, k - 1);
    }
  }

  lemma DecimalIsShort(n: int)
    requires Int32(n)
    ensures |Decimal(n)| <= 11
  {
    assert Pow10(10) == 10_000_000_000 by {
      assert Pow10(2) == 100;
      assert Pow10(4) == 10_000;
      assert Pow10(6) == 1_000_000;
      assert Pow10(8) == 100_000_000;
    }
    DigitsAreFew(if n < 0 then -n else n, 10);
  }

  /** A number is a value that needs no care. */
  lemma DecimalIsPlain(n: int)
    requires Int32(n)
    ensures Trimmed(Decimal(n)) && NoComment(Decimal(n)) && '\n' !in Decimal(n) && '\0' !in Decimal(n)
    ensures |Decimal(n)| <= 11
  {
    var s := Decimal(n);
    DecimalIsShort(n);
    DigitsAreDigits(if n < 0 then -n else n);
    assert forall k :: 0 <= k < |s| ==> IsDigit(s[k]) || s[k] == '-';
  }

  // ----- saving -----

  function FreqName(j: nat): string
    requires j < STACK_DEPTH
  {
    ["freq0", "freq1", "freq2", "freq3"][j]
  }

  function ModeName(j: nat): string
    requires j < STACK_DEPTH
  {
    ["mode0", "mode1", "mode2", "mode3"][j]
  }

  function FieldItems(fields: seq<Field>): seq<Item> {
    if fields == [] then [] else [Pair(fields[0].cmd, fields[0].value)] + FieldItems(fields[1..])
  }

  /** The pairs of a band from the j-th on. */
  function StackItems(b: Band, j: nat): seq<Item>
    requires |b.freq| == STACK_DEPTH && |b.mode| == STACK_DEPTH && j <= STACK_DEPTH
    decreases STACK_DEPTH - j
  {
    if j == STACK_DEPTH then []
    else [Pair(FreqName(j), Decimal(b.freq[j])), Pair(ModeName(j), Decimal(b.mode[j]))] + StackItems(b, j + 1)
  }

  function BandItems(bands: seq<Band>, i: nat): seq<Item>
    requires ValidBands(bands) && i <= BANDS
    decreases BANDS - i
  {
    if i == BANDS then []
    else [Section(bands[i].name)] + StackItems(bands[i], 0) + BandItems(bands, i + 1)
  }

  function Document(fields: seq<Field>, bands: seq<Band>): seq<Item>
    requires ValidBands(bands)
  {
    FieldItems(fields) + BandItems(bands, 0)
  }

  lemma SlotNames(j: nat)
    requires j < STACK_DEPTH
    ensures FreqName(j) == "freq" + Decimal(j) && ModeName(j) == "mode" + Decimal(j)
  {
    assert Decimal(0) == "0" && Decimal(1) == "1" && Decimal(2) == "2" && Decimal(3) == "3";
  }

  lemma {:induction false} PrintAppend(a: seq<Item>, b: seq<Item>)
    ensures Print(a + b) == Print(a) + Print(b)
  {
    hide PrintItem;
    if a == [] {
      assert a + b == b;
    } else {
      assert (a + b)[0] == a[0] && (a + b)[1..] == a[1..] + b;
      PrintAppend(a[1..], b);
    }
  }

  // ----- restoring -----

  /** The band a section names, or -1. The handler knows "13m" where the band stack has "12m". */
  function BandOf(section: string): int {
    if section == "80m" then 0
    else if section == "40m" then 1
    else if section == "30m" then 2
    else if section == "20m" then 3
    else if section == "17m" then 4
    else if section == "15m" then 5
    else if section == "13m" then 6
    else if section == "10m" then 7
    else -1
  }

  /** The place a name stands for: frequencies from 0, modes from STACK_DEPTH. */
  function SlotOf(name: string): int {
    if name == "freq0" then 0
    else if name == "freq1" then 1
    else if name == "freq2" then 2
    else if name == "freq3" then 3
    else if name == "mode0" then 4
    else if name == "mode1" then 5
    else if name == "mode2" then 6
    else if name == "mode3" then 7
    else -1
  }

  function Put(b: Band, slot: nat, v: int): Band
    requires |b.freq| == STACK_DEPTH && |b.mode| == STACK_DEPTH && slot < 2 * STACK_DEPTH
  {
    if slot < STACK_DEPTH then b.(freq := b.freq[slot := v]) else b.(mode := b.mode[slot - STACK_DEPTH := v])
  }

  function SlotValue(b: Band, slot: nat): int
    requires |b.freq| == STACK_DEPTH && |b.mode| == STACK_DEPTH && slot < 2 * STACK_DEPTH
  {
    if slot < STACK_DEPTH then b.freq[slot] else b.mode[slot - STACK_DEPTH]
  }

  /** What one call of the handler does to the band stack. */
  function Restore(bands: seq<Band>, c: Call): (r: seq<Band>)
    requires Shaped(bands)
    ensures Shaped(r)
  {
    var i, slot := BandOf(c.section), SlotOf(c.name);
    if i < 0 || slot < 0 then bands else bands[i := Put(bands[i], slot, Atoi(c.value))]
  }

  function RestoreAll(bands: seq<Band>, calls: seq<Call>): (r: seq<Band>)
    requires Shaped(bands)
    ensures Shaped(r)
    decreases |calls|
  {
    if calls == [] then bands else RestoreAll(Restore(bands, calls[0]), calls[1..])
  }

  lemma {:induction false} RestoreAppend(bands: seq<Band>, a: seq<Call>, b: seq<Call>)
    requires Shaped(bands)
    ensures RestoreAll(bands, a + b) == RestoreAll(RestoreAll(bands, a), b)
    decreases |a|
  {
    hide Restore, Shaped;
    if a == [] {
      assert a + b == b;
    } else {
      assert (a + b)[0] == a[0] && (a + b)[1..] == a[1..] + b;
      RestoreAppend(Restore(bands, a[0]), a[1..], b);
    }
  }

  lemma {:induction false} ExpectedAppend(a: seq<Item>, b: seq<Item>, section: string)
    requires forall it :: it in a ==> it.Pair?
    ensures Expected(a + b, section) == Expected(a, section) + Expected(b, section)
  {
    if a == [] {
      assert a + b == b;
    } else {
      assert (a + b)[0] == a[0] && (a + b)[1..] == a[1..] + b;
      ExpectedAppend(a[1..], b, section);
      assert a[0] in a;
    }
  }

  lemma {:induction false} FieldsDoNotTouchBands(bands: seq<Band>, fields: seq<Field>)
    requires Shaped(bands)
    ensures RestoreAll(bands, Expected(FieldItems(fields), "")) == bands
  {
    if fields != [] {
      var it := FieldItems(fields)[0];
      assert FieldItems(fields)[1..] == FieldItems(fields[1..]);
      FieldsDoNotTouchBands(bands, fields[1..]);
      var calls := Expected(FieldItems(fields), "");
      assert calls[0] == Call("", it.name, it.value) && calls[1..] == Expected(FieldItems(fields[1..]), "");
    }
  }

  lemma NamesAreKnown(i: nat, j: nat)
    requires i < BANDS && j < STACK_DEPTH
    ensures BandOf(BandName(i)) == if i == 6 then -1 else i
    ensures SlotOf(FreqName(j)) == j && SlotOf(ModeName(j)) == STACK_DEPTH + j
  {
    var f, m := FreqName(j), ModeName(j);
    assert f[0] == 'f' && m[0] == 'm' && |f| == |m| == 5;
    assert f[4] == Digit(j) && m[4] == Digit(j);
    if j == 0 {
    } else if j == 1 {
    } else if j == 2 {
    }
  }

  /** The printer and the handler agree on all names but that of the seventh band. */
  lemma NamesAre(section: string, name: string, i: nat, j: nat)
    requires i < 8 && j < 4
    ensures BandName(i) == ["80m", "40m", "30m", "20m", "17m", "15m", "12m", "10m"][i]
    ensures BandOf(section) == i <==> section == if i == 6 then "13m" else BandName(i)
    ensures FreqName(j) == "freq" + Decimal(j) && ModeName(j) == "mode" + Decimal(j)
    ensures SlotOf(name) == j <==> name == FreqName(j)
    ensures SlotOf(name) == 4 + j <==> name == ModeName(j)
  {
    NamesAreKnown(i, j);
    SlotNames(j);
    assert BandOf("13m") == 6;
    hide Decimal;
  }

  lemma {:induction false} RestoreTwo(bands: seq<Band>, c0: Call, c1: Call, rest: seq<Call>)
    requires Shaped(bands)
    ensures RestoreAll(bands, [c0, c1] + rest) == RestoreAll(Restore(Restore(bands, c0), c1), rest)
  {
    hide Restore, Shaped;
    var all := [c0, c1] + rest;
    assert all[0] == c0 && all[1..] == [c1] + rest && all[1..][0] == c1 && all[1..][1..] == rest;
  }

  /** The j-th frequency and mode of a band, put back. */
  function PutPair(bands: seq<Band>, b: Band, i: nat, j: nat): seq<Band>
    requires Shaped(bands) && i < BANDS && j < STACK_DEPTH && |b.freq| == STACK_DEPTH && |b.mode| == STACK_DEPTH
  {
    bands[i := bands[i].(freq := bands[i].freq[j := b.freq[j]], mode := bands[i].mode[j := b.mode[j]])]
  }

  lemma PairIsRestored(bands: seq<Band>, b: Band, i: nat, j: nat)
    requires Shaped(bands) && i < BANDS && j < STACK_DEPTH && |b.freq| == STACK_DEPTH && |b.mode| == STACK_DEPTH
    ensures
      var c0 := Call(BandName(i), FreqName(j), Decimal(b.freq[j]));
      var c1 := Call(BandName(i), ModeName(j), Decimal(b.mode[j]));
      Restore(Restore(bands, c0), c1) == if i == 6 then bands else PutPair(bands, b, i, j)
  {
    hide Decimal, Atoi, FreqName, ModeName, BandName, BandOf, SlotOf;
    NamesAreKnown(i, j);
    AtoiOfDecimal(b.freq[j]);
    AtoiOfDecimal(b.mode[j]);
  }

  lemma StackCalls(b: Band, section: string, j: nat)
    requires j < STACK_DEPTH && |b.freq| == STACK_DEPTH && |b.mode| == STACK_DEPTH
    ensures
      Expected(StackItems(b, j), section)
      == [Call(section, FreqName(j), Decimal(b.freq[j])), Call(section, ModeName(j), Decimal(b.mode[j]))]
         + Expected(StackItems(b, j + 1), section)
  {
    hide Decimal, FreqName, ModeName;
    var items := StackItems(b, j);
    assert items[1..][0] == items[1] && items[1..][1..] == StackItems(b, j + 1);
  }

  /** The first j places of the old stack, the others of the saved one. */
  function Patched(was: Band, b: Band, j: nat): Band
    requires j <= |was.freq| && j <= |was.mode| && j <= |b.freq| && j <= |b.mode|
  {
    was.(freq := was.freq[..j] + b.freq[j..], mode := was.mode[..j] + b.mode[j..])
  }

  /** A band's own pairs, from the j-th on, overwrite just those places. */
  lemma {:induction false} StackIsRestored(bands: seq<Band>, b: Band, i: nat, j: nat)
    requires Shaped(bands) && i < BANDS && j <= STACK_DEPTH && |b.freq| == STACK_DEPTH && |b.mode| == STACK_DEPTH
    ensures
      RestoreAll(bands, Expected(StackItems(b, j), BandName(i)))
      == if i == 6 then bands else bands[i := Patched(bands[i], b, j)]
    decreases STACK_DEPTH - j
  {
    hide Decimal, FreqName, ModeName, BandName, Restore, Expected;
    if j == STACK_DEPTH {
      NothingRestored(bands, b, BandName(i));
      assert Patched(bands[i], b, j) == bands[i];
    } else {
      var c0 := Call(BandName(i), FreqName(j), Decimal(b.freq[j]));
      var c1 := Call(BandName(i), ModeName(j), Decimal(b.mode[j]));
      var rest := Expected(StackItems(b, j + 1), BandName(i));
      StackCalls(b, BandName(i), j);
      RestoreTwo(bands, c0, c1, rest);
      PairIsRestored(bands, b, i, j);
      var one := if i == 6 then bands else PutPair(bands, b, i, j);
      StackIsRestored(one, b, i, j + 1);
      if i != 6 {
        PatchedOnce(bands[i], b, j);
        assert one[i := Patched(one[i], b, j + 1)] == bands[i := Patched(bands[i], b, j)];
      }
    }
  }

  lemma {:induction false} NothingRestored(bands: seq<Band>, b: Band, section: string)
    requires Shaped(bands) && |b.freq| == STACK_DEPTH && |b.mode| == STACK_DEPTH
    ensures RestoreAll(bands, Expected(StackItems(b, STACK_DEPTH), section)) == bands
  {
  }

  lemma PatchedOnce(o: Band, b: Band, j: nat)
    requires j < STACK_DEPTH && |b.freq| == |b.mode| == |o.freq| == |o.mode| == STACK_DEPTH
    ensures
      Patched(o.(freq := o.freq[j := b.freq[j]], mode := o.mode[j := b.mode[j]]), b, j + 1) == Patched(o, b, j)
  {
    assert o.freq[j := b.freq[j]][..j + 1] + b.freq[j + 1..] == o.freq[..j] + b.freq[j..];
    assert o.mode[j := b.mode[j]][..j + 1] + b.mode[j + 1..] == o.mode[..j] + b.mode[j..];
  }

  lemma {:induction false} StackItemsArePairs(b: Band, j: nat)
    requires |b.freq| == STACK_DEPTH && |b.mode| == STACK_DEPTH && j <= STACK_DEPTH
    ensures forall it :: it in StackItems(b, j) ==> it.Pair?
    decreases STACK_DEPTH - j
  {
    hide Decimal, FreqName, ModeName;
    if j < STACK_DEPTH {
      StackItemsArePairs(b, j + 1);
    }
  }

  /** Saved bands from the i-th on, except the one the handler does not know. */
  function Merged(before: seq<Band>, saved: seq<Band>, i: nat): seq<Band>
    requires |before| == |saved| == BANDS
  {
    seq(BANDS, k requires 0 <= k < BANDS => if k < i || k == 6 then before[k] else saved[k])
  }

  lemma BandCalls(saved: seq<Band>, i: nat, section: string)
    requires ValidBands(saved) && i < BANDS
    ensures
      Expected(BandItems(saved, i), section)
      == Expected(StackItems(saved[i], 0), BandName(i)) + Expected(BandItems(saved, i + 1), BandName(i))
  {
    hide BandName, Decimal, StackItems, AllInt32;
    var items := BandItems(saved, i);
    var stack := StackItems(saved[i], 0);
    assert items[0] == Section(BandName(i)) && items[1..] == stack + BandItems(saved, i + 1);
    StackItemsArePairs(saved[i], 0);
    ExpectedAppend(stack, BandItems(saved, i + 1), BandName(i));
  }

  lemma {:induction false} BandsAreRestored(before: seq<Band>, saved: seq<Band>, i: nat, section: string)
    requires ValidBands(before) && ValidBands(saved) && i <= BANDS
    ensures RestoreAll(before, Expected(BandItems(saved, i), section)) == Merged(before, saved, i)
    decreases BANDS - i
  {
    hide BandName, Restore, Expected, StackItems, AllInt32;
    if i == BANDS {
      NoBandsLeft(saved, section);
      assert Merged(before, saved, i) == before;
    } else {
      var b := saved[i];
      BandCalls(saved, i, section);
      RestoreAppend(before, Expected(StackItems(b, 0), BandName(i)), Expected(BandItems(saved, i + 1), BandName(i)));
      StackIsRestored(before, b, i, 0);
      var one := if i == 6 then before else before[i := Patched(before[i], b, 0)];
      assert before[i].freq[..0] + b.freq[0..] == b.freq && before[i].mode[..0] + b.mode[0..] == b.mode;
      assert i != 6 ==> one[i] == b;
      BandsAreRestored(one, saved, i + 1, BandName(i));
      assert Merged(one, saved, i + 1) == Merged(before, saved, i);
    }
  }

  lemma {:induction false} NoBandsLeft(saved: seq<Band>, section: string)
    requires ValidBands(saved)
    ensures Expected(BandItems(saved, BANDS), section) == []
  {
  }

  // ----- a saved file is a document that is read back -----

  lemma {:induction false} StackItemsAreWritable(b: Band, j: nat)
    requires |b.freq| == STACK_DEPTH && |b.mode| == STACK_DEPTH && j <= STACK_DEPTH
    requires AllInt32(b)
    ensures AllWritable(StackItems(b, j))
    decreases STACK_DEPTH - j
  {
    if j < STACK_DEPTH {
      hide Decimal, Trimmed, NoComment, Int32;
      assert b.freq[j] in b.freq && b.mode[j] in b.mode;
      StackItemsAreWritable(b, j + 1);
      DecimalIsPlain(b.freq[j]);
      DecimalIsPlain(b.mode[j]);
      NameIsPlain(j);
      hide StartsPlain, FreqName, ModeName;
      assert Writable(Pair(FreqName(j), Decimal(b.freq[j])));
      assert Writable(Pair(ModeName(j), Decimal(b.mode[j])));
    }
  }

  lemma NameIsPlain(j: nat)
    requires j < STACK_DEPTH
    ensures WritablePair(FreqName(j), "") && |FreqName(j)| == 5 && '\0' !in FreqName(j)
    ensures WritablePair(ModeName(j), "") && |ModeName(j)| == 5 && '\0' !in ModeName(j)
  {
  }

  lemma BandNameIsWritable(i: nat)
    requires i < BANDS
    ensures Writable(Section(BandName(i)))
  {
  }

  lemma BothWritable(a: seq<Item>, b: seq<Item>)
    requires AllWritable(a) && AllWritable(b)
    ensures AllWritable(a + b)
  {
    hide Writable;
  }

  lemma {:induction false} BandItemsAreWritable(bands: seq<Band>, i: nat)
    requires ValidBands(bands) && i <= BANDS
    ensures AllWritable(BandItems(bands, i))
    decreases BANDS - i
  {
    hide Writable, StackItems, BandName, AllInt32;
    if i < BANDS {
      StackItemsAreWritable(bands[i], 0);
      BandItemsAreWritable(bands, i + 1);
      BandNameIsWritable(i);
      assert AllWritable([Section(bands[i].name)]);
      hide AllWritable;
      BothWritable([Section(bands[i].name)], StackItems(bands[i], 0));
      BothWritable([Section(bands[i].name)] + StackItems(bands[i], 0), BandItems(bands, i + 1));
    }
  }

  const ACCEPT: Handler := c => true

  /** The fields as the handler gets them: outside of any section. */
  function FieldCalls(fields: seq<Field>): seq<Call> {
    if fields == [] then [] else [Call("", fields[0].cmd, fields[0].value)] + FieldCalls(fields[1..])
  }

  lemma {:induction false} FieldItemsExpected(fields: seq<Field>)
    ensures Expected(FieldItems(fields), "") == FieldCalls(fields)
    ensures forall it :: it in FieldItems(fields) ==> it.Pair?
  {
    if fields != [] {
      FieldItemsExpected(fields[1..]);
      assert FieldItems(fields)[1..] == FieldItems(fields[1..]);
    }
  }

  /** The file that is saved is read as it was meant: the fields outside of any
      section, then the bands. */
  lemma {:induction false} SettingsAreExpected(fields: seq<Field>, saved: seq<Band>)
    requires ValidBands(saved)
    requires AllWritable(FieldItems(fields)) && (fields != [] ==> !HasBom(fields[0].cmd))
    ensures
      var r := Parse(INIT, Print(Document(fields, saved)), ACCEPT);
      r.error == 0 && r.calls == FieldCalls(fields) + Expected(BandItems(saved, 0), "")
  {
    hide Parse, HasBom, Writable, BandItems, AllInt32;
    var items := Document(fields, saved);
    BandItemsAreWritable(saved, 0);
    FieldItemsExpected(fields);
    ExpectedAppend(FieldItems(fields), BandItems(saved, 0), "");
    assert items != [] && items[0].Pair? ==> !HasBom(items[0].name) by {
      FirstItem(fields, saved);
    }
    DocumentReadsBack(items, ACCEPT);
  }

  /** The stacks of all bands are loaded again as they were saved but for the
      seventh, "12m", which keeps what it had; the fields reach the handler first,
      in order. */
  lemma {:induction false} SettingsSurvive(fields: seq<Field>, saved: seq<Band>, before: seq<Band>)
    requires ValidBands(saved) && ValidBands(before)
    requires AllWritable(FieldItems(fields)) && (fields != [] ==> !HasBom(fields[0].cmd))
    ensures
      var r := Parse(INIT, Print(Document(fields, saved)), ACCEPT);
      && r.error == 0
      && FieldCalls(fields) <= r.calls
      && RestoreAll(before, r.calls) == saved[6 := before[6]]
  {
    hide Parse, HasBom, Writable, BandItems, Restore, AllInt32, FieldItems;
    SettingsAreExpected(fields, saved);
    FieldItemsExpected(fields);
    FieldsDoNotTouchBands(before, fields);
    RestoreAppend(before, FieldCalls(fields), Expected(BandItems(saved, 0), ""));
    BandsAreRestored(before, saved, 0, "");
    assert Merged(before, saved, 0) == saved[6 := before[6]];
  }

  lemma FirstItem(fields: seq<Field>, saved: seq<Band>)
    requires ValidBands(saved)
    ensures
      var items := Document(fields, saved);
      items != [] && items[0].Pair? ==> fields != [] && items[0].name == fields[0].cmd
  {
    hide StackItems;
    if fields == [] {
      assert BandItems(saved, 0)[0] == Section(saved[0].name);
    }
  }

  // ----- the code -----

  class Store {
    var bands: seq<Band>

    /** The text save_user_settings writes. */
    method Save(fields: seq<Field>) returns (text: string)
      requires ValidBands(bands)
      ensures text == Print(Document(fields, bands))
    {
      hide BandName, Print, Decimal, AllInt32, StackItems, PrintItem, FieldItems;
      text := SaveFields(fields);
      ghost var done := FieldItems(fields);
      var k := 0;
      while k < BANDS
        invariant k <= BANDS && text == Print(done)
        invariant done + BandItems(bands, k) == Document(fields, bands)
      {
        var stack := SaveBand(bands[k]);
        ghost var items := [Section(bands[k].name)] + StackItems(bands[k], 0);
        PrintAppend(done, items);
        text := text + stack;
        assert done + BandItems(bands, k) == (done + items) + BandItems(bands, k + 1);
        done := done + items;
        k := k + 1;
      }
      assert done + [] == done;
    }

    static method SaveFields(fields: seq<Field>) returns (text: string)
      ensures text == Print(FieldItems(fields))
    {
      hide Print, PrintItem;
      text := "";
      ghost var done: seq<Item> := [];
      PrintNothing();
      var i := 0;
      assert fields[0..] == fields;
      while i < |fields|
        invariant i <= |fields| && text == Print(done)
        invariant done + FieldItems(fields[i..]) == FieldItems(fields)
      {
        PrintOneMore(done, Pair(fields[i].cmd, fields[i].value));
        text := text + PrintItem(Pair(fields[i].cmd, fields[i].value));
        assert fields[i..][1..] == fields[i + 1..];
        done := done + [Pair(fields[i].cmd, fields[i].value)];
        i := i + 1;
      }
      assert done + [] == done;
    }

    static method SaveBand(b: Band) returns (text: string)
      requires |b.freq| == STACK_DEPTH && |b.mode| == STACK_DEPTH
      ensures text == Print([Section(b.name)] + StackItems(b, 0))
    {
      hide Print, Decimal, PrintItem;
      ghost var done: seq<Item> := [Section(b.name)];
      PrintNothing();
      PrintOneMore([], Section(b.name));
      assert [] + [Section(b.name)] == done;
      text := PrintItem(Section(b.name));
      var j := 0;
      while j < STACK_DEPTH
        invariant j <= STACK_DEPTH && text == Print(done)
        invariant done + StackItems(b, j) == [Section(b.name)] + StackItems(b, 0)
      {
        var freq, mode := Pair("freq" + Decimal(j), Decimal(b.freq[j])), Pair("mode" + Decimal(j), Decimal(b.mode[j]));
        SlotNames(j);
        PrintOneMore(done, freq);
        PrintOneMore(done + [freq], mode);
        text := text + PrintItem(freq) + PrintItem(mode);
        assert done + StackItems(b, j) == done + [freq] + [mode] + StackItems(b, j + 1);
        done := done + [freq] + [mode];
        j := j + 1;
      }
      assert done + [] == done;
    }

    /** user_settings_handler, as far as the band stack goes. */
    method Handle(section: string, name: string, value: string)
      requires Shaped(bands)
      modifies this
      ensures Shaped(bands) && bands == Restore(old(bands), Call(section, name, value))
      ensures forall i :: 0 <= i < BANDS && i != BandOf(section) ==> bands[i] == old(bands[i])
      ensures BandOf(section) >= 0 && SlotOf(name) >= 0 ==>
        SlotValue(bands[BandOf(section)], SlotOf(name)) == Atoi(value)
    {
      var band := BandOf(section);
      var slot := SlotOf(name);
      if band >= 0 && slot >= 0 {
        var v := Atoi(value);
        bands := bands[band := Put(bands[band], slot, v)];
      }
    }

    method Load(text: string)
      requires Shaped(bands)
      modifies this
      ensures bands == RestoreAll(old(bands), Parse(INIT, text, ACCEPT).calls)
    {
      hide Parse, Restore;
      var error, calls := ParseString(text, ACCEPT);
      var k := 0;
      assert calls[0..] == calls;
      while k < |calls|
        invariant k <= |calls| && Shaped(bands)
        invariant RestoreAll(bands, calls[k..]) == RestoreAll(old(bands), calls)
      {
        assert calls[k..][1..] == calls[k + 1..];
        Handle(calls[k].section, calls[k].name, calls[k].value);
        k := k + 1;
      }
    }
  }

  lemma PrintNothing()
    ensures Print([]) == ""
  {
  }

  lemma {:induction false} PrintOneMore(items: seq<Item>, it: Item)
    ensures Print(items + [it]) == Print(items) + PrintItem(it)
  {
    PrintAppend(items, [it]);
    assert [it][1..] == [];
    assert Print([it]) == PrintItem(it) + "";
  }
}
