/** WebSocket frames on the wire (section 5.2 of RFC 6455): building them, masking
    them, and finding one at the front of a buffer. */
module WsFrame {
  import opened Bytes

  const MAX_DATA: nat := 1024 * 1024 * 1024
  const FIN: byte := 128

  /** The place values of the eight bytes of a number, the most significant first. */
  const PLACES: seq<nat> := [
    0x100_0000_0000_0000, 0x1_0000_0000_0000, 0x100_0000_0000, 0x1_0000_0000,
    0x100_0000, 0x1_0000, 0x100, 1
  ]

  /** Masking (section 5.3): no mask, or four bytes used cyclically. */
  predicate IsMask(mask: seq<byte>) {
    mask == [] || |mask| == 4
  }

  function Mask(data: seq<byte>, mask: seq<byte>): (r: seq<byte>)
    requires IsMask(mask)
    ensures |r| == |data|
  {
    seq(|data|, i requires 0 <= i < |data| => if mask == [] then data[i] else Xor(data[i], mask[i % 4]))
  }

  lemma MaskTwice(data: seq<byte>, mask: seq<byte>)
    requires IsMask(mask)
    ensures Mask(Mask(data, mask), mask) == data
  {
    forall i | 0 <= i < |data|
      ensures Mask(Mask(data, mask), mask)[i] == data[i]
    {
      if mask != [] { XorTwice(data[i], mask[i % 4]); }
    }
  }

  /** The bits of r are those of a turned over where b has a bit. */
  predicate Turned(r: byte, a: byte, b: byte) {
    forall k :: 0 <= k < 8 ==> (BitOf(r, k) <==> BitOf(a, k) != BitOf(b, k))
  }

  lemma MaskTurns(data: seq<byte>, mask: seq<byte>)
    requires IsMask(mask)
    ensures forall j :: 0 <= j < |data| ==>
      if mask == [] then Mask(data, mask)[j] == data[j] else Turned(Mask(data, mask)[j], data[j], mask[j % 4])
  {
    hide Xor, BitOf;
    forall j, k | 0 <= j < |data| && mask != [] && 0 <= k < 8
      ensures BitOf(Mask(data, mask)[j], k) <==> BitOf(data[j], k) != BitOf(mask[j % 4], k)
    {
      XorBit(data[j], mask[j % 4], k);
    }
  }

  // ----- building a frame -----

  /** The length field: 7 bits, 16 bits after 126, or 64 bits after 127. */
  function LengthField(len: nat, masked: bool): (h: seq<byte>)
    requires len < TWO_TO_64
  {
    var top := if masked then 128 else 0;
    if len < 126 then [top + len]
    else if len < 65536 then [top + 126] + BigEndian(len, 2)
    else [top + 127] + BigEndian(len / TWO_TO_32, 4) + BigEndian(len % TWO_TO_32, 4)
  }

  /** A byte of the low part of a number is that byte of the number. */
  lemma LowBytes(n: nat, p: nat, q: nat)
    requires p > 0 && q > 0
    ensures p * (256 * q) > 0 && n % (p * (256 * q)) / p % 256 == n / p % 256
  {
    var m := p * (256 * q);
    var a, low := n / m, n % m;
    var k := 256 * q * a;
    assert n == m * a + low;
    assert m * a == p * k;
    DivModUnique(n, p, k + low / p, low % p);
    DivModUnique(n / p, 256, q * a + low / p / 256, low / p % 256);
  }

  lemma LowWord(n: nat, i: nat)
    requires i < 4
    ensures n % TWO_TO_32 / [0x100_0000, 0x1_0000, 0x100, 1][i] % 256 == n / [0x100_0000, 0x1_0000, 0x100, 1][i] % 256
  {
    LowBytes(n, [0x100_0000, 0x1_0000, 0x100, 1][i], [1, 0x100, 0x1_0000, 0x100_0000][i]);
  }

  /** The payload length of section 5.2 of RFC 6455: in seven bits up to 125, else in
      two or, from 65536 on, in eight bytes, the most significant first. */
  lemma LengthFieldIs(len: nat, masked: bool)
    requires len < TWO_TO_64
    ensures
      var h := LengthField(len, masked);
      && |h| == (if len <= 125 then 1 else if len <= 0xFFFF then 3 else 9)
      && h[0] / 128 == (if masked then 1 else 0)
      && h[0] % 128 == (if len <= 125 then len else if len <= 0xFFFF then 126 else 127)
      && forall i :: 1 <= i < |h| ==> h[i] == len / PLACES[8 - |h| + i] % 256
  {
    hide BigEndian;
    var h := LengthField(len, masked);
    forall i | 1 <= i < |h|
      ensures h[i] == len / PLACES[8 - |h| + i] % 256
    {
      if |h| == 3 {
        TwoBytes(len);
      } else if i < 5 {
        BigEndianWord(len / TWO_TO_32, i - 1);
        DivTwice(len, TWO_TO_32, [0x100_0000, 0x1_0000, 0x100, 1][i - 1]);
      } else {
        BigEndianWord(len % TWO_TO_32, i - 5);
        LowWord(len, i - 5);
      }
    }
  }

  lemma {:induction false} TwoBytes(n: nat)
    ensures BigEndian(n, 2) == [n / 256 % 256, n % 256]
  {
    assert BigEndian(n / 256, 1) == [] + [n / 256 % 256];
  }

  function Header(flags: byte, len: nat, mask: seq<byte>): seq<byte>
    requires IsMask(mask) && len < TWO_TO_64
  {
    [flags] + LengthField(len, mask != []) + mask
  }

  function Encode(flags: byte, mask: seq<byte>, data: seq<byte>): seq<byte>
    requires IsMask(mask) && |data| < TWO_TO_64
  {
    Header(flags, |data|, mask) + Mask(data, mask)
  }

  // ----- finding a frame -----

  /** The fields of struct ws_msg after the header tests. */
  datatype Fields = Fields(headerLen: nat, dataLen: nat, maskLen: nat)

  function HeaderFields(b: seq<byte>): Fields {
    if |b| < 2 then Fields(0, 0, 0)
    else
      var n := b[1] % 128;
      var maskLen := if b[1] >= 128 then 4 else 0;
      if n < 126 && |b| >= maskLen then Fields(2 + maskLen, n, maskLen)
      else if n == 126 && |b| >= 4 + maskLen then Fields(4 + maskLen, 256 * b[2] as int + b[3] as int, maskLen)
      else if |b| >= 10 + maskLen then
        Fields(10 + maskLen, FromBigEndian(b[2..6]) * TWO_TO_32 + FromBigEndian(b[6..10]), maskLen)
      else Fields(0, 0, maskLen)
  }

  datatype Parsed = Incomplete | Complete(headerLen: nat, flags: byte, data: seq<byte>) {
    function Size(): nat
      requires Complete?
    {
      headerLen + |data|
    }
  }

  /** What ws_process finds at the front of the unread bytes. */
  function Parse(b: seq<byte>): (p: Parsed)
    ensures p.Complete? ==> 2 <= p.headerLen && p.Size() <= |b|
  {
    var f := HeaderFields(b);
    if f.dataLen > MAX_DATA || f.headerLen + f.dataLen > |b| || f.headerLen == 0 then Incomplete
    else
      var mask := b[f.headerLen - f.maskLen..f.headerLen];
      Complete(f.headerLen, b[0], Mask(b[f.headerLen..f.headerLen + f.dataLen], mask))
  }

  lemma FieldsStay(b: seq<byte>, more: seq<byte>)
    requires HeaderFields(b).headerLen > 0
    ensures HeaderFields(b + more) == HeaderFields(b)
    ensures HeaderFields(b).maskLen <= HeaderFields(b).headerLen
  {
    hide FromBigEndian;
    var f := HeaderFields(b);
    var c := b + more;
    assert c[0] == b[0] && c[1] == b[1];
    if f.headerLen >= 10 {
      assert c[2..6] == b[2..6] && c[6..10] == b[6..10];
    }
  }

  /** More input behind a whole frame does not change what is found. */
  lemma ParseIgnoresWhatFollows(b: seq<byte>, more: seq<byte>)
    requires Parse(b).Complete?
    ensures Parse(b + more) == Parse(b)
  {
    FieldsStay(b, more);
    hide HeaderFields, Mask;
    var f := HeaderFields(b);
    SliceStays(b, more, f.headerLen, f.headerLen + f.dataLen);
    SliceStays(b, more, f.headerLen - f.maskLen, f.headerLen);
  }

  lemma SliceStays(b: seq<byte>, more: seq<byte>, i: nat, j: nat)
    requires i <= j <= |b|
    ensures (b + more)[i..j] == b[i..j]
  {
  }

  /** The header of a built frame reads back, whatever follows it. */
  lemma HeaderReadsBack(flags: byte, len: nat, mask: seq<byte>, rest: seq<byte>)
    requires IsMask(mask) && len < TWO_TO_64
    ensures HeaderFields(Header(flags, len, mask) + rest) == Fields(|Header(flags, len, mask)|, len, |mask|)
  {
    var h := Header(flags, len, mask);
    var b := h + rest;
    var field := LengthField(len, mask != []);
    assert h[1] == field[0];
    if 126 <= len < 65536 {
      assert field[1..3] == BigEndian(len, 2);
      assert BigEndian(len, 2) == [len / 256, len % 256] by {
        assert BigEndian(len, 1) == [len % 256];
        assert BigEndian(len / 256, 1) == [len / 256];
      }
      assert b[2] == field[1] && b[3] == field[2];
    } else if 65536 <= len {
      var high, low := len / TWO_TO_32, len % TWO_TO_32;
      assert b[2..6] == BigEndian(high, 4);
      assert b[6..10] == BigEndian(low, 4);
      Pow256Values();
      BigEndianRoundTrip(high, 4);
      BigEndianRoundTrip(low, 4);
    }
  }

  /** Round trip: a built frame is found whole, with its flags and its original
      payload, whatever follows it, exactly when the payload is at most 1 GiB. */
  lemma FrameRoundTrip(flags: byte, mask: seq<byte>, data: seq<byte>, rest: seq<byte>)
    requires IsMask(mask) && |data| < TWO_TO_64
    ensures |data| <= 0x4000_0000 ==>
      Parse(Encode(flags, mask, data) + rest) == Complete(|Header(flags, |data|, mask)|, flags, data)
    ensures |data| > 0x4000_0000 ==> Parse(Encode(flags, mask, data) + rest) == Incomplete
  {
    var h := Header(flags, |data|, mask);
    var masked := Mask(data, mask);
    var b := Encode(flags, mask, data) + rest;
    assert b == h + (masked + rest);
    HeaderReadsBack(flags, |data|, mask, masked + rest);
    if |data| <= MAX_DATA {
      assert b[|h|..|h| + |data|] == masked;
      assert b[|h| - |mask|..|h|] == mask;
      MaskTwice(data, mask);
    }
  }

  /** On every strict prefix of a built frame nothing is found. */
  lemma StrictPrefixIsIncomplete(flags: byte, mask: seq<byte>, data: seq<byte>, k: nat)
    requires IsMask(mask) && |data| < TWO_TO_64
    requires k < |Encode(flags, mask, data)|
    ensures Parse(Encode(flags, mask, data)[..k]) == Incomplete
  {
    var whole := Encode(flags, mask, data);
    var p := Parse(whole[..k]);
    if p.Complete? {
      ParseIgnoresWhatFollows(whole[..k], whole[k..]);
      assert whole[..k] + whole[k..] == whole + [];
      FrameRoundTrip(flags, mask, data, []);
      assert false;
    }
  }
}
