/** Base64 as in section 4 of RFC 4648. The streaming encoder keeps the bits it has
    not yet written in the output byte that comes next. */
module Base64 {
  import opened Bytes
  import opened Wrappers

  const PAD: byte := 61            // '='

  /** mg_b64idx. */
  function Index(c: nat): (r: byte)
    requires c < 64
    ensures r != PAD
  {
    if c < 26 then c + 65           // 'A'
    else if c < 52 then c - 26 + 97 // 'a'
    else if c < 62 then c - 52 + 48 // '0'
    else if c == 62 then 43 else 47 // '+' and '/'
  }

  /** mg_b64rev: 64 for padding, -1 outside the alphabet. */
  function Reverse(c: byte): (r: int)
    ensures -1 <= r <= 64
    ensures r == 64 <==> c == PAD
  {
    if 65 <= c <= 90 then c - 65
    else if 97 <= c <= 122 then c + 26 - 97
    else if 48 <= c <= 57 then c + 52 - 48
    else if c == 43 then 62
    else if c == 47 then 63
    else if c == PAD then 64
    else -1
  }

  lemma ReverseOfIndex(c: nat)
    requires c < 64
    ensures Reverse(Index(c)) == c
  {
  }

  /** The alphabet of section 4 of RFC 4648, in order. */
  lemma IndexIs(c: nat)
    requires c < 64
    ensures c < 26 ==> Index(c) == 'A' as int + c
    ensures 26 <= c < 52 ==> Index(c) == 'a' as int + (c - 26)
    ensures 52 <= c < 62 ==> Index(c) == '0' as int + (c - 52)
    ensures c == 62 ==> Index(c) == '+' as int
    ensures c == 63 ==> Index(c) == '/' as int
  {
  }

  /** Every other character is refused but the padding, which is 61, '='. */
  lemma ReverseIs(x: byte)
    ensures 0 <= Reverse(x) < 64 ==> Index(Reverse(x)) == x
    ensures Reverse(x) == 64 <==> x == 61
  {
  }

  /** Three bytes as four characters. */
  function Group(a: byte, b: byte, c: byte): (g: seq<byte>)
    ensures |g| == 4
  {
    [Index(a / 4), Index(a % 4 * 16 + b / 16), Index(b % 16 * 4 + c / 64), Index(c % 64)]
  }

  /** The first g groups of three bytes, encoded. */
  function Groups(p: seq<byte>, g: nat): (r: seq<byte>)
    requires 3 * g <= |p|
    ensures |r| == 4 * g
  {
    if g == 0 then [] else Groups(p, g - 1) + Group(p[3 * g - 3], p[3 * g - 2], p[3 * g - 1])
  }

  /** One or two last bytes, padded to four characters. */
  function PaddedTail(t: seq<byte>): (r: seq<byte>)
    requires |t| <= 2
    ensures |r| == if t == [] then 0 else 4
  {
    if |t| == 0 then []
    else if |t| == 1 then [Index(t[0] / 4), Index(t[0] % 4 * 16), PAD, PAD]
    else [Index(t[0] / 4), Index(t[0] % 4 * 16 + t[1] / 16), Index(t[1] % 16 * 4), PAD]
  }

  function Encode(p: seq<byte>): (r: seq<byte>)
    ensures |r| == 4 * ((|p| + 2) / 3)
  {
    var g := |p| / 3;
    Groups(p, g) + PaddedTail(p[3 * g..])
  }

  /** What the encoder leaves behind the whole groups: characters, then the bits
      still pending in the last byte. */
  function OpenTail(t: seq<byte>): (r: seq<byte>)
    requires |t| <= 2
    ensures |r| == if t == [] then 0 else |t| + 1
  {
    if |t| == 0 then []
    else if |t| == 1 then [Index(t[0] / 4), t[0] % 4 * 16]
    else [Index(t[0] / 4), Index(t[0] % 4 * 16 + t[1] / 16), t[1] % 16 * 4]
  }

  /** What one more byte makes of an open group. */
  function Extended(t: seq<byte>, ch: byte): (r: seq<byte>)
    requires |t| <= 2
    ensures |r| == if |t| == 2 then 4 else |t| + 2
  {
    if |t| == 2 then Group(t[0], t[1], ch) else OpenTail(t + [ch])
  }

  /** Pending bits and new bits do not overlap. */
  lemma OrOfPending(pending: byte, bits: nat, k: nat)
    requires pending < 64
    requires (k == 4 && bits < 16 && pending % 16 == 0) || (k == 2 && bits < 4 && pending % 4 == 0)
    ensures Or(pending, bits) == pending + bits < 64
  {
    assert Pow2(2) == 4;
    assert Pow2(4) == 4 * Pow2(2);
    Pow2Of8();
    OrBitsDisjoint(pending, bits, k, 8);
  }

  /** mg_base64_update: behind `g` whole groups, `t` is the open group so far. */
  method Update(ch: byte, to: array<byte>, n: nat, ghost g: nat, ghost t: seq<byte>) returns (m: nat)
    requires |t| <= 2 && n == 4 * g + |t| && n + 1 < to.Length
    requires to[4 * g..4 * g + |OpenTail(t)|] == OpenTail(t)
    modifies to
    ensures m == if |t| == 2 then n + 2 else n + 1
    ensures to[..4 * g] == old(to[..4 * g])
    ensures to[4 * g..n + 2] == Extended(t, ch)
  {
    hide Or, Index;
    ghost var open := to[4 * g..4 * g + |OpenTail(t)|];
    assert |t| >= 1 ==> to[4 * g] == open[0] && to[4 * g + 1] == open[1];
    assert |t| == 2 ==> to[4 * g + 2] == open[2];
    m := n;
    var rem := n % 4 % 3;
    assert rem == |t|;
    if rem == 0 {
      to[m] := Index(ch / 4);
      m := m + 1;
      to[m] := ch % 4 * 16;
    } else if rem == 1 {
      OrOfPending(to[m], ch / 16, 4);
      to[m] := Index(Or(to[m], ch / 16));
      m := m + 1;
      to[m] := ch % 16 * 4;
    } else {
      OrOfPending(to[m], ch / 64, 2);
      to[m] := Index(Or(to[m], ch / 64));
      m := m + 1;
      to[m] := Index(ch % 64);
      m := m + 1;
    }
  }

  /** The padding loop: up to the next multiple of four. */
  method PadOut(to: array<byte>, n: nat, ghost end: nat) returns (m: nat)
    requires n <= end < n + 4 && end % 4 == 0 && end < to.Length
    modifies to
    ensures m == end && to[m] == 0
    ensures to[..m] == old(to[..n]) + seq(end - n, _ => PAD)
  {
    m := n;
    while m % 4 != 0
      invariant n <= m <= end
      invariant to[..m] == old(to[..n]) + seq(m - n, _ => PAD)
      decreases end - m
    {
      to[m] := PAD;
      m := m + 1;
    }
    assert m == end;
    to[m] := 0;
  }

  lemma FlushedThenPadded(t: seq<byte>)
    requires 1 <= |t| <= 2
    ensures Extended(t, 0)[..|t| + 1] + seq(3 - |t|, _ => PAD) == PaddedTail(t)
  {
  }

  /** mg_base64_final: a dummy update flushes the pending bits, then padding. */
  method Final(to: array<byte>, n: nat, ghost g: nat, ghost t: seq<byte>) returns (m: nat)
    requires |t| <= 2 && n == 4 * g + |t| && 4 * g + |PaddedTail(t)| < to.Length
    requires to[4 * g..4 * g + |OpenTail(t)|] == OpenTail(t)
    modifies to
    ensures m == 4 * g + |PaddedTail(t)| && to[m] == 0
    ensures to[..m] == old(to[..4 * g]) + PaddedTail(t)
  {
    hide OpenTail, Group, PaddedTail, Extended;
    ghost var groups := to[..4 * g];
    var saved := n;
    m := n;
    if m % 4 != 0 {
      m := Update(0, to, m, g, t);
    }
    if saved % 4 == 2 {
      m := m - 1;
    }
    assert m == if t == [] then 4 * g else 4 * g + |t| + 1;
    assert to[..m] == groups + to[4 * g..m];
    if t != [] {
      FlushedThenPadded(t);
      assert to[4 * g..m] == to[4 * g..n + 2][..|t| + 1];
    }
    m := PadOut(to, m, if t == [] then 4 * g else 4 * g + 4);
  }

  /** The first i bytes are encoded: g whole groups, then an open one. */
  ghost predicate Encoded(to: array<byte>, p: seq<byte>, i: nat, g: nat)
    reads to
  {
    && i <= |p| && 3 * g <= i <= 3 * g + 2
    && 4 * g + |OpenTail(p[3 * g..i])| <= to.Length
    && to[..4 * g] == Groups(p, g)
    && to[4 * g..4 * g + |OpenTail(p[3 * g..i])|] == OpenTail(p[3 * g..i])
  }

  lemma NothingEncoded(to: array<byte>, p: seq<byte>)
    ensures Encoded(to, p, 0, 0)
  {
    assert p[0..0] == [];
  }

  method EncodeByte(p: seq<byte>, i: nat, to: array<byte>, n: nat, ghost g: nat) returns (m: nat, ghost g': nat)
    requires Encoded(to, p, i, g) && i < |p| && n == g + i && 4 * g + 4 <= to.Length
    modifies to
    ensures Encoded(to, p, i + 1, g')
    ensures m == g' + i + 1
  {
    hide Index;
    ghost var t := p[3 * g..i];
    m := Update(p[i], to, n, g, t);
    assert t + [p[i]] == p[3 * g..i + 1];
    g' := g;
    if |t| == 2 {
      g' := g + 1;
      assert to[..4 * g + 4] == to[..4 * g] + to[4 * g..4 * g + 4];
      assert p[3 * g'..i + 1] == [];
    }
  }

  /** The number of groups of four characters for `len` bytes. */
  function Quads(len: nat): nat {
    (len + 2) / 3
  }

  lemma QuadsByGroups(len: nat, g: nat)
    requires 3 * g <= len
    ensures 3 * g < len ==> g + 1 <= Quads(len)
    ensures len <= 3 * g + 2 ==> len / 3 == g && Quads(len) == if len == 3 * g then g else g + 1
  {
  }

  /** As many `=`, which is 61, as bytes are missing to a group. */
  predicate EndsFor(e: seq<byte>, len: nat) {
    && (len % 3 == 1 ==> |e| >= 4 && e[|e| - 2] == e[|e| - 1] == 61)
    && (len % 3 == 2 ==> |e| >= 4 && e[|e| - 1] == 61 && e[|e| - 2] != 61)
    && (len % 3 == 0 && e != [] ==> e[|e| - 1] != 61)
  }

  lemma EndOfEncoding(p: seq<byte>)
    ensures EndsFor(Encode(p), |p|)
  {
    var g := |p| / 3;
    if |p| % 3 == 0 && g > 0 {
      assert Encode(p) == Groups(p, g) + [];
      assert Groups(p, g)[4 * g - 1] == Index(p[3 * g - 1] % 64);
    }
    hide Index, Groups;
  }

  /** mg_base64_encode. */
  method EncodeInto(p: seq<byte>, to: array<byte>) returns (len: nat)
    requires 4 * Quads(|p|) < to.Length
    modifies to
    ensures len == 4 * Quads(|p|)
    ensures to[..len] == Encode(p) && to[len] == 0
    ensures EndsFor(to[..len], |p|)
  {
    hide Index, Groups, PaddedTail, OpenTail, Quads, EndsFor;
    len := 0;
    var i := 0;
    ghost var g: nat := 0;
    NothingEncoded(to, p);
    while i < |p|
      invariant 0 <= i <= |p| && Encoded(to, p, i, g) && len == g + i
    {
      QuadsByGroups(|p|, g);
      len, g := EncodeByte(p, i, to, len, g);
      i := i + 1;
    }
    QuadsByGroups(|p|, g);
    ghost var t := p[3 * g..];
    assert p[3 * g..i] == t;
    len := Final(to, len, g, t);
    EndOfEncoding(p);
    assert to[..len] == Encode(p);
  }

  // ----- decoding -----

  /** Two fields or-ed together and cut to a char. */
  function Join(high: nat, low: nat): byte {
    OrBits(high, low, 16) % 256
  }

  /** Four characters as one to three bytes; nothing if one is out of place. */
  function Ungroup(x: byte, y: byte, z: byte, w: byte): (r: Option<seq<byte>>)
    ensures r.Some? ==> 1 <= |r.value| <= 3
  {
    var a, b, c, d := Reverse(x), Reverse(y), Reverse(z), Reverse(w);
    if a == 64 || a < 0 || b == 64 || b < 0 || c < 0 || d < 0 then None
    else
      var first := [Join(a * 4, b / 16)];
      Some(
        if z == PAD then first
        else if w == PAD then first + [Join(b * 16, c / 4)]
        else first + [Join(b * 16, c / 4)] + [Join(c * 64, d)])
  }

  predicate InAlphabet(x: byte) {
    || 'A' as int <= x <= 'Z' as int || 'a' as int <= x <= 'z' as int || '0' as int <= x <= '9' as int
    || x == '+' as int || x == '/' as int
  }

  /** Two characters of the alphabet, then two more or padding in their place. */
  predicate GoodQuad(x: byte, y: byte, z: byte, w: byte) {
    InAlphabet(x) && InAlphabet(y) && (InAlphabet(z) || z == 61) && (InAlphabet(w) || w == 61)
  }

  lemma UngroupsExactly(x: byte, y: byte, z: byte, w: byte)
    ensures Ungroup(x, y, z, w).Some? <==> GoodQuad(x, y, z, w)
  {
  }

  /** The first k quads; a bad one spoils the result. */
  function DecodeQuads(src: seq<byte>, k: nat): (r: Option<seq<byte>>)
    requires 4 * k <= |src|
    ensures r.Some? ==> |r.value| <= 3 * k
  {
    if k == 0 then Some([])
    else
      match (DecodeQuads(src, k - 1), Ungroup(src[4 * k - 4], src[4 * k - 3], src[4 * k - 2], src[4 * k - 1]))
      case (Some(d), Some(u)) => Some(d + u)
      case _ => None
  }

  predicate GoodAt(src: seq<byte>, q: nat)
    requires 4 * q + 4 <= |src|
  {
    GoodQuad(src[4 * q], src[4 * q + 1], src[4 * q + 2], src[4 * q + 3])
  }

  /** The quads decode exactly if each is good. */
  lemma {:induction false} DecodesExactly(src: seq<byte>, k: nat)
    requires 4 * k <= |src|
    ensures DecodeQuads(src, k).Some? <==> forall q :: 0 <= q < k ==> GoodAt(src, q)
  {
    hide GoodQuad, Ungroup;
    if k > 0 {
      DecodesExactly(src, k - 1);
      UngroupsExactly(src[4 * k - 4], src[4 * k - 3], src[4 * k - 2], src[4 * k - 1]);
      assert GoodAt(src, k - 1) <==> GoodQuad(src[4 * k - 4], src[4 * k - 3], src[4 * k - 2], src[4 * k - 1]);
    }
  }

  /** The body of the decoding loop for one quad. */
  method DecodeQuad(x: byte, y: byte, z: byte, w: byte, dst: array<byte>, n: nat) returns (ok: bool, len: nat)
    requires n + 3 <= dst.Length
    modifies dst
    ensures ok <==> Ungroup(x, y, z, w).Some?
    ensures ok ==> len == n + |Ungroup(x, y, z, w).value|
    ensures ok ==> dst[..len] == old(dst[..n]) + Ungroup(x, y, z, w).value
  {
    var a, b, c, d := Reverse(x), Reverse(y), Reverse(z), Reverse(w);
    len := n;
    ok := !(a == 64 || a < 0 || b == 64 || b < 0 || c < 0 || d < 0);
    if ok {
      dst[len] := Join(a * 4, b / 16);
      len := len + 1;
      if z != PAD {
        dst[len] := Join(b * 16, c / 4);
        len := len + 1;
        if w != PAD {
          dst[len] := Join(c * 64, d);
          len := len + 1;
        }
      }
    }
  }

  /** mg_base64_decode: whole quads only; zero on a bad character. */
  method DecodeInto(src: seq<byte>, dst: array<byte>) returns (len: nat)
    requires 3 * (|src| / 4) < dst.Length
    modifies dst
    ensures DecodeQuads(src, |src| / 4).None? ==> len == 0
    ensures DecodeQuads(src, |src| / 4).Some? ==>
      len < dst.Length && dst[..len] == DecodeQuads(src, |src| / 4).value && dst[len] == 0
    ensures (exists q :: 0 <= q < |src| / 4 && !GoodAt(src, q)) ==> len == 0
  {
    hide Ungroup, GoodAt;
    DecodesExactly(src, |src| / 4);
    len := 0;
    var at := 0;
    ghost var k, quads := 0, |src| / 4;
    while at + 3 < |src|
      invariant at == 4 * k <= |src| && k <= quads && len <= 3 * k
      invariant DecodeQuads(src, k) == Some(dst[..len])
    {
      var ok, n := DecodeQuad(src[at], src[at + 1], src[at + 2], src[at + 3], dst, len);
      at, k := at + 4, k + 1;
      if !ok {
        BadQuadSpoils(src, k, quads);
        return 0;
      }
      len := n;
    }
    assert k == quads;
    dst[len] := 0;
  }

  lemma {:induction false} BadQuadSpoils(src: seq<byte>, k: nat, n: nat)
    requires k <= n && 4 * n <= |src| && DecodeQuads(src, k).None?
    ensures DecodeQuads(src, n).None?
    decreases n
  {
    hide Ungroup;
    if k < n { BadQuadSpoils(src, k, n - 1); }
  }

  lemma Pow2Of16()
    ensures Pow2(16) == 65536 && Pow2(2) == 4 && Pow2(4) == 16 && Pow2(6) == 64
  {
    assert Pow2(4) == 4 * Pow2(2);
    assert Pow2(6) == 4 * Pow2(4);
    assert Pow2(8) == 4 * Pow2(6);
    assert Pow2(10) == 4 * Pow2(8);
    assert Pow2(12) == 4 * Pow2(10);
    assert Pow2(14) == 4 * Pow2(12);
    assert Pow2(16) == 4 * Pow2(14);
  }

  /** The three bitwise ors of the decoder are sums of disjoint bits. */
  lemma {:induction false} OrOfSextets(a: nat, b: nat, c: nat, d: nat)
    requires a < 64 && b < 64 && c < 64 && d < 64
    ensures OrBits(a * 4, b / 16, 16) == a * 4 + b / 16
    ensures OrBits(b * 16, c / 4, 16) == b * 16 + c / 4
    ensures OrBits(c * 64, d, 16) == c * 64 + d
  {
    Pow2Of16();
    MultipleMod(a, 4);
    MultipleMod(b, 16);
    MultipleMod(c, 64);
    OrBitsDisjoint(a * 4, b / 16, 2, 16);
    OrBitsDisjoint(b * 16, c / 4, 4, 16);
    OrBitsDisjoint(c * 64, d, 6, 16);
  }

  lemma FirstByte(a: byte, low: nat)
    requires low < 16
    ensures Join(a / 4 * 4, (a % 4 * 16 + low) / 16) == a
  {
    hide OrBits;
    var x, y := a / 4, a % 4 * 16 + low;
    DivModUnique(y, 16, a % 4, low);
    OrOfSextets(x, y, 0, 0);
    assert x * 4 + y / 16 == a;
  }

  lemma SecondByte(high: nat, b: byte, low: nat)
    requires high < 4 && low < 4
    ensures Join((high * 16 + b / 16) * 16, (b % 16 * 4 + low) / 4) == b
  {
    DivModUnique(b % 16 * 4 + low, 4, b % 16, low);
    DivModUnique((high * 16 + b / 16) * 16 + b % 16, 256, high, b);
    OrOfSextets(0, high * 16 + b / 16, b % 16 * 4 + low, 0);
  }

  lemma ThirdByte(high: nat, c: byte)
    requires high < 16
    ensures Join((high * 4 + c / 64) * 64, c % 64) == c
  {
    DivModUnique((high * 4 + c / 64) * 64 + c % 64, 256, high, c);
    OrOfSextets(0, 0, high * 4 + c / 64, c % 64);
  }

  /** What four characters of the alphabet, or two or three and padding, stand for. */
  lemma UngroupOfIndices(x: nat, y: nat, z: nat, w: nat)
    requires x < 64 && y < 64 && z < 64 && w < 64
    ensures Ungroup(Index(x), Index(y), Index(z), Index(w))
         == Some([Join(x * 4, y / 16), Join(y * 16, z / 4), Join(z * 64, w)])
    ensures Ungroup(Index(x), Index(y), Index(z), PAD) == Some([Join(x * 4, y / 16), Join(y * 16, z / 4)])
    ensures Ungroup(Index(x), Index(y), PAD, PAD) == Some([Join(x * 4, y / 16)])
  {
    ReverseOfIndex(x);
    ReverseOfIndex(y);
    ReverseOfIndex(z);
    ReverseOfIndex(w);
    var b0, b1, b2 := Join(x * 4, y / 16), Join(y * 16, z / 4), Join(z * 64, w);
    assert [b0] + [b1] == [b0, b1];
    assert [b0] + [b1] + [b2] == [b0, b1, b2];
  }

  lemma UngroupOfGroup(a: byte, b: byte, c: byte)
    ensures Ungroup(Group(a, b, c)[0], Group(a, b, c)[1], Group(a, b, c)[2], Group(a, b, c)[3]) == Some([a, b, c])
  {
    UngroupOfIndices(a / 4, a % 4 * 16 + b / 16, b % 16 * 4 + c / 64, c % 64);
    FirstByte(a, b / 16);
    SecondByte(a % 4, b, c / 64);
    ThirdByte(b % 16, c);
  }

  lemma UngroupOfTail(t: seq<byte>)
    requires 1 <= |t| <= 2
    ensures Ungroup(PaddedTail(t)[0], PaddedTail(t)[1], PaddedTail(t)[2], PaddedTail(t)[3]) == Some(t)
  {
    hide Ungroup, Join;
    if |t| == 1 {
      UngroupOfIndices(t[0] / 4, t[0] % 4 * 16, 0, 0);
      assert t == [t[0]];
      FirstByte(t[0], 0);
    } else {
      UngroupOfIndices(t[0] / 4, t[0] % 4 * 16 + t[1] / 16, t[1] % 16 * 4, 0);
      assert t == [t[0], t[1]];
      FirstByte(t[0], t[1] / 16);
      SecondByte(t[0] % 4, t[1], 0);
    }
  }

  lemma {:induction false} DecodeGroups(p: seq<byte>, g: nat, src: seq<byte>)
    requires 3 * g <= |p| && 4 * g <= |src| && src[..4 * g] == Groups(p, g)
    ensures DecodeQuads(src, g) == Some(p[..3 * g])
    decreases g
  {
    hide Ungroup, Group;
    if g > 0 {
      var k := g - 1;
      var q, last := Groups(p, k), Group(p[3 * k], p[3 * k + 1], p[3 * k + 2]);
      assert src[..4 * k] == src[..4 * g][..4 * k] == q;
      assert src[4 * k..4 * g] == src[..4 * g][4 * k..] == last;
      DecodeGroups(p, k, src);
      LastQuad(src, k, last);
      UngroupOfGroup(p[3 * k], p[3 * k + 1], p[3 * k + 2]);
      assert p[..3 * g] == p[..3 * k] + [p[3 * k], p[3 * k + 1], p[3 * k + 2]];
    }
  }

  lemma LastQuad(src: seq<byte>, k: nat, quad: seq<byte>)
    requires |quad| == 4 && 4 * k + 4 <= |src| && src[4 * k..4 * k + 4] == quad
    ensures DecodeQuads(src, k + 1) ==
      match (DecodeQuads(src, k), Ungroup(quad[0], quad[1], quad[2], quad[3]))
      case (Some(d), Some(u)) => Some(d + u)
      case _ => None
  {
    hide Ungroup;
    var s := src[4 * k..4 * k + 4];
    assert s[0] == src[4 * k] && s[1] == src[4 * k + 1] && s[2] == src[4 * k + 2] && s[3] == src[4 * k + 3];
  }

  /** Decoding what was encoded gives the bytes back. */
  lemma DecodeOfEncode(p: seq<byte>)
    ensures DecodeQuads(Encode(p), |Encode(p)| / 4) == Some(p)
  {
    hide Ungroup, Group;
    var g, src := |p| / 3, Encode(p);
    var t := p[3 * g..];
    assert src[..4 * g] == Groups(p, g);
    DecodeGroups(p, g, src);
    assert p[..3 * g] + t == p;
    QuadsByGroups(|p|, g);
    assert |src| == 4 * Quads(|p|);
    if t == [] {
      assert p[..3 * g] == p && |src| / 4 == g;
    } else {
      assert |src| / 4 == g + 1;
      assert src[4 * g..4 * g + 4] == PaddedTail(t);
      LastQuad(src, g, PaddedTail(t));
      UngroupOfTail(t);
    }
  }
}
