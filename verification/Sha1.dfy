/** Streaming SHA-1 around an uninterpreted block transform: the two-word bit
    counter, the 64-byte buffer and the padding of section 4 of RFC 3174. */
module Sha1 {
  import opened Bytes

  const BLOCK: nat := 64

  type Word = x: nat | x < TWO_TO_32

  datatype Digest = Digest(a: Word, b: Word, c: Word, d: Word, e: Word)

  const INITIAL: Digest := Digest(0x67452301, 0xEFCDAB89, 0x98BADCFE, 0x10325476, 0xC3D2E1F0)

  type Transform = (Digest, seq<byte>) -> Digest

  // ----- one-shot form -----

  /** The block transform applied to the first n 64-byte blocks of m in turn. */
  function Fold(f: Transform, h: Digest, m: seq<byte>, n: nat): Digest
    requires BLOCK * n <= |m|
  {
    if n == 0 then h else f(Fold(f, h, m, n - 1), m[BLOCK * (n - 1)..BLOCK * n])
  }

  function Zeros(n: nat): (z: seq<byte>)
    ensures |z| == n
  {
    seq(n, _ => 0)
  }

  lemma PadLength(n: nat)
    ensures (n + 1 + (55 - n) % BLOCK + 8) % BLOCK == 0
  {
    var q := (55 - n) / BLOCK;
    assert n + 1 + (55 - n) % BLOCK + 8 == (1 - q) * BLOCK;
  }

  /** Section 4: a one bit, zeros up to 56 bytes modulo 64, the bit length. */
  function Pad(m: seq<byte>): (p: seq<byte>)
    ensures |p| % BLOCK == 0
  {
    PadLength(|m|);
    m + [0x80] + Zeros((55 - |m|) % BLOCK) + BigEndian(8 * |m| % TWO_TO_64, 8)
  }

  function Hash(f: Transform, m: seq<byte>): Digest {
    Fold(f, INITIAL, Pad(m), |Pad(m)| / BLOCK)
  }

  function DigestBytes(h: Digest): seq<byte> {
    BigEndian(h.a, 4) + BigEndian(h.b, 4) + BigEndian(h.c, 4) + BigEndian(h.d, 4) + BigEndian(h.e, 4)
  }

  /** The byte of a word with 3 - i bytes below it. */
  function ByteOf(word: nat, i: nat): byte
    requires i < 4
  {
    word / [0x100_0000, 0x1_0000, 0x100, 1][i] % 256
  }

  /** Twenty bytes: the five words in order, each with its most significant byte first. */
  predicate IsDigest(digest: seq<byte>, h: Digest) {
    |digest| == 20 && forall i :: 0 <= i < 20 ==>
      digest[i] as int == [h.a, h.b, h.c, h.d, h.e][i / 4] / [0x100_0000, 0x1_0000, 0x100, 1][i % 4] % 256
  }

  lemma DigestIs(digest: seq<byte>, h: Digest)
    requires IsDigest(digest, h)
    ensures digest == DigestBytes(h)
  {
    forall i | 0 <= i < 20
      ensures digest[i] == DigestBytes(h)[i]
    {
      BigEndianWord([h.a, h.b, h.c, h.d, h.e][i / 4], i % 4);
      hide BigEndian;
      assert i == 4 * (i / 4) + i % 4;
    }
  }

  lemma {:induction false} FoldFrame(f: Transform, h: Digest, m: seq<byte>, more: seq<byte>, n: nat)
    requires BLOCK * n <= |m|
    ensures Fold(f, h, m + more, n) == Fold(f, h, m, n)
  {
    if n > 0 {
      FoldFrame(f, h, m, more, n - 1);
      assert (m + more)[BLOCK * (n - 1)..BLOCK * n] == m[BLOCK * (n - 1)..BLOCK * n];
    }
  }

  // ----- the counter -----

  /** (uint32_t) len << 3 keeps the low 29 bits of the length. */
  lemma ShiftedLength(len: nat)
    ensures len % TWO_TO_32 * 8 % TWO_TO_32 == 8 * (len % 0x2000_0000)
  {
    var r, q := len % TWO_TO_32, len / TWO_TO_32;
    var r', q' := r % 0x2000_0000, r / 0x2000_0000;
    DivModUnique(len, 0x2000_0000, 8 * q + q', r');
    DivModUnique(r * 8, TWO_TO_32, q', 8 * r');
  }

  /** Addition of one word with its carry. */
  lemma CarryOut(low: nat, add: nat, low': nat)
    requires low < TWO_TO_32 && add < TWO_TO_32 && low' == (low + add) % TWO_TO_32
    ensures low + add == low' + (if low' < low then TWO_TO_32 else 0)
  {
  }

  lemma WordSums(a: nat, b: nat)
    ensures (a % TWO_TO_32 + b % TWO_TO_32) % TWO_TO_32 == (a + b) % TWO_TO_32
  {
    var x := a % TWO_TO_32 + b % TWO_TO_32;
    DivModUnique(a + b, TWO_TO_32, a / TWO_TO_32 + b / TWO_TO_32 + x / TWO_TO_32, x % TWO_TO_32);
  }

  /** Two words are one number modulo 2^64. */
  lemma TwoWords(total: nat, low: nat)
    requires low < TWO_TO_32
    ensures total % TWO_TO_32 * TWO_TO_32 + low == (total * TWO_TO_32 + low) % TWO_TO_64
  {
    var k := total / TWO_TO_32;
    DivModUnique(total * TWO_TO_32 + low, TWO_TO_64, k, total % TWO_TO_32 * TWO_TO_32 + low);
  }

  /** Adding a length to the two-word counter adds its bits modulo 2^64. */
  lemma CounterAdds(low: nat, high: nat, len: nat, low': nat, carried: nat, high': nat)
    requires low < TWO_TO_32 && high < TWO_TO_32
    requires low' == (low + len % TWO_TO_32 * 8 % TWO_TO_32) % TWO_TO_32
    requires carried == if low' < low then (high + 1) % TWO_TO_32 else high
    requires high' == (carried + len / 0x2000_0000 % TWO_TO_32) % TWO_TO_32
    ensures high' * TWO_TO_32 + low' == (high * TWO_TO_32 + low + 8 * len) % TWO_TO_64
  {
    var q, r := len / 0x2000_0000, len % 0x2000_0000;
    ShiftedLength(len);
    CarryOut(low, 8 * r, low');
    var carry := if low' < low then 1 else 0;
    assert carried == (high + carry) % TWO_TO_32;
    WordSums(high + carry, q);
    TwoWords(high + carry + q, low');
    assert (high + carry + q) * TWO_TO_32 + low' == high * TWO_TO_32 + low + 8 * len;
  }

  /** The position in the buffer comes out of the low word alone. */
  lemma PositionFromLowWord(n: nat, low: nat, high: nat)
    requires low < TWO_TO_32 && high * TWO_TO_32 + low == 8 * n % TWO_TO_64
    ensures low / 8 % BLOCK == n % BLOCK
  {
    var k := 8 * n / TWO_TO_64;
    assert 8 * n == k * TWO_TO_64 + high * TWO_TO_32 + low;
    assert n == (k * TWO_TO_32 + high) * 0x2000_0000 + low / 8;
    var m := (k * TWO_TO_32 + high) * 0x80_0000 + low / 8 / BLOCK;
    DivModUnique(n, BLOCK, m, low / 8 % BLOCK);
  }

  predicate AreBytesOf(bytes: seq<byte>, words: seq<Word>) {
    |bytes| == 4 * |words| && forall k :: 0 <= k < |bytes| ==> bytes[k] == ByteOf(words[k / 4], k % 4)
  }

  lemma {:induction false} TwoWordBytes(bytes: seq<byte>, high: Word, low: Word)
    requires AreBytesOf(bytes, [high, low])
    ensures bytes == BigEndian(high, 4) + BigEndian(low, 4)
  {
    forall i | 0 <= i < 8
      ensures bytes[i] == (BigEndian(high, 4) + BigEndian(low, 4))[i]
    {
      BigEndianWord([high, low][i / 4], i % 4);
      hide BigEndian;
    }
  }

  lemma FiveWordBytes(bytes: seq<byte>, h: Digest)
    requires AreBytesOf(bytes, [h.a, h.b, h.c, h.d, h.e])
    ensures IsDigest(bytes, h)
  {
  }

  class Context {
    const transform: Transform
    var state: Digest
    var low: nat                    // count[0]
    var high: nat                   // count[1]
    var buffer: array<byte>
    ghost var fed: seq<byte>        // all bytes since init
    ghost var blocks: nat           // how many whole blocks the state has taken in

    /** Whole blocks are in the state, the rest at the front of the buffer. */
    ghost predicate Buffered()
      reads this, buffer
    {
      && buffer.Length == BLOCK
      && BLOCK * blocks <= |fed| < BLOCK * blocks + BLOCK
      && state == Fold(transform, INITIAL, fed, blocks)
      && buffer[..|fed| - BLOCK * blocks] == fed[BLOCK * blocks..]
    }

    ghost predicate Valid()
      reads this, buffer
    {
      && Buffered()
      && low < TWO_TO_32 && high < TWO_TO_32
      && high * TWO_TO_32 + low == 8 * |fed| % TWO_TO_64
    }

    /** mg_sha1_init. */
    constructor (transform: Transform)
      ensures Valid() && fed == [] && fresh(buffer) && this.transform == transform
      ensures state == Digest(0x67452301, 0xEFCDAB89, 0x98BADCFE, 0x10325476, 0xC3D2E1F0)
    {
      this.transform := transform;
      state := INITIAL;
      low, high := 0, 0;
      buffer := new byte[BLOCK](_ => 0);
      fed, blocks := [], 0;
    }

    /** memcpy into the buffer. */
    method Store(at: nat, data: seq<byte>)
      requires at + |data| <= buffer.Length
      modifies buffer
      ensures buffer[..at + |data|] == old(buffer[..at]) + data
    {
      var i := 0;
      while i < |data|
        invariant 0 <= i <= |data|
        invariant buffer[..at + i] == old(buffer[..at]) + data[..i]
      {
        buffer[at + i] := data[i];
        i := i + 1;
      }
      assert data[..i] == data;
    }

    method Count(len: nat)
      requires low < TWO_TO_32 && high < TWO_TO_32
      modifies this`low, this`high
      ensures low < TWO_TO_32 && high < TWO_TO_32
      ensures high * TWO_TO_32 + low == (old(high) * TWO_TO_32 + old(low) + 8 * len) % TWO_TO_64
    {
      var j := low;
      low := (low + len % TWO_TO_32 * 8 % TWO_TO_32) % TWO_TO_32;
      ghost var high0 := high;
      if low < j {
        high := (high + 1) % TWO_TO_32;
      }
      ghost var carried := high;
      high := (high + len / 0x2000_0000 % TWO_TO_32) % TWO_TO_32;
      CounterAdds(j, high0, len, low, carried, high);
    }

    /** The loop over whole blocks of the caller's data; `m` ends with `data`. */
    method AbsorbBlocks(data: seq<byte>, start: nat, ghost m: seq<byte>, ghost taken: nat)
      returns (i: nat, ghost n: nat)
      requires start <= |data| <= |m| && m[|m| - |data|..] == data
      requires |m| - |data| + start == BLOCK * taken
      requires state == Fold(transform, INITIAL, m, taken)
      modifies this`state
      ensures start <= i <= |data| < i + BLOCK
      ensures |m| - |data| + i == BLOCK * n
      ensures state == Fold(transform, INITIAL, m, n)
    {
      i, n := start, taken;
      while i + BLOCK - 1 < |data|
        invariant start <= i <= |data| && |m| - |data| + i == BLOCK * n
        invariant state == Fold(transform, INITIAL, m, n)
      {
        assert m[|m| - |data|..][i..i + BLOCK] == m[BLOCK * n..BLOCK * n + BLOCK];
        state := transform(state, data[i..i + BLOCK]);
        i, n := i + BLOCK, n + 1;
      }
    }

    /** Fills the buffer to a block and runs it, then the blocks of the data itself. */
    method FillAndAbsorb(j: nat, data: seq<byte>) returns (i: nat, ghost n: nat)
      requires Buffered() && j == |fed| - BLOCK * blocks && j + |data| > BLOCK - 1
      modifies this`state, buffer
      ensures i <= |data| < i + BLOCK && |fed| + i == BLOCK * n
      ensures state == Fold(transform, INITIAL, fed + data, n)
    {
      ghost var m := fed + data;
      i := BLOCK - j;
      Store(j, data[..i]);
      assert buffer[..] == m[BLOCK * blocks..BLOCK * blocks + BLOCK] by {
        assert fed[BLOCK * blocks..] + data[..i] == m[BLOCK * blocks..BLOCK * blocks + BLOCK];
        assert buffer[..BLOCK] == buffer[..];
      }
      FoldFrame(transform, INITIAL, fed, data, blocks);
      state := transform(state, buffer[..]);
      i, n := AbsorbBlocks(data, i, m, blocks + 1);
    }

    /** The two branches of mg_sha1_update before the final memcpy. */
    method TakeBlocks(data: seq<byte>, start: nat) returns (j: nat, i: nat, ghost n: nat)
      requires Buffered() && start == |fed| - BLOCK * blocks
      modifies this`state, buffer
      ensures i <= |data| && j + |data| - i < BLOCK
      ensures |fed| + |data| - BLOCK * n == j + |data| - i
      ensures state == Fold(transform, INITIAL, fed + data, n)
      ensures buffer[..j] + data[i..] == (fed + data)[BLOCK * n..]
    {
      if start + |data| > BLOCK - 1 {
        i, n := FillAndAbsorb(start, data);
        j := 0;
      } else {
        j, i, n := start, 0, blocks;
        FoldFrame(transform, INITIAL, fed, data, blocks);
      }
    }

    /** mg_sha1_update behind the counting: `start` bytes are in the buffer. */
    method Absorb(data: seq<byte>, start: nat)
      requires Buffered() && start == |fed| - BLOCK * blocks
      modifies this`state, this`fed, this`blocks, buffer
      ensures Buffered() && fed == old(fed) + data
    {
      hide Fold;
      var j, i;
      ghost var n;
      j, i, n := TakeBlocks(data, start);
      Store(j, data[i..]);
      fed, blocks := fed + data, n;
    }

    /** mg_sha1_update. */
    method Update(data: seq<byte>)
      requires Valid()
      modifies this`state, this`low, this`high, this`fed, this`blocks, buffer
      ensures Valid() && fed == old(fed) + data
    {
      hide Fold;
      Position(|fed|, low, high, blocks);
      CountGrows(|fed|, |data|);
      var start := low / 8 % BLOCK;
      Count(|data|);
      Absorb(data, start);
    }

    /** The one bit and the zeros of mg_sha1_final. */
    method PadToLength()
      requires Valid()
      modifies this`state, this`low, this`high, this`fed, this`blocks, buffer
      ensures Valid() && fed == old(fed) + [0x80] + Zeros((55 - |old(fed)|) % BLOCK)
    {
      hide Fold;
      ghost var m := fed;
      Update([0x80]);
      ghost var zeros, missing := 0, (55 - |m|) % BLOCK;
      Position(|fed|, low, high, blocks);
      while low / 8 % BLOCK != 56
        invariant Valid()
        invariant zeros <= missing
        invariant fed == m + [0x80] + Zeros(zeros)
        invariant low / 8 % BLOCK == |fed| - BLOCK * blocks
        decreases missing - zeros
      {
        ZerosMissing(|m|, zeros, blocks);
        Update([0]);
        Position(|fed|, low, high, blocks);
        assert Zeros(zeros) + [0] == Zeros(zeros + 1);
        zeros := zeros + 1;
      }
      ZerosMissing(|m|, zeros, blocks);
    }

    /** mg_sha1_final. */
    method Final() returns (digest: seq<byte>)
      requires Valid()
      modifies this`state, this`low, this`high, this`fed, this`blocks, buffer
      ensures digest == DigestBytes(Hash(transform, old(fed)))
      ensures IsDigest(digest, Hash(transform, old(fed)))
    {
      hide Fold, BigEndian, IsDigest;
      ghost var m := fed;
      var finalCount := Words([high, low]);
      assert finalCount == BigEndian(high, 4) + BigEndian(low, 4) by {
        TwoWordBytes(finalCount, high, low);
      }
      BitLength(m, low, high);
      PadToLength();
      Update(finalCount);
      FinalBlocks(m, fed, blocks);
      digest := Words([state.a, state.b, state.c, state.d, state.e]);
      assert IsDigest(digest, state) by {
        FiveWordBytes(digest, state);
      }
      DigestIs(digest, state);
      Zeroize();
    }

    /** The loops that take words apart into bytes. */
    static method Words(words: seq<Word>) returns (bytes: seq<byte>)
      ensures AreBytesOf(bytes, words)
    {
      bytes := [];
      var i := 0;
      while i < 4 * |words|
        invariant i <= 4 * |words| && |bytes| == i
        invariant forall k :: 0 <= k < i ==> bytes[k] == ByteOf(words[k / 4], k % 4)
      {
        bytes := bytes + [ByteOf(words[i / 4], i % 4)];
        i := i + 1;
      }
    }

    /** memset of the context. */
    method Zeroize()
      requires Valid()
      modifies this`state, this`low, this`high, this`fed, this`blocks, buffer
      ensures state == Digest(0, 0, 0, 0, 0) && low == high == 0
      ensures forall k :: 0 <= k < buffer.Length ==> buffer[k] == 0
    {
      state := Digest(0, 0, 0, 0, 0);
      low, high := 0, 0;
      fed, blocks := [], 0;
      var i := 0;
      while i < BLOCK
        invariant 0 <= i <= BLOCK && state == Digest(0, 0, 0, 0, 0) && low == high == 0
        invariant forall k :: 0 <= k < i ==> buffer[k] == 0
      {
        buffer[i] := 0;
        i := i + 1;
      }
    }
  }

  lemma CountGrows(n: nat, len: nat)
    ensures (8 * n % TWO_TO_64 + 8 * len) % TWO_TO_64 == 8 * (n + len) % TWO_TO_64
  {
    var x := 8 * n % TWO_TO_64 + 8 * len;
    DivModUnique(8 * (n + len), TWO_TO_64, 8 * n / TWO_TO_64 + x / TWO_TO_64, x % TWO_TO_64);
  }

  lemma {:induction false} BigEndianSplit(high: nat, low: nat, k: nat)
    requires low < Pow256(k)
    ensures BigEndian(high * Pow256(k) + low, 4 + k) == BigEndian(high, 4) + BigEndian(low, k)
  {
    if k == 0 {
      assert BigEndian(low, 0) == [];
    } else {
      var n := high * Pow256(k) + low;
      var p := Pow256(k - 1);
      assert n == 256 * (high * p) + low;
      DivModUnique(n, 256, high * p + low / 256, low % 256);
      BigEndianSplit(high, low / 256, k - 1);
      assert BigEndian(low, k) == BigEndian(low / 256, k - 1) + [low % 256];
    }
  }

  /** Section 4 byte by byte: the message, a byte 0x80, zeros, and the number of its
      bits in two words, to the next multiple of 64 bytes. */
  lemma PadIs(m: seq<byte>)
    ensures
      var p, n := Pad(m), |m|;
      var bits := 8 * n % 0x1_0000_0000_0000_0000;
      && |p| % 64 == 0 && n + 9 <= |p| < n + 9 + 64
      && p[..n] == m && p[n] == 0x80
      && (forall i :: n < i < |p| - 8 ==> p[i] == 0)
      && (forall i :: 0 <= i < 8 ==>
            p[|p| - 8 + i] == ByteOf([bits / 0x1_0000_0000, bits % 0x1_0000_0000][i / 4], i % 4))
  {
    var bits := 8 * |m| % TWO_TO_64;
    var high, low := bits / TWO_TO_32, bits % TWO_TO_32;
    Pow256Values();
    BigEndianSplit(high, low, 4);
    forall i | 0 <= i < 8
      ensures BigEndian(bits, 8)[i] == ByteOf([high, low][i / 4], i % 4)
    {
      BigEndianWord([high, low][i / 4], i % 4);
      hide BigEndian;
    }
    hide BigEndian, ByteOf;
  }

  /** The eight bytes put behind the padding are the bit length. */
  lemma {:induction false} BitLength(m: seq<byte>, low: nat, high: nat)
    requires low < TWO_TO_32 && high * TWO_TO_32 + low == 8 * |m| % TWO_TO_64
    ensures BigEndian(high, 4) + BigEndian(low, 4) == BigEndian(8 * |m| % TWO_TO_64, 8)
  {
    hide BigEndian;
    Pow256Values();
    BigEndianSplit(high, low, 4);
  }

  /** While the position is not 56 a zero is still missing; at 56 none is. */
  lemma ZerosMissing(n: nat, zeros: nat, blocks: nat)
    requires zeros <= (55 - n) % BLOCK
    requires BLOCK * blocks <= n + 1 + zeros < BLOCK * blocks + BLOCK
    ensures n + 1 + zeros - BLOCK * blocks == 56 <==> zeros == (55 - n) % BLOCK
  {
    var missing := (55 - n) % BLOCK;
    assert 55 - n == (55 - n) / BLOCK * BLOCK + missing;
  }

  lemma Position(n: nat, low: nat, high: nat, blocks: nat)
    requires low < TWO_TO_32 && high * TWO_TO_32 + low == 8 * n % TWO_TO_64
    requires BLOCK * blocks <= n < BLOCK * blocks + BLOCK
    ensures low / 8 % BLOCK == n - BLOCK * blocks
  {
    PositionFromLowWord(n, low, high);
    DivModUnique(n, BLOCK, blocks, n - BLOCK * blocks);
  }

  lemma {:induction false} FinalBlocks(m: seq<byte>, fed: seq<byte>, blocks: nat)
    requires fed == m + [0x80] + Zeros((55 - |m|) % BLOCK) + BigEndian(8 * |m| % TWO_TO_64, 8)
    requires BLOCK * blocks <= |fed| < BLOCK * blocks + BLOCK
    ensures fed == Pad(m) && blocks == |Pad(m)| / BLOCK
  {
    DivModUnique(|fed|, BLOCK, blocks, |fed| - BLOCK * blocks);
  }

  function Concat(pieces: seq<seq<byte>>): seq<byte> {
    if pieces == [] then [] else Concat(pieces[..|pieces| - 1]) + pieces[|pieces| - 1]
  }

  /** init, one update for each piece, final: for every split of a message the digest
      is that of the one-shot form. */
  method HashPieces(transform: Transform, pieces: seq<seq<byte>>) returns (digest: seq<byte>)
    ensures digest == DigestBytes(Hash(transform, Concat(pieces)))
    ensures IsDigest(digest, Hash(transform, Concat(pieces)))
  {
    hide IsDigest;
    var context := new Context(transform);
    var k := 0;
    while k < |pieces|
      invariant 0 <= k <= |pieces|
      invariant context.Valid() && context.transform == transform && fresh(context) && fresh(context.buffer)
      invariant context.fed == Concat(pieces[..k])
    {
      assert pieces[..k + 1][..k] == pieces[..k];
      context.Update(pieces[k]);
      k := k + 1;
    }
    assert pieces[..k] == pieces;
    digest := context.Final();
  }
}
