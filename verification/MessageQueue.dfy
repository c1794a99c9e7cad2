/** The single-producer, single-consumer message queue: every message is preceded by
    its 32-bit length, and a zero length sends the reader back to the start. */
module MessageQueue {
  import opened Bytes
  import opened Wrappers

  const LENGTH_SIZE: nat := 4
  const HEADER_SIZE: nat := 8     // a length word and room for the zero marker

  /** The length word stored at `at`, little endian. */
  function Len(buf: seq<byte>, at: nat): nat
    requires at + LENGTH_SIZE <= |buf|
  {
    buf[at] as int + 0x100 * (buf[at + 1] as int) + 0x1_0000 * (buf[at + 2] as int) + 0x100_0000 * (buf[at + 3] as int)
  }

  function LenBytes(n: nat): (b: seq<byte>)
    ensures |b| == LENGTH_SIZE
  {
    [n % 0x100, n / 0x100 % 0x100, n / 0x1_0000 % 0x100, n / 0x100_0000 % 0x100]
  }

  function Splice(buf: seq<byte>, at: nat, data: seq<byte>): (r: seq<byte>)
    requires at + |data| <= |buf|
    ensures |r| == |buf|
  {
    buf[..at] + data + buf[at + |data|..]
  }

  lemma WrittenLengthReadsBack(buf: seq<byte>, at: nat, n: nat)
    requires at + LENGTH_SIZE <= |buf| && n < TWO_TO_32
    ensures Len(Splice(buf, at, LenBytes(n)), at) == n
  {
    var b := LenBytes(n);
    var r := Splice(buf, at, b);
    assert r[at] == b[0] && r[at + 1] == b[1] && r[at + 2] == b[2] && r[at + 3] == b[3];
    assert n / 0x1_0000 == n / 0x100 / 0x100;
    assert n / 0x100_0000 == n / 0x1_0000 / 0x100;
  }

  /** Messages laid end to end from `from` to `to`. */
  predicate Chain(buf: seq<byte>, from: nat, to: nat)
    requires to <= |buf|
    decreases if from <= to then to - from else 0
  {
    from == to || (
      && from + LENGTH_SIZE <= to
      && Len(buf, from) > 0
      && from + LENGTH_SIZE + Len(buf, from) <= to
      && Chain(buf, from + LENGTH_SIZE + Len(buf, from), to))
  }

  function Parse(buf: seq<byte>, from: nat, to: nat): (msgs: seq<seq<byte>>)
    requires to <= |buf| && Chain(buf, from, to)
    ensures msgs == [] <==> from == to
    decreases if from <= to then to - from else 0
  {
    if from == to then []
    else
      var next := from + LENGTH_SIZE + Len(buf, from);
      [buf[from + LENGTH_SIZE..next]] + Parse(buf, next, to)
  }

  predicate SameBytes(buf: seq<byte>, buf': seq<byte>, from: nat, to: nat) {
    && to <= |buf| == |buf'|
    && forall i :: from <= i < to ==> buf[i] == buf'[i]
  }

  /** Writes outside a chain leave it as it is. */
  lemma {:induction false} ChainFrame(buf: seq<byte>, buf': seq<byte>, from: nat, to: nat)
    requires SameBytes(buf, buf', from, to) && Chain(buf, from, to)
    ensures Chain(buf', from, to) && Parse(buf', from, to) == Parse(buf, from, to)
    decreases if from <= to then to - from else 0
  {
    if from != to {
      LenFrame(buf, buf', from);
      var next := from + LENGTH_SIZE + Len(buf, from);
      assert buf[from + LENGTH_SIZE..next] == buf'[from + LENGTH_SIZE..next];
      ChainFrame(buf, buf', next, to);
    }
  }

  lemma LenFrame(buf: seq<byte>, buf': seq<byte>, at: nat)
    requires at + LENGTH_SIZE <= |buf| && SameBytes(buf, buf', at, at + LENGTH_SIZE)
    ensures Len(buf, at) == Len(buf', at)
  {
  }

  lemma {:induction false} ChainAppend(buf: seq<byte>, from: nat, to: nat)
    requires to + LENGTH_SIZE <= |buf| && Chain(buf, from, to) && from <= to
    requires Len(buf, to) > 0 && to + LENGTH_SIZE + Len(buf, to) <= |buf|
    ensures Chain(buf, from, to + LENGTH_SIZE + Len(buf, to))
    ensures Parse(buf, from, to + LENGTH_SIZE + Len(buf, to))
         == Parse(buf, from, to) + [buf[to + LENGTH_SIZE..to + LENGTH_SIZE + Len(buf, to)]]
    decreases if from <= to then to - from else 0
  {
    var end := to + LENGTH_SIZE + Len(buf, to);
    if from == to {
      assert Parse(buf, end, end) == [];
    } else {
      ChainAppend(buf, from + LENGTH_SIZE + Len(buf, from), to);
    }
  }

  /** The shared queue. `mark` remembers where the zero marker stands while the head
      is wrapped and the tail is not. */
  datatype Queue = Queue(buf: seq<byte>, head: nat, tail: nat, mark: Option<nat>) {
    predicate Valid() {
      && |buf| < TWO_TO_32
      && (head > 0 ==> head + LENGTH_SIZE <= |buf|)
      && match mark
         case None =>
           tail <= head <= |buf| && Chain(buf, tail, head)
         case Some(m) =>
           && head < tail <= m && m + LENGTH_SIZE <= |buf| && Len(buf, m) == 0
           && Chain(buf, tail, m) && Chain(buf, 0, head)
    }

    /** The messages waiting, oldest first. */
    function Messages(): seq<seq<byte>>
      requires Valid()
    {
      match mark
      case None => Parse(buf, tail, head)
      case Some(m) => Parse(buf, tail, m) + Parse(buf, 0, head)
    }

    /** The part at the head reserved by a successful booking. */
    predicate Room(len: nat) {
      match mark
      case None => head + len + HEADER_SIZE <= |buf|
      case Some(m) => head + HEADER_SIZE + len < tail
    }

    /** A write at the head, inside the free part. */
    function Put(at: nat, data: seq<byte>): Queue
      requires at + |data| <= |buf|
    {
      this.(buf := Splice(buf, at, data))
    }
  }

  lemma SpliceOutside(buf: seq<byte>, at: nat, data: seq<byte>, from: nat, to: nat)
    requires at + |data| <= |buf| && from <= to <= |buf|
    requires to <= at || at + |data| <= from
    ensures SameBytes(buf, Splice(buf, at, data), from, to)
    ensures Splice(buf, at, data)[from..to] == buf[from..to]
  {
  }

  lemma {:induction false} PutKeepsChain(q: Queue, at: nat, data: seq<byte>, from: nat, to: nat)
    requires at + |data| <= |q.buf| && from <= to <= |q.buf| && Chain(q.buf, from, to)
    requires to <= at || at + |data| <= from
    ensures Chain(q.Put(at, data).buf, from, to)
    ensures Parse(q.Put(at, data).buf, from, to) == Parse(q.buf, from, to)
  {
    SpliceOutside(q.buf, at, data, from, to);
    ChainFrame(q.buf, q.Put(at, data).buf, from, to);
  }

  /** Nothing written into the free part at the head changes a waiting message. */
  lemma PutKeepsMessages(q: Queue, at: nat, data: seq<byte>)
    requires q.Valid() && q.head <= at && at + |data| <= |q.buf|
    requires q.mark.Some? ==> at + |data| <= q.tail
    ensures q.Put(at, data).Valid()
    ensures q.Put(at, data).Messages() == q.Messages()
  {
    hide Chain, Parse;
    match q.mark
    case None => PutKeepsChain(q, at, data, q.tail, q.head);
    case Some(m) =>
      PutKeepsChain(q, at, data, q.tail, m);
      PutKeepsChain(q, at, data, 0, q.head);
      SpliceOutside(q.buf, at, data, m, m + LENGTH_SIZE);
      LenFrame(q.buf, q.Put(at, data).buf, m);
  }

  /** Moving the head past a stored message appends it. */
  lemma AddAppends(q: Queue, len: nat)
    requires q.Valid() && len > 0 && q.Room(len)
    requires Len(q.buf, q.head) == len
    ensures q.(head := q.head + len + LENGTH_SIZE).Valid()
    ensures q.(head := q.head + len + LENGTH_SIZE).Messages()
         == q.Messages() + [q.buf[q.head + LENGTH_SIZE..q.head + LENGTH_SIZE + len]]
  {
    hide Chain, Parse;
    var h := q.head + LENGTH_SIZE + len;
    var msg := q.buf[q.head + LENGTH_SIZE..h];
    match q.mark
    case None =>
      ChainAppend(q.buf, q.tail, q.head);
    case Some(m) =>
      ChainAppend(q.buf, 0, q.head);
      var early, late := Parse(q.buf, q.tail, m), Parse(q.buf, 0, q.head);
      assert early + (late + [msg]) == (early + late) + [msg];
  }

  /** Wrapping behind a zero marker loses nothing. */
  lemma WrapKeepsMessages(q: Queue)
    requires q.Valid() && q.mark == None && q.head + LENGTH_SIZE <= |q.buf| && 0 < q.tail
    requires Len(q.buf, q.head) == 0
    ensures q.(head := 0, mark := Some(q.head)).Valid()
    ensures q.(head := 0, mark := Some(q.head)).Messages() == q.Messages()
  {
  }

  /** The reader standing at the marker goes back to the start. */
  lemma ResetKeepsMessages(q: Queue)
    requires q.Valid() && q.mark == Some(q.tail)
    ensures q.(tail := 0, mark := None).Valid()
    ensures q.(tail := 0, mark := None).Messages() == q.Messages()
  {
  }

  /** The length at the tail is that of the oldest message, or zero at the marker. */
  lemma OldestAtTail(q: Queue)
    requires q.Valid() && q.tail != q.head
    ensures q.tail + LENGTH_SIZE <= |q.buf|
    ensures var n := Len(q.buf, q.tail);
      && q.tail + LENGTH_SIZE + n <= |q.buf|
      && (n == 0 <==> q.mark == Some(q.tail))
      && (n > 0 && q.mark == None ==> q.tail + LENGTH_SIZE + n <= q.head)
      && (n > 0 ==> q.Messages() != [] && q.Messages()[0] == q.buf[q.tail + LENGTH_SIZE..q.tail + LENGTH_SIZE + n])
  {
  }

  lemma DelDropsOldestPlain(q: Queue)
    requires q.Valid() && q.mark == None && q.tail != q.head
    ensures q.tail + LENGTH_SIZE <= |q.buf|
    ensures q.(tail := q.tail + LENGTH_SIZE + Len(q.buf, q.tail)).Valid()
    ensures q.Messages() != []
    ensures q.(tail := q.tail + LENGTH_SIZE + Len(q.buf, q.tail)).Messages() == q.Messages()[1..]
  {
  }

  lemma DelDropsOldestWrapped(q: Queue)
    requires q.Valid() && q.mark.Some? && q.mark != Some(q.tail)
    ensures q.tail + LENGTH_SIZE <= |q.buf|
    ensures q.(tail := q.tail + LENGTH_SIZE + Len(q.buf, q.tail)).Valid()
    ensures q.Messages() != []
    ensures q.(tail := q.tail + LENGTH_SIZE + Len(q.buf, q.tail)).Messages() == q.Messages()[1..]
  {
    var m := q.mark.value;
    var early, late := Parse(q.buf, q.tail, m), Parse(q.buf, 0, q.head);
    assert (early + late)[1..] == early[1..] + late;
  }

  /** Moving the tail past the oldest message drops it and nothing else. */
  lemma DelDropsOldest(q: Queue)
    requires q.Valid() && q.tail != q.head && q.mark != Some(q.tail)
    ensures q.tail + LENGTH_SIZE <= |q.buf|
    ensures q.(tail := q.tail + LENGTH_SIZE + Len(q.buf, q.tail)).Valid()
    ensures q.Messages() != []
    ensures q.(tail := q.tail + LENGTH_SIZE + Len(q.buf, q.tail)).Messages() == q.Messages()[1..]
    ensures q.tail + LENGTH_SIZE + Len(q.buf, q.tail) + LENGTH_SIZE <= |q.buf|
  {
    hide Chain, Parse;
    OldestAtTail(q);
    if q.mark == None { DelDropsOldestPlain(q); } else { DelDropsOldestWrapped(q); }
  }
}
