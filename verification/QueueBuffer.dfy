/** mg_queue_init, book, next, add and del, each run to its end, on the buffer and
    the two offsets they change in place. */
module QueueBuffer {
  import opened Bytes
  import opened MessageQueue
  import opened Wrappers

  /** Whether a booking of `len` bytes succeeds, at the head or after wrapping. */
  predicate Bookable(q: Queue, len: nat) {
    match q.mark
    case None => q.head + len + HEADER_SIZE <= |q.buf| || HEADER_SIZE + len < q.tail
    case Some(m) => q.head + HEADER_SIZE + len < q.tail
  }

  /** The queue once the length word is written and the head has moved past. */
  function Added(q: Queue, len: nat): Queue
    requires q.head + LENGTH_SIZE <= |q.buf|
  {
    q.Put(q.head, LenBytes(len)).(head := q.head + len + LENGTH_SIZE)
  }

  /** mg_queue_add appends the payload already in place. */
  lemma AddStored(q: Queue, len: nat)
    requires q.Valid() && 0 < len && q.Room(len)
    ensures len < TWO_TO_32 && q.head + LENGTH_SIZE + len <= |q.buf|
    ensures Added(q, len).Valid()
    ensures Added(q, len).Messages() == q.Messages() + [q.buf[q.head + LENGTH_SIZE..q.head + LENGTH_SIZE + len]]
  {
    hide Chain, Parse;
    var p := q.Put(q.head, LenBytes(len));
    PutKeepsMessages(q, q.head, LenBytes(len));
    assert Len(p.buf, q.head) == len by { WrittenLengthReadsBack(q.buf, q.head, len); }
    SpliceOutside(q.buf, q.head, LenBytes(len), q.head + LENGTH_SIZE, q.head + LENGTH_SIZE + len);
    AddAppends(p, len);
  }

  class SharedQueue {
    const buf: array<byte>
    var head: nat
    var tail: nat
    ghost var mark: Option<nat>

    ghost function View(): Queue
      reads this, buf
    {
      Queue(buf[..], head, tail, mark)
    }

    ghost predicate Valid()
      reads this, buf
    {
      View().Valid()
    }

    constructor (memory: array<byte>)
      requires memory.Length < TWO_TO_32
      ensures buf == memory && Valid() && View().Messages() == []
    {
      buf := memory;
      head, tail := 0, 0;
      mark := None;
    }

    method ReadLen() returns (n: nat)
      requires tail + LENGTH_SIZE <= buf.Length
      ensures n == Len(buf[..], tail)
    {
      n := buf[tail] as int + 0x100 * (buf[tail + 1] as int)
        + 0x1_0000 * (buf[tail + 2] as int) + 0x100_0000 * (buf[tail + 3] as int);
    }

    method WriteLen(n: nat)
      requires head + LENGTH_SIZE <= buf.Length && n < TWO_TO_32
      modifies buf
      ensures buf[..] == Splice(old(buf[..]), head, LenBytes(n))
    {
      buf[head] := n % 0x100;
      buf[head + 1] := n / 0x100 % 0x100;
      buf[head + 2] := n / 0x1_0000 % 0x100;
      buf[head + 3] := n / 0x100_0000 % 0x100;
    }

    method Book(len: nat) returns (space: nat, at: nat)
      requires Valid()
      modifies buf, this`head, this`mark
      ensures Valid() && tail == old(tail)
      ensures View().Messages() == old(View().Messages())
      ensures space > 0 && space >= len ==> old(Bookable(View(), len)) && View().Room(len)
      ensures old(Bookable(View(), len)) ==> space >= len && View().Room(len)
      ensures old(mark).None? ==>
        if old(head) + len + 8 <= buf.Length then space == buf.Length - head - 8 && head == old(head)
        else if 8 + len < tail then space == tail - 8 && head == 0
        else space == 0
      ensures old(mark).Some? ==> head == old(head) && space == if head + 8 + len < tail then tail - head - 8 else 0
      ensures at == head + 4
    {
      space := 0;
      if head >= tail && head + len + HEADER_SIZE <= buf.Length {
        space := buf.Length - head - HEADER_SIZE;
      } else if head >= tail && tail > HEADER_SIZE {
        ghost var before := View();
        WriteLen(0);
        PutKeepsMessages(before, head, LenBytes(0));
        WrittenLengthReadsBack(before.buf, head, 0);
        WrapKeepsMessages(View());
        mark := Some(head);
        head := 0;
      }
      if head + HEADER_SIZE + len < tail {
        space := tail - head - HEADER_SIZE;
      }
      at := head + LENGTH_SIZE;
    }

    method Next() returns (len: nat, at: nat)
      requires Valid()
      modifies this`tail, this`mark
      ensures Valid() && head == old(head)
      ensures View().Messages() == old(View().Messages())
      ensures len == 0 <==> View().Messages() == []
      ensures len > 0 ==> tail != head && mark != Some(tail) && len == Len(buf[..], tail)
      ensures at == tail + LENGTH_SIZE
      ensures len > 0 ==> at + len <= buf.Length && View().Messages()[0] == buf[at..at + len]
    {
      len := 0;
      if tail != head {
        OldestAtTail(View());
        len := ReadLen();
        if len == 0 {
          ResetKeepsMessages(View());
          tail := 0;
          mark := None;
          if head > tail {
            OldestAtTail(View());
            len := ReadLen();
          }
        }
      }
      at := tail + LENGTH_SIZE;
      assert len > 0 ==> buf[..][at..at + len] == buf[at..at + len];
    }

    method AddLen(len: nat)
      requires len < TWO_TO_32 && head + LENGTH_SIZE <= buf.Length
      modifies buf, this`head
      ensures View() == Added(old(View()), len)
    {
      WriteLen(len);
      head := head + len + LENGTH_SIZE;
    }

    method Add(len: nat)
      requires Valid() && 0 < len && View().Room(len)
      modifies buf, this`head
      ensures Valid() && tail == old(tail)
      ensures View().Messages() == old(View().Messages() + [View().buf[head + LENGTH_SIZE..head + LENGTH_SIZE + len]])
    {
      hide Chain, Parse, Splice, LenBytes;
      AddStored(View(), len);
      AddLen(len);
    }

    method Del(len: nat)
      requires Valid() && tail != head && mark != Some(tail) && len == Len(View().buf, tail)
      modifies this`tail
      ensures Valid() && head == old(head)
      ensures old(View().Messages()) != [] && View().Messages() == old(View().Messages()[1..])
    {
      DelDropsOldest(View());
      tail := tail + len + LENGTH_SIZE;
    }
  }
}
