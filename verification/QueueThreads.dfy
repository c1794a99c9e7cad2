/** One producer and one consumer of the message queue without any lock: every read
    or write of head, tail, a length word or a payload byte is a step. */
module QueueThreads {
  import opened Bytes
  import opened MessageQueue
  import opened Wrappers

  /** mg_queue_book, the caller's bytes and mg_queue_add. */
  datatype ProducerPc =
    | Ready
    | Fits                          // head >= tail && head + len + 8 <= size
    | Behind                        // head >= tail, read again
    | Ahead                         // tail > 8, read again
    | Mark                          // write the zero marker
    | Wrap                          // head = 0
    | Gap(space: nat)               // head + 8 + len < tail, read again
    | Measure                       // space = tail - head - 8, read again
    | Booked(space: nat)
    | Fill(k: nat)                  // the caller's bytes
    | WriteLen
    | MoveHead

  /** mg_queue_next, the use of the message and mg_queue_del. */
  datatype ConsumerPc =
    | Rest
    | Compare                       // tail != head
    | ReadLen
    | ResetTail
    | CompareAgain                  // head > tail
    | ReadLenAgain
    | Use(len: nat, got: seq<byte>)
    | MoveTail(len: nat, got: seq<byte>)

  /** The producer books `booked` bytes, writes `data` and adds the beginning `msg` of it. */
  datatype State = State(
    q: Queue,
    producer: ProducerPc, booked: nat, data: seq<byte>, msg: seq<byte>,
    consumer: ConsumerPc,
    sent: seq<seq<byte>>,
    received: seq<seq<byte>>)

  datatype Action = Send(booked: nat, data: seq<byte>, added: nat) | ProducerStep | Receive | ConsumerStep

  /** A call that books as much as it writes and adds. */
  function SendAll(msg: seq<byte>): Action {
    Send(|msg|, msg, |msg|)
  }

  /** mg_queue_init on a buffer of a size that fits a length word. */
  predicate Init(s: State) {
    && |s.q.buf| < TWO_TO_32
    && s.q.head == s.q.tail == 0 && s.q.mark == None
    && s.producer == Ready && s.consumer == Rest
    && s.sent == [] && s.received == []
  }

  predicate Enabled(s: State, a: Action) {
    match a
    case Send(booked, data, added) => s.producer == Ready && 0 < added <= |data| <= booked < TWO_TO_32
    case ProducerStep => s.producer != Ready
    case Receive => s.consumer == Rest
    case ConsumerStep => s.consumer != Rest
  }

  /** size_t subtraction. */
  function Minus(a: nat, b: nat): nat {
    (a - b) % TWO_TO_64
  }

  /** The memory accesses are in range and the C assertions hold. */
  predicate Safe(s: State, a: Action) {
    var q := s.q;
    match a
    case ProducerStep =>
      (match s.producer
       case Mark => q.head + LENGTH_SIZE <= |q.buf|
       case Fill(k) => k < |s.data| ==> q.head + LENGTH_SIZE + k < |q.buf|
       case WriteLen => |s.msg| > 0 && q.head + LENGTH_SIZE <= |q.buf|
       case MoveHead => q.head + HEADER_SIZE + |s.msg| <= |q.buf|
       case _ => true)
    case ConsumerStep =>
      (match s.consumer
       case ReadLen => q.tail + LENGTH_SIZE <= |q.buf| && q.tail + Len(q.buf, q.tail) + LENGTH_SIZE <= |q.buf|
       case ReadLenAgain => q.tail + LENGTH_SIZE <= |q.buf| && q.tail + Len(q.buf, q.tail) + LENGTH_SIZE <= |q.buf|
       case Use(len, got) => |got| < len ==> q.tail + LENGTH_SIZE + |got| < |q.buf|
       case MoveTail(len, got) => q.tail + len + LENGTH_SIZE + LENGTH_SIZE <= |q.buf|
       case _ => true)
    case _ => true
  }

  function DoProducer(s: State): State
    requires s.producer != Ready && Safe(s, ProducerStep)
  {
    var q, len := s.q, s.booked;
    match s.producer
    case Ready => s
    case Fits =>
      if q.head >= q.tail && q.head + len + HEADER_SIZE <= |q.buf|
      then s.(producer := Gap(|q.buf| - q.head - HEADER_SIZE))
      else s.(producer := Behind)
    case Behind => s.(producer := if q.head >= q.tail then Ahead else Gap(0))
    case Ahead => s.(producer := if q.tail > HEADER_SIZE then Mark else Gap(0))
    case Mark => s.(producer := Wrap, q := q.Put(q.head, LenBytes(0)))
    case Wrap => s.(producer := Gap(0), q := q.(head := 0, mark := Some(q.head)))
    case Gap(space) => s.(producer := if q.head + HEADER_SIZE + len < q.tail then Measure else Booked(space))
    case Measure => s.(producer := Booked(Minus(q.tail, q.head + HEADER_SIZE)))
    case Booked(space) => s.(producer := if space >= len then Fill(0) else Ready)
    case Fill(k) =>
      if k < |s.data| then s.(producer := Fill(k + 1), q := q.Put(q.head + LENGTH_SIZE + k, [s.data[k]]))
      else s.(producer := WriteLen)
    case WriteLen => s.(producer := MoveHead, q := q.Put(q.head, LenBytes(|s.msg|)))
    case MoveHead =>
      s.(producer := Ready, q := q.(head := q.head + |s.msg| + LENGTH_SIZE), sent := s.sent + [s.msg])
  }

  function DoConsumer(s: State): State
    requires s.consumer != Rest && Safe(s, ConsumerStep)
  {
    var q := s.q;
    match s.consumer
    case Rest => s
    case Compare => s.(consumer := if q.tail != q.head then ReadLen else Rest)
    case ReadLen =>
      var n := Len(q.buf, q.tail);
      s.(consumer := if n == 0 then ResetTail else Use(n, []))
    case ResetTail => s.(consumer := CompareAgain, q := q.(tail := 0, mark := None))
    case CompareAgain => s.(consumer := if q.head > q.tail then ReadLenAgain else Rest)
    case ReadLenAgain =>
      var n := Len(q.buf, q.tail);
      s.(consumer := if n == 0 then Rest else Use(n, []))
    case Use(len, got) =>
      if |got| < len then s.(consumer := Use(len, got + [q.buf[q.tail + LENGTH_SIZE + |got|]]))
      else s.(consumer := MoveTail(len, got))
    case MoveTail(len, got) =>
      s.(consumer := Rest, q := q.(tail := q.tail + len + LENGTH_SIZE), received := s.received + [got])
  }

  function Do(s: State, a: Action): State
    requires Enabled(s, a) && Safe(s, a)
  {
    match a
    case Send(booked, data, added) => s.(producer := Fits, booked := booked, data := data, msg := data[..added])
    case ProducerStep => DoProducer(s)
    case Receive => s.(consumer := Compare)
    case ConsumerStep => DoConsumer(s)
  }

  /** An interleaving; whether every access in it is safe is for a proof to show. */
  predicate Run(s: State, acts: seq<Action>, t: State)
    decreases |acts|
  {
    || (acts == [] && s == t)
    || (acts != [] && Enabled(s, acts[0]) && Safe(s, acts[0]) && Run(Do(s, acts[0]), acts[1..], t))
  }

  // ----- the invariant -----

  ghost predicate ProducerInv(s: State)
    requires s.q.Valid()
  {
    var q, len, n := s.q, s.booked, |s.msg|;
    && (s.producer != Ready ==> 0 < n <= |s.data| <= len < TWO_TO_32 && s.msg == s.data[..n])
    && match s.producer
       case Ahead => q.mark == None
       case Mark => q.mark == None && q.tail > HEADER_SIZE
       case Wrap => q.mark == None && q.tail > HEADER_SIZE && Len(q.buf, q.head) == 0
       case Gap(space) => space >= len ==> q.mark == None && q.Room(len)
       case Measure => q.Room(len)
       case Booked(space) => space >= len ==> q.Room(len)
       case Fill(k) =>
         && k <= |s.data| && q.Room(len)
         && q.buf[q.head + LENGTH_SIZE..q.head + LENGTH_SIZE + k] == s.data[..k]
       case WriteLen => q.Room(len) && q.buf[q.head + LENGTH_SIZE..q.head + LENGTH_SIZE + n] == s.msg
       case MoveHead =>
         && q.Room(len) && Len(q.buf, q.head) == n
         && q.buf[q.head + LENGTH_SIZE..q.head + LENGTH_SIZE + n] == s.msg
       case _ => true
  }

  /** A message of `len` bytes stands at the tail and `got` is its beginning. */
  ghost predicate InUse(q: Queue, len: nat, got: seq<byte>)
    requires q.Valid()
  {
    && q.tail != q.head && q.mark != Some(q.tail)
    && Len(q.buf, q.tail) == len && |got| <= len
    && got == q.buf[q.tail + LENGTH_SIZE..q.tail + LENGTH_SIZE + |got|]
  }

  ghost predicate ConsumerInv(s: State)
    requires s.q.Valid()
  {
    var q := s.q;
    match s.consumer
    case ReadLen => q.tail != q.head
    case ResetTail => q.mark == Some(q.tail)
    case CompareAgain => q.mark == None && q.tail == 0
    case ReadLenAgain => q.tail != q.head && q.mark != Some(q.tail)
    case Use(len, got) => InUse(q, len, got)
    case MoveTail(len, got) => InUse(q, len, got) && |got| == len
    case _ => true
  }

  ghost predicate Inv(s: State) {
    && s.q.Valid()
    && ProducerInv(s)
    && ConsumerInv(s)
    && s.sent == s.received + s.q.Messages()
  }

  // ----- every step is safe and keeps the invariant -----

  /** A write at the head leaves the message in use as it is. */
  lemma PutKeepsInUse(q: Queue, at: nat, data: seq<byte>, len: nat, got: seq<byte>)
    requires q.Valid() && InUse(q, len, got)
    requires q.head <= at && at + |data| <= |q.buf|
    requires q.mark.Some? ==> at + |data| <= q.tail
    ensures q.Put(at, data).Valid() && InUse(q.Put(at, data), len, got)
  {
    hide Chain, Parse, Splice;
    PutKeepsMessages(q, at, data);
    OldestAtTail(q);
    var from := q.tail + LENGTH_SIZE;
    assert from + len <= at || at + |data| <= q.tail;
    SpliceOutside(q.buf, at, data, q.tail, from);
    LenFrame(q.buf, q.Put(at, data).buf, q.tail);
    SpliceOutside(q.buf, at, data, from, from + |got|);
  }

  lemma PutKeepsConsumer(s: State, at: nat, data: seq<byte>, t: State)
    requires s.q.Valid() && ConsumerInv(s)
    requires s.q.head <= at && at + |data| <= |s.q.buf|
    requires s.q.mark.Some? ==> at + |data| <= s.q.tail
    requires t.q == s.q.Put(at, data) && t.consumer == s.consumer
    ensures t.q.Valid() && ConsumerInv(t)
    ensures t.q.Messages() == s.q.Messages()
  {
    hide Chain, Parse;
    PutKeepsMessages(s.q, at, data);
    match s.consumer
    case Use(len, got) => PutKeepsInUse(s.q, at, data, len, got);
    case MoveTail(len, got) => PutKeepsInUse(s.q, at, data, len, got);
    case _ =>
  }

  lemma ProducerMarks(s: State)
    requires Inv(s) && s.producer == Mark
    ensures Safe(s, ProducerStep) && Inv(DoProducer(s))
  {
    hide Chain, Parse;
    PutKeepsConsumer(s, s.q.head, LenBytes(0), DoProducer(s));
    WrittenLengthReadsBack(s.q.buf, s.q.head, 0);
  }

  /** One more byte of the payload in place. */
  lemma SpliceGrows(buf: seq<byte>, at: nat, msg: seq<byte>, k: nat)
    requires k < |msg| && at + |msg| <= |buf| && buf[at..at + k] == msg[..k]
    ensures Splice(buf, at + k, [msg[k]])[at..at + k + 1] == msg[..k + 1]
  {
    var buf' := Splice(buf, at + k, [msg[k]]);
    assert buf'[at..at + k + 1] == buf[at..at + k] + [msg[k]];
  }

  lemma ProducerFillsByte(s: State)
    requires Inv(s) && s.producer.Fill? && s.producer.k < |s.data|
    ensures Safe(s, ProducerStep) && Inv(DoProducer(s))
  {
    hide Chain, Parse;
    var k, at := s.producer.k, s.q.head + LENGTH_SIZE;
    PutKeepsConsumer(s, at + k, [s.data[k]], DoProducer(s));
    SpliceGrows(s.q.buf, at, s.data, k);
  }

  lemma ProducerHasFilled(s: State)
    requires Inv(s) && s.producer.Fill? && s.producer.k >= |s.data|
    ensures Safe(s, ProducerStep) && Inv(DoProducer(s))
  {
    hide Chain, Parse;
    var at, n := s.q.head + LENGTH_SIZE, |s.msg|;
    assert s.data[..|s.data|] == s.data;
    assert s.q.buf[at..at + |s.data|][..n] == s.q.buf[at..at + n];
  }

  lemma ProducerWritesLen(s: State)
    requires Inv(s) && s.producer == WriteLen
    ensures Safe(s, ProducerStep) && Inv(DoProducer(s))
  {
    hide Chain, Parse;
    var q, len := s.q, |s.msg|;
    var at := q.head + LENGTH_SIZE;
    PutKeepsConsumer(s, q.head, LenBytes(len), DoProducer(s));
    WrittenLengthReadsBack(q.buf, q.head, len);
    SpliceOutside(q.buf, q.head, LenBytes(len), at, at + len);
  }

  lemma ProducerWraps(s: State)
    requires Inv(s) && s.producer == Wrap
    ensures Safe(s, ProducerStep) && Inv(DoProducer(s))
  {
    hide Chain, Parse;
    WrapKeepsMessages(s.q);
  }

  lemma ProducerMovesHead(s: State)
    requires Inv(s) && s.producer == MoveHead
    ensures Safe(s, ProducerStep) && Inv(DoProducer(s))
  {
    hide Chain, Parse;
    AddAppends(s.q, |s.msg|);
    var m := s.q.Messages();
    assert s.received + (m + [s.msg]) == (s.received + m) + [s.msg];
  }

  lemma ProducerReads(s: State)
    requires Inv(s) && s.producer != Ready
    requires s.producer.Fits? || s.producer.Behind? || s.producer.Ahead?
          || s.producer.Gap? || s.producer.Measure? || s.producer.Booked?
    ensures Inv(DoProducer(s))
  {
    hide Chain, Parse;
  }

  lemma ConsumerCompares(s: State)
    requires Inv(s) && (s.consumer == Compare || s.consumer == CompareAgain)
    ensures Safe(s, ConsumerStep) && Inv(DoConsumer(s))
  {
    hide Chain, Parse;
  }

  lemma ConsumerReadsLen(s: State)
    requires Inv(s) && (s.consumer == ReadLen || s.consumer == ReadLenAgain)
    ensures Safe(s, ConsumerStep) && Inv(DoConsumer(s))
  {
    hide Chain, Parse;
    OldestAtTail(s.q);
  }

  lemma InUseGrows(q: Queue, len: nat, got: seq<byte>)
    requires q.Valid() && InUse(q, len, got) && |got| < len
    ensures q.tail + LENGTH_SIZE + |got| < |q.buf|
    ensures InUse(q, len, got + [q.buf[q.tail + LENGTH_SIZE + |got|]])
  {
    hide Chain, Parse;
    OldestAtTail(q);
    var at := q.tail + LENGTH_SIZE;
    assert q.buf[at..at + |got| + 1] == q.buf[at..at + |got|] + [q.buf[at + |got|]];
  }

  lemma ConsumerUsesByte(s: State)
    requires Inv(s) && s.consumer.Use? && |s.consumer.got| < s.consumer.len
    ensures Safe(s, ConsumerStep) && Inv(DoConsumer(s))
  {
    hide Chain, Parse;
    var len, got := s.consumer.len, s.consumer.got;
    InUseGrows(s.q, len, got);
    var t := s.(consumer := Use(len, got + [s.q.buf[s.q.tail + LENGTH_SIZE + |got|]]));
    assert DoConsumer(s) == t;
  }

  lemma ConsumerHasUsed(s: State)
    requires Inv(s) && s.consumer.Use? && |s.consumer.got| >= s.consumer.len
    ensures Safe(s, ConsumerStep) && Inv(DoConsumer(s))
  {
    hide Chain, Parse;
    assert DoConsumer(s) == s.(consumer := MoveTail(s.consumer.len, s.consumer.got));
  }

  lemma DelInUse(q: Queue, len: nat, got: seq<byte>)
    requires q.Valid() && InUse(q, len, got) && |got| == len
    ensures q.(tail := q.tail + len + LENGTH_SIZE).Valid()
    ensures q.Messages() == [got] + q.(tail := q.tail + len + LENGTH_SIZE).Messages()
    ensures q.tail + len + LENGTH_SIZE + LENGTH_SIZE <= |q.buf|
    ensures forall n :: q.Room(n) ==> q.(tail := q.tail + len + LENGTH_SIZE).Room(n)
  {
    hide Chain, Parse;
    OldestAtTail(q);
    DelDropsOldest(q);
  }

  lemma ConsumerResets(s: State)
    requires Inv(s) && s.consumer == ResetTail
    ensures Safe(s, ConsumerStep) && Inv(DoConsumer(s))
  {
    hide Chain, Parse;
    ResetKeepsMessages(s.q);
  }

  /** What the producer holds on to survives a move of the tail. */
  lemma TailMoveKeepsProducer(s: State, t: State)
    requires s.q.Valid() && t.q.Valid() && ProducerInv(s)
    requires t.producer == s.producer && t.booked == s.booked && t.data == s.data && t.msg == s.msg
    requires t.q == s.q.(tail := t.q.tail) && s.q.tail <= t.q.tail
    requires forall n :: s.q.Room(n) ==> t.q.Room(n)
    ensures ProducerInv(t)
  {
    hide Chain, Parse;
  }

  lemma ConsumerMovesTail(s: State)
    requires Inv(s) && s.consumer.MoveTail?
    ensures Safe(s, ConsumerStep) && Inv(DoConsumer(s))
  {
    hide Chain, Parse;
    var len, got := s.consumer.len, s.consumer.got;
    var q' := s.q.(tail := s.q.tail + len + LENGTH_SIZE);
    var t := s.(consumer := Rest, q := q', received := s.received + [got]);
    DelInUse(s.q, len, got);
    TailMoveKeepsProducer(s, t);
    assert t.sent == t.received + q'.Messages() by {
      assert s.received + ([got] + q'.Messages()) == (s.received + [got]) + q'.Messages();
    }
    assert Inv(t);
    assert DoConsumer(s) == t;
  }

  lemma StepKeepsInv(s: State, a: Action)
    requires Inv(s) && Enabled(s, a)
    ensures Safe(s, a) && Inv(Do(s, a))
  {
    hide Chain, Parse;
    match a
    case Send(_, _, _) =>
    case Receive =>
    case ProducerStep =>
      match s.producer {
        case Mark => ProducerMarks(s);
        case Fill(k) => if k < |s.data| { ProducerFillsByte(s); } else { ProducerHasFilled(s); }
        case WriteLen => ProducerWritesLen(s);
        case Wrap => ProducerWraps(s);
        case MoveHead => ProducerMovesHead(s);
        case _ => ProducerReads(s);
      }
    case ConsumerStep =>
      match s.consumer {
        case Use(len, got) => if |got| < len { ConsumerUsesByte(s); } else { ConsumerHasUsed(s); }
        case ResetTail => ConsumerResets(s);
        case MoveTail(_, _) => ConsumerMovesTail(s);
        case Compare => ConsumerCompares(s);
        case CompareAgain => ConsumerCompares(s);
        case _ => ConsumerReadsLen(s);
      }
  }

  lemma {:induction false} RunKeepsInv(s: State, acts: seq<Action>, t: State)
    requires Inv(s) && Run(s, acts, t)
    ensures Inv(t)
    decreases |acts|
  {
    if acts != [] {
      StepKeepsInv(s, acts[0]);
      RunKeepsInv(Do(s, acts[0]), acts[1..], t);
    }
  }

  lemma InitEstablishesInv(s: State)
    requires Init(s)
    ensures Inv(s)
  {
  }

  // ----- main results -----

  /** Under every interleaving the messages received, followed by those still in the
      memory, are the messages sent: none lost, repeated, reordered or overwritten. */
  lemma {:induction false} EveryRunIsFifo(s: State, acts: seq<Action>, t: State)
    requires Init(s) && Run(s, acts, t)
    ensures t.q.Valid()
    ensures t.received + t.q.Messages() == t.sent
  {
    InitEstablishesInv(s);
    RunKeepsInv(s, acts, t);
  }

  /** No reachable step leaves the buffer or breaks an assertion of the C code. */
  lemma {:induction false} EveryStepIsSafe(s: State, acts: seq<Action>, t: State, a: Action)
    requires Init(s) && Run(s, acts, t) && Enabled(t, a)
    ensures Safe(t, a)
  {
    InitEstablishesInv(s);
    RunKeepsInv(s, acts, t);
    StepKeepsInv(t, a);
  }

  /** mg_queue_next answers zero exactly when no message is waiting, whether it finds
      tail == head or a trailing marker. */
  lemma {:induction false} ZeroMeansEmpty(s: State, acts: seq<Action>, t: State)
    requires Init(s) && Run(s, acts, t)
    ensures t.q.Valid()
    ensures t.consumer == Compare && t.q.tail == t.q.head ==> t.q.Messages() == []
    ensures t.consumer == CompareAgain ==> (t.q.head > t.q.tail <==> t.q.Messages() != [])
    ensures t.consumer.Use? ==> t.q.Messages() != [] && t.consumer.len == |t.q.Messages()[0]|
  {
    hide Chain, Parse;
    InitEstablishesInv(s);
    RunKeepsInv(s, acts, t);
    if t.consumer.Use? { OldestAtTail(t.q); }
  }

  // ----- what is sent is what was asked for -----

  /** The parameters of the latest Send. */
  function LastSend(acts: seq<Action>): Option<Action>
    ensures LastSend(acts).Some? ==> LastSend(acts).value.Send?
  {
    if acts == [] then None
    else
      match LastSend(acts[1..])
      case Some(a) => Some(a)
      case None => if acts[0].Send? then Some(acts[0]) else None
  }

  /** The messages for which a booking had reported enough space when it returned. */
  function Accepted(s: State, acts: seq<Action>): seq<seq<byte>>
    decreases |acts|
  {
    if acts == [] || !Enabled(s, acts[0]) || !Safe(s, acts[0]) then []
    else
      var taken := acts[0] == ProducerStep && s.producer.Booked? && s.producer.space >= s.booked;
      (if taken then [s.msg] else []) + Accepted(Do(s, acts[0]), acts[1..])
  }

  /** The accepted message that is still being written. */
  function Underway(s: State): seq<seq<byte>> {
    if s.producer.Fill? || s.producer == WriteLen || s.producer == MoveHead then [s.msg] else []
  }

  ghost predicate AsAsked(s: State, last: Option<Action>) {
    last.Some? && last.value.Send? ==>
      var Send(booked, data, added) := last.value;
      added <= |data| && s.booked == booked && s.data == data && s.msg == data[..added]
  }

  lemma StepSends(s: State, a: Action)
    requires Enabled(s, a) && Safe(s, a)
    ensures
      var t := Do(s, a);
      && t.sent + Underway(t)
         == s.sent + Underway(s)
            + (if a == ProducerStep && s.producer.Booked? && s.producer.space >= s.booked then [s.msg] else [])
      && (if a.Send? then AsAsked(t, Some(a)) else t.booked == s.booked && t.data == s.data && t.msg == s.msg)
  {
  }

  lemma {:induction false} RunSends(s: State, acts: seq<Action>, t: State, last: Option<Action>)
    requires Run(s, acts, t) && AsAsked(s, last)
    ensures t.sent + Underway(t) == s.sent + Underway(s) + Accepted(s, acts)
    ensures AsAsked(t, if LastSend(acts).Some? then LastSend(acts) else last)
    decreases |acts|
  {
    hide Do, Safe, Underway;
    if acts != [] {
      var u := Do(s, acts[0]);
      StepSends(s, acts[0]);
      RunSends(u, acts[1..], t, if acts[0].Send? then Some(acts[0]) else last);
    }
  }

  /** Each message whose booking is accepted is sent once, in this order, with the bytes
      and the length that its caller gave. */
  lemma {:induction false} AcceptedIsSent(s: State, acts: seq<Action>, t: State)
    requires Init(s) && Run(s, acts, t)
    ensures Accepted(s, acts) == t.sent + Underway(t)
    ensures LastSend(acts).Some? ==>
      var Send(booked, data, added) := LastSend(acts).value;
      added <= |data| && t.booked == booked && t.data == data && t.msg == data[..added]
  {
    RunSends(s, acts, t, None);
    assert s.sent + Underway(s) == [];
  }

  /** The consumer comes back with nothing only when nothing waits, and goes on to use
      a message of any length when one does. */
  lemma {:induction false} WaitingIsTaken(s: State, acts: seq<Action>, t: State)
    requires Init(s) && Run(s, acts, t) && t.consumer != Rest
    ensures t.q.Valid() && Safe(t, ConsumerStep)
    ensures
      var u := DoConsumer(t);
      && (u.consumer == Rest <==> t.consumer.MoveTail? || (t.consumer.Compare? && t.q.tail == t.q.head)
                                  || (t.consumer.CompareAgain? && t.q.Messages() == []))
      && ((t.consumer.ReadLen? && t.q.mark != Some(t.q.tail)) || t.consumer.ReadLenAgain? ==>
            t.q.Messages() != [] && u.consumer == Use(|t.q.Messages()[0]|, []))
  {
    hide Chain, Parse;
    InitEstablishesInv(s);
    RunKeepsInv(s, acts, t);
    ZeroMeansEmpty(s, acts, t);
    EveryStepIsSafe(s, acts, t, ConsumerStep);
    if t.consumer.ReadLen? && t.q.mark == Some(t.q.tail) {
      assert Len(t.q.buf, t.q.tail) == 0;
    } else if t.consumer.ReadLen? || t.consumer.ReadLenAgain? {
      OldestAtTail(t.q);
    }
  }

  /** A booking that reports enough space owns the bytes of the length word, of all
      that was booked and of the next marker: none of them belongs to a waiting message. */
  lemma {:induction false} BookedSpaceIsFree(s: State, acts: seq<Action>, t: State)
    requires Init(s) && Run(s, acts, t)
    requires t.producer.Booked? && t.producer.space >= t.booked
    ensures t.q.head + HEADER_SIZE + t.booked <= |t.q.buf|
    ensures t.q.mark == None ==> t.q.tail <= t.q.head
    ensures t.q.mark.Some? ==> t.q.head + HEADER_SIZE + t.booked < t.q.tail
  {
    InitEstablishesInv(s);
    RunKeepsInv(s, acts, t);
  }
}
