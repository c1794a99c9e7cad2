/** mg_queue_book reads the tail twice. Between the two reads the consumer can reset
    it, and then the free space comes out below zero as an unsigned number. */
module QueueRace {
  import opened Bytes
  import opened MessageQueue
  import opened QueueThreads
  import opened Wrappers

  // ----- when the space wraps round -----

  /** No booking has come by more space than the buffer but by the second reading. */
  ghost predicate SpaceInv(s: State) {
    s.producer.Gap? ==> s.producer.space <= |s.q.buf|
  }

  lemma StepKeepsSpaceInv(s: State, a: Action)
    requires SpaceInv(s) && Enabled(s, a) && Safe(s, a)
    ensures SpaceInv(Do(s, a))
  {
  }

  lemma {:induction false} RunKeepsSpaceInv(s: State, acts: seq<Action>, t: State)
    requires SpaceInv(s) && Run(s, acts, t)
    ensures SpaceInv(t)
    decreases |acts|
  {
    if acts != [] {
      StepKeepsSpaceInv(s, acts[0]);
      hide Do, SpaceInv;
      RunKeepsSpaceInv(Do(s, acts[0]), acts[1..], t);
    }
  }

  /** The producer has just booked more than the whole buffer. */
  predicate BooksTooMuch(s: State, a: Action)
    requires Enabled(s, a) && Safe(s, a)
  {
    var t := Do(s, a);
    a == ProducerStep && t.producer.Booked? && t.producer.space > |t.q.buf|
  }

  lemma MeasuredSpace(s: State)
    requires Inv(s) && s.producer == Measure
    ensures Minus(s.q.tail, s.q.head + HEADER_SIZE) > |s.q.buf| <==> s.q.mark == None
  {
    hide Chain, Parse;
    var d := s.q.tail - s.q.head - HEADER_SIZE;
    if s.q.mark == None {
      assert 0 - TWO_TO_64 < d < 0;
      DivModUnique(d, TWO_TO_64, -1, d + TWO_TO_64);
    } else {
      assert 0 <= d <= |s.q.buf|;
      DivModUnique(d, TWO_TO_64, 0, d);
    }
  }

  /** In every run, a step books more than the buffer exactly if it takes the second
      reading when the tail is no longer behind the zero marker. */
  lemma {:induction false} BooksTooMuchExactly(s: State, acts: seq<Action>, t: State, a: Action)
    requires Init(s) && Run(s, acts, t) && Enabled(t, a)
    ensures Safe(t, a)
    ensures BooksTooMuch(t, a) <==> a == ProducerStep && t.producer == Measure && t.q.mark == None
  {
    InitEstablishesInv(s);
    RunKeepsInv(s, acts, t);
    RunKeepsSpaceInv(s, acts, t);
    EveryStepIsSafe(s, acts, t, a);
    if t.producer == Measure {
      MeasuredSpace(t);
    }
    hide Run, Inv, Minus;
  }

  /** Steps of the consumer alone. */
  predicate ConsumerOnly(acts: seq<Action>) {
    forall i :: 0 <= i < |acts| ==> acts[i] == Receive || acts[i] == ConsumerStep
  }

  /** Among these steps the consumer resets the tail. */
  predicate Resets(s: State, acts: seq<Action>)
    decreases |acts|
  {
    acts != [] && Enabled(s, acts[0]) && Safe(s, acts[0])
    && ((acts[0] == ConsumerStep && s.consumer == ResetTail) || Resets(Do(s, acts[0]), acts[1..]))
  }

  lemma {:induction false} MarkGoesWithReset(s: State, acts: seq<Action>, t: State)
    requires Run(s, acts, t) && ConsumerOnly(acts) && s.producer == Measure
    ensures t.producer == Measure
    ensures t.q.mark == None <==> s.q.mark == None || Resets(s, acts)
    decreases |acts|
  {
    if acts != [] {
      assert acts[0] == Receive || acts[0] == ConsumerStep;
      var u := Do(s, acts[0]);
      assert u.producer == Measure;
      assert u.q.mark == if acts[0] == ConsumerStep && s.consumer == ResetTail then None else s.q.mark;
      assert ConsumerOnly(acts[1..]);
      hide Do, ConsumerOnly;
      MarkGoesWithReset(u, acts[1..], t);
    }
  }

  /** Between the two readings of one booking, whatever the consumer does meanwhile:
      the space wraps round exactly if the tail was reset. */
  lemma {:induction false} SpaceWrapsExactlyAfterReset(s: State, acts: seq<Action>, u: State, more: seq<Action>,
    t: State)
    requires Init(s) && Run(s, acts, u) && u.producer.Gap? && Safe(u, ProducerStep)
    requires Do(u, ProducerStep).producer == Measure
    requires ConsumerOnly(more) && Run(Do(u, ProducerStep), more, t)
    ensures Enabled(t, ProducerStep) && Safe(t, ProducerStep)
    ensures BooksTooMuch(t, ProducerStep) <==> Resets(Do(u, ProducerStep), more)
  {
    InitEstablishesInv(s);
    RunKeepsInv(s, acts, u);
    hide Run, Inv, Resets, ConsumerOnly;
    var v := Do(u, ProducerStep);
    GapBeforeTail(u);
    StepKeepsInv(u, ProducerStep);
    hide Do;
    RunKeepsInv(v, more, t);
    MarkGoesWithReset(v, more, t);
    MeasuredBooking(t);
  }

  lemma GapBeforeTail(u: State)
    requires Inv(u) && u.producer.Gap? && Safe(u, ProducerStep) && Do(u, ProducerStep).producer == Measure
    ensures Do(u, ProducerStep).q.mark.Some?
  {
    hide Chain, Parse;
  }

  lemma MeasuredBooking(t: State)
    requires Inv(t) && t.producer == Measure
    ensures Enabled(t, ProducerStep) && Safe(t, ProducerStep)
    ensures BooksTooMuch(t, ProducerStep) <==> t.q.mark == None
  {
    MeasuredSpace(t);
    hide Inv, Minus;
  }

  // ----- such a run -----

  /** Some run leads from s to t, and t is sound. */
  ghost predicate Leads(s: State, t: State) {
    exists acts :: Run(s, acts, t) && Inv(t)
  }

  lemma {:induction false} ExtendRun(s: State, acts: seq<Action>, t: State, a: Action)
    requires Run(s, acts, t) && Enabled(t, a) && Safe(t, a)
    ensures Run(s, acts + [a], Do(t, a))
    decreases |acts|
  {
    if acts == [] {
      assert (acts + [a])[1..] == [];
    } else {
      assert (acts + [a])[1..] == acts[1..] + [a];
      ExtendRun(Do(s, acts[0]), acts[1..], t, a);
    }
  }

  lemma Extend(s: State, t: State, a: Action) returns (t': State)
    requires Leads(s, t) && Enabled(t, a)
    ensures Safe(t, a) && t' == Do(t, a) && Leads(s, t')
  {
    var acts :| Run(s, acts, t) && Inv(t);
    t' := Do(t, a);
    StepKeepsInv(t, a);
    ExtendRun(s, acts, t, a);
  }

  lemma NoSteps(s: State)
    requires Init(s)
    ensures Leads(s, s)
  {
    InitEstablishesInv(s);
    assert Run(s, [], s);
  }

  /** A message is booked at the front of an empty queue, copied and added. */
  lemma SendFirst(s: State, msg: seq<byte>) returns (t: State)
    requires Init(s) && 0 < |msg| && |msg| + HEADER_SIZE <= |s.q.buf|
    ensures Leads(s, t) && t == t.(producer := Ready, consumer := Rest)
    ensures t.q == Queue(t.q.buf, |msg| + LENGTH_SIZE, 0, None)
    ensures |t.q.buf| == |s.q.buf| && Len(t.q.buf, 0) == |msg|
  {
    hide Leads, Inv, Splice, LenBytes, Len;
    NoSteps(s);
    assert msg[..|msg|] == msg;
    t := Extend(s, s, SendAll(msg));
    t := Extend(s, t, ProducerStep);
    t := Extend(s, t, ProducerStep);
    t := Extend(s, t, ProducerStep);
    while t.producer != WriteLen
      invariant Leads(s, t) && t.data == t.msg == msg && t.consumer == Rest
      invariant t.producer == WriteLen || (t.producer.Fill? && t.producer.k <= |msg|)
      invariant t.q.mark == None && t.q.tail == t.q.head == 0 && |t.q.buf| == |s.q.buf|
      decreases if t.producer.Fill? then |msg| + 1 - t.producer.k else 0
    {
      t := Extend(s, t, ProducerStep);
    }
    t := Extend(s, t, ProducerStep);
    LengthIsWritten(s, t);
    t := Extend(s, t, ProducerStep);
  }

  lemma LengthIsWritten(s: State, t: State)
    requires Leads(s, t) && t.producer == MoveHead
    ensures t.q.head + LENGTH_SIZE <= |t.q.buf| && Len(t.q.buf, t.q.head) == |t.msg|
  {
  }

  /** The one message at the front is taken. */
  lemma TakeFirst(s: State, t: State) returns (t': State)
    requires Leads(s, t) && t.producer == Ready && t.consumer == Rest
    requires t.q.mark == None && t.q.tail == 0 && LENGTH_SIZE < t.q.head <= |t.q.buf|
    requires Len(t.q.buf, 0) == t.q.head - LENGTH_SIZE
    ensures Leads(s, t') && t' == t'.(producer := Ready, consumer := Rest, q := t.q.(tail := t.q.head))
  {
    hide Leads, Inv, Len;
    t' := Extend(s, t, Receive);
    t' := Extend(s, t', ConsumerStep);
    t' := Extend(s, t', ConsumerStep);
    while !t'.consumer.MoveTail?
      invariant Leads(s, t') && t'.q == t.q && t'.producer == Ready
      invariant t'.consumer.MoveTail? || (t'.consumer.Use? && |t'.consumer.got| <= t'.consumer.len)
      invariant t'.consumer.len == t.q.head - LENGTH_SIZE
      decreases if t'.consumer.Use? then t'.consumer.len + 1 - |t'.consumer.got| else 0
    {
      t' := Extend(s, t', ConsumerStep);
    }
    t' := Extend(s, t', ConsumerStep);
  }

  /** A booking that does not fit ahead wraps the head, up to its first reading. */
  lemma WrapHead(s: State, t: State, msg: seq<byte>) returns (t': State)
    requires Leads(s, t) && t.producer == Ready && t.consumer == Rest && 0 < |msg| < TWO_TO_32
    requires t.q.mark == None && HEADER_SIZE < t.q.tail == t.q.head && t.q.head + |msg| + HEADER_SIZE > |t.q.buf|
    ensures Leads(s, t') && t' == t'.(producer := Gap(0), consumer := Rest, booked := |msg|, msg := msg)
    ensures t'.q == Queue(t'.q.buf, 0, t.q.tail, Some(t.q.tail)) && |t'.q.buf| == |t.q.buf|
    ensures t.q.tail + LENGTH_SIZE <= |t'.q.buf| && Len(t'.q.buf, t.q.tail) == 0
  {
    hide Leads, Inv, Len, Splice, LenBytes;
    assert msg[..|msg|] == msg;
    t' := Extend(s, t, SendAll(msg));
    t' := Extend(s, t', ProducerStep);
    t' := Extend(s, t', ProducerStep);
    t' := Extend(s, t', ProducerStep);
    t' := Extend(s, t', ProducerStep);
    MarkerIsWritten(s, t');
    t' := Extend(s, t', ProducerStep);
  }

  lemma MarkerIsWritten(s: State, t: State)
    requires Leads(s, t) && t.producer == Wrap
    ensures t.q.head + LENGTH_SIZE <= |t.q.buf| && Len(t.q.buf, t.q.head) == 0
  {
  }

  /** The consumer meets the marker. */
  lemma MeetMarker(s: State, t: State) returns (t': State)
    requires Leads(s, t) && t.consumer == Rest && t.q.tail != t.q.head
    requires t.q.tail + LENGTH_SIZE <= |t.q.buf| && Len(t.q.buf, t.q.tail) == 0
    ensures Leads(s, t') && t' == t.(consumer := ResetTail)
  {
    hide Leads, Inv, Len;
    t' := Extend(s, t, Receive);
    t' := Extend(s, t', ConsumerStep);
    t' := Extend(s, t', ConsumerStep);
  }

  /** The tail is reset between the two readings. */
  lemma ResetBetween(s: State, t: State) returns (t': State)
    requires Leads(s, t) && t.consumer == ResetTail && t.producer == Gap(0)
    requires t.q.head == 0 && HEADER_SIZE + t.booked < t.q.tail
    ensures Leads(s, t') && t' == t'.(producer := Booked(TWO_TO_64 - HEADER_SIZE), msg := t.msg)
  {
    hide Leads, Inv;
    t' := Extend(s, t, ProducerStep);
    t' := Extend(s, t', ConsumerStep);
    t' := Extend(s, t', ProducerStep);
    DivModUnique(0 - HEADER_SIZE, TWO_TO_64, -1, TWO_TO_64 - HEADER_SIZE);
  }

  /** On every buffer of at least 20 bytes: a message is sent and taken, and while the
      next one, of 3 bytes, is booked the consumer meets the zero marker and resets
      the tail between the two readings. The space booked is 2^64 - 8. */
  lemma BookingBelowZero(s: State) returns (acts: seq<Action>, t: State)
    requires Init(s) && |s.q.buf| >= 20
    ensures Run(s, acts, t) && t.producer == Booked(TWO_TO_64 - HEADER_SIZE) && |t.msg| == 3
  {
    t := SendFirst(s, seq(|s.q.buf| - 12, _ => 0));
    hide Run, Inv, Len;
    t := TakeFirst(s, t);
    t := WrapHead(s, t, [0, 0, 0]);
    t := MeetMarker(s, t);
    t := ResetBetween(s, t);
    acts :| Run(s, acts, t);
  }
}
