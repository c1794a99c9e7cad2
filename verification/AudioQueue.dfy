/** read_buffer, write_buffer and clear_buffer as threads over one mutex and one
    condition variable. Every lock, test, byte copied, offset update, signal,
    unlock, sleep and wake-up is a step of its own; the label of a step resolves
    all nondeterminism, so a run is a sequence of labels. */
module AudioQueue {
  import opened Bytes
  import opened RingBuffer

  datatype Owner = Nobody | ByReader | ByWriter | ByClearer

  datatype ReaderPc =
    | RIdle                     // between two calls
    | RLock                     // at try_again_read
    | RTest
    | RCopy                     // memcpy, byte by byte
    | RAdvance
    | RSignal
    | RUnlock(done: bool)       // not done: go back to try_again_read
    | RWait                     // asleep, the mutex released
    | RWake                     // woken, wants the mutex back

  datatype WriterPc =
    | WIdle
    | WLock
    | WTest
    | WCopy(k: nat)
    | WAdvance
    | WSignal
    | WUnlock(done: bool)
    | WWait
    | WWake

  datatype ClearerPc = CIdle | CLock | CClear | CUnlock

  /** What the critical sections did, in order. */
  datatype Event = Wrote(data: seq<byte>) | Took(data: seq<byte>) | Cleared

  datatype State = State(
    ring: Ring,
    owner: Owner,
    rpc: ReaderPc, size: nat, out: seq<byte>,
    wpc: WriterPc, data: seq<byte>,
    cpc: ClearerPc,
    log: seq<Event>)

  datatype Action =
    | StartRead(n: nat)
    | ReaderStep
    | ReaderSpurious
    | StartWrite(d: seq<byte>)
    | WriterStep
    | WriterSpurious
    | StartClear
    | ClearerStep

  predicate Init(s: State) {
    && s.ring.Valid() && s.ring.read == s.ring.write == 0
    && s.owner == Nobody
    && s.rpc == RIdle && s.wpc == WIdle && s.cpc == CIdle
    && s.log == []
  }

  predicate ReaderEnabled(s: State) {
    match s.rpc
    case RIdle => false
    case RLock => s.owner == Nobody
    case RWake => s.owner == Nobody
    case RWait => false
    case _ => true
  }

  predicate WriterEnabled(s: State) {
    match s.wpc
    case WIdle => false
    case WLock => s.owner == Nobody
    case WWake => s.owner == Nobody
    case WWait => false
    case _ => true
  }

  predicate Enabled(s: State, a: Action) {
    match a
    case StartRead(n) => s.rpc == RIdle
    case ReaderStep => ReaderEnabled(s)
    case ReaderSpurious => s.rpc == RWait
    case StartWrite(d) => s.wpc == WIdle
    case WriterStep => WriterEnabled(s)
    case WriterSpurious => s.wpc == WWait
    case StartClear => s.cpc == CIdle
    case ClearerStep => s.cpc != CIdle && (s.cpc == CLock ==> s.owner == Nobody)
  }

  /** pthread_cond_signal by the reader: the only other waiter is the writer. */
  function WakeWriter(pc: WriterPc): WriterPc {
    if pc == WWait then WWake else pc
  }

  function WakeReader(pc: ReaderPc): ReaderPc {
    if pc == RWait then RWake else pc
  }

  function DoReader(s: State): State
    requires s.ring.Valid() && ReaderEnabled(s)
  {
    match s.rpc
    case RLock => s.(rpc := RTest, owner := ByReader)
    case RTest =>
      if s.ring.Count() >= s.size then s.(rpc := RCopy, out := [])
      else s.(rpc := RWait, owner := Nobody)
    case RCopy =>
      if |s.out| < s.size then
        // the byte at the read address plus the number already copied
        var at := s.ring.read + |s.out|;
        if at < 2 * |s.ring.cells| then s.(out := s.out + [s.ring.cells[s.ring.Cell(at)]]) else s
      else s.(rpc := RAdvance)
    case RAdvance =>
      if s.size <= s.ring.Count() then
        s.(rpc := RSignal, ring := s.ring.ReadAdvance(s.size), log := s.log + [Took(s.out)])
      else s
    case RSignal => s.(rpc := RUnlock(true), wpc := WakeWriter(s.wpc))
    case RUnlock(done) => s.(rpc := if done then RIdle else RLock, owner := Nobody)
    case RWake => s.(rpc := RUnlock(false), owner := ByReader)
    case _ => s
  }

  function DoWriter(s: State): State
    requires s.ring.Valid() && WriterEnabled(s)
  {
    match s.wpc
    case WLock => s.(wpc := WTest, owner := ByWriter)
    case WTest =>
      if s.ring.Free() >= |s.data| then s.(wpc := WCopy(0))
      else s.(wpc := WWait, owner := Nobody)
    case WCopy(k) =>
      if k < |s.data| then
        if k < s.ring.Free() then s.(wpc := WCopy(k + 1), ring := s.ring.Store(k, s.data[k])) else s
      else s.(wpc := WAdvance)
    case WAdvance =>
      if |s.data| <= s.ring.Free() then
        s.(wpc := WSignal, ring := s.ring.WriteAdvance(|s.data|), log := s.log + [Wrote(s.data)])
      else s
    case WSignal => s.(wpc := WUnlock(true), rpc := WakeReader(s.rpc))
    case WUnlock(done) => s.(wpc := if done then WIdle else WLock, owner := Nobody)
    case WWake => s.(wpc := WUnlock(false), owner := ByWriter)
    case _ => s
  }

  function DoClearer(s: State): State {
    match s.cpc
    case CIdle => s
    case CLock => s.(cpc := CClear, owner := ByClearer)
    case CClear => s.(cpc := CUnlock, ring := s.ring.Clear(), log := s.log + [Cleared])
    case CUnlock => s.(cpc := CIdle, owner := Nobody)
  }

  function Do(s: State, a: Action): State
    requires s.ring.Valid() && Enabled(s, a)
  {
    match a
    case StartRead(n) => s.(rpc := RLock, size := n)
    case ReaderStep => DoReader(s)
    case ReaderSpurious => s.(rpc := RWake)
    case StartWrite(d) => s.(wpc := WLock, data := d)
    case WriterStep => DoWriter(s)
    case WriterSpurious => s.(wpc := WWake)
    case StartClear => s.(cpc := CLock)
    case ClearerStep => DoClearer(s)
  }

  /** `acts` leads from `s` to `t`. */
  predicate Run(s: State, acts: seq<Action>, t: State)
    decreases |acts|
  {
    || (acts == [] && s == t)
    || (acts != [] && s.ring.Valid() && Enabled(s, acts[0]) && Run(Do(s, acts[0]), acts[1..], t))
  }

  // ----- the reference: an atomic byte queue -----

  /** The history of an atomic queue of bytes, and what it holds afterwards. */
  datatype Queue = Illegal | Holding(bytes: seq<byte>)

  function After(q: Queue, e: Event): Queue {
    match q
    case Illegal => Illegal
    case Holding(b) =>
      match e
      case Wrote(d) => Holding(b + d)
      case Took(d) => if d <= b then Holding(b[|d|..]) else Illegal
      case Cleared => Holding([])
  }

  function Replay(log: seq<Event>): Queue {
    if log == [] then Holding([])
    else After(Replay(log[..|log| - 1]), log[|log| - 1])
  }

  lemma {:induction false} ReplayAppend(log: seq<Event>, e: Event)
    ensures Replay(log + [e]) == After(Replay(log), e)
  {
    assert (log + [e])[..|log|] == log;
  }

  // ----- safety -----

  ghost predicate ReaderInv(s: State)
    requires s.ring.Valid()
  {
    && (s.owner == ByReader <==> s.rpc.RTest? || s.rpc.RCopy? || s.rpc.RAdvance? || s.rpc.RSignal? || s.rpc.RUnlock?)
    && (s.rpc.RCopy? ==> s.size <= s.ring.Count() && |s.out| <= s.size && s.out == s.ring.Contents()[..|s.out|])
    && (s.rpc.RAdvance? ==> s.size <= s.ring.Count() && s.out == s.ring.Contents()[..s.size])
  }

  ghost predicate WriterInv(s: State)
    requires s.ring.Valid()
  {
    && (s.owner == ByWriter <==> s.wpc.WTest? || s.wpc.WCopy? || s.wpc.WAdvance? || s.wpc.WSignal? || s.wpc.WUnlock?)
    && (s.wpc.WCopy? ==> s.ring.Holds(s.data, s.wpc.k))
    && (s.wpc.WAdvance? ==> s.ring.Holds(s.data, |s.data|))
  }

  /** The ring holds exactly what the atomic queue holds after the same history. */
  ghost predicate Inv(s: State) {
    && s.ring.Valid()
    && ReaderInv(s)
    && WriterInv(s)
    && (s.owner == ByClearer <==> s.cpc.CClear? || s.cpc.CUnlock?)
    && Replay(s.log) == Holding(s.ring.Contents())
  }

  lemma ReaderKeepsInv(s: State)
    requires Inv(s) && ReaderEnabled(s)
    ensures Inv(DoReader(s))
  {
    var t := DoReader(s);
    match s.rpc
    case RCopy =>
      if |s.out| < s.size {
        var c := s.ring.Contents();
        assert t.out == c[..|s.out|] + [c[|s.out|]];
        assert t.out == c[..|t.out|];
      } else {
        assert s.out == s.ring.Contents()[..s.size];
      }
    case RAdvance =>
      ReadDrops(s.ring, s.size);
      ReplayAppend(s.log, Took(s.out));
    case _ =>
  }

  lemma WriterKeepsInv(s: State)
    requires Inv(s) && WriterEnabled(s)
    ensures Inv(DoWriter(s))
  {
    match s.wpc
    case WCopy(k) =>
      if k < |s.data| {
        StoreKeepsContents(s.ring, k, s.data[k]);
        StoreExtends(s.ring, s.data, k);
      }
    case WAdvance =>
      WriteAppends(s.ring, s.data);
      ReplayAppend(s.log, Wrote(s.data));
    case _ =>
  }

  lemma ClearerKeepsInv(s: State)
    requires Inv(s) && Enabled(s, ClearerStep)
    ensures Inv(DoClearer(s))
  {
    if s.cpc.CClear? {
      ReplayAppend(s.log, Cleared);
    }
  }

  lemma StepKeepsInv(s: State, a: Action)
    requires Inv(s) && Enabled(s, a)
    ensures Inv(Do(s, a))
  {
    match a
    case ReaderStep => ReaderKeepsInv(s);
    case WriterStep => WriterKeepsInv(s);
    case ClearerStep => ClearerKeepsInv(s);
    case _ =>
  }

  lemma {:induction false} RunKeepsInv(s: State, acts: seq<Action>, t: State)
    requires Inv(s) && Run(s, acts, t)
    ensures Inv(t)
    decreases |acts|
  {
    if acts != [] {
      StepKeepsInv(s, acts[0]);
      RunKeepsInv(Do(s, acts[0]), acts[1..], t);
    }
  }

  /** Under every interleaving of a reader, a writer and clears, the completed
      critical sections are a history of an atomic byte queue, and what that queue
      holds is what the ring holds. */
  lemma {:induction false} EveryRunIsAnAtomicQueue(s: State, acts: seq<Action>, t: State)
    requires Init(s) && Run(s, acts, t)
    ensures t.ring.Valid()
    ensures Replay(t.log) == Holding(t.ring.Contents())
  {
    assert Inv(s);
    RunKeepsInv(s, acts, t);
  }

  /** Every copy in progress stays inside the doubled window and inside the part
      the count allowed: the guards written into DoReader and DoWriter to keep
      them total always hold. */
  lemma {:induction false} CopiesStayPermitted(s: State, acts: seq<Action>, t: State)
    requires Init(s) && Run(s, acts, t)
    ensures t.ring.Valid() && t.ring.write < 2 * |t.ring.cells|
    ensures t.rpc.RCopy? || t.rpc.RAdvance? ==>
      t.size <= t.ring.Count() && t.wpc !in {WTest, WAdvance, WSignal} && !t.wpc.WCopy?
    ensures t.rpc.RCopy? && |t.out| < t.size ==> t.ring.read + |t.out| < 2 * |t.ring.cells|
    ensures t.wpc.WCopy? || t.wpc.WAdvance? ==>
      |t.data| <= t.ring.Free() && t.ring.write + |t.data| <= 2 * |t.ring.cells|
  {
    assert Inv(s);
    RunKeepsInv(s, acts, t);
  }

  // ----- every call takes effect once -----

  /** The sizes asked for by the calls of read_buffer. */
  function Asked(acts: seq<Action>): seq<nat> {
    if acts == [] then [] else (if acts[0].StartRead? then [acts[0].n] else []) + Asked(acts[1..])
  }

  /** The blocks handed over by the calls of write_buffer. */
  function Offered(acts: seq<Action>): seq<seq<byte>> {
    if acts == [] then [] else (if acts[0].StartWrite? then [acts[0].d] else []) + Offered(acts[1..])
  }

  function TakenSizes(log: seq<Event>): seq<nat> {
    if log == [] then []
    else
      var e := log[|log| - 1];
      TakenSizes(log[..|log| - 1]) + if e.Took? then [|e.data|] else []
  }

  function WrittenBlocks(log: seq<Event>): seq<seq<byte>> {
    if log == [] then []
    else
      var e := log[|log| - 1];
      WrittenBlocks(log[..|log| - 1]) + if e.Wrote? then [e.data] else []
  }

  /** The call under way that has had no effect yet. */
  function StillAsked(s: State): seq<nat> {
    if s.rpc in {RIdle, RSignal, RUnlock(true)} then [] else [s.size]
  }

  function StillOffered(s: State): seq<seq<byte>> {
    if s.wpc in {WIdle, WSignal, WUnlock(true)} then [] else [s.data]
  }

  /** The calls accounted for: those that took effect and the one under way. */
  function Reads(s: State): seq<nat> {
    TakenSizes(s.log) + StillAsked(s)
  }

  function Writes(s: State): seq<seq<byte>> {
    WrittenBlocks(s.log) + StillOffered(s)
  }

  lemma {:induction false} LogOneMore(log: seq<Event>, e: Event)
    ensures TakenSizes(log + [e]) == TakenSizes(log) + if e.Took? then [|e.data|] else []
    ensures WrittenBlocks(log + [e]) == WrittenBlocks(log) + if e.Wrote? then [e.data] else []
  {
    assert (log + [e])[..|log|] == log;
  }

  lemma ReaderKeepsCalls(s: State)
    requires Inv(s) && ReaderEnabled(s)
    ensures Reads(DoReader(s)) == Reads(s) && Writes(DoReader(s)) == Writes(s) && DoReader(s) != s
  {
    hide TakenSizes, WrittenBlocks, Replay;
    if s.rpc == RAdvance {
      LogOneMore(s.log, Took(s.out));
    }
  }

  lemma WriterKeepsCalls(s: State)
    requires Inv(s) && WriterEnabled(s)
    ensures Reads(DoWriter(s)) == Reads(s) && Writes(DoWriter(s)) == Writes(s) && DoWriter(s) != s
  {
    hide TakenSizes, WrittenBlocks, Replay;
    if s.wpc == WAdvance {
      LogOneMore(s.log, Wrote(s.data));
    }
  }

  lemma ClearerKeepsCalls(s: State)
    requires Enabled(s, ClearerStep)
    ensures Reads(DoClearer(s)) == Reads(s) && Writes(DoClearer(s)) == Writes(s) && DoClearer(s) != s
  {
    hide TakenSizes, WrittenBlocks;
    LogOneMore(s.log, Cleared);
  }

  lemma StepKeepsCalls(s: State, a: Action)
    requires Inv(s) && Enabled(s, a)
    ensures Reads(Do(s, a)) == Reads(s) + if a.StartRead? then [a.n] else []
    ensures Writes(Do(s, a)) == Writes(s) + if a.StartWrite? then [a.d] else []
    ensures Do(s, a) != s
  {
    hide TakenSizes, WrittenBlocks, Inv, DoReader, DoWriter, DoClearer;
    match a
    case ReaderStep => ReaderKeepsCalls(s);
    case WriterStep => WriterKeepsCalls(s);
    case ClearerStep => ClearerKeepsCalls(s);
    case _ =>
  }

  lemma {:induction false} RunKeepsCalls(s: State, acts: seq<Action>, t: State)
    requires Inv(s) && Run(s, acts, t)
    ensures Reads(t) == Reads(s) + Asked(acts) && Writes(t) == Writes(s) + Offered(acts)
    decreases |acts|
  {
    hide Inv, Reads, Writes, Do, Enabled;
    if acts != [] {
      var u := Do(s, acts[0]);
      StepKeepsInv(s, acts[0]);
      StepKeepsCalls(s, acts[0]);
      RunKeepsCalls(u, acts[1..], t);
      var n, d := if acts[0].StartRead? then [acts[0].n] else [], if acts[0].StartWrite? then [acts[0].d] else [];
      assert Reads(t) == Reads(s) + n + Asked(acts[1..]) && Writes(t) == Writes(s) + d + Offered(acts[1..]);
    }
  }

  /** Every call takes effect exactly once before it returns, in the order of the calls:
      a read with the size it asked for, a write with its whole block. */
  lemma {:induction false} EveryCallTakesEffectOnce(s: State, acts: seq<Action>, t: State)
    requires Init(s) && Run(s, acts, t)
    ensures Asked(acts) == TakenSizes(t.log) + StillAsked(t)
    ensures Offered(acts) == WrittenBlocks(t.log) + StillOffered(t)
  {
    assert Inv(s);
    RunKeepsCalls(s, acts, t);
    assert Reads(s) == [] && Writes(s) == [];
  }

  /** No step that can be taken leaves everything as it was. */
  lemma {:induction false} EveryStepMoves(s: State, acts: seq<Action>, t: State, a: Action)
    requires Init(s) && Run(s, acts, t) && t.ring.Valid() && Enabled(t, a)
    ensures Do(t, a) != t
  {
    assert Inv(s);
    RunKeepsInv(s, acts, t);
    StepKeepsCalls(t, a);
  }

  // ----- what an atomic history means for the byte stream -----

  /** All bytes written since the last clear. */
  function WrittenSinceClear(log: seq<Event>): seq<byte> {
    if log == [] then []
    else
      var before := WrittenSinceClear(log[..|log| - 1]);
      match log[|log| - 1]
      case Wrote(d) => before + d
      case Took(_) => before
      case Cleared => []
  }

  /** All bytes read since the last clear. */
  function TakenSinceClear(log: seq<Event>): seq<byte> {
    if log == [] then []
    else
      var before := TakenSinceClear(log[..|log| - 1]);
      match log[|log| - 1]
      case Wrote(_) => before
      case Took(d) => before + d
      case Cleared => []
  }

  /** In a legal history what was read, followed by what is still queued, is what
      was written since the last clear. */
  lemma {:induction false} TakenThenQueuedIsWritten(log: seq<Event>)
    requires Replay(log).Holding?
    ensures WrittenSinceClear(log) == TakenSinceClear(log) + Replay(log).bytes
  {
    if log != [] {
      var before := log[..|log| - 1];
      TakenThenQueuedIsWritten(before);
      match log[|log| - 1]
      case Took(d) =>
        var b := Replay(before).bytes;
        assert b == d + b[|d|..];
      case _ =>
    }
  }

  lemma {:induction false} LegalPrefix(log: seq<Event>, n: nat)
    requires n <= |log| && Replay(log).Holding?
    ensures Replay(log[..n]).Holding?
    decreases |log|
  {
    if n < |log| {
      LegalPrefix(log[..|log| - 1], n);
      assert log[..|log| - 1][..n] == log[..n];
    } else {
      assert log[..n] == log;
    }
  }

  ghost predicate BlocksOf(log: seq<Event>, block: nat)
    requires block > 0
  {
    && (forall i :: 0 <= i < |log| && log[i].Wrote? ==> |log[i].data| % block == 0)
    && (forall i :: 0 <= i < |log| && log[i].Took? ==> |log[i].data| % block == 0)
  }

  lemma SumOfBlocks(a: nat, b: nat, block: nat)
    requires block > 0 && (a == 0 || a % block == 0) && (b == 0 || b % block == 0)
    ensures (a + b) % block == 0
  {
    var p, q := a / block, b / block;
    assert a + b == (p + q) * block;
    MultipleMod(p + q, block);
  }

  lemma {:induction false} TakenLength(log: seq<Event>)
    requires log != []
    ensures
      |TakenSinceClear(log)|
      == match log[|log| - 1]
         case Wrote(_) => |TakenSinceClear(log[..|log| - 1])|
         case Took(d) => |TakenSinceClear(log[..|log| - 1])| + |d|
         case Cleared => 0
  {
  }

  lemma BlocksBefore(log: seq<Event>, block: nat)
    requires block > 0 && log != [] && BlocksOf(log, block)
    ensures BlocksOf(log[..|log| - 1], block)
    ensures log[|log| - 1].Took? ==> |log[|log| - 1].data| % block == 0
  {
  }

  lemma {:induction false} TakenStaysAligned(log: seq<Event>, block: nat)
    requires block > 0 && BlocksOf(log, block)
    ensures |TakenSinceClear(log)| % block == 0
  {
    if log == [] {
      SumOfBlocks(0, 0, block);
    } else {
      TakenLength(log);
      BlocksBefore(log, block);
      hide BlocksOf, TakenSinceClear;
      var before := log[..|log| - 1];
      TakenStaysAligned(before, block);
      match log[|log| - 1]
      case Took(d) => SumOfBlocks(|TakenSinceClear(before)|, |d|, block);
      case Wrote(_) =>
      case Cleared => SumOfBlocks(0, 0, block);
    }
  }

  /** Each completed read of any run returns whole contiguous bytes of the writer's
      stream, directly following the previous read since the last clear; when all
      blocks are multiples of a frame size, it starts on a frame boundary. */
  lemma {:induction false} ReadsFollowTheStream(s: State, acts: seq<Action>, t: State, i: nat, frame: nat)
    requires Init(s) && Run(s, acts, t)
    requires i < |t.log| && t.log[i].Took?
    requires frame > 0
    ensures TakenSinceClear(t.log[..i]) + t.log[i].data <= WrittenSinceClear(t.log[..i])
    ensures TakenSinceClear(t.log[..i + 1]) == TakenSinceClear(t.log[..i]) + t.log[i].data
    ensures BlocksOf(t.log, frame) ==> |TakenSinceClear(t.log[..i])| % frame == 0
  {
    EveryRunIsAnAtomicQueue(s, acts, t);
    var upTo := t.log[..i + 1];
    assert upTo[..i] == t.log[..i];
    LegalPrefix(t.log, i + 1);
    TakenThenQueuedIsWritten(upTo);
    if BlocksOf(t.log, frame) { TakenStaysAligned(t.log[..i], frame); }
  }

  // ----- progress -----

  /** One reader of block size r and one writer of block size w, no clears. */
  predicate FixedBlocks(acts: seq<Action>, r: nat, w: nat) {
    forall i :: 0 <= i < |acts| ==>
      match acts[i]
      case StartRead(n) => n == r
      case StartWrite(d) => |d| == w
      case StartClear => false
      case ClearerStep => false
      case _ => true
  }

  ghost predicate AwakeInv(s: State, r: nat, w: nat, g: nat)
    requires g > 0
  {
    && Inv(s) && s.cpc == CIdle
    && (s.rpc != RIdle ==> s.size == r)
    && (s.wpc != WIdle ==> |s.data| == w)
    && (s.rpc == RWait ==> s.ring.Count() < r || s.wpc == WSignal)
    && (s.wpc == WWait ==> s.ring.Free() < w || s.rpc == RSignal)
    && s.ring.Count() % g == 0
  }

  lemma DifferenceOfBlocks(a: nat, b: nat, g: nat)
    requires g > 0 && b <= a && a % g == 0 && b % g == 0
    ensures (a - b) % g == 0
  {
    var p, q := a / g, b / g;
    assert a - b == (p - q) * g;
    assert p >= q;
    MultipleMod(p - q, g);
  }

  lemma ReaderKeepsAwakeInv(s: State, r: nat, w: nat, g: nat)
    requires g > 0 && r % g == 0
    requires AwakeInv(s, r, w, g) && ReaderEnabled(s) && Inv(DoReader(s))
    ensures AwakeInv(DoReader(s), r, w, g)
  {
    if s.rpc == RAdvance {
      DifferenceOfBlocks(s.ring.Count(), r, g);
    }
  }

  lemma WriterKeepsAwakeInv(s: State, r: nat, w: nat, g: nat)
    requires g > 0 && w % g == 0
    requires AwakeInv(s, r, w, g) && WriterEnabled(s) && Inv(DoWriter(s))
    ensures AwakeInv(DoWriter(s), r, w, g)
  {
    if s.wpc == WAdvance {
      SumOfBlocks(s.ring.Count(), w, g);
    }
  }

  lemma StepKeepsAwakeInv(s: State, a: Action, r: nat, w: nat, g: nat)
    requires g > 0 && r % g == 0 && w % g == 0
    requires AwakeInv(s, r, w, g) && Enabled(s, a) && FixedBlocks([a], r, w)
    ensures AwakeInv(Do(s, a), r, w, g)
  {
    StepKeepsInv(s, a);
    assert [a][0] == a;
    match a
    case ReaderStep => ReaderKeepsAwakeInv(s, r, w, g);
    case WriterStep => WriterKeepsAwakeInv(s, r, w, g);
    case _ =>
  }

  lemma {:induction false} RunKeepsAwakeInv(s: State, acts: seq<Action>, t: State, r: nat, w: nat, g: nat)
    requires g > 0 && r % g == 0 && w % g == 0
    requires AwakeInv(s, r, w, g) && Run(s, acts, t) && FixedBlocks(acts, r, w)
    ensures AwakeInv(t, r, w, g)
    ensures |t.ring.cells| == |s.ring.cells|
    decreases |acts|
  {
    if acts != [] {
      FirstAndRest(acts, r, w);
      StepKeepsAwakeInv(s, acts[0], r, w, g);
      StepKeepsCapacity(s, acts[0]);
      hide AwakeInv, FixedBlocks, Do;
      RunKeepsAwakeInv(Do(s, acts[0]), acts[1..], t, r, w, g);
    }
  }

  lemma FirstAndRest(acts: seq<Action>, r: nat, w: nat)
    requires acts != [] && FixedBlocks(acts, r, w)
    ensures FixedBlocks([acts[0]], r, w) && FixedBlocks(acts[1..], r, w)
  {
  }

  lemma StepKeepsCapacity(s: State, a: Action)
    requires s.ring.Valid() && Enabled(s, a)
    ensures |Do(s, a).ring.cells| == |s.ring.cells|
  {
  }

  lemma NoMultipleBetween(count: nat, r: nat, g: nat)
    requires g > 0 && count % g == 0 && r % g == 0 && count < r
    ensures count + g <= r
  {
    DifferenceOfBlocks(r, count, g);
  }

  /** Without clears no reachable state has both threads asleep and unsignalled, as
      long as r + w exceeds the capacity by no more than a common divisor of the two
      block sizes; and no thread sleeps through the condition it waits for. */
  lemma {:induction false} NoLostWakeup(s: State, acts: seq<Action>, t: State, r: nat, w: nat, g: nat)
    requires Init(s) && Run(s, acts, t) && FixedBlocks(acts, r, w)
    requires g > 0 && r % g == 0 && w % g == 0 && r + w <= |s.ring.cells| + g
    ensures !(t.rpc == RWait && t.wpc == WWait)
    ensures t.ring.Valid()
    ensures t.rpc == RWait && t.wpc != WSignal ==> t.ring.Count() < r
    ensures t.wpc == WWait && t.rpc != RSignal ==> t.ring.Free() < w
    ensures ReaderEnabled(t) || WriterEnabled(t) || t.rpc == RIdle || t.wpc == WIdle
  {
    assert Inv(s);
    RunKeepsAwakeInv(s, acts, t, r, w, g);
    if t.rpc == RWait && t.wpc == WWait {
      NoMultipleBetween(t.ring.Count(), r, g);
      assert false;
    }
  }
}
