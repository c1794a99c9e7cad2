/** Where the progress of the audio queues ends: exactly which block sizes, with and
    without clears, can put reader and writer to sleep for good. */
module AudioProgress {
  import opened Bytes
  import opened Divisors
  import opened RingBuffer
  import opened AudioQueue

  // ----- building runs -----

  /** One reader of block size r, one writer of block size w, and any clears. */
  predicate Blocks(acts: seq<Action>, r: nat, w: nat) {
    forall i :: 0 <= i < |acts| ==>
      match acts[i]
      case StartRead(n) => n == r
      case StartWrite(d) => |d| == w
      case _ => true
  }

  function Clears(acts: seq<Action>): nat {
    if acts == [] then 0 else (if acts[0] == StartClear then 1 else 0) + Clears(acts[1..])
  }

  /** Some run with these blocks and c clears leads from s to t. */
  ghost predicate Leads(s: State, t: State, r: nat, w: nat, c: nat) {
    exists acts ::
      Run(s, acts, t) && Blocks(acts, r, w) && Clears(acts) == c && (c == 0 ==> FixedBlocks(acts, r, w))
  }

  lemma {:induction false} AppendOne(s: State, acts: seq<Action>, t: State, a: Action)
    requires Run(s, acts, t) && t.ring.Valid() && Enabled(t, a)
    ensures Run(s, acts + [a], Do(t, a))
    ensures Clears(acts + [a]) == Clears(acts) + if a == StartClear then 1 else 0
    decreases |acts|
  {
    if acts == [] {
      assert (acts + [a])[1..] == [];
    } else {
      assert (acts + [a])[1..] == acts[1..] + [a];
      AppendOne(Do(s, acts[0]), acts[1..], t, a);
    }
  }

  /** One more step at the end of a run. */
  lemma Extend(s: State, t: State, a: Action, r: nat, w: nat, c: nat) returns (t': State)
    requires Leads(s, t, r, w, c) && t.ring.Valid() && Enabled(t, a) && Blocks([a], r, w)
    requires a == ClearerStep ==> c > 0
    ensures t' == Do(t, a) && Leads(s, t', r, w, if a == StartClear then c + 1 else c)
  {
    var acts :| Run(s, acts, t) && Blocks(acts, r, w) && Clears(acts) == c && (c == 0 ==> FixedBlocks(acts, r, w));
    t' := Do(t, a);
    AppendOne(s, acts, t, a);
    assert [a][0] == a;
    hide Run, Clears, Do;
    assert Blocks(acts + [a], r, w);
    assert c == 0 && a != StartClear ==> FixedBlocks(acts + [a], r, w);
  }

  lemma NoSteps(s: State, r: nat, w: nat)
    ensures Leads(s, s, r, w, 0)
  {
    assert Run(s, [], s) && Clears([]) == 0;
  }

  /** No thread is inside a call. */
  predicate Resting(s: State) {
    s.ring.Valid() && s == s.(owner := Nobody, rpc := RIdle, wpc := WIdle, cpc := CIdle)
  }

  // ----- whole calls -----

  lemma {:induction false} CopyIn(s: State, t: State, r: nat, w: nat, c: nat) returns (t': State)
    requires Leads(s, t, r, w, c) && t.ring.Valid() && t.wpc.WCopy? && t.wpc.k <= |t.data| <= t.ring.Free()
    ensures Leads(s, t', r, w, c) && |t'.ring.cells| == |t.ring.cells|
    ensures t' == t.(wpc := WAdvance, ring := t.ring.(cells := t'.ring.cells))
    decreases |t.data| - t.wpc.k
  {
    hide Leads;
    t' := Extend(s, t, WriterStep, r, w, c);
    if t.wpc.k < |t.data| {
      t' := CopyIn(s, t', r, w, c);
    }
  }

  lemma {:induction false} CopyOut(s: State, t: State, r: nat, w: nat, c: nat) returns (t': State)
    requires Leads(s, t, r, w, c) && t.ring.Valid() && t.rpc == RCopy && |t.out| <= t.size <= t.ring.Count()
    ensures Leads(s, t', r, w, c) && t' == t.(rpc := RAdvance, out := t'.out)
    decreases t.size - |t.out|
  {
    hide Leads;
    t' := Extend(s, t, ReaderStep, r, w, c);
    if |t.out| < t.size {
      t' := CopyOut(s, t', r, w, c);
    }
  }

  /** The first steps of a call of write_buffer. */
  lemma WriterTests(s: State, t: State, r: nat, d: seq<byte>, c: nat) returns (u: State)
    requires Leads(s, t, r, |d|, c) && Resting(t)
    ensures Leads(s, u, r, |d|, c)
    ensures u == if t.ring.Free() >= |d| then t.(wpc := WCopy(0), data := d, owner := ByWriter)
                 else t.(wpc := WWait, data := d)
  {
    hide Leads;
    u := Extend(s, t, StartWrite(d), r, |d|, c);
    u := Extend(s, u, WriterStep, r, |d|, c);
    u := Extend(s, u, WriterStep, r, |d|, c);
  }

  /** A call that finds room appends its block and returns. */
  lemma WriteBlock(s: State, t: State, r: nat, d: seq<byte>, c: nat) returns (u: State)
    requires Leads(s, t, r, |d|, c) && Resting(t) && |d| <= t.ring.Free()
    ensures Leads(s, u, r, |d|, c) && Resting(u)
    ensures u.ring.Count() == t.ring.Count() + |d| && |u.ring.cells| == |t.ring.cells|
  {
    hide Leads;
    u := WriterTests(s, t, r, d, c);
    u := CopyIn(s, u, r, |d|, c);
    u := Extend(s, u, WriterStep, r, |d|, c);
    u := Extend(s, u, WriterStep, r, |d|, c);
    u := Extend(s, u, WriterStep, r, |d|, c);
  }

  /** The first steps of a call of read_buffer; the writer may be asleep. */
  lemma ReaderTests(s: State, t: State, r: nat, w: nat, c: nat) returns (u: State)
    requires Leads(s, t, r, w, c) && t.ring.Valid() && t.owner == Nobody && t.rpc == RIdle
    ensures Leads(s, u, r, w, c)
    ensures u == if t.ring.Count() >= r then t.(rpc := RCopy, size := r, out := [], owner := ByReader)
                 else t.(rpc := RWait, size := r)
  {
    hide Leads;
    u := Extend(s, t, StartRead(r), r, w, c);
    u := Extend(s, u, ReaderStep, r, w, c);
    u := Extend(s, u, ReaderStep, r, w, c);
  }

  lemma ReadBlock(s: State, t: State, r: nat, w: nat, c: nat) returns (u: State)
    requires Leads(s, t, r, w, c) && Resting(t) && r <= t.ring.Count()
    ensures Leads(s, u, r, w, c) && Resting(u)
    ensures u.ring.Count() == t.ring.Count() - r && |u.ring.cells| == |t.ring.cells|
  {
    hide Leads;
    u := ReaderTests(s, t, r, w, c);
    u := CopyOut(s, u, r, w, c);
    u := Extend(s, u, ReaderStep, r, w, c);
    u := Extend(s, u, ReaderStep, r, w, c);
    u := Extend(s, u, ReaderStep, r, w, c);
  }

  /** A whole call of clear_buffer; the writer may be asleep, and stays so. */
  lemma ClearOnce(s: State, t: State, r: nat, w: nat, c: nat) returns (u: State)
    requires Leads(s, t, r, w, c) && t.ring.Valid() && t.owner == Nobody && t.cpc == CIdle
    ensures Leads(s, u, r, w, c + 1) && u == t.(ring := t.ring.Clear(), log := t.log + [Cleared])
  {
    hide Leads;
    u := Extend(s, t, StartClear, r, w, c);
    u := Extend(s, u, ClearerStep, r, w, c + 1);
    u := Extend(s, u, ClearerStep, r, w, c + 1);
    u := Extend(s, u, ClearerStep, r, w, c + 1);
  }

  // ----- with clears -----

  /** Blocks are written until the next one does not fit. */
  lemma {:induction false} FillUp(s: State, t: State, r: nat, d: seq<byte>, c: nat) returns (u: State)
    requires Leads(s, t, r, |d|, c) && Resting(t) && d != []
    ensures Leads(s, u, r, |d|, c) && Resting(u)
    ensures u.ring.Free() < |d| && |u.ring.cells| == |t.ring.cells|
    decreases t.ring.Free()
  {
    hide Leads;
    u := t;
    if t.ring.Free() >= |d| {
      u := WriteBlock(s, t, r, d, c);
      u := FillUp(s, u, r, d, c);
    }
  }

  /** clear_buffer does not signal. On a ring of any capacity, with any nonempty
      blocks, one clear can leave the writer asleep on an empty ring and the reader
      asleep waiting for it. */
  lemma ClearCanStrandBothThreads(s: State, r: nat, d: seq<byte>) returns (acts: seq<Action>, t: State)
    requires Init(s) && r > 0 && d != []
    ensures Run(s, acts, t) && Clears(acts) == 1 && Blocks(acts, r, |d|)
    ensures t.rpc == RWait && t.wpc == WWait && t.size == r && t.data == d
    ensures t.ring.Valid() && t.ring.Count() == 0 && |t.ring.cells| == |s.ring.cells|
  {
    NoSteps(s, r, |d|);
    t := FillUp(s, s, r, d, 0);
    t := WriterTests(s, t, r, d, 0);
    t := ClearOnce(s, t, r, |d|, 0);
    t := ReaderTests(s, t, r, |d|, 1);
    acts :| Run(s, acts, t) && Blocks(acts, r, |d|) && Clears(acts) == 1;
  }

  /** Only a thread whose block is not empty can sleep. */
  ghost predicate SleepInv(s: State, r: nat, w: nat) {
    && s.ring.Valid()
    && (s.rpc != RIdle ==> s.size == r) && (s.rpc == RWait ==> r > 0)
    && (s.wpc != WIdle ==> |s.data| == w) && (s.wpc == WWait ==> w > 0)
  }

  lemma {:induction false} RunKeepsSleepInv(s: State, acts: seq<Action>, t: State, r: nat, w: nat)
    requires Inv(s) && SleepInv(s, r, w) && Run(s, acts, t) && Blocks(acts, r, w)
    ensures SleepInv(t, r, w)
    decreases |acts|
  {
    if acts != [] {
      StepKeepsInv(s, acts[0]);
      StepKeepsSleepInv(s, acts[0], r, w);
      var u := Do(s, acts[0]);
      assert Blocks(acts[1..], r, w);
      hide Do, Inv, SleepInv, Blocks;
      RunKeepsSleepInv(u, acts[1..], t, r, w);
    }
  }

  lemma StepKeepsSleepInv(s: State, a: Action, r: nat, w: nat)
    requires Inv(s) && SleepInv(s, r, w) && Enabled(s, a) && Inv(Do(s, a))
    requires a.StartRead? ==> a.n == r
    requires a.StartWrite? ==> |a.d| == w
    ensures SleepInv(Do(s, a), r, w)
  {
  }

  /** With clears, both threads can end up asleep exactly if neither block is empty,
      whatever the capacity. */
  lemma {:induction false} StrandedExactly(s: State, r: nat, w: nat)
    requires Init(s)
    ensures
      (exists acts, t :: Run(s, acts, t) && Blocks(acts, r, w) && t.rpc == RWait && t.wpc == WWait)
      <==> r > 0 && w > 0
  {
    if r > 0 && w > 0 {
      var acts, t := ClearCanStrandBothThreads(s, r, seq(w, _ => 0));
    }
    forall acts, t | Run(s, acts, t) && Blocks(acts, r, w) && t.rpc == RWait && t.wpc == WWait
      ensures r > 0 && w > 0
    {
      RunKeepsSleepInv(s, acts, t, r, w);
    }
  }

  // ----- without clears -----

  /** The next multiple of w modulo m. */
  lemma NextMultiple(k: nat, w: nat, m: nat, c: int)
    requires m > 0 && w <= m && c == k * w % m
    ensures (k + 1) * w % m == if c + w < m then c + w else c + w - m
  {
    var q := k * w / m;
    assert (k + 1) * w == m * q + c + w;
    if c + w < m {
      DivModUnique((k + 1) * w, m, q, c + w);
    } else {
      assert m * q + c + w == m * (q + 1) + (c + w - m);
      DivModUnique((k + 1) * w, m, q + 1, c + w - m);
    }
  }

  lemma CombinationOfSum(r: int, w: int, x: int, y: int)
    ensures w * (x - y - 1) == r - (r * x + w * y) + (r + w) * (x - 1)
  {
    assert w * (x - y - 1) == w * x - w * y - w;
    assert (r + w) * (x - 1) == r * x + w * x - r - w;
  }

  lemma ReduceFactor(w: int, m: int, q: int, k: int, e: int, t: int)
    requires w * (m * q + k) == e + m * t
    ensures k * w == m * (t - w * q) + e
  {
    assert w * (m * q + k) == m * (w * q) + k * w;
    assert m * (t - w * q) == m * t - m * (w * q);
  }

  /** A factor of any sign can be taken modulo m. */
  lemma FactorModulo(w: int, m: nat, j: int, e: nat, t: int) returns (k: nat)
    requires e < m && w * j == e + m * t
    ensures k * w % m == e
  {
    var q := j / m;
    k := j % m;
    assert j == m * q + k;
    ReduceFactor(w, m, q, k, e, t);
    DivModUnique(k * w, m, t - w * q, e);
  }

  /** Some multiple of w is r - gcd(r, w) modulo r + w. */
  lemma ReachesLastMultiple(r: nat, w: nat) returns (k: nat)
    requires r > 0
    ensures 0 < Gcd(r, w) <= r && k * w % (r + w) == r - Gcd(r, w)
  {
    GcdDivides(r, w);
    GcdAtMost(r, w);
    var x, y := Bezout(r, w);
    hide Gcd;
    CombinationOfSum(r, w, x, y);
    k := FactorModulo(w, r + w, x - y - 1, r - Gcd(r, w), x - 1);
  }

  /** No read and no write of these blocks is possible. */
  predicate Stuck(ring: Ring, r: nat, w: nat)
    requires ring.Valid()
  {
    ring.Free() < w && ring.Count() < r
  }

  /** If reads and writes are never both possible, what is queued runs through the
      multiples of w modulo r + w until neither is. */
  lemma {:induction false} RunsDry(s: State, t: State, r: nat, d: seq<byte>, k: nat, last: nat) returns (u: State)
    requires Leads(s, t, r, |d|, 0) && Resting(t) && r + |d| > |t.ring.cells| && k <= last
    requires t.ring.Count() == k * |d| % (r + |d|)
    requires |t.ring.cells| - |d| < last * |d| % (r + |d|) < r
    ensures Leads(s, u, r, |d|, 0) && Resting(u)
    ensures |u.ring.cells| == |t.ring.cells| && Stuck(u.ring, r, |d|)
    decreases last - k
  {
    hide Leads;
    u := t;
    if !Stuck(t.ring, r, |d|) {
      NextMultiple(k, |d|, r + |d|, t.ring.Count());
      if |d| <= t.ring.Free() {
        u := WriteBlock(s, t, r, d, 0);
      } else {
        u := ReadBlock(s, t, r, |d|, 0);
      }
      u := RunsDry(s, u, r, d, k + 1, last);
    }
  }

  /** Beyond the bound of NoLostWakeup a run without clears puts both to sleep. */
  lemma BothFallAsleep(s: State, r: nat, w: nat) returns (acts: seq<Action>, t: State)
    requires Init(s) && r + w > |s.ring.cells| + Gcd(r, w)
    ensures Run(s, acts, t) && FixedBlocks(acts, r, w) && t.rpc == RWait && t.wpc == WWait
  {
    if r == 0 {
      GcdOfNothing(w);
    }
    var d: seq<byte> := seq(w, _ => 0);
    var last := ReachesLastMultiple(r, w);
    DivModUnique(0, r + w, 0, 0);
    NoSteps(s, r, w);
    t := RunsDry(s, s, r, d, 0, last);
    t := WriterTests(s, t, r, d, 0);
    t := ReaderTests(s, t, r, w, 0);
    acts :| Run(s, acts, t) && FixedBlocks(acts, r, w);
  }

  lemma {:induction false} GcdOfNothing(w: nat)
    ensures Gcd(0, w) == w
  {
    if w > 0 {
      DivModUnique(0, w, 0, 0);
    }
  }

  lemma {:induction false} NeverBothAsleep(s: State, acts: seq<Action>, t: State, r: nat, w: nat)
    requires Init(s) && r + w <= |s.ring.cells| + Gcd(r, w) && Run(s, acts, t) && FixedBlocks(acts, r, w)
    ensures !(t.rpc == RWait && t.wpc == WWait)
  {
    hide Run, FixedBlocks, Init;
    if r + w == 0 {
      NoLostWakeup(s, acts, t, r, w, 1);
    } else {
      GcdDivides(r, w);
      hide Gcd;
      NoLostWakeup(s, acts, t, r, w, Gcd(r, w));
    }
  }

  /** Without clears, both threads can end up asleep exactly if the blocks together
      exceed the capacity by more than their greatest common divisor. */
  lemma {:induction false} DeadlockExactly(s: State, r: nat, w: nat)
    requires Init(s)
    ensures
      (exists acts, t :: Run(s, acts, t) && FixedBlocks(acts, r, w) && t.rpc == RWait && t.wpc == WWait)
      <==> r + w > |s.ring.cells| + Gcd(r, w)
  {
    hide Gcd, Run, FixedBlocks, Init;
    if r + w > |s.ring.cells| + Gcd(r, w) {
      var acts, t := BothFallAsleep(s, r, w);
    } else {
      forall acts, t | Run(s, acts, t) && FixedBlocks(acts, r, w)
        ensures !(t.rpc == RWait && t.wpc == WWait)
      {
        NeverBothAsleep(s, acts, t, r, w);
      }
    }
  }
}
