/** What an answer of radio_cmd means: how often its caller has looked at the flag, and
    what it found. */
module CallAnswers {
  import opened Bytes
  import opened CommandChannel
  import opened Wrappers

  /** A look at response_available: down and slept over, down, or up. */
  datatype Look = Slept | Down | Up

  /** The looks of a caller in its present call, or its last one, after one more step. */
  function Looked<S>(s: Channel<S>, a: Action, t: Channel<S>, i: nat, looks: seq<Look>): seq<Look>
    requires i < |s.clients| == |t.clients|
  {
    if a.Call? && a.i == i then []
    else if a == ClientStep(i) && (s.clients[i].pc.Polling? || s.clients[i].pc.Deciding?) then
      looks + [if s.available then Up else if t.clients[i].pc.Polling? then Slept else Down]
    else looks
  }

  lemma ClientsStay<S>(s: Channel<S>, i: nat)
    requires |s.command| == 5 && |s.response| == 5 && Enabled(s, ClientStep(i))
    ensures |DoClient(s, i).clients| == |s.clients|
  {
  }

  lemma ControllerLeavesClients<S>(s: Channel<S>, process: Processor<S>)
    requires |s.command| == 5 && |s.response| == 5 && Enabled(s, ControllerStep)
    ensures DoController(s, process).clients == s.clients
    ensures s.available ==> DoController(s, process).available
  {
  }

  lemma SameClients<S>(s: Channel<S>, a: Action, process: Processor<S>)
    requires |s.command| == 5 && |s.response| == 5 && Enabled(s, a)
    ensures |Do(s, a, process).clients| == |s.clients|
  {
    hide DoClient, DoController;
    match a
    case ClientStep(i) => ClientsStay(s, i);
    case ControllerStep => ControllerLeavesClients(s, process);
    case _ =>
  }

  function Looks<S>(s: Channel<S>, acts: seq<Action>, i: nat, looks: seq<Look>, process: Processor<S>): seq<Look>
    requires i < |s.clients|
    decreases |acts|
  {
    if acts == [] || |s.command| != 5 || |s.response| != 5 || !Enabled(s, acts[0]) then looks
    else
      SameClients(s, acts[0], process);
      var t := Do(s, acts[0], process);
      Looks(t, acts[1..], i, Looked(s, acts[0], t, i, looks), process)
  }

  function Sleeps(n: nat): seq<Look> {
    seq(n, _ => Slept)
  }

  /** The fifth byte asks for a reset. */
  predicate IsReset(cmd: seq<byte>) {
    |cmd| == 5 && cmd[4] == 0x26
  }

  /** At most thirty sleeps, and the flag up at the last look. */
  ghost predicate FoundUp(looks: seq<Look>) {
    (exists n: nat :: n <= 30 && looks == Sleeps(n) + [Up, Up]) || looks == Sleeps(30) + [Down, Up]
  }

  ghost predicate LooksInv<S>(s: Channel<S>, i: nat, looks: seq<Look>)
    requires i < |s.clients|
  {
    var c := s.clients[i];
    match c.pc
    case Idle => true
    case Polling(k) => k <= 30 && looks == Sleeps(k) && !IsReset(c.cmd)
    case Deciding =>
      && !IsReset(c.cmd)
      && (looks == Sleeps(30) + [Down] || (s.available && exists n: nat :: n <= 30 && looks == Sleeps(n) + [Up]))
    case Fetching(_) => FoundUp(looks) && !IsReset(c.cmd)
    case TakeFlag(_) => FoundUp(looks) && !IsReset(c.cmd)
    case Release(ok, _) =>
      if ok then FoundUp(looks) && !IsReset(c.cmd)
      else if IsReset(c.cmd) then looks == []
      else looks == Sleeps(30) + [Down, Down]
    case _ => looks == []
  }

  // ----- one step -----

  lemma {:induction false} PollKeepsLooks<S>(s: Channel<S>, i: nat, looks: seq<Look>)
    requires LockInv(s) && Enabled(s, ClientStep(i)) && LooksInv(s, i, looks) && s.clients[i].pc.Polling?
    ensures |DoClient(s, i).clients| == |s.clients|
    ensures LooksInv(DoClient(s, i), i, Looked(s, ClientStep(i), DoClient(s, i), i, looks))
  {
    var k := s.clients[i].pc.tries;
    assert Sleeps(k) + [Slept] == Sleeps(k + 1);
    assert DoClient(s, i).clients[i].pc == (if !s.available && k < 30 then Polling(k + 1) else Deciding);
  }

  lemma {:induction false} DecideKeepsLooks<S>(s: Channel<S>, i: nat, looks: seq<Look>)
    requires LockInv(s) && Enabled(s, ClientStep(i)) && LooksInv(s, i, looks) && s.clients[i].pc == Deciding
    ensures |DoClient(s, i).clients| == |s.clients|
    ensures LooksInv(DoClient(s, i), i, Looked(s, ClientStep(i), DoClient(s, i), i, looks))
  {
    var after := Looked(s, ClientStep(i), DoClient(s, i), i, looks);
    if !s.available {
      assert after == Sleeps(30) + [Down, Down];
    } else if looks == Sleeps(30) + [Down] {
      assert after == Sleeps(30) + [Down, Up];
    } else {
      var n: nat :| n <= 30 && looks == Sleeps(n) + [Up];
      assert after == Sleeps(n) + [Up, Up];
    }
  }

  lemma {:induction false} OwnStepKeepsLooks<S>(s: Channel<S>, i: nat, looks: seq<Look>)
    requires LockInv(s) && Enabled(s, ClientStep(i)) && LooksInv(s, i, looks)
    ensures |DoClient(s, i).clients| == |s.clients|
    ensures LooksInv(DoClient(s, i), i, Looked(s, ClientStep(i), DoClient(s, i), i, looks))
  {
    match s.clients[i].pc
    case Polling(_) => PollKeepsLooks(s, i, looks);
    case Deciding => DecideKeepsLooks(s, i, looks);
    case _ =>
      hide LockInv, FoundUp;
  }

  /** No other caller takes a step while one is deciding. */
  lemma {:induction false} OtherStepKeepsLooks<S>(s: Channel<S>, j: nat, i: nat, looks: seq<Look>)
    requires LockInv(s) && Enabled(s, ClientStep(j)) && i < |s.clients| && i != j && LooksInv(s, i, looks)
    ensures |DoClient(s, j).clients| == |s.clients|
    ensures LooksInv(DoClient(s, j), i, looks)
  {
    assert DoClient(s, j).clients[i] == s.clients[i];
    assert s.clients[i].pc != Deciding;
  }

  lemma {:induction false} StepKeepsLooks<S>(s: Channel<S>, a: Action, i: nat, looks: seq<Look>, process: Processor<S>)
    requires LockInv(s) && Enabled(s, a) && i < |s.clients| && LooksInv(s, i, looks)
    ensures
      var t := Do(s, a, process);
      |t.clients| == |s.clients| && LooksInv(t, i, Looked(s, a, t, i, looks))
  {
    hide DoClient, DoController;
    match a
    case ClientStep(j) =>
      if i == j {
        OwnStepKeepsLooks(s, i, looks);
      } else {
        OtherStepKeepsLooks(s, j, i, looks);
      }
    case ControllerStep =>
      ControllerLeavesClients(s, process);
    case _ =>
  }

  lemma {:induction false} StepKeepsLocks<S>(s: Channel<S>, a: Action, process: Processor<S>)
    requires LockInv(s) && Enabled(s, a)
    ensures LockInv(Do(s, a, process))
  {
    match a
    case ClientStep(i) => ClientKeepsLocks(s, i);
    case ControllerStep => ControllerKeepsLocks(s, process);
    case _ =>
  }

  lemma {:induction false} RunKeepsLooks<S>(s: Channel<S>, acts: seq<Action>, t: Channel<S>, i: nat, looks: seq<Look>,
                                               process: Processor<S>)
    requires LockInv(s) && i < |s.clients| && LooksInv(s, i, looks) && Run(s, acts, t, process)
    ensures LockInv(t) && i < |t.clients| && LooksInv(t, i, Looks(s, acts, i, looks, process))
    decreases |acts|
  {
    if acts != [] {
      var u := Do(s, acts[0], process);
      StepKeepsLooks(s, acts[0], i, looks, process);
      StepKeepsLocks(s, acts[0], process);
      assert |u.command| == 5 && |u.response| == 5;
      hide LockInv, LooksInv, Do, Enabled, Looked;
      RunKeepsLooks(u, acts[1..], t, i, Looked(s, acts[0], u, i, looks), process);
    }
  }

  // ----- every reply -----

  /** The return that added the k-th reply, and the state before it. */
  lemma {:induction false} ReturnOf<S>(s: Channel<S>, acts: seq<Action>, t: Channel<S>, k: nat, process: Processor<S>)
    returns (m: nat, i: nat, u: Channel<S>)
    requires Run(s, acts, t, process) && |s.replies| <= k < |t.replies|
    ensures m < |acts| && acts[m] == ClientStep(i) && Run(s, acts[..m], u, process)
    ensures i < |u.clients| && u.clients[i].pc == Release(t.replies[k].ok, t.replies[k].bytes)
    ensures u.clients[i].cmd == t.replies[k].cmd && |u.replies| == k
    decreases |acts|
  {
    var v := Do(s, acts[0], process);
    if |v.replies| > k {
      m, u := 0, s;
      assert acts[0].ClientStep?;
      i := acts[0].i;
      RepliesGrow(v, acts[1..], t, process);
      assert acts[..0] == [];
    } else {
      m, i, u := ReturnOf(v, acts[1..], t, k, process);
      assert acts[..m + 1][1..] == acts[1..][..m] && acts[..m + 1][0] == acts[0];
      m := m + 1;
    }
  }

  lemma {:induction false} RepliesGrow<S>(s: Channel<S>, acts: seq<Action>, t: Channel<S>, process: Processor<S>)
    requires Run(s, acts, t, process)
    ensures s.replies <= t.replies
    decreases |acts|
  {
    if acts != [] {
      RepliesGrow(Do(s, acts[0], process), acts[1..], t, process);
    }
  }

  lemma {:induction false} SameSize<S>(s: Channel<S>, acts: seq<Action>, t: Channel<S>, process: Processor<S>)
    requires Run(s, acts, t, process)
    ensures |t.clients| == |s.clients|
    decreases |acts|
  {
    if acts != [] {
      SameClients(s, acts[0], process);
      SameSize(Do(s, acts[0], process), acts[1..], t, process);
    }
  }

  lemma LooksMean<S>(u: Channel<S>, i: nat, looks: seq<Look>)
    requires LockInv(u) && i < |u.clients| && u.clients[i].pc.Release? && LooksInv(u, i, looks)
    ensures
      var c := u.clients[i];
      && |c.cmd| == 5
      && (c.pc.ok <==> Up in looks)
      && (c.pc.ok ==> FoundUp(looks) && c.cmd[4] != 0x26)
      && (!c.pc.ok && c.cmd[4] != 0x26 ==> looks == Sleeps(30) + [Down, Down])
      && (c.cmd[4] == 0x26 ==> looks == [])
  {
    if u.clients[i].pc.ok {
      assert looks[|looks| - 1] == Up;
    }
  }

  /** Every answer, in every run, spurious wake-ups or not. The caller of a command that
      asks for no reset gets false exactly if it has slept thirty times over a flag that
      was down and then found it down twice more, at the end of its loop and behind it; and
      true exactly if it has found the flag up, after at most thirty sleeps. */
  lemma AnswersMean<S>(s: Channel<S>, acts: seq<Action>, t: Channel<S>, k: nat, process: Processor<S>)
    returns (m: nat, i: nat, u: Channel<S>)
    requires Init(s) && Run(s, acts, t, process) && k < |t.replies|
    ensures m < |acts| && acts[m] == ClientStep(i) && i < |s.clients|
    ensures Run(s, acts[..m], u, process) && |u.replies| == k
    ensures
      var r, looks := t.replies[k], Looks(s, acts[..m], i, [], process);
      && |r.cmd| == 5
      && (r.ok <==> Up in looks)
      && (r.ok ==> FoundUp(looks) && r.cmd[4] != 0x26)
      && (!r.ok && r.cmd[4] != 0x26 ==> looks == Sleeps(30) + [Down, Down])
      && (r.cmd[4] == 0x26 ==> looks == [])
  {
    m, i, u := ReturnOf(s, acts, t, k, process);
    SameSize(s, acts[..m], u, process);
    assert LockInv(s);
    RunKeepsLooks(s, acts[..m], u, i, [], process);
    var looks := Looks(s, acts[..m], i, [], process);
    LooksMean(u, i, looks);
    hide Run, LockInv, Init, Looks, LooksInv;
  }
}
