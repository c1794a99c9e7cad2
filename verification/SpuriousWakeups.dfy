/** What a wake-up without a signal does to the command channel: when it is harmless,
    and what goes wrong otherwise. */
module SpuriousWakeups {
  import opened Bytes
  import opened CommandChannel
  import opened Wrappers

  const ZEROS: seq<byte> := [0, 0, 0, 0, 0]

  predicate OnlyController(acts: seq<Action>) {
    forall i :: 0 <= i < |acts| ==> acts[i] == ControllerStep
  }

  /** Some run leads from s to t; if `only`, one in which no one but the controller moves. */
  ghost predicate Leads<S>(s: Channel<S>, t: Channel<S>, only: bool, process: Processor<S>) {
    exists acts :: Run(s, acts, t, process) && (only ==> OnlyController(acts))
  }

  lemma {:induction false} AppendOne<S>(
      s: Channel<S>, acts: seq<Action>, t: Channel<S>, a: Action, process: Processor<S>)
    requires Run(s, acts, t, process) && |t.command| == 5 && |t.response| == 5 && Enabled(t, a)
    ensures Run(s, acts + [a], Do(t, a, process), process)
    decreases |acts|
  {
    if acts == [] {
      assert (acts + [a])[1..] == [];
    } else {
      assert (acts + [a])[1..] == acts[1..] + [a];
      AppendOne(Do(s, acts[0], process), acts[1..], t, a, process);
    }
  }

  lemma Extend<S>(s: Channel<S>, t: Channel<S>, a: Action, only: bool, process: Processor<S>) returns (t': Channel<S>)
    requires Leads(s, t, only, process) && |t.command| == 5 && |t.response| == 5 && Enabled(t, a)
    requires only ==> a == ControllerStep
    ensures t' == Do(t, a, process) && Leads(s, t', only, process)
  {
    var acts := RunOf(s, t, only, process);
    t' := Do(t, a, process);
    AppendOne(s, acts, t, a, process);
    hide Run, Do, Enabled;
    assert only ==> OnlyController(acts + [a]);
  }

  lemma NoSteps<S>(s: Channel<S>, only: bool, process: Processor<S>)
    ensures Leads(s, s, only, process)
  {
    assert Run(s, [], s, process);
  }

  lemma RunOf<S>(s: Channel<S>, t: Channel<S>, only: bool, process: Processor<S>) returns (acts: seq<Action>)
    requires Leads(s, t, only, process)
    ensures Run(s, acts, t, process) && (only ==> OnlyController(acts))
  {
    acts :| Run(s, acts, t, process) && (only ==> OnlyController(acts));
  }

  /** A copy of a into b, one byte further. */
  lemma CopyOne(a: seq<byte>, b: seq<byte>, k: nat)
    requires k < |a| == |b|
    ensures (a[..k] + b[k..])[k := a[k]] == a[..k + 1] + b[k + 1..]
  {
  }

  lemma CopyEnds(a: seq<byte>, b: seq<byte>)
    requires |a| == |b|
    ensures a[..0] + b[0..] == b && a[..|a|] + b[|a|..] == a
  {
  }

  // ----- the controller on its own -----

  /** The memset of the response. */
  lemma ZeroResponse<S>(s: Channel<S>, t: Channel<S>, only: bool, process: Processor<S>)
    returns (t': Channel<S>)
    requires Leads(s, t, only, process) && |t.command| == 5 && |t.response| == 5 && t.controller == Zeroing(0)
    ensures Leads(s, t', only, process)
    ensures t' == t.(controller := Zeroing(5), response := ZEROS)
  {
    hide Leads;
    t' := t;
    var k := 0;
    CopyEnds(ZEROS, t.response);
    while k < 5
      invariant 0 <= k <= 5 && Leads(s, t', only, process)
      invariant t' == t.(controller := Zeroing(k), response := ZEROS[..k] + t.response[k..])
    {
      CopyOne(ZEROS, t.response, k);
      t' := Extend(s, t', ControllerStep, only, process);
      k := k + 1;
    }
  }

  /** Reading the command. */
  lemma ReadCommand<S>(s: Channel<S>, t: Channel<S>, only: bool, process: Processor<S>)
    returns (t': Channel<S>)
    requires Leads(s, t, only, process) && |t.command| == 5 && |t.response| == 5 && t.controller == Reading([])
    ensures Leads(s, t', only, process)
    ensures t' == t.(controller := Reading(t.command))
  {
    hide Leads;
    t' := t;
    var k := 0;
    while k < 5
      invariant 0 <= k <= 5 && Leads(s, t', only, process)
      invariant t' == t.(controller := Reading(t.command[..k]))
    {
      t' := Extend(s, t', ControllerStep, only, process);
      assert t.command[..k + 1] == t.command[..k] + [t.command[k]];
      k := k + 1;
    }
    assert t.command[..5] == t.command;
  }

  function Newest<S>(t: Channel<S>): nat {
    if t.issued == [] then 0 else |t.issued| - 1
  }

  /** The execution of the command as it stands in memory. */
  function ExecutionOf<S>(t: Channel<S>, process: Processor<S>): Exec<S>
    requires |t.command| == 5
  {
    Exec(Newest(t), t.command, t.radio,
         if t.command[4] == CMD_RADIO_RESET then Fit([]) else Fit(process(t.radio, t.command).1))
  }

  /** Woken, with the mutex free, the controller executes whatever the command is. */
  lemma ExecutesWhateverIsThere<S>(s: Channel<S>, t: Channel<S>, only: bool, process: Processor<S>)
    returns (t': Channel<S>)
    requires Leads(s, t, only, process) && |t.command| == 5 && |t.response| == 5
    requires t.controller == Woken && t.commandOwner == Free
    ensures Leads(s, t', only, process)
    ensures t' == t.(controller := t'.controller, commandOwner := ByController, response := ZEROS, radio := t'.radio,
                     execs := t.execs + [ExecutionOf(t, process)])
    ensures t.command[4] != CMD_RADIO_RESET ==> t'.controller == Writing(0, ExecutionOf(t, process).resp)
  {
    hide Leads;
    t' := Extend(s, t, ControllerStep, only, process);
    t' := ZeroResponse(s, t', only, process);
    t' := Extend(s, t', ControllerStep, only, process);
    t' := ReadCommand(s, t', only, process);
    t' := Extend(s, t', ControllerStep, only, process);
  }

  // ----- exactly when a wake-up is harmless -----

  lemma {:induction false} WantedRunsStayCalm<S>(t: Channel<S>, more: seq<Action>, u: Channel<S>, process: Processor<S>)
    requires Inv(t) && Wanted(t, ControllerStep) && OnlyController(more) && Run(t, more, u, process)
    ensures Calm(t, more, u, process)
    decreases |more|
  {
    if more != [] {
      assert more[0] == ControllerStep;
      StepKeepsInv(t, ControllerStep, process);
      assert Do(t, ControllerStep, process).controller != Woken;
      hide Inv;
      WantedRunsStayCalm(Do(t, more[0], process), more[1..], u, process);
    }
  }

  /** When the controller can retake the mutex, by a signal or not, what it does next
      executes each issued command at most once and in order, exactly if the newest
      command is whole and not yet executed. */
  lemma {:induction false} WakeIsHarmlessExactly<S>(s: Channel<S>, acts: seq<Action>, t: Channel<S>,
    process: Processor<S>)
    requires Init(s) && Calm(s, acts, t, process) && t.controller == Woken && t.commandOwner == Free
    ensures
      (forall more, u :: OnlyController(more) && Run(t, more, u, process) ==> ExecsInv(u.issued, u.execs))
      <==> Wanted(t, ControllerStep)
  {
    RunKeepsInv(s, acts, t, process);
    if Wanted(t, ControllerStep) {
      forall more, u | OnlyController(more) && Run(t, more, u, process)
        ensures ExecsInv(u.issued, u.execs)
      {
        WantedRunsStayCalm(t, more, u, process);
        RunKeepsInv(t, more, u, process);
      }
    } else {
      UnwantedWakeRepeats(t, process);
    }
  }

  lemma {:induction false} UnwantedWakeRepeats<S>(t: Channel<S>, process: Processor<S>)
    requires Inv(t) && t.controller == Woken && t.commandOwner == Free && !Wanted(t, ControllerStep)
    ensures exists more, u :: OnlyController(more) && Run(t, more, u, process) && !ExecsInv(u.issued, u.execs)
  {
    NoSteps(t, true, process);
    var u := ExecutesWhateverIsThere(t, t, true, process);
    NotInOrder(t, u, process);
    hide Run, ExecsInv, Inv;
    var more := RunOf(t, u, true, process);
  }

  lemma NotInOrder<S>(t: Channel<S>, u: Channel<S>, process: Processor<S>)
    requires Inv(t) && t.commandOwner == Free && t.controller == Woken && !Wanted(t, ControllerStep)
    requires u.issued == t.issued && u.execs == t.execs + [ExecutionOf(t, process)]
    ensures !ExecsInv(u.issued, u.execs)
  {
    hide RepliesInv, LockInv, CallerInv, ControllerInv;
    var n := |t.execs|;
    assert u.execs[n].ticket == Newest(t);
    if t.issued != [] {
      assert t.complete && t.execs != [];
      assert u.execs[n - 1] == t.execs[n - 1];
    }
  }

  // ----- what goes wrong -----

  /** cat_tx waits without testing a predicate: on any channel, before anything was
      sent, one spurious wake-up makes it execute bytes nobody issued. */
  lemma SpuriousWakeExecutesUnissued<S>(s: Channel<S>, process: Processor<S>)
    returns (acts: seq<Action>, t: Channel<S>)
    requires Init(s)
    ensures Run(s, acts, t, process) && t.issued == [] && |t.execs| == 1 && t.execs[0].cmd == s.command
  {
    NoSteps(s, false, process);
    t := Extend(s, s, ControllerStep, false, process);
    t := Extend(s, t, ControllerStep, false, process);
    t := Extend(s, t, SpuriousWake, false, process);
    t := ExecutesWhateverIsThere(s, t, false, process);
    acts := RunOf(s, t, false, process);
  }

  /** The memcpy into service_command. */
  lemma StoreCommand<S>(s: Channel<S>, t: Channel<S>, i: nat, process: Processor<S>)
    returns (t': Channel<S>)
    requires Leads(s, t, false, process) && |t.command| == 5 && |t.response| == 5
    requires i < |t.clients| && t.clients[i].pc == Storing(0) && |t.clients[i].cmd| == 5
    ensures Leads(s, t', false, process)
    ensures t' == SetPc(t, i, ClearFlag).(command := t.clients[i].cmd, complete := true)
  {
    hide Leads;
    var cmd := t.clients[i].cmd;
    t' := t;
    var k := 0;
    CopyEnds(cmd, t.command);
    assert t.clients == SetPc(t, i, Storing(0)).clients;
    while k < 5
      invariant 0 <= k <= 5 && Leads(s, t', false, process)
      invariant t' == SetPc(t, i, Storing(k)).(command := cmd[..k] + t.command[k..])
    {
      CopyOne(cmd, t.command, k);
      t' := Extend(s, t', ClientStep(i), false, process);
      assert t'.clients == SetPc(t, i, Storing(k + 1)).clients;
      k := k + 1;
    }
    t' := Extend(s, t', ClientStep(i), false, process);
    assert t'.clients == SetPc(t, i, ClearFlag).clients;
  }

  /** Writing the response. */
  lemma WriteResponse<S>(s: Channel<S>, t: Channel<S>, process: Processor<S>)
    returns (t': Channel<S>)
    requires Leads(s, t, false, process) && |t.command| == 5 && |t.response| == 5
    requires t.controller.Writing? && t.controller.k == 0 && |t.controller.resp| == 5
    ensures Leads(s, t', false, process)
    ensures t' == t.(controller := Publishing, response := t.controller.resp)
  {
    hide Leads;
    var resp := t.controller.resp;
    t' := t;
    var k := 0;
    CopyEnds(resp, t.response);
    while k < 5
      invariant 0 <= k <= 5 && Leads(s, t', false, process)
      invariant t' == t.(controller := Writing(k, resp), response := resp[..k] + t.response[k..])
    {
      CopyOne(resp, t.response, k);
      t' := Extend(s, t', ControllerStep, false, process);
      k := k + 1;
    }
    t' := Extend(s, t', ControllerStep, false, process);
  }

  /** Copying the response from where the copy stands up to n bytes. */
  lemma FetchUpTo<S>(s: Channel<S>, t: Channel<S>, i: nat, n: nat, process: Processor<S>)
    returns (t': Channel<S>)
    requires Leads(s, t, false, process) && |t.command| == 5 && |t.response| == 5 && n <= 5
    requires i < |t.clients| && t.clients[i].pc.Fetching? && |t.clients[i].pc.buf| <= n
    ensures Leads(s, t', false, process)
    ensures t' == SetPc(t, i, Fetching(t.clients[i].pc.buf + t.response[|t.clients[i].pc.buf|..n]))
  {
    hide Leads;
    var buf := t.clients[i].pc.buf;
    t' := t;
    var k := |buf|;
    assert buf + t.response[k..k] == buf;
    assert t.clients == SetPc(t, i, Fetching(buf)).clients;
    while k < n
      invariant |buf| <= k <= n && Leads(s, t', false, process)
      invariant t' == SetPc(t, i, Fetching(buf + t.response[|buf|..k]))
    {
      assert buf + t.response[|buf|..k] + [t.response[k]] == buf + t.response[|buf|..k + 1];
      t' := Extend(s, t', ClientStep(i), false, process);
      assert t'.clients == SetPc(t, i, Fetching(buf + t.response[|buf|..k + 1])).clients;
      k := k + 1;
    }
  }

  /** What a call leaves behind while it copies its response. */
  ghost predicate Answering<S>(s: Channel<S>, t: Channel<S>, cmd: seq<byte>, full: seq<byte>, buf: seq<byte>)
    requires |s.clients| > 0
  {
    && t.clients == s.clients[0 := Client(Fetching(buf), cmd)]
    && t.responseOwner == Some(0) && t.commandOwner == Free
    && t.command == cmd && t.response == full && t.available && t.controller == Asleep
    && t.issued == [cmd] && t.replies == []
    && |t.execs| == 1 && t.execs[0].cmd == cmd && t.execs[0].resp == full
  }

  /** The controller at its wait, and a caller about to store its command. */
  lemma CallOnce<S>(s: Channel<S>, cmd: seq<byte>, process: Processor<S>) returns (t: Channel<S>)
    requires Init(s) && |s.clients| > 0 && |cmd| == 5
    ensures Leads(s, t, false, process)
    ensures t == s.(clients := s.clients[0 := Client(Storing(0), cmd)], responseOwner := Some(0),
                    commandOwner := ByClient(0), controller := Asleep, issued := [cmd], complete := false)
  {
    NoSteps(s, false, process);
    t := Extend(s, s, ControllerStep, false, process);
    hide Leads, Init;
    t := Extend(s, t, ControllerStep, false, process);
    t := Extend(s, t, Call(0, cmd), false, process);
    t := Extend(s, t, ClientStep(0), false, process);
    t := Extend(s, t, ClientStep(0), false, process);
    assert t.clients == s.clients[0 := Client(Storing(0), cmd)];
  }

  /** One call, issued and signalled. */
  lemma IssueOnce<S>(s: Channel<S>, cmd: seq<byte>, process: Processor<S>) returns (t: Channel<S>)
    requires Init(s) && |s.clients| > 0 && |cmd| == 5 && cmd[4] != CMD_RADIO_RESET
    ensures Leads(s, t, false, process)
    ensures t == s.(clients := s.clients[0 := Client(Polling(0), cmd)], responseOwner := Some(0), command := cmd,
                    controller := Woken, issued := [cmd], complete := true)
  {
    t := CallOnce(s, cmd, process);
    assert !s.available && s.commandOwner == Free && |s.command| == 5 && |s.response| == 5;
    hide Leads, Init;
    t := StoreCommand(s, t, 0, process);
    assert t.clients == s.clients[0 := Client(ClearFlag, cmd)];
    t := Extend(s, t, ClientStep(0), false, process);
    t := Extend(s, t, ClientStep(0), false, process);
    t := Extend(s, t, ClientStep(0), false, process);
    assert t.clients == s.clients[0 := Client(Polling(0), cmd)];
  }

  /** One call, executed, with its response published. */
  lemma AnswerOnce<S>(s: Channel<S>, cmd: seq<byte>, process: Processor<S>) returns (t: Channel<S>)
    requires Init(s) && |s.clients| > 0 && |cmd| == 5 && cmd[4] != CMD_RADIO_RESET
    ensures Leads(s, t, false, process)
    ensures
      var full := Fit(process(s.radio, cmd).1);
      t == s.(clients := s.clients[0 := Client(Polling(0), cmd)], responseOwner := Some(0), command := cmd,
              response := full, available := true, controller := Asleep, issued := [cmd], complete := true,
              radio := t.radio, execs := [Exec(0, cmd, s.radio, full)])
  {
    var full := Fit(process(s.radio, cmd).1);
    t := IssueOnce(s, cmd, process);
    assert s.execs == [];
    hide Leads, Init, Fit;
    t := ExecutesWhateverIsThere(s, t, false, process);
    assert t.controller == Writing(0, full);
    t := WriteResponse(s, t, process);
    t := Extend(s, t, ControllerStep, false, process);
    t := Extend(s, t, ControllerStep, false, process);
  }

  /** One call, executed, with two bytes of its response copied. */
  lemma AnswerTwoBytes<S>(s: Channel<S>, cmd: seq<byte>, process: Processor<S>) returns (t: Channel<S>)
    requires Init(s) && |s.clients| > 0 && |cmd| == 5 && cmd[4] != CMD_RADIO_RESET
    ensures Leads(s, t, false, process)
    ensures
      var full := Fit(process(s.radio, cmd).1);
      Answering(s, t, cmd, full, full[..2])
  {
    var full := Fit(process(s.radio, cmd).1);
    t := AnswerOnce(s, cmd, process);
    assert s.replies == [] && s.commandOwner == Free && |full| == 5;
    hide Leads, Init, Fit;
    t := Extend(s, t, ClientStep(0), false, process);
    t := Extend(s, t, ClientStep(0), false, process);
    assert t.clients == s.clients[0 := Client(Fetching([]), cmd)];
    t := FetchUpTo(s, t, 0, 2, process);
    assert [] + full[0..2] == full[..2];
    assert t.clients == s.clients[0 := Client(Fetching(full[..2]), cmd)];
  }

  /** Woken without a signal, the controller zeroes what is not yet copied. */
  lemma ZeroTheRest<S>(s: Channel<S>, t: Channel<S>, cmd: seq<byte>, full: seq<byte>, process: Processor<S>)
    returns (t': Channel<S>)
    requires |s.clients| > 0 && |cmd| == 5 && |full| == 5 && Leads(s, t, false, process)
    requires Answering(s, t, cmd, full, full[..2])
    ensures Leads(s, t', false, process)
    ensures t' == SetPc(t, 0, Fetching(full[..2] + [0, 0, 0])).(
                    controller := Zeroing(5), commandOwner := ByController, response := ZEROS)
  {
    hide Leads;
    t' := Extend(s, t, SpuriousWake, false, process);
    t' := Extend(s, t', ControllerStep, false, process);
    t' := ZeroResponse(s, t', false, process);
    t' := FetchUpTo(s, t', 0, 5, process);
    assert full[..2] + ZEROS[2..5] == full[..2] + [0, 0, 0];
  }

  /** A spurious wake-up while a caller copies its response zeroes the bytes not yet
      copied: the call returns true with a response that no execution wrote, unless
      those bytes were zero anyway. */
  lemma SpuriousWakeTearsResponse<S>(s: Channel<S>, cmd: seq<byte>, process: Processor<S>)
    returns (acts: seq<Action>, t: Channel<S>, full: seq<byte>)
    requires Init(s) && |s.clients| > 0 && |cmd| == 5 && cmd[4] != CMD_RADIO_RESET
    ensures Run(s, acts, t, process) && full == Fit(process(s.radio, cmd).1)
    ensures |t.execs| == 1 && t.execs[0].cmd == cmd && t.execs[0].resp == full
    ensures t.replies == [Reply(0, cmd, true, full[..2] + [0, 0, 0])]
    ensures full[2..] != [0, 0, 0] ==> t.replies[0].bytes != t.execs[0].resp
  {
    full := Fit(process(s.radio, cmd).1);
    t := AnswerTwoBytes(s, cmd, process);
    hide Run, Leads, Init, Fit;
    t := ZeroTheRest(s, t, cmd, full, process);
    t := Extend(s, t, ClientStep(0), false, process);
    t := Extend(s, t, ClientStep(0), false, process);
    t := Extend(s, t, ClientStep(0), false, process);
    assert (full[..2] + [0, 0, 0])[2..] == [0, 0, 0];
    acts := RunOf(s, t, false, process);
  }
}
