/** The shared-memory command channel: any number of radio_cmd callers and the one
    cat_tx controller. Every lock, byte stored or copied, flag access, signal,
    wake-up and unlock is a step of its own. */
module CommandChannel {
  import opened Bytes
  import opened Wrappers

  const CMD_RADIO_RESET: byte := 0x26
  const MAX_TRIES: nat := 30

  /** Where a caller stands in radio_cmd. */
  datatype ClientPc =
    | Idle
    | WantResponseLock
    | WantCommandLock
    | Storing(k: nat)                         // memcpy into service_command
    | ClearFlag                               // response_available = false
    | Signal
    | UnlockCommand
    | Polling(tries: nat)
    | Deciding                                // the test after the loop
    | Fetching(buf: seq<byte>)                // memcpy out of response_service
    | TakeFlag(buf: seq<byte>)
    | Release(ok: bool, buf: seq<byte>)

  datatype Client = Client(pc: ClientPc, cmd: seq<byte>)

  /** Where the controller stands in cat_tx and, while it holds the command mutex,
      in processCATCommand. */
  datatype ControllerPc =
    | Starting                                // wants the mutex for the first time
    | AboutToWait
    | Asleep
    | Woken                                   // signalled, wants the mutex back
    | Zeroing(k: nat)                         // memset of the response
    | Reading(buf: seq<byte>)
    | Writing(k: nat, resp: seq<byte>)
    | Publishing                              // response_available = true
    | Stopped                                 // exit on a reset command

  datatype CommandOwner = Free | ByClient(i: nat) | ByController

  /** One execution of processCATCommand: `ticket` numbers the command it ran. */
  datatype Exec<S> = Exec(ticket: nat, cmd: seq<byte>, before: S, resp: seq<byte>)

  datatype Reply = Reply(ticket: nat, cmd: seq<byte>, ok: bool, bytes: seq<byte>)

  datatype Channel<S> = Channel(
    clients: seq<Client>,
    responseOwner: Option<nat>,
    commandOwner: CommandOwner,
    command: seq<byte>,
    response: seq<byte>,
    available: bool,
    controller: ControllerPc,
    radio: S,
    // history
    issued: seq<seq<byte>>,                   // by ticket
    complete: bool,                           // the newest command is wholly stored
    execs: seq<Exec<S>>,
    replies: seq<Reply>)

  datatype Action =
    | Call(i: nat, cmd: seq<byte>)
    | ClientStep(i: nat)
    | ControllerStep
    | SpuriousWake

  /** What a command does to the radio and which bytes it writes into the response. */
  type Processor<!S> = (S, seq<byte>) -> (S, seq<byte>)

  /** The response buffer is zeroed first, so bytes not written stay zero. */
  function Fit(resp: seq<byte>): (r: seq<byte>)
    ensures |r| == 5
  {
    seq(5, i requires 0 <= i < 5 => if i < |resp| then resp[i] else 0)
  }

  predicate Init<S>(s: Channel<S>) {
    && (forall i :: 0 <= i < |s.clients| ==> s.clients[i].pc == Idle)
    && s.responseOwner == None && s.commandOwner == Free
    && |s.command| == 5 && |s.response| == 5 && !s.available
    && s.controller == Starting
    && s.issued == [] && !s.complete && s.execs == [] && s.replies == []
  }

  predicate Enabled<S>(s: Channel<S>, a: Action) {
    match a
    case Call(i, cmd) => i < |s.clients| && s.clients[i].pc == Idle && |cmd| == 5
    case ClientStep(i) =>
      && i < |s.clients|
      && s.clients[i].pc != Idle
      && (s.clients[i].pc == WantResponseLock ==> s.responseOwner == None)
      && (s.clients[i].pc == WantCommandLock ==> s.commandOwner == Free)
    case ControllerStep =>
      && s.controller != Asleep && s.controller != Stopped
      && (s.controller == Starting || s.controller == Woken ==> s.commandOwner == Free)
    case SpuriousWake => s.controller == Asleep
  }

  function SetPc<S>(s: Channel<S>, i: nat, pc: ClientPc): Channel<S>
    requires i < |s.clients|
  {
    s.(clients := s.clients[i := s.clients[i].(pc := pc)])
  }

  function DoClient<S>(s: Channel<S>, i: nat): Channel<S>
    requires |s.command| == 5 && |s.response| == 5
    requires Enabled(s, ClientStep(i))
  {
    var c := s.clients[i];
    match c.pc
    case Idle => s
    case WantResponseLock => SetPc(s, i, WantCommandLock).(responseOwner := Some(i))
    case WantCommandLock =>
      SetPc(s, i, Storing(0)).(commandOwner := ByClient(i), issued := s.issued + [c.cmd], complete := false)
    case Storing(k) =>
      if k < 5 && k < |c.cmd| then SetPc(s, i, Storing(k + 1)).(command := s.command[k := c.cmd[k]])
      else SetPc(s, i, ClearFlag).(complete := true)
    case ClearFlag => SetPc(s, i, Signal).(available := false)
    case Signal =>
      SetPc(s, i, UnlockCommand).(controller := if s.controller == Asleep then Woken else s.controller)
    case UnlockCommand =>
      SetPc(s, i, if |c.cmd| == 5 && c.cmd[4] == CMD_RADIO_RESET then Release(false, []) else Polling(0))
        .(commandOwner := Free)
    case Polling(tries) =>
      SetPc(s, i, if !s.available && tries < MAX_TRIES then Polling(tries + 1) else Deciding)
    case Deciding => SetPc(s, i, if s.available then Fetching([]) else Release(false, []))
    case Fetching(buf) =>
      if |buf| < 5 then SetPc(s, i, Fetching(buf + [s.response[|buf|]])) else SetPc(s, i, TakeFlag(buf))
    case TakeFlag(buf) => SetPc(s, i, Release(true, buf)).(available := false)
    case Release(ok, buf) =>
      var ticket := if s.issued == [] then 0 else |s.issued| - 1;
      SetPc(s, i, Idle).(responseOwner := None, replies := s.replies + [Reply(ticket, c.cmd, ok, buf)])
  }

  function DoController<S>(s: Channel<S>, process: Processor<S>): Channel<S>
    requires |s.command| == 5 && |s.response| == 5
    requires Enabled(s, ControllerStep)
  {
    match s.controller
    case Starting => s.(controller := AboutToWait, commandOwner := ByController)
    case AboutToWait => s.(controller := Asleep, commandOwner := Free)
    case Asleep => s
    case Woken => s.(controller := Zeroing(0), commandOwner := ByController)
    case Zeroing(k) =>
      if k < 5 then s.(controller := Zeroing(k + 1), response := s.response[k := 0])
      else s.(controller := Reading([]))
    case Reading(buf) =>
      if |buf| < 5 then s.(controller := Reading(buf + [s.command[|buf|]]))
      else
        var ticket := if s.issued == [] then 0 else |s.issued| - 1;
        if buf[4] == CMD_RADIO_RESET then
          s.(controller := Stopped, execs := s.execs + [Exec(ticket, buf, s.radio, Fit([]))])
        else
          var (radio, resp) := process(s.radio, buf);
          s.(controller := Writing(0, Fit(resp)), radio := radio,
             execs := s.execs + [Exec(ticket, buf, s.radio, Fit(resp))])
    case Writing(k, resp) =>
      if k < 5 && k < |resp| then s.(controller := Writing(k + 1, resp), response := s.response[k := resp[k]])
      else s.(controller := Publishing)
    case Publishing => s.(controller := AboutToWait, available := true)
    case Stopped => s
  }

  function Do<S>(s: Channel<S>, a: Action, process: Processor<S>): Channel<S>
    requires |s.command| == 5 && |s.response| == 5
    requires Enabled(s, a)
  {
    match a
    case Call(i, cmd) => s.(clients := s.clients[i := Client(WantResponseLock, cmd)])
    case ClientStep(i) => DoClient(s, i)
    case ControllerStep => DoController(s, process)
    case SpuriousWake => s.(controller := Woken)
  }

  predicate Run<S(==)>(s: Channel<S>, acts: seq<Action>, t: Channel<S>, process: Processor<S>)
    decreases |acts|
  {
    || (acts == [] && s == t)
    || (&& acts != [] && |s.command| == 5 && |s.response| == 5
        && Enabled(s, acts[0])
        && Run(Do(s, acts[0], process), acts[1..], t, process))
  }

  // ----- the invariant -----

  predicate HasCommandLock(pc: ClientPc) {
    pc.Storing? || pc.ClearFlag? || pc.Signal? || pc.UnlockCommand?
  }

  predicate HasResponseLock(pc: ClientPc) {
    !pc.Idle? && !pc.WantResponseLock?
  }

  predicate ControllerHasLock(pc: ControllerPc) {
    pc.AboutToWait? || pc.Zeroing? || pc.Reading? || pc.Writing? || pc.Publishing? || pc.Stopped?
  }

  ghost predicate LockInv<S>(s: Channel<S>) {
    && |s.command| == 5 && |s.response| == 5
    && (forall i :: 0 <= i < |s.clients| ==> (HasResponseLock(s.clients[i].pc) <==> s.responseOwner == Some(i)))
    && (forall i :: 0 <= i < |s.clients| ==> (HasCommandLock(s.clients[i].pc) <==> s.commandOwner == ByClient(i)))
    && (forall i :: 0 <= i < |s.clients| && s.clients[i].pc != Idle ==> |s.clients[i].cmd| == 5)
    && (s.commandOwner == ByController <==> ControllerHasLock(s.controller))
    && (s.responseOwner.Some? ==> s.responseOwner.value < |s.clients|)
    && (s.commandOwner.ByClient? ==> s.commandOwner.i < |s.clients|)
  }

  /** Executions happen in ticket order, each on the whole command issued under its
      ticket. */
  ghost predicate ExecsInv<S>(issued: seq<seq<byte>>, execs: seq<Exec<S>>) {
    && (forall j :: 0 <= j < |execs| ==> execs[j].ticket < |issued| && execs[j].cmd == issued[execs[j].ticket])
    && (forall j, k :: 0 <= j < k < |execs| ==> execs[j].ticket < execs[k].ticket)
  }

  /** The newest command has not been executed. */
  ghost predicate Fresh<S>(s: Channel<S>) {
    s.issued != [] && (s.execs == [] || s.execs[|s.execs| - 1].ticket < |s.issued| - 1)
  }

  /** The newest command has been executed, with this response. */
  ghost predicate Executed<S>(s: Channel<S>, resp: seq<byte>) {
    && s.issued != [] && s.execs != []
    && s.execs[|s.execs| - 1].ticket == |s.issued| - 1
    && s.execs[|s.execs| - 1].resp == resp
  }

  ghost predicate ControllerInv<S>(s: Channel<S>)
    requires |s.command| == 5 && |s.response| == 5
  {
    match s.controller
    case Zeroing(k) => Fresh(s) && s.complete
    case Reading(buf) => Fresh(s) && s.complete && |buf| <= 5 && buf == s.command[..|buf|]
    case Writing(k, resp) => |resp| == 5 && k <= 5 && Executed(s, resp) && s.response[..k] == resp[..k]
    case Publishing => Executed(s, s.response)
    case _ => true
  }

  /** What the caller holding the response mutex may rely on. */
  ghost predicate CallerInv<S>(s: Channel<S>, c: Client)
    requires |s.command| == 5 && |s.response| == 5 && (c.pc != Idle ==> |c.cmd| == 5)
  {
    && (c.pc != WantCommandLock ==> s.issued != [] && s.issued[|s.issued| - 1] == c.cmd)
    && (c.pc != WantCommandLock ==> s.replies == [] || s.replies[|s.replies| - 1].ticket < |s.issued| - 1)
    && (c.pc.Polling? || c.pc.Deciding? || c.pc.Fetching? || c.pc.TakeFlag? || (c.pc.Release? && c.pc.ok)
        ==> c.cmd[4] != CMD_RADIO_RESET)
    && (c.pc.Storing? ==> Fresh(s) && !s.complete && c.pc.k <= 5 && s.command[..c.pc.k] == c.cmd[..c.pc.k])
    && (c.pc != WantCommandLock && !c.pc.Storing? ==> s.complete)
    && (c.pc.ClearFlag? || c.pc.Signal? ==> Fresh(s))
    && (c.pc.Signal? || c.pc.UnlockCommand? ==> !s.available)
    && (c.pc.Polling? || c.pc.Deciding? || c.pc.Fetching? || c.pc.TakeFlag? ==> (s.available ==> AnswerReady(s)))
    && (c.pc.Fetching? ==> s.available && |c.pc.buf| <= 5 && c.pc.buf == s.response[..|c.pc.buf|])
    && (c.pc.TakeFlag? ==> s.available && c.pc.buf == s.response)
    && (c.pc.Release? && c.pc.ok ==>
          Executed(s, c.pc.buf) && !s.available && s.controller in {AboutToWait, Asleep, Woken})
  }

  /** The response bytes are complete and the controller cannot touch them. */
  ghost predicate AnswerReady<S>(s: Channel<S>) {
    Executed(s, s.response) && (s.controller == AboutToWait || s.controller == Asleep || s.controller == Woken)
  }

  ghost predicate Answered<S>(execs: seq<Exec<S>>, r: Reply) {
    exists j :: 0 <= j < |execs| && execs[j].ticket == r.ticket && execs[j].cmd == r.cmd && execs[j].resp == r.bytes
  }

  ghost predicate RepliesInv<S>(s: Channel<S>) {
    && (forall r :: r in s.replies && r.ok ==> Answered(s.execs, r))
    && (forall r :: r in s.replies ==> |r.cmd| == 5 && r.ticket < |s.issued| && s.issued[r.ticket] == r.cmd)
    && (forall r :: r in s.replies && r.ok ==> r.cmd[4] != CMD_RADIO_RESET)
    && (forall j, k :: 0 <= j < k < |s.replies| ==> s.replies[j].ticket < s.replies[k].ticket)
  }

  ghost predicate HistoryInv<S>(s: Channel<S>) {
    && ExecsInv(s.issued, s.execs)
    && (s.complete ==> s.issued != [] && s.command == s.issued[|s.issued| - 1])
    && (!s.complete ==> s.issued == [] || s.commandOwner.ByClient?)
    && RepliesInv(s)
  }

  ghost predicate Inv<S>(s: Channel<S>) {
    && LockInv(s)
    && HistoryInv(s)
    && ControllerInv(s)
    && (s.responseOwner.Some? ==> CallerInv(s, s.clients[s.responseOwner.value]))
  }

  /** Whatever woke the controller, when it retakes the mutex there is a whole command
      it has not executed yet. */
  ghost predicate Wanted<S>(s: Channel<S>, a: Action) {
    a == ControllerStep && s.controller == Woken ==> Fresh(s) && s.complete
  }

  /** Every retaking of the mutex in the run is wanted. */
  ghost predicate Calm<S>(s: Channel<S>, acts: seq<Action>, t: Channel<S>, process: Processor<S>)
    decreases |acts|
  {
    || (acts == [] && s == t)
    || (&& acts != [] && |s.command| == 5 && |s.response| == 5
        && Enabled(s, acts[0]) && Wanted(s, acts[0])
        && Calm(Do(s, acts[0], process), acts[1..], t, process))
  }

  // ----- locks -----

  /** A step that changes no mutex moves its caller only between points that hold
      the same ones. */
  lemma SameLocks<S>(s: Channel<S>, i: nat, t: Channel<S>)
    requires LockInv(s) && i < |s.clients| && s.clients[i].pc != Idle
    requires |t.clients| == |s.clients| && t.clients == s.clients[i := t.clients[i]]
    requires t.clients[i].cmd == s.clients[i].cmd
    requires HasResponseLock(t.clients[i].pc) == HasResponseLock(s.clients[i].pc)
    requires HasCommandLock(t.clients[i].pc) == HasCommandLock(s.clients[i].pc)
    requires t.responseOwner == s.responseOwner && t.commandOwner == s.commandOwner
    requires ControllerHasLock(t.controller) == ControllerHasLock(s.controller)
    requires |t.command| == 5 && |t.response| == 5
    ensures LockInv(t)
  {
  }

  /** A step that takes or releases a mutex. */
  lemma LockStepKeepsLocks<S>(s: Channel<S>, i: nat)
    requires LockInv(s) && Enabled(s, ClientStep(i))
    requires var pc := s.clients[i].pc; pc.WantResponseLock? || pc.WantCommandLock? || pc.UnlockCommand? || pc.Release?
    ensures LockInv(DoClient(s, i))
  {
    match s.clients[i].pc
    case WantResponseLock =>
    case WantCommandLock =>
    case UnlockCommand =>
    case Release(_, _) =>
  }

  /** A step with the command mutex held. */
  lemma IssueStepKeepsLocks<S>(s: Channel<S>, i: nat)
    requires LockInv(s) && Enabled(s, ClientStep(i))
    requires var pc := s.clients[i].pc; pc.Storing? || pc.ClearFlag? || pc.Signal?
    ensures LockInv(DoClient(s, i))
  {
    SameLocks(s, i, DoClient(s, i));
  }

  /** A step while waiting for the response or copying it. */
  lemma AnswerStepKeepsLocks<S>(s: Channel<S>, i: nat)
    requires LockInv(s) && Enabled(s, ClientStep(i))
    requires var pc := s.clients[i].pc; pc.Polling? || pc.Deciding? || pc.Fetching? || pc.TakeFlag?
    ensures LockInv(DoClient(s, i))
  {
    SameLocks(s, i, DoClient(s, i));
  }

  lemma ClientKeepsLocks<S>(s: Channel<S>, i: nat)
    requires LockInv(s) && Enabled(s, ClientStep(i))
    ensures LockInv(DoClient(s, i))
  {
    var pc := s.clients[i].pc;
    hide DoClient;
    if pc.WantResponseLock? || pc.WantCommandLock? || pc.UnlockCommand? || pc.Release? {
      LockStepKeepsLocks(s, i);
    } else if pc.Storing? || pc.ClearFlag? || pc.Signal? {
      IssueStepKeepsLocks(s, i);
    } else {
      AnswerStepKeepsLocks(s, i);
    }
  }

  lemma ControllerKeepsLocks<S>(s: Channel<S>, process: Processor<S>)
    requires LockInv(s) && Enabled(s, ControllerStep)
    ensures LockInv(DoController(s, process))
  {
  }

  lemma CallKeepsInv<S>(s: Channel<S>, i: nat, cmd: seq<byte>, process: Processor<S>)
    requires Inv(s) && Enabled(s, Call(i, cmd))
    ensures Inv(Do(s, Call(i, cmd), process))
  {
  }

  // ----- caller steps -----

  /** A caller past the response lock is the only one there. */
  lemma ActiveCaller<S>(s: Channel<S>, i: nat)
    requires Inv(s) && i < |s.clients| && HasResponseLock(s.clients[i].pc)
    ensures s.responseOwner == Some(i) && CallerInv(s, s.clients[i])
  {
  }

  lemma CallerTakesResponseLock<S>(s: Channel<S>, i: nat)
    requires Inv(s) && Enabled(s, ClientStep(i)) && s.clients[i].pc.WantResponseLock?
    ensures Inv(DoClient(s, i))
  {
    ClientKeepsLocks(s, i);
  }

  lemma MoreIssuedKeepsExecs<S>(issued: seq<seq<byte>>, execs: seq<Exec<S>>, cmd: seq<byte>)
    requires ExecsInv(issued, execs)
    ensures ExecsInv(issued + [cmd], execs)
  {
  }

  lemma CallerTakesCommandLock<S>(s: Channel<S>, i: nat)
    requires Inv(s) && Enabled(s, ClientStep(i)) && s.clients[i].pc.WantCommandLock?
    ensures Inv(DoClient(s, i))
  {
    ClientKeepsLocks(s, i);
    ActiveCaller(s, i);
    MoreIssuedKeepsExecs(s.issued, s.execs, s.clients[i].cmd);
  }

  lemma CallerStoresByte<S>(s: Channel<S>, i: nat)
    requires Inv(s) && Enabled(s, ClientStep(i)) && s.clients[i].pc.Storing? && s.clients[i].pc.k < 5
    ensures Inv(DoClient(s, i))
  {
    ClientKeepsLocks(s, i);
    ActiveCaller(s, i);
    var t, c := DoClient(s, i), s.clients[i];
    var k := c.pc.k;
    assert t.command[..k + 1] == s.command[..k] + [c.cmd[k]];
    assert c.cmd[..k + 1] == c.cmd[..k] + [c.cmd[k]];
  }

  lemma CallerHasStored<S>(s: Channel<S>, i: nat)
    requires Inv(s) && Enabled(s, ClientStep(i)) && s.clients[i].pc.Storing? && s.clients[i].pc.k >= 5
    ensures Inv(DoClient(s, i))
  {
    ClientKeepsLocks(s, i);
    ActiveCaller(s, i);
    assert s.command == s.command[..5] && s.clients[i].cmd == s.clients[i].cmd[..5];
  }

  lemma CallerSignals<S>(s: Channel<S>, i: nat)
    requires Inv(s) && Enabled(s, ClientStep(i))
    requires s.clients[i].pc.ClearFlag? || s.clients[i].pc.Signal? || s.clients[i].pc.UnlockCommand?
    ensures Inv(DoClient(s, i))
  {
    ClientKeepsLocks(s, i);
    ActiveCaller(s, i);
  }

  lemma CallerPolls<S>(s: Channel<S>, i: nat)
    requires Inv(s) && Enabled(s, ClientStep(i))
    requires s.clients[i].pc.Polling? || s.clients[i].pc.Deciding? || s.clients[i].pc.TakeFlag?
    ensures Inv(DoClient(s, i))
  {
    ClientKeepsLocks(s, i);
    ActiveCaller(s, i);
  }

  lemma CallerFetches<S>(s: Channel<S>, i: nat)
    requires Inv(s) && Enabled(s, ClientStep(i)) && s.clients[i].pc.Fetching?
    ensures Inv(DoClient(s, i))
  {
    ClientKeepsLocks(s, i);
    ActiveCaller(s, i);
    var n := |s.clients[i].pc.buf|;
    if n < 5 {
      assert s.response[..n + 1] == s.response[..n] + [s.response[n]];
    } else {
      assert s.response == s.response[..5];
    }
  }

  lemma CallerReturns<S>(s: Channel<S>, i: nat)
    requires Inv(s) && Enabled(s, ClientStep(i)) && s.clients[i].pc.Release?
    ensures Inv(DoClient(s, i))
  {
    ClientKeepsLocks(s, i);
    ActiveCaller(s, i);
    var t := DoClient(s, i);
    var r := t.replies[|s.replies|];
    if r.ok {
      var j := |s.execs| - 1;
      assert s.execs[j].ticket == r.ticket && s.execs[j].cmd == r.cmd && s.execs[j].resp == r.bytes;
      assert Answered(t.execs, r);
    }
  }

  // ----- controller steps -----

  lemma MoreExecsStillAnswer<S>(replies: seq<Reply>, execs: seq<Exec<S>>, e: Exec<S>)
    requires forall r :: r in replies && r.ok ==> Answered(execs, r)
    ensures forall r :: r in replies && r.ok ==> Answered(execs + [e], r)
  {
    forall r | r in replies && r.ok
      ensures Answered(execs + [e], r)
    {
      var j :| 0 <= j < |execs| && execs[j].ticket == r.ticket && execs[j].cmd == r.cmd && execs[j].resp == r.bytes;
      assert (execs + [e])[j] == execs[j];
    }
  }

  lemma ExecKeepsExecs<S>(issued: seq<seq<byte>>, execs: seq<Exec<S>>, e: Exec<S>)
    requires ExecsInv(issued, execs)
    requires issued != [] && e.ticket == |issued| - 1 && e.cmd == issued[e.ticket]
    requires execs == [] || execs[|execs| - 1].ticket < e.ticket
    ensures ExecsInv(issued, execs + [e])
  {
  }

  lemma ExecutionKeepsHistory<S>(s: Channel<S>, e: Exec<S>, t: Channel<S>)
    requires Inv(s) && Fresh(s) && s.complete && s.commandOwner == ByController
    requires e.ticket == |s.issued| - 1 && e.cmd == s.command
    requires t == s.(execs := s.execs + [e], radio := t.radio, controller := t.controller)
    ensures HistoryInv(t)
  {
    MoreExecsStillAnswer(s.replies, s.execs, e);
    ExecKeepsExecs(s.issued, s.execs, e);
  }

  lemma ControllerExecutes<S>(s: Channel<S>, process: Processor<S>)
    requires Inv(s) && Enabled(s, ControllerStep)
    requires s.controller.Reading? && |s.controller.buf| == 5
    ensures Inv(DoController(s, process))
  {
    ControllerKeepsLocks(s, process);
    var t := DoController(s, process);
    assert s.command == s.command[..5];
    ExecutionKeepsHistory(s, t.execs[|s.execs|], t);
  }

  lemma ControllerZeroes<S>(s: Channel<S>, process: Processor<S>)
    requires Inv(s) && Enabled(s, ControllerStep) && s.controller.Zeroing?
    ensures Inv(DoController(s, process))
  {
    ControllerKeepsLocks(s, process);
    assert HistoryInv(DoController(s, process));
  }

  lemma ControllerReads<S>(s: Channel<S>, process: Processor<S>)
    requires Inv(s) && Enabled(s, ControllerStep) && s.controller.Reading? && |s.controller.buf| < 5
    ensures Inv(DoController(s, process))
  {
    ControllerKeepsLocks(s, process);
    var n := |s.controller.buf|;
    assert s.command[..n + 1] == s.command[..n] + [s.command[n]];
  }

  lemma ControllerWrites<S>(s: Channel<S>, process: Processor<S>)
    requires Inv(s) && Enabled(s, ControllerStep) && s.controller.Writing?
    ensures Inv(DoController(s, process))
  {
    ControllerKeepsLocks(s, process);
    var t, k, resp := DoController(s, process), s.controller.k, s.controller.resp;
    if k < 5 {
      assert t.response[..k + 1] == s.response[..k] + [resp[k]];
      assert resp[..k + 1] == resp[..k] + [resp[k]];
    } else {
      assert s.response == s.response[..5] && resp == resp[..5];
    }
  }

  lemma ControllerWaits<S>(s: Channel<S>, process: Processor<S>)
    requires Inv(s) && Enabled(s, ControllerStep) && Wanted(s, ControllerStep)
    requires !s.controller.Reading? && !s.controller.Zeroing? && !s.controller.Writing?
    ensures Inv(DoController(s, process))
  {
    ControllerKeepsLocks(s, process);
    var t := DoController(s, process);
    match s.controller
    case Starting => assert HistoryInv(t);
    case AboutToWait => assert HistoryInv(t);
    case Woken => assert HistoryInv(t);
    case Publishing => assert HistoryInv(t);
  }

  lemma CallerStepKeepsInv<S>(s: Channel<S>, i: nat)
    requires Inv(s) && Enabled(s, ClientStep(i))
    ensures Inv(DoClient(s, i))
  {
    match s.clients[i].pc
    case WantResponseLock => CallerTakesResponseLock(s, i);
    case WantCommandLock => CallerTakesCommandLock(s, i);
    case Storing(k) => if k < 5 { CallerStoresByte(s, i); } else { CallerHasStored(s, i); }
    case Fetching(_) => CallerFetches(s, i);
    case Release(_, _) => CallerReturns(s, i);
    case ClearFlag => CallerSignals(s, i);
    case Signal => CallerSignals(s, i);
    case UnlockCommand => CallerSignals(s, i);
    case _ => CallerPolls(s, i);
  }

  lemma ControllerStepKeepsInv<S>(s: Channel<S>, process: Processor<S>)
    requires Inv(s) && Enabled(s, ControllerStep) && Wanted(s, ControllerStep)
    ensures Inv(DoController(s, process))
  {
    hide Inv;
    match s.controller
    case Reading(buf) =>
      if |buf| < 5 {
        ControllerReads(s, process);
      } else {
        assert |buf| == 5 by {
          ReadsFive(s);
        }
        ControllerExecutes(s, process);
      }
    case Zeroing(_) => ControllerZeroes(s, process);
    case Writing(_, _) => ControllerWrites(s, process);
    case _ => ControllerWaits(s, process);
  }

  lemma ReadsFive<S>(s: Channel<S>)
    requires Inv(s) && s.controller.Reading?
    ensures |s.controller.buf| <= 5
  {
  }

  lemma SpuriousWakeKeepsInv<S>(s: Channel<S>)
    requires Inv(s) && Enabled(s, SpuriousWake)
    ensures Inv(s.(controller := Woken))
  {
  }

  lemma StepKeepsInv<S>(s: Channel<S>, a: Action, process: Processor<S>)
    requires Inv(s) && Enabled(s, a) && Wanted(s, a)
    ensures Inv(Do(s, a, process))
  {
    match a
    case SpuriousWake => SpuriousWakeKeepsInv(s);
    case Call(i, cmd) => CallKeepsInv(s, i, cmd, process);
    case ClientStep(i) => CallerStepKeepsInv(s, i);
    case ControllerStep => ControllerStepKeepsInv(s, process);
  }

  lemma {:induction false} RunKeepsInv<S>(s: Channel<S>, acts: seq<Action>, t: Channel<S>, process: Processor<S>)
    requires Inv(s) && Calm(s, acts, t, process)
    ensures Inv(t)
    decreases |acts|
  {
    if acts != [] {
      StepKeepsInv(s, acts[0], process);
      RunKeepsInv(Do(s, acts[0], process), acts[1..], t, process);
    }
  }

  /** A controller that was signalled has something to do. */
  ghost predicate WakeInv<S>(s: Channel<S>) {
    s.controller == Woken ==> Fresh(s)
  }

  lemma ClientKeepsWakeInv<S>(s: Channel<S>, i: nat)
    requires Inv(s) && WakeInv(s) && Enabled(s, ClientStep(i))
    ensures WakeInv(DoClient(s, i))
  {
    hide RepliesInv, ExecsInv;
    if s.clients[i].pc == Signal {
      ActiveCaller(s, i);
    }
    hide LockInv, ControllerInv;
  }

  lemma WokenIsWanted<S>(s: Channel<S>)
    requires Inv(s) && WakeInv(s)
    ensures Enabled(s, ControllerStep) ==> Wanted(s, ControllerStep)
  {
    hide RepliesInv, ExecsInv, LockInv, ControllerInv, CallerInv;
  }

  lemma StepKeepsWakeInv<S>(s: Channel<S>, a: Action, process: Processor<S>)
    requires Inv(s) && WakeInv(s) && Enabled(s, a) && a != SpuriousWake
    ensures WakeInv(Do(s, a, process)) && Wanted(s, a)
  {
    match a
    case ClientStep(i) => ClientKeepsWakeInv(s, i);
    case ControllerStep =>
      WokenIsWanted(s);
      hide Inv;
    case Call(_, _) => hide Inv;
  }

  /** Without spurious wake-ups every run is calm, as every signal means a command. */
  lemma {:induction false} SignalsAreWanted<S>(s: Channel<S>, acts: seq<Action>, t: Channel<S>, process: Processor<S>)
    requires Inv(s) && WakeInv(s) && Run(s, acts, t, process) && SpuriousWake !in acts
    ensures Calm(s, acts, t, process) && Inv(t) && WakeInv(t)
    decreases |acts|
  {
    if acts != [] {
      StepKeepsWakeInv(s, acts[0], process);
      StepKeepsInv(s, acts[0], process);
      hide Inv, WakeInv, Wanted;
      SignalsAreWanted(Do(s, acts[0], process), acts[1..], t, process);
    }
  }

  // ----- the work done -----

  /** The radio after a serial run of the executed commands; a reset ends the run. */
  function RadioAfter<S>(start: S, execs: seq<Exec<S>>, process: Processor<S>): S {
    if execs == [] then start
    else
      var before := RadioAfter(start, execs[..|execs| - 1], process);
      var cmd := execs[|execs| - 1].cmd;
      if |cmd| == 5 && cmd[4] == CMD_RADIO_RESET then before else process(before, cmd).0
  }

  /** Each execution started from the radio the earlier ones left behind and wrote
      the bytes the command calls for. */
  ghost predicate SerialWork<S>(start: S, execs: seq<Exec<S>>, process: Processor<S>) {
    forall j :: 0 <= j < |execs| ==>
      && execs[j].before == RadioAfter(start, execs[..j], process)
      && (|execs[j].cmd| == 5 && execs[j].cmd[4] != CMD_RADIO_RESET ==>
            execs[j].resp == Fit(process(execs[j].before, execs[j].cmd).1))
  }

  lemma {:induction false} OneMoreExec<S>(start: S, execs: seq<Exec<S>>, e: Exec<S>, process: Processor<S>)
    requires SerialWork(start, execs, process) && |e.cmd| == 5
    requires e.before == RadioAfter(start, execs, process)
    requires e.cmd[4] != CMD_RADIO_RESET ==> e.resp == Fit(process(e.before, e.cmd).1)
    ensures SerialWork(start, execs + [e], process)
    ensures RadioAfter(start, execs + [e], process)
         == if e.cmd[4] == CMD_RADIO_RESET then e.before else process(e.before, e.cmd).0
  {
    var more := execs + [e];
    assert more[..|execs|] == execs;
    forall j | 0 <= j < |more|
      ensures more[j].before == RadioAfter(start, more[..j], process)
      ensures |more[j].cmd| == 5 && more[j].cmd[4] != CMD_RADIO_RESET ==>
            more[j].resp == Fit(process(more[j].before, more[j].cmd).1)
    {
      if j < |execs| { assert more[..j] == execs[..j]; }
    }
  }

  lemma ClientLeavesWork<S>(s: Channel<S>, i: nat)
    requires Inv(s) && Enabled(s, ClientStep(i))
    ensures DoClient(s, i).radio == s.radio && DoClient(s, i).execs == s.execs
  {
  }

  lemma ControllerLeavesWork<S>(s: Channel<S>, process: Processor<S>)
    requires Inv(s) && Enabled(s, ControllerStep)
    requires s.controller.Reading? ==> |s.controller.buf| < 5
    ensures DoController(s, process).radio == s.radio && DoController(s, process).execs == s.execs
  {
  }

  lemma StepKeepsWork<S>(start: S, s: Channel<S>, a: Action, process: Processor<S>)
    requires Inv(s) && Enabled(s, a)
    requires s.radio == RadioAfter(start, s.execs, process) && SerialWork(start, s.execs, process)
    ensures var t := Do(s, a, process);
      t.radio == RadioAfter(start, t.execs, process) && SerialWork(start, t.execs, process)
  {
    match a
    case ControllerStep =>
      if s.controller.Reading? && |s.controller.buf| == 5 {
        OneMoreExec(start, s.execs, DoController(s, process).execs[|s.execs|], process);
      } else {
        ControllerLeavesWork(s, process);
      }
    case ClientStep(i) => ClientLeavesWork(s, i);
    case _ =>
  }

  lemma {:induction false} RunKeepsWork<S>(start: S, s: Channel<S>, acts: seq<Action>, t: Channel<S>,
                                              process: Processor<S>)
    requires Inv(s) && Calm(s, acts, t, process)
    requires s.radio == RadioAfter(start, s.execs, process) && SerialWork(start, s.execs, process)
    ensures t.radio == RadioAfter(start, t.execs, process) && SerialWork(start, t.execs, process)
    decreases |acts|
  {
    if acts != [] {
      StepKeepsInv(s, acts[0], process);
      StepKeepsWork(start, s, acts[0], process);
      RunKeepsWork(start, Do(s, acts[0], process), acts[1..], t, process);
    }
  }

  // ----- main results -----

  /** A run without spurious wake-ups is calm. */
  lemma {:induction false} WithoutSpuriousWakesIsCalm<S>(s: Channel<S>, acts: seq<Action>, t: Channel<S>,
    process: Processor<S>)
    requires Init(s) && Run(s, acts, t, process) && SpuriousWake !in acts
    ensures Calm(s, acts, t, process)
  {
    SignalsAreWanted(s, acts, t, process);
  }

  /** Execution never sees a half-written command and runs each issued command at
      most once, in the order of issue; the radio is the result of running the
      executed commands one after another. This holds of every calm run, spurious
      wake-ups or not. */
  lemma {:induction false} ExecutionsAreSerial<S>(s: Channel<S>, acts: seq<Action>, t: Channel<S>,
    process: Processor<S>)
    requires Init(s) && Calm(s, acts, t, process)
    ensures forall j :: 0 <= j < |t.execs| ==>
      t.execs[j].ticket < |t.issued| && t.execs[j].cmd == t.issued[t.execs[j].ticket]
    ensures forall j, k :: 0 <= j < k < |t.execs| ==> t.execs[j].ticket < t.execs[k].ticket
    ensures t.radio == RadioAfter(s.radio, t.execs, process)
    ensures SerialWork(s.radio, t.execs, process)
  {
    RunKeepsInv(s, acts, t, process);
    RunKeepsWork(s.radio, s, acts, t, process);
  }

  /** The execution a successful reply came from, and that it is no other reply's. */
  lemma AnswerOf<S>(t: Channel<S>, r: Reply) returns (j: nat)
    requires Inv(t) && r in t.replies && r.ok
    ensures j < |t.execs|
    ensures t.execs[j].ticket == r.ticket && t.execs[j].cmd == r.cmd && t.execs[j].resp == r.bytes
    ensures forall q :: q in t.replies && q != r ==> q.ticket != r.ticket
  {
    hide ControllerInv, CallerInv, LockInv, ExecsInv;
    assert Answered(t.execs, r);
    j :| 0 <= j < |t.execs| && t.execs[j].ticket == r.ticket && t.execs[j].cmd == r.cmd && t.execs[j].resp == r.bytes;
    forall q | q in t.replies && q != r
      ensures q.ticket != r.ticket
    {
      var a :| 0 <= a < |t.replies| && t.replies[a] == q;
      var b :| 0 <= b < |t.replies| && t.replies[b] == r;
      assert a < b || b < a;
    }
  }

  /** A radio_cmd that returns true returns the whole response computed for its own
      five bytes, whatever earlier callers timed out; and no two calls share an
      execution. */
  lemma TrueMeansOwnResponse<S>(s: Channel<S>, acts: seq<Action>, t: Channel<S>, process: Processor<S>, r: Reply)
    returns (j: nat)
    requires Init(s) && Calm(s, acts, t, process)
    requires r in t.replies && r.ok
    ensures j < |t.execs|
    ensures t.execs[j].ticket == r.ticket && t.execs[j].cmd == r.cmd
    ensures r.bytes == Fit(process(RadioAfter(s.radio, t.execs[..j], process), r.cmd).1)
    ensures
      var resp := process(RadioAfter(s.radio, t.execs[..j], process), r.cmd).1;
      |r.bytes| == 5 && forall k :: 0 <= k < 5 ==> r.bytes[k] as int == if k < |resp| then resp[k] else 0
    ensures forall q :: q in t.replies && q != r ==> q.ticket != r.ticket
  {
    RunKeepsInv(s, acts, t, process);
    RunKeepsWork(s.radio, s, acts, t, process);
    j := AnswerOf(t, r);
    hide Inv, Calm, Init, RadioAfter;
  }

  /** The two mutexes exclude: the command bytes are written only while no execution
      reads them, and a caller copies the response only while the controller is
      parked at its wait or woken for nothing. The flag is down when a command is
      signalled, and again when its response has been taken. */
  lemma {:induction false} BuffersAreExclusive<S>(s: Channel<S>, acts: seq<Action>, t: Channel<S>,
    process: Processor<S>, i: nat)
    requires Init(s) && Calm(s, acts, t, process)
    requires i < |t.clients|
    ensures t.clients[i].pc.Storing? ==> !ControllerHasLock(t.controller)
    ensures t.clients[i].pc.Fetching? ==>
      t.controller == AboutToWait || t.controller == Asleep || (t.controller == Woken && SpuriousWake in acts)
    ensures t.clients[i].pc == Signal || (t.clients[i].pc.Release? && t.clients[i].pc.ok) ==> !t.available
    ensures forall k :: 0 <= k < |t.clients| && k != i && HasResponseLock(t.clients[i].pc) ==>
      !HasResponseLock(t.clients[k].pc)
  {
    RunKeepsInv(s, acts, t, process);
    if SpuriousWake !in acts {
      CalmIsRun(s, acts, t, process);
      SignalsAreWanted(s, acts, t, process);
    }
    hide Calm, Run, Init, RepliesInv, ExecsInv;
  }

  lemma {:induction false} CalmIsRun<S>(s: Channel<S>, acts: seq<Action>, t: Channel<S>, process: Processor<S>)
    requires Calm(s, acts, t, process)
    ensures Run(s, acts, t, process)
    decreases |acts|
  {
    if acts != [] {
      CalmIsRun(Do(s, acts[0], process), acts[1..], t, process);
    }
  }
}
