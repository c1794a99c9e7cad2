/** The low-pass filters and the T/R line: every write to their pins, in order. */
module FilterPins {

  const TX_LINE: int := 4
  const LPF_A: int := 5
  const LPF_B: int := 6
  const LPF_C: int := 10
  const LPF_D: int := 11
  const TX_POWER: int := 27

  datatype Write = Write(pin: int, high: bool)

  /** The level of a pin after some writes. */
  predicate High(ws: seq<Write>, pin: int) {
    ws != [] && (if ws[|ws| - 1].pin == pin then ws[|ws| - 1].high else High(ws[..|ws| - 1], pin))
  }

  lemma {:induction false} HighAfter(ws: seq<Write>, w: Write, pin: int)
    ensures High(ws + [w], pin) == if w.pin == pin then w.high else High(ws, pin)
  {
    assert (ws + [w])[..|ws|] == ws;
  }

  predicate IsFilter(pin: int) {
    pin == LPF_A || pin == LPF_B || pin == LPF_C || pin == LPF_D
  }

  function One(b: bool): nat {
    if b then 1 else 0
  }

  /** How many filters are on. */
  function OnCount(ws: seq<Write>): nat {
    One(High(ws, LPF_A)) + One(High(ws, LPF_B)) + One(High(ws, LPF_C)) + One(High(ws, LPF_D))
  }

  // ----- the states of the code -----

  /** The pin for a frequency; from 30 MHz on it is 0, which is no filter. */
  function LpfFor(frequency: int): int {
    if frequency < 5_500_000 then LPF_D
    else if frequency < 10_500_000 then LPF_C
    else if frequency < 18_500_000 then LPF_B
    else if frequency < 30_000_000 then LPF_A
    else 0
  }

  datatype State = State(prevLpf: int, freqHdr: int, offset: int, inTx: bool, ws: seq<Write>)

  datatype Op = Tune(frequency: int) | Switch(on: bool) | SetOffset(n: int)

  function AllOff(): seq<Write> {
    [Write(LPF_A, false), Write(LPF_B, false), Write(LPF_C, false), Write(LPF_D, false)]
  }

  function Drive(s: State, lpf: int): State {
    s.(prevLpf := lpf, ws := s.ws + AllOff() + [Write(lpf, true)])
  }

  /** set_lpf_40mhz; with `cached` false it would never skip the work. */
  function SetLpf(s: State, frequency: int, cached: bool): State {
    if cached && LpfFor(frequency) == s.prevLpf then s else Drive(s, LpfFor(frequency))
  }

  /** After the four filters are off, the T/R line is switched. */
  function Switched(s: State, on: bool): State {
    s.(ws := s.ws + AllOff() + [Write(TX_LINE, on)], prevLpf := -1, inTx := on)
  }

  function Step(s: State, op: Op, cached: bool): State {
    match op
    case Tune(f) =>
      if f == s.freqHdr then s else SetLpf(s.(freqHdr := f), f + s.offset, cached)
    case Switch(on) =>
      SetLpf(Switched(s, on), s.freqHdr, cached)
    case SetOffset(n) => s.(offset := n)
  }

  const INIT := State(-1, -1, 0, false, AllOff() + [Write(TX_LINE, false), Write(TX_POWER, false)])

  function Run(s: State, ops: seq<Op>, cached: bool): State
    decreases |ops|
  {
    if ops == [] then s else Step(Run(s, ops[..|ops| - 1], cached), ops[|ops| - 1], cached)
  }

  // ----- safety at every write -----

  /** At most one filter is on afterwards, and the T/R line changes only while all are off. */
  ghost predicate Quiet(before: seq<Write>, w: Write) {
    && OnCount(before + [w]) <= 1
    && (w.pin == TX_LINE && w.high != High(before, TX_LINE) ==> OnCount(before) == 0)
  }

  ghost predicate SafeTrace(ws: seq<Write>) {
    OnCount(ws) <= 1 && forall k :: 0 <= k < |ws| ==> Quiet(ws[..k], ws[k])
  }

  lemma SafeAppend(ws: seq<Write>, w: Write)
    requires SafeTrace(ws) && Quiet(ws, w)
    ensures SafeTrace(ws + [w])
  {
    hide Quiet, High;
    var all := ws + [w];
    forall k | 0 <= k < |all|
      ensures Quiet(all[..k], all[k])
    {
      if k < |ws| {
        assert all[..k] == ws[..k];
      } else {
        assert all[..k] == ws;
      }
    }
    assert OnCount(all) <= 1 by {
      QuietMeans(ws, w);
    }
  }

  lemma QuietMeans(ws: seq<Write>, w: Write)
    requires Quiet(ws, w)
    ensures OnCount(ws + [w]) <= 1
  {
  }

  /** Turning a filter off is always safe. */
  lemma OffIsQuiet(ws: seq<Write>, pin: int)
    requires SafeTrace(ws) && IsFilter(pin)
    ensures SafeTrace(ws + [Write(pin, false)])
  {
    hide High;
    var w := Write(pin, false);
    HighAfter(ws, w, LPF_A);
    HighAfter(ws, w, LPF_B);
    HighAfter(ws, w, LPF_C);
    HighAfter(ws, w, LPF_D);
    SafeAppend(ws, w);
  }

  /** The four writes that turn all filters off. */
  lemma {:induction false} OffAfter(ws: seq<Write>, pin: int)
    ensures High(ws + AllOff(), pin) == (!IsFilter(pin) && High(ws, pin))
  {
    hide High;
    var a, b, c, d := Write(LPF_A, false), Write(LPF_B, false), Write(LPF_C, false), Write(LPF_D, false);
    HighAfter(ws, a, pin);
    HighAfter(ws + [a], b, pin);
    HighAfter(ws + [a] + [b], c, pin);
    HighAfter(ws + [a] + [b] + [c], d, pin);
    assert ws + AllOff() == ws + [a] + [b] + [c] + [d];
  }

  lemma OffIsSafe(ws: seq<Write>)
    requires SafeTrace(ws)
    ensures SafeTrace(ws + AllOff()) && OnCount(ws + AllOff()) == 0
  {
    hide High, SafeTrace;
    var a, b, c, d := Write(LPF_A, false), Write(LPF_B, false), Write(LPF_C, false), Write(LPF_D, false);
    OffIsQuiet(ws, LPF_A);
    OffIsQuiet(ws + [a], LPF_B);
    OffIsQuiet(ws + [a] + [b], LPF_C);
    OffIsQuiet(ws + [a] + [b] + [c], LPF_D);
    assert ws + AllOff() == ws + [a] + [b] + [c] + [d];
    OffAfter(ws, LPF_A);
    OffAfter(ws, LPF_B);
    OffAfter(ws, LPF_C);
    OffAfter(ws, LPF_D);
  }

  /** Any one write is safe once all filters are off. */
  lemma AnyIsQuiet(ws: seq<Write>, w: Write)
    requires SafeTrace(ws) && OnCount(ws) == 0
    ensures SafeTrace(ws + [w])
    ensures !IsFilter(w.pin) ==> OnCount(ws + [w]) == 0
  {
    hide High;
    HighAfter(ws, w, LPF_A);
    HighAfter(ws, w, LPF_B);
    HighAfter(ws, w, LPF_C);
    HighAfter(ws, w, LPF_D);
    SafeAppend(ws, w);
  }

  /** Of the filters just this one is on, and a pin that is no filter is high too. */
  ghost predicate OnlyOn(ws: seq<Write>, lpf: int) {
    High(ws, lpf) && forall pin :: IsFilter(pin) ==> (High(ws, pin) <==> pin == lpf)
  }

  ghost predicate Inv(s: State) {
    && SafeTrace(s.ws)
    && (s.prevLpf != -1 ==> OnlyOn(s.ws, s.prevLpf))
    && (High(s.ws, TX_LINE) <==> s.inTx)
  }

  /** What the five writes for a filter do to any pin. */
  lemma {:induction false} DriveAfter(s: State, lpf: int, pin: int)
    ensures High(Drive(s, lpf).ws, pin) == (pin == lpf || (!IsFilter(pin) && High(s.ws, pin)))
  {
    hide High;
    OffAfter(s.ws, pin);
    HighAfter(s.ws + AllOff(), Write(lpf, true), pin);
  }

  lemma DriveKeeps(s: State, lpf: int)
    requires SafeTrace(s.ws) && lpf != TX_LINE
    ensures SafeTrace(Drive(s, lpf).ws) && OnlyOn(Drive(s, lpf).ws, lpf)
    ensures High(Drive(s, lpf).ws, TX_LINE) == High(s.ws, TX_LINE)
  {
    hide High, SafeTrace, OnCount;
    OffIsSafe(s.ws);
    AnyIsQuiet(s.ws + AllOff(), Write(lpf, true));
    DriveAfter(s, lpf, TX_LINE);
    DriveAfter(s, lpf, lpf);
    forall pin | IsFilter(pin)
      ensures High(Drive(s, lpf).ws, pin) <==> pin == lpf
    {
      DriveAfter(s, lpf, pin);
    }
  }

  lemma SwitchedKeeps(s: State, on: bool)
    requires Inv(s)
    ensures Inv(Switched(s, on))
  {
    hide High, SafeTrace, OnCount;
    OffIsSafe(s.ws);
    AnyIsQuiet(s.ws + AllOff(), Write(TX_LINE, on));
    HighAfter(s.ws + AllOff(), Write(TX_LINE, on), TX_LINE);
  }

  lemma StepKeeps(s: State, op: Op, cached: bool)
    requires Inv(s)
    ensures Inv(Step(s, op, cached))
    ensures op.Switch? ==> Step(s, op, cached).prevLpf == LpfFor(s.freqHdr)
    ensures op.Tune? && op.frequency != s.freqHdr ==> Step(s, op, cached).prevLpf == LpfFor(op.frequency + s.offset)
  {
    hide High, SafeTrace, OnlyOn;
    match op
    case Tune(f) =>
      DriveKeeps(s.(freqHdr := f), LpfFor(f + s.offset));
    case Switch(on) =>
      SwitchedKeeps(s, on);
      DriveKeeps(Switched(s, on), LpfFor(s.freqHdr));
    case SetOffset(n) =>
  }

  lemma InitKeeps()
    ensures Inv(INIT)
  {
    hide High;
    assert [] + AllOff() == AllOff();
    assert SafeTrace([]) by {
      NothingHigh(LPF_A);
      NothingHigh(LPF_B);
      NothingHigh(LPF_C);
      NothingHigh(LPF_D);
    }
    OffIsSafe([]);
    var a := AllOff() + [Write(TX_LINE, false)];
    AnyIsQuiet(AllOff(), Write(TX_LINE, false));
    AnyIsQuiet(a, Write(TX_POWER, false));
    HighAfter(AllOff(), Write(TX_LINE, false), TX_LINE);
    HighAfter(a, Write(TX_POWER, false), TX_LINE);
    assert INIT.ws == a + [Write(TX_POWER, false)];
  }

  lemma {:induction false} NothingHigh(pin: int)
    ensures !High([], pin)
  {
  }

  lemma {:induction false} RunKeeps(ops: seq<Op>, cached: bool)
    ensures Inv(Run(INIT, ops, cached))
    decreases |ops|
  {
    hide Inv, Step;
    if ops == [] {
      InitKeeps();
    } else {
      RunKeeps(ops[..|ops| - 1], cached);
      StepKeeps(Run(INIT, ops[..|ops| - 1], cached), ops[|ops| - 1], cached);
    }
  }

  /** Over every sequence of tuning and switching, at every single write of it: at most
      one filter is on, and the T/R line changes only while all four are off. */
  lemma {:induction false} EveryWriteIsSafe(ops: seq<Op>, k: nat)
    requires k < |Run(INIT, ops, true).ws|
    ensures
      var ws := Run(INIT, ops, true).ws;
      && OnCount(ws[..k + 1]) <= 1
      && (ws[k].pin == TX_LINE && ws[k].high != High(ws[..k], TX_LINE) ==> OnCount(ws[..k]) == 0)
  {
    hide High, Step, OnCount;
    RunKeeps(ops, true);
    var ws := Run(INIT, ops, true).ws;
    assert Quiet(ws[..k], ws[k]);
    assert ws[..k] + [ws[k]] == ws[..k + 1];
  }

  // ----- skipping the work changes nothing -----

  ghost predicate SamePins(a: seq<Write>, b: seq<Write>) {
    forall pin :: High(a, pin) == High(b, pin)
  }

  ghost predicate Alike(s: State, u: State) {
    s.freqHdr == u.freqHdr && s.offset == u.offset && s.inTx == u.inTx && SamePins(s.ws, u.ws)
  }

  lemma SetLpfAlike(s: State, u: State, frequency: int)
    requires Inv(s) && Alike(s, u)
    ensures Alike(SetLpf(s, frequency, true), SetLpf(u, frequency, false))
  {
    hide High, SafeTrace;
    var lpf := LpfFor(frequency);
    forall pin
      ensures High(SetLpf(s, frequency, true).ws, pin) == High(SetLpf(u, frequency, false).ws, pin)
    {
      assert High(s.ws, pin) == High(u.ws, pin);
      DriveAfter(u, lpf, pin);
      DriveAfter(s, lpf, pin);
    }
  }

  lemma SwitchedAlike(s: State, u: State, on: bool)
    requires Alike(s, u)
    ensures Alike(Switched(s, on), Switched(u, on))
  {
    hide High;
    forall pin
      ensures High(Switched(s, on).ws, pin) == High(Switched(u, on).ws, pin)
    {
      assert High(s.ws, pin) == High(u.ws, pin);
      OffAfter(s.ws, pin);
      OffAfter(u.ws, pin);
      HighAfter(s.ws + AllOff(), Write(TX_LINE, on), pin);
      HighAfter(u.ws + AllOff(), Write(TX_LINE, on), pin);
    }
  }

  lemma {:induction false} RunsAlike(ops: seq<Op>)
    ensures Alike(Run(INIT, ops, true), Run(INIT, ops, false))
    decreases |ops|
  {
    if ops != [] {
      RunsAlike(ops[..|ops| - 1]);
      RunKeeps(ops[..|ops| - 1], true);
      StepAlike(Run(INIT, ops[..|ops| - 1], true), Run(INIT, ops[..|ops| - 1], false), ops[|ops| - 1]);
    }
  }

  lemma StepAlike(s: State, u: State, op: Op)
    requires Inv(s) && Alike(s, u)
    ensures Alike(Step(s, op, true), Step(u, op, false))
  {
    hide SamePins, Inv, SetLpf;
    match op
    case Tune(f) =>
      if f != s.freqHdr {
        FreqIsNoPin(s, f);
        SetLpfAlike(s.(freqHdr := f), u.(freqHdr := f), f + s.offset);
      }
    case Switch(on) =>
      SwitchedKeeps(s, on);
      SwitchedAlike(s, u, on);
      SetLpfAlike(Switched(s, on), Switched(u, on), s.freqHdr);
    case SetOffset(n) =>
  }

  lemma FreqIsNoPin(s: State, f: int)
    requires Inv(s)
    ensures Inv(s.(freqHdr := f))
  {
  }

  /** After any run every pin has the level it would have if the filter had been
      driven again each time instead of compared with the last one. */
  lemma {:induction false} CachingIsInvisible(ops: seq<Op>, pin: int)
    ensures High(Run(INIT, ops, true).ws, pin) == High(Run(INIT, ops, false).ws, pin)
  {
    hide High;
    RunsAlike(ops);
  }

  // ----- tuning and switching do not always agree -----

  /** Tuning selects the filter for the corrected frequency, switching the one for
      the uncorrected: the T/R switch changes the filter exactly if the correction
      crosses a band edge. */
  lemma {:induction false} SwitchKeepsTunedFilter(ops: seq<Op>, f: int, on: bool)
    requires f != Run(INIT, ops, true).freqHdr
    ensures
      var s := Run(INIT, ops, true);
      var tuned := Step(s, Tune(f), true);
      var switched := Step(tuned, Switch(on), true);
      (forall pin :: IsFilter(pin) ==> High(tuned.ws, pin) == High(switched.ws, pin))
      <==> LpfFor(f) == LpfFor(f + s.offset)
  {
    hide High;
    var s := Run(INIT, ops, true);
    RunKeeps(ops, true);
    StepKeeps(s, Tune(f), true);
    var tuned := Step(s, Tune(f), true);
    StepKeeps(tuned, Switch(on), true);
    var switched := Step(tuned, Switch(on), true);
    LpfIsFilterOrNone(f);
    LpfIsFilterOrNone(f + s.offset);
    hide Step, Run, SafeTrace, LpfFor;
    assert OnlyOn(tuned.ws, LpfFor(f + s.offset)) && OnlyOn(switched.ws, LpfFor(f));
  }

  lemma LpfIsFilterOrNone(f: int)
    ensures IsFilter(LpfFor(f)) || LpfFor(f) == 0
  {
  }

  lemma LpfIsNotUnset(f: int)
    ensures LpfFor(f) != -1
  {
  }

  // ----- which pins -----

  /** The filter pins for a frequency: 11 below 5.5 MHz, 10 to 10.5, 6 to 18.5, 5 to 30,
      and none above. */
  ghost predicate FiltersFor(ws: seq<Write>, f: int) {
    && (High(ws, 11) <==> f < 5_500_000)
    && (High(ws, 10) <==> 5_500_000 <= f < 10_500_000)
    && (High(ws, 6) <==> 10_500_000 <= f < 18_500_000)
    && (High(ws, 5) <==> 18_500_000 <= f < 30_000_000)
  }

  lemma OnlyOnMeans(ws: seq<Write>, f: int)
    requires OnlyOn(ws, LpfFor(f))
    ensures FiltersFor(ws, f)
  {
    assert IsFilter(11) && IsFilter(10) && IsFilter(6) && IsFilter(5);
    hide High;
  }

  /** From any state, with the offset of the moment: the filter follows the corrected
      frequency when tuning to a new one, and the frequency itself when switching. */
  lemma FiltersFollow(s: State, op: Op)
    requires Inv(s)
    ensures
      var t := Step(s, op, true);
      && (op.Tune? && op.frequency != s.freqHdr ==>
            FiltersFor(t.ws, op.frequency + s.offset) && t.freqHdr == op.frequency)
      && (op.Switch? ==> FiltersFor(t.ws, s.freqHdr) && (High(t.ws, 4) <==> op.on) && t.inTx == op.on)
      && (!op.Tune? ==> t.freqHdr == s.freqHdr) && (!op.Switch? ==> t.inTx == s.inTx)
      && t.offset == (if op.SetOffset? then op.n else s.offset)
  {
    StepKeeps(s, op, true);
    if op.Tune? {
      LpfIsNotUnset(op.frequency + s.offset);
    } else {
      LpfIsNotUnset(s.freqHdr);
    }
    var t := Step(s, op, true);
    hide Inv, High, SafeTrace, OnlyOn, LpfFor, FiltersFor;
    if op.Tune? && op.frequency != s.freqHdr {
      assert OnlyOn(t.ws, LpfFor(op.frequency + s.offset)) by {
        OnlyOnAfter(t);
      }
      OnlyOnMeans(t.ws, op.frequency + s.offset);
    } else if op.Switch? {
      assert OnlyOn(t.ws, LpfFor(s.freqHdr)) by {
        OnlyOnAfter(t);
      }
      OnlyOnMeans(t.ws, s.freqHdr);
      LineAfter(t);
    }
  }

  lemma LpfDrives(s: State, f: int)
    requires Inv(s)
    ensures FiltersFor(SetLpf(s, f, true).ws, f)
  {
    LpfIsNotUnset(f);
    DriveKeeps(s, LpfFor(f));
    assert OnlyOn(SetLpf(s, f, true).ws, LpfFor(f));
    hide OnlyOn, FiltersFor, LpfFor, SetLpf;
    OnlyOnMeans(SetLpf(s, f, true).ws, f);
  }

  /** The setup leaves all pins low. */
  lemma NothingIsHigh()
    ensures forall pin :: !High(INIT.ws, pin)
  {
    forall pin
      ensures !High(INIT.ws, pin)
    {
      OffAfter([], pin);
      NothingHigh(pin);
      assert [] + AllOff() == AllOff();
      var a := AllOff() + [Write(TX_LINE, false)];
      HighAfter(AllOff(), Write(TX_LINE, false), pin);
      HighAfter(a, Write(TX_POWER, false), pin);
      assert INIT.ws == a + [Write(TX_POWER, false)];
      hide High;
    }
  }

  lemma OnlyOnAfter(t: State)
    requires Inv(t) && t.prevLpf != -1
    ensures OnlyOn(t.ws, t.prevLpf)
  {
  }

  lemma LineAfter(t: State)
    requires Inv(t)
    ensures High(t.ws, 4) <==> t.inTx
  {
  }

  // ----- the code -----

  class Radio {
    var prevLpf: int
    var freqHdr: int
    var offset: int
    var inTx: bool
    var ws: seq<Write>

    ghost function Value(): State
      reads this
    {
      State(prevLpf, freqHdr, offset, inTx, ws)
    }

    constructor ()
      ensures Value() == INIT && Inv(Value())
      ensures forall pin :: !High(ws, pin)
      ensures ws == [Write(5, false), Write(6, false), Write(10, false), Write(11, false),
                     Write(4, false), Write(27, false)]
      ensures prevLpf == freqHdr == -1 && offset == 0 && !inTx
    {
      prevLpf, freqHdr, offset, inTx := -1, -1, 0, false;
      ws := [];
      new;
      FiltersOff();
      DigitalWrite(TX_LINE, false);
      DigitalWrite(TX_POWER, false);
      InitKeeps();
      NothingIsHigh();
      hide Inv;
    }

    method DigitalWrite(pin: int, high: bool)
      modifies this`ws
      ensures ws == old(ws) + [Write(pin, high)]
    {
      ws := ws + [Write(pin, high)];
    }

    method FiltersOff()
      modifies this`ws
      ensures ws == old(ws) + AllOff()
    {
      DigitalWrite(LPF_A, false);
      DigitalWrite(LPF_B, false);
      DigitalWrite(LPF_C, false);
      DigitalWrite(LPF_D, false);
    }

    method SetLpf40MHz(frequency: int)
      modifies this`ws, this`prevLpf
      ensures Value() == SetLpf(old(Value()), frequency, true)
      ensures old(Inv(Value())) ==> FiltersFor(ws, frequency)
    {
      if Inv(Value()) {
        LpfDrives(Value(), frequency);
      }
      hide FiltersFor, Inv;
      var lpf := 0;
      if frequency < 5_500_000 {
        lpf := LPF_D;
      } else if frequency < 10_500_000 {
        lpf := LPF_C;
      } else if frequency < 18_500_000 {
        lpf := LPF_B;
      } else if frequency < 30_000_000 {
        lpf := LPF_A;
      }
      if lpf == prevLpf {
        return;
      }
      FiltersOff();
      DigitalWrite(lpf, true);
      prevLpf := lpf;
    }

    method SetRx1(frequency: int)
      modifies this
      ensures Value() == Step(old(Value()), Tune(frequency), true)
      ensures old(Inv(Value())) ==> Inv(Value())
      ensures old(Inv(Value())) && frequency != old(freqHdr) ==> FiltersFor(ws, frequency + old(offset))
      ensures freqHdr == frequency && inTx == old(inTx)
    {
      hide Inv, FiltersFor;
      if Inv(Value()) {
        StepKeeps(Value(), Tune(frequency), true);
        FiltersFollow(Value(), Tune(frequency));
      }
      if frequency == freqHdr {
        return;
      }
      freqHdr := frequency;
      SetLpf40MHz(frequency + offset);
    }

    method TrSwitch(on: bool)
      modifies this
      ensures Value() == Step(old(Value()), Switch(on), true)
      ensures old(Inv(Value())) ==> Inv(Value()) && OnlyOn(ws, LpfFor(freqHdr)) && FiltersFor(ws, freqHdr)
      ensures old(Inv(Value())) ==> (High(ws, 4) <==> on)
      ensures freqHdr == old(freqHdr) && inTx == on
    {
      if Inv(Value()) {
        StepKeeps(Value(), Switch(on), true);
        LpfIsNotUnset(freqHdr);
        FiltersFollow(Value(), Switch(on));
      }
      hide OnlyOn, High, SafeTrace, FiltersFor;
      FiltersOff();
      if on {
        inTx := true;
        DigitalWrite(TX_LINE, true);
        prevLpf := -1;
        SetLpf40MHz(freqHdr);
      } else {
        DigitalWrite(TX_LINE, false);
        prevLpf := -1;
        SetLpf40MHz(freqHdr);
        inTx := false;
      }
    }
  }
}
