/** Transmitting and its protection: PTT and keying commands, the PTT line, power
    readings and resets, each call atomic, over the T/R switch and its pins. */
module TxProtection {
  import opened Fractions
  import FilterPins

  const TX_OFF: nat := 0
  const TX_PTT: nat := 1
  const TX_SOFT: nat := 2
  const REF_PEAK_REMOVAL: nat := 10

  const CMD_ALERT_PROTECTION_ON: nat := 0x11
  const CMD_RESP_ACK: nat := 0x15
  const CMD_RESP_PTT_ON_NACK: nat := 0x16
  const CMD_RESP_PTT_OFF_NACK: nat := 0x17

  type uint16 = n: nat | n < 0x1_0000

  /** Forward and reflected voltage as read from the bridge, or a failed read. */
  datatype Reading = Failed | Levels(vfwd: uint16, vref: uint16)

  /** Ten times the standing-wave ratio as it is kept, in sixteen bits. */
  function StoredVswr(vfwd: uint16, vref: uint16): uint16 {
    var f: uint16 := if vref == vfwd then (vfwd + 1) % 0x1_0000 else vfwd;
    if vref > f then 100 else (10 * (f + vref) / (f - vref)) % 0x1_0000
  }

  /** A reading that counts towards a trip. */
  predicate IsHigh(threshold: uint16, vfwd: uint16, vref: uint16) {
    StoredVswr(vfwd, vref) > threshold && vref != 0
  }

  // ----- the states of the code -----

  /** `control` is in_tx of the user interface, radio.inTx the one of the signal path. */
  datatype State = State(control: nat, radio: FilterPins.State, protect: bool, peaks: nat, threshold: uint16)

  /** Each call with the frequency that set_operating_freq would ask for. */
  datatype Op =
    | PttOn(freq: int)
    | PttOff(freq: int)
    | Key(on: bool, freq: int)
    | Tick(watched: bool, low: bool, freq: int)
    | Power(reading: Reading, freq: int)
    | ResetProtection
    | SetThreshold(threshold: uint16)
    | Retune(freq: int)
    | Correct(offset: int)

  const INIT := State(TX_OFF, FilterPins.INIT, false, 0, 25)

  function Switched(s: State, control: nat, on: bool, freq: int): State {
    var r := FilterPins.Step(s.radio, FilterPins.Switch(on), true);
    s.(control := control, radio := FilterPins.Step(r, FilterPins.Tune(freq), true))
  }

  function TxOn(s: State, trigger: nat, freq: int): State {
    if s.protect || s.control != TX_OFF then s else Switched(s, trigger, true, freq)
  }

  function TxOff(s: State, freq: int): State {
    if s.control == TX_OFF then s else Switched(s, TX_OFF, false, freq)
  }

  function Counted(s: State, high: bool, freq: int): State {
    var n := if high then s.peaks + 1 else 0;
    if n > REF_PEAK_REMOVAL then TxOff(s.(protect := true, peaks := n), freq).(peaks := 0) else s.(peaks := n)
  }

  function Step(s: State, op: Op): State {
    match op
    case PttOn(f) => TxOn(s, TX_SOFT, f)
    case PttOff(f) => if s.protect then s else TxOff(s, f)
    case Key(on, f) => if on then TxOn(s, TX_SOFT, f) else TxOff(s, f)
    case Tick(watched, low, f) =>
      if !watched then s
      else if low && s.control == TX_OFF then TxOn(s, TX_PTT, f)
      else if !low && s.control == TX_PTT then TxOff(s, f)
      else s
    case Power(r, f) =>
      if !s.radio.inTx || r.Failed? then s else Counted(s, IsHigh(s.threshold, r.vfwd, r.vref), f)
    case ResetProtection => s.(protect := false)
    case SetThreshold(t) => s.(threshold := t)
    case Retune(f) => s.(radio := FilterPins.Step(s.radio, FilterPins.Tune(f), true))
    case Correct(n) => s.(radio := FilterPins.Step(s.radio, FilterPins.SetOffset(n), true))
  }

  function Run(ops: seq<Op>): State
    decreases |ops|
  {
    if ops == [] then INIT else Step(Run(ops[..|ops| - 1]), ops[|ops| - 1])
  }

  // ----- what every run keeps -----

  ghost predicate Inv(s: State) {
    && (s.control != TX_OFF <==> s.radio.inTx)
    && (s.protect ==> s.control == TX_OFF)
    && s.peaks <= REF_PEAK_REMOVAL
    && FilterPins.Inv(s.radio)
  }

  lemma RadioKeeps(r: FilterPins.State, op: FilterPins.Op)
    requires FilterPins.Inv(r)
    ensures FilterPins.Inv(FilterPins.Step(r, op, true))
    ensures FilterPins.Step(r, op, true).inTx == if op.Switch? then op.on else r.inTx
  {
    hide FilterPins.Inv;
    FilterPins.StepKeeps(r, op, true);
  }

  lemma SwitchedKeeps(s: State, control: nat, on: bool, freq: int)
    requires FilterPins.Inv(s.radio)
    ensures FilterPins.Inv(Switched(s, control, on, freq).radio) && Switched(s, control, on, freq).radio.inTx == on
  {
    hide FilterPins.Inv, FilterPins.Step;
    RadioKeeps(s.radio, FilterPins.Switch(on));
    RadioKeeps(FilterPins.Step(s.radio, FilterPins.Switch(on), true), FilterPins.Tune(freq));
  }

  lemma StepKeeps(s: State, op: Op)
    requires Inv(s)
    ensures Inv(Step(s, op))
    ensures s.protect && !op.ResetProtection? ==> Step(s, op).protect
  {
    hide FilterPins.Inv, FilterPins.Step, IsHigh;
    match op
    case PttOn(f) => SwitchedKeeps(s, TX_SOFT, true, f);
    case PttOff(f) => SwitchedKeeps(s, TX_OFF, false, f);
    case Key(on, f) =>
      SwitchedKeeps(s, TX_SOFT, true, f);
      SwitchedKeeps(s, TX_OFF, false, f);
    case Tick(_, _, f) =>
      SwitchedKeeps(s, TX_PTT, true, f);
      SwitchedKeeps(s, TX_OFF, false, f);
    case Power(_, f) => SwitchedKeeps(s.(protect := true, peaks := s.peaks + 1), TX_OFF, false, f);
    case Retune(f) => RadioKeeps(s.radio, FilterPins.Tune(f));
    case Correct(n) => RadioKeeps(s.radio, FilterPins.SetOffset(n));
    case _ =>
  }

  lemma {:induction false} RunKeeps(ops: seq<Op>)
    ensures Inv(Run(ops))
    decreases |ops|
  {
    hide Step, FilterPins.Inv;
    if ops == [] {
      FilterPins.InitKeeps();
    } else {
      hide Inv;
      RunKeeps(ops[..|ops| - 1]);
      StepKeeps(Run(ops[..|ops| - 1]), ops[|ops| - 1]);
    }
  }

  /** The two variables named in_tx agree, and with them the T/R line. */
  lemma {:induction false} InTxAgrees(ops: seq<Op>)
    ensures Run(ops).control != TX_OFF <==> Run(ops).radio.inTx
    ensures Run(ops).radio.inTx <==> FilterPins.High(Run(ops).radio.ws, FilterPins.TX_LINE)
  {
    hide Step;
    RunKeeps(ops);
  }

  /** Once protection is on nothing but a reset ends it, and until then nothing
      transmits: neither variable says so and the T/R line is low. */
  lemma {:induction false} ProtectionHolds(ops: seq<Op>, more: seq<Op>)
    requires Run(ops).protect && ResetProtection !in more
    ensures
      var s := Run(ops + more);
      s.protect && s.control == TX_OFF && !s.radio.inTx && !FilterPins.High(s.radio.ws, FilterPins.TX_LINE)
    decreases |more|
  {
    hide Step, FilterPins.High;
    if more == [] {
      assert ops + more == ops;
    } else {
      var n := |more| - 1;
      ProtectionHolds(ops, more[..n]);
      assert (ops + more)[..|ops + more| - 1] == ops + more[..n];
      assert (ops + more)[|ops + more| - 1] == more[n];
      RunKeeps(ops + more[..n]);
      StepKeeps(Run(ops + more[..n]), more[n]);
    }
    RunKeeps(ops + more);
    InTxAgrees(ops + more);
  }

  // ----- exactly when protection latches -----

  /** The step is a successful reading while transmitting. */
  predicate Counts(s: State, op: Op) {
    op.Power? && s.radio.inTx && op.reading.Levels?
  }

  predicate CountsHigh(s: State, op: Op)
    requires Counts(s, op)
  {
    IsHigh(s.threshold, op.reading.vfwd, op.reading.vref)
  }

  /** The successful transmit readings since the previous trip, each high or not. */
  function SinceTrip(ops: seq<Op>): seq<bool>
    decreases |ops|
  {
    if ops == [] then []
    else
      var n := |ops| - 1;
      var s := Run(ops[..n]);
      if !s.protect && Run(ops).protect then []
      else SinceTrip(ops[..n]) + (if Counts(s, ops[n]) then [CountsHigh(s, ops[n])] else [])
  }

  /** How many of the last readings, without a gap, were high. */
  function Trailing(w: seq<bool>): nat {
    if w == [] || !w[|w| - 1] then 0 else 1 + Trailing(w[..|w| - 1])
  }

  lemma {:induction false} TrailingOne(w: seq<bool>, b: bool)
    ensures Trailing(w + [b]) == if b then Trailing(w) + 1 else 0
  {
    assert (w + [b])[..|w|] == w;
  }

  lemma {:induction false} TrailingIs(w: seq<bool>, n: nat)
    ensures Trailing(w) >= n <==> |w| >= n && forall k :: |w| - n <= k < |w| ==> w[k]
    decreases n
  {
    if n > 0 && w != [] && w[|w| - 1] {
      TrailingIs(w[..|w| - 1], n - 1);
      if Trailing(w) >= n {
        forall k | |w| - n <= k < |w|
          ensures w[k]
        {
          if k < |w| - 1 {
            assert w[..|w| - 1][k];
          }
        }
      }
    }
  }

  lemma {:induction false} PeaksAreTrailing(ops: seq<Op>)
    ensures Run(ops).peaks == Trailing(SinceTrip(ops))
    decreases |ops|
  {
    if ops != [] {
      var n := |ops| - 1;
      PeaksAreTrailing(ops[..n]);
      var s := Run(ops[..n]);
      var op := ops[n];
      RunKeeps(ops[..n]);
      PeaksStep(s, op);
      if Counts(s, op) {
        TrailingOne(SinceTrip(ops[..n]), CountsHigh(s, op));
      }
      hide Step, IsHigh, Trailing;
      assert SinceTrip(ops[..n]) + [] == SinceTrip(ops[..n]);
      assert Trailing([]) == 0 by {
        TrailingNone();
      }
    }
  }

  lemma TrailingNone()
    ensures Trailing([]) == 0
  {
  }

  lemma PeaksStep(s: State, op: Op)
    requires Inv(s)
    ensures
      var t := Step(s, op);
      if Counts(s, op) then
        var n := if CountsHigh(s, op) then s.peaks + 1 else 0;
        !s.protect && (t.protect <==> n > REF_PEAK_REMOVAL) && t.peaks == (if t.protect then 0 else n)
      else t.peaks == s.peaks && (t.protect ==> s.protect)
  {
    hide FilterPins.Inv, FilterPins.Step, IsHigh;
  }

  /** Protection comes on exactly with a successful transmit reading that makes the
      last eleven of them since the previous trip all high. */
  lemma {:induction false} LatchesExactly(ops: seq<Op>, op: Op)
    requires !Run(ops).protect
    ensures
      var s := Run(ops);
      Run(ops + [op]).protect
      <==>
      && Counts(s, op)
      && var w := SinceTrip(ops) + [CountsHigh(s, op)];
         |w| >= 11 && forall k :: |w| - 11 <= k < |w| ==> w[k]
  {
    var s := Run(ops);
    RunKeeps(ops);
    PeaksAreTrailing(ops);
    PeaksStep(s, op);
    assert (ops + [op])[..|ops|] == ops;
    if Counts(s, op) {
      TrailingOne(SinceTrip(ops), CountsHigh(s, op));
      TrailingIs(SinceTrip(ops) + [CountsHigh(s, op)], 11);
    }
    hide Step, IsHigh, Trailing, SinceTrip, Inv;
  }

  // ----- what counts as high -----

  /** The forward level the ratio is taken with: one more if the levels are equal. */
  function Forward(vfwd: uint16, vref: uint16): uint16 {
    if vref == vfwd then (vfwd + 1) % 0x1_0000 else vfwd
  }

  lemma QuotientBelow(x: nat, d: nat, k: nat)
    requires d > 0
    ensures x / d < k <==> x < k * d
  {
    if x < k * d {
      DivBelow(x, d, k);
    } else {
      DivAtLeast(x, d, k);
    }
  }

  /** Below the forward level the ratio is kept whole exactly if it fits sixteen
      bits, which a caller can tell without dividing; from it on, 100 is kept. */
  lemma RatioIsWhole(vfwd: uint16, vref: uint16)
    ensures
      var f := Forward(vfwd, vref);
      if vref < f then
        (StoredVswr(vfwd, vref) == 10 * (f + vref) / (f - vref) <==> 10 * (f + vref) < 0x1_0000 * (f - vref))
      else StoredVswr(vfwd, vref) == 100
  {
    var f := Forward(vfwd, vref);
    if vref < f {
      var q := 10 * (f + vref) / (f - vref);
      QuotientBelow(10 * (f + vref), f - vref, 0x1_0000);
      assert StoredVswr(vfwd, vref) == q % 0x1_0000;
    }
  }

  /** The reading is above threshold without any sixteen-bit arithmetic. */
  predicate TrulyHigh(threshold: uint16, vfwd: uint16, vref: uint16) {
    var f := Forward(vfwd, vref);
    vref != 0 && if vref < f then 10 * (f + vref) >= (threshold + 1) * (f - vref) else threshold < 100
  }

  /** Whenever the ratio is kept whole a reading counts exactly if it is truly high. */
  lemma WholeRatioIsJudged(threshold: uint16, vfwd: uint16, vref: uint16)
    requires var f := Forward(vfwd, vref); vref < f ==> 10 * (f + vref) < 0x1_0000 * (f - vref)
    ensures IsHigh(threshold, vfwd, vref) <==> TrulyHigh(threshold, vfwd, vref)
  {
    RatioIsWhole(vfwd, vref);
    var f := Forward(vfwd, vref);
    if vref < f {
      QuotientBelow(10 * (f + vref), f - vref, threshold + 1);
    }
    hide StoredVswr;
  }

  /** What an analog input of ten bits can yield. */
  predicate TenBits(level: uint16) {
    level < 1024
  }

  /** The levels the radio's own firmware sends never lose a bit. */
  lemma TenBitReadings(threshold: uint16, vfwd: uint16, vref: uint16)
    requires TenBits(vfwd) && TenBits(vref)
    ensures IsHigh(threshold, vfwd, vref) <==> TrulyHigh(threshold, vfwd, vref)
    ensures threshold < 30 && vref >= vfwd && vref > 0 ==> IsHigh(threshold, vfwd, vref)
  {
    WholeRatioIsJudged(threshold, vfwd, vref);
    hide IsHigh;
    if threshold < 30 && vref == vfwd && vref > 0 {
      assert Forward(vfwd, vref) == vref + 1;
    }
  }

  /** Total reflection, both levels r, for every r: with ten bits it always counts
      at the threshold in use, but with sixteen it is judged by what is left of 20 r + 10. */
  lemma TotalReflection(threshold: uint16, r: uint16)
    ensures
      IsHigh(threshold, r, r)
      <==> r > 0 && (if r == 0xFFFF then 100 else (20 * r + 10) % 0x1_0000) > threshold
  {
    if r < 0xFFFF {
      assert 10 * (r + 1 + r) / (r + 1 - r) == 20 * r + 10;
    }
  }

  /** Some levels of more than ten bits pass for a ratio of 1.4. */
  lemma TotalReflectionCanBeMissed()
    ensures StoredVswr(3277, 3277) == 14 && !IsHigh(INIT.threshold, 3277, 3277) && !TenBits(3277)
  {
  }

  lemma OnAirExactly(s: State, freq: int)
    requires Inv(s)
    ensures Step(s, PttOn(freq)).radio.inTx && !s.radio.inTx <==> !s.protect && s.control == TX_OFF
  {
    SwitchedKeeps(s, TX_SOFT, true, freq);
    hide FilterPins.Inv, FilterPins.Step;
  }

  lemma OffAirExactly(s: State, freq: int)
    requires Inv(s)
    ensures !Step(s, PttOff(freq)).radio.inTx && s.radio.inTx <==> !s.protect && s.control != TX_OFF
  {
    SwitchedKeeps(s, TX_OFF, false, freq);
    hide FilterPins.Inv, FilterPins.Step;
  }

  predicate GoesOn(s: State, t: State) {
    !s.radio.inTx && t.radio.inTx
  }

  predicate GoesOff(s: State, t: State) {
    s.radio.inTx && !t.radio.inTx
  }

  /** A low line keys, and a line let go unkeys what it keyed. */
  lemma TickExactly(s: State, watched: bool, low: bool, freq: int)
    requires Inv(s)
    ensures
      var t := Step(s, Tick(watched, low, freq));
      && (GoesOn(s, t) <==> watched && low && !s.protect && !s.radio.inTx) && (GoesOn(s, t) ==> t.control == 1)
      && (GoesOff(s, t) <==> watched && !low && s.control == 1)
  {
    SwitchedKeeps(s, TX_PTT, true, freq);
    SwitchedKeeps(s, TX_OFF, false, freq);
    hide FilterPins.Inv, FilterPins.Step;
  }

  lemma KeyExactly(s: State, on: bool, freq: int)
    requires Inv(s)
    ensures
      var t := Step(s, Key(on, freq));
      && (GoesOn(s, t) <==> on && !s.protect && !s.radio.inTx) && (GoesOn(s, t) ==> t.control == 2)
      && (GoesOff(s, t) <==> !on && s.radio.inTx)
  {
    SwitchedKeeps(s, TX_SOFT, true, freq);
    SwitchedKeeps(s, TX_OFF, false, freq);
    hide FilterPins.Inv, FilterPins.Step;
  }

  lemma SwitchedFollows(s: State, control: nat, on: bool, freq: int)
    requires FilterPins.Inv(s.radio)
    ensures
      var t := Switched(s, control, on, freq);
      && t.radio.freqHdr == freq && t.radio.offset == s.radio.offset
      && FilterPins.FiltersFor(t.radio.ws, if freq == s.radio.freqHdr then freq else freq + s.radio.offset)
  {
    var r := FilterPins.Step(s.radio, FilterPins.Switch(on), true);
    FilterPins.FiltersFollow(s.radio, FilterPins.Switch(on));
    RadioKeeps(s.radio, FilterPins.Switch(on));
    FilterPins.FiltersFollow(r, FilterPins.Tune(freq));
    assert freq == r.freqHdr ==> FilterPins.Step(r, FilterPins.Tune(freq), true) == r;
    hide FilterPins.Inv, FilterPins.Step, FilterPins.FiltersFor;
  }

  /** The radio goes on and off the air on the frequency asked for, with the filter of
      that frequency: the corrected one unless it was tuned already. */
  lemma FilterOnAir(s: State, op: Op)
    requires Inv(s)
    ensures
      var t := Step(s, op);
      t.radio.inTx != s.radio.inTx ==>
        && (op.PttOn? || op.PttOff? || op.Key? || op.Tick? || op.Power?)
        && t.radio.freqHdr == op.freq
        && FilterPins.FiltersFor(t.radio.ws, if op.freq == s.radio.freqHdr then op.freq else op.freq + s.radio.offset)
  {
    hide FilterPins.Inv, FilterPins.Step, FilterPins.FiltersFor, IsHigh;
    if op.Retune? {
      RadioKeeps(s.radio, FilterPins.Tune(op.freq));
    } else if op.Correct? {
      RadioKeeps(s.radio, FilterPins.SetOffset(op.offset));
    } else if op.PttOn? || op.PttOff? || op.Key? || op.Tick? || op.Power? {
      SwitchedFollows(s, TX_SOFT, true, op.freq);
      SwitchedFollows(s, TX_PTT, true, op.freq);
      SwitchedFollows(s, TX_OFF, false, op.freq);
      SwitchedFollows(s.(protect := true, peaks := s.peaks + 1), TX_OFF, false, op.freq);
    }
  }

  /** What the settings change, and that nothing else changes them. */
  lemma SettersExactly(s: State, op: Op)
    requires Inv(s)
    ensures
      var t := Step(s, op);
      && t.threshold == (if op.SetThreshold? then op.threshold else s.threshold)
      && t.radio.offset == (if op.Correct? then op.offset else s.radio.offset)
      && (op.Retune? ==> t.radio.freqHdr == op.freq)
      && (op.Retune? && op.freq != s.radio.freqHdr ==>
            FilterPins.FiltersFor(t.radio.ws, op.freq + s.radio.offset))
  {
    hide FilterPins.Inv, FilterPins.Step, FilterPins.FiltersFor, IsHigh;
    if op.Retune? {
      FilterPins.FiltersFollow(s.radio, FilterPins.Tune(op.freq));
      assert op.freq == s.radio.freqHdr ==> FilterPins.Step(s.radio, FilterPins.Tune(op.freq), true) == s.radio by {
        TunedAlready(s.radio, op.freq);
      }
    } else if op.Correct? {
      FilterPins.FiltersFollow(s.radio, FilterPins.SetOffset(op.offset));
    } else if op.PttOn? || op.PttOff? || op.Key? || op.Tick? || op.Power? {
      SwitchedFollows(s, TX_SOFT, true, op.freq);
      SwitchedFollows(s, TX_PTT, true, op.freq);
      SwitchedFollows(s, TX_OFF, false, op.freq);
      SwitchedFollows(s.(protect := true, peaks := s.peaks + 1), TX_OFF, false, op.freq);
    }
  }

  lemma TunedAlready(r: FilterPins.State, freq: int)
    ensures freq == r.freqHdr ==> FilterPins.Step(r, FilterPins.Tune(freq), true) == r
  {
  }

  // ----- the code -----

  class Transmitter {
    var control: nat
    const radio: FilterPins.Radio
    var protect: bool
    var peaks: nat
    var threshold: uint16

    ghost function Value(): State
      reads this, radio
    {
      State(control, radio.Value(), protect, peaks, threshold)
    }

    constructor ()
      ensures Value() == INIT && Inv(Value()) && fresh(radio)
      ensures !protect && threshold == 25 && !radio.inTx
    {
      hide FilterPins.Inv;
      control, protect, peaks, threshold := TX_OFF, false, 0, 25;
      radio := new FilterPins.Radio();
    }

    method SwitchTx(trigger: nat, on: bool, freq: int)
      modifies this, radio
      ensures Value() == Switched(old(Value()), trigger, on, freq)
    {
      hide FilterPins.Step;
      radio.TrSwitch(on);
      control := trigger;
      radio.SetRx1(freq);
    }

    method TurnOn(trigger: nat, freq: int)
      requires trigger == TX_SOFT || trigger == TX_PTT
      modifies this, radio
      ensures Value() == TxOn(old(Value()), trigger, freq)
      ensures old(Inv(Value())) ==>
        && (!old(radio.inTx) && radio.inTx <==> !old(protect) && !old(radio.inTx))
        && (!old(radio.inTx) && radio.inTx ==> control == trigger) && (old(radio.inTx) ==> radio.inTx)
    {
      ghost var was := Value();
      if Inv(was) {
        SwitchedKeeps(was, trigger, true, freq);
      }
      hide Switched, FilterPins.Inv;
      if protect {
        return;
      }
      if control == TX_OFF {
        SwitchTx(trigger, true, freq);
      }
    }

    method TurnOff(freq: int)
      modifies this, radio
      ensures Value() == TxOff(old(Value()), freq)
      ensures old(Inv(Value())) ==> !radio.inTx && control == 0
    {
      ghost var was := Value();
      if Inv(was) {
        SwitchedKeeps(was, TX_OFF, false, freq);
      }
      hide Switched, FilterPins.Inv;
      if control != TX_OFF {
        SwitchTx(TX_OFF, false, freq);
      }
    }

    /** Soft keying: the commands #tx and #rx, and t and r of the command line. */
    method SoftKey(on: bool, freq: int)
      modifies this, radio
      ensures Value() == Step(old(Value()), Key(on, freq))
      ensures old(Inv(Value())) ==>
        && Inv(Value())
        && (!old(radio.inTx) && radio.inTx <==> on && !old(protect) && !old(radio.inTx))
        && (!old(radio.inTx) && radio.inTx ==> control == 2)
        && (old(radio.inTx) && !radio.inTx <==> !on && old(radio.inTx))
    {
      ghost var was := Value();
      if Inv(was) {
        StepKeeps(was, Key(on, freq));
        KeyExactly(was, on, freq);
      }
      hide Inv, Switched;
      if on {
        TurnOn(TX_SOFT, freq);
      } else {
        TurnOff(freq);
      }
    }

    /** CMD_PTT_ON: acknowledged exactly if it put the radio on the air. */
    method PttOnCommand(freq: int) returns (response: nat)
      modifies this, radio
      ensures Value() == Step(old(Value()), PttOn(freq))
      ensures response == 0x11 <==> old(protect)
      ensures response == 0x16 <==> !old(protect) && old(control) != 0
      ensures old(Inv(Value())) ==>
        && Inv(Value()) && (response == 0x15 <==> !old(radio.inTx) && radio.inTx)
        && (!old(radio.inTx) && radio.inTx <==> !old(protect) && !old(radio.inTx))
        && (!old(radio.inTx) && radio.inTx ==> control == 2) && (old(radio.inTx) ==> radio.inTx)
    {
      ghost var was := Value();
      if protect {
        response := CMD_ALERT_PROTECTION_ON;
      } else if control == TX_OFF {
        TurnOn(TX_SOFT, freq);
        response := CMD_RESP_ACK;
      } else {
        response := CMD_RESP_PTT_ON_NACK;
      }
      if Inv(was) {
        StepKeeps(was, PttOn(freq));
        OnAirExactly(was, freq);
      }
      hide Inv, Step;
    }

    /** CMD_PTT_OFF. */
    method PttOffCommand(freq: int) returns (response: nat)
      modifies this, radio
      ensures Value() == Step(old(Value()), PttOff(freq))
      ensures response == 0x11 <==> old(protect)
      ensures response == 0x17 <==> !old(protect) && old(control) == 0
      ensures old(Inv(Value())) ==>
        && Inv(Value()) && (response == 0x15 <==> old(radio.inTx) && !radio.inTx)
        && !radio.inTx
    {
      ghost var was := Value();
      if protect {
        response := CMD_ALERT_PROTECTION_ON;
      } else if control != TX_OFF {
        TurnOff(freq);
        response := CMD_RESP_ACK;
      } else {
        response := CMD_RESP_PTT_OFF_NACK;
      }
      if Inv(was) {
        StepKeeps(was, PttOff(freq));
        OffAirExactly(was, freq);
      }
      hide Inv, Step;
    }

    /** The PTT part of ui_tick: `watched` in the modes in which the line is looked at. */
    method UiTick(watched: bool, low: bool, freq: int)
      modifies this, radio
      ensures Value() == Step(old(Value()), Tick(watched, low, freq))
      ensures old(Inv(Value())) ==>
        && Inv(Value())
        && (!old(radio.inTx) && radio.inTx <==> watched && low && !old(protect) && !old(radio.inTx))
        && (!old(radio.inTx) && radio.inTx ==> control == 1)
        && (old(radio.inTx) && !radio.inTx <==> watched && !low && old(control) == 1)
      ensures old(control) == 2 ==> Value() == old(Value())
    {
      if Inv(Value()) {
        StepKeeps(Value(), Tick(watched, low, freq));
        TickExactly(Value(), watched, low, freq);
      }
      hide Switched, Inv;
      if watched {
        if low && control == TX_OFF {
          TurnOn(TX_PTT, freq);
        } else if !low && control == TX_PTT {
          TurnOff(freq);
        }
      }
    }

    static method Vswr(forward: uint16, vref: uint16) returns (vswr: uint16)
      ensures vswr == StoredVswr(forward, vref)
    {
      var vfwd: int := forward;
      if vref as int == vfwd {
        vfwd := (vfwd + 1) % 0x1_0000;
      }
      if vref as int > vfwd {
        vswr := 100;
      } else {
        vswr := (10 * (vfwd + vref as int) / (vfwd - vref as int)) % 0x1_0000;
      }
    }

    method ReadPower(reading: Reading, freq: int)
      modifies this, radio
      ensures Value() == Step(old(Value()), Power(reading, freq))
      ensures old(Inv(Value())) ==> Inv(Value()) && (protect ==> !radio.inTx)
    {
      hide Switched, StoredVswr, FilterPins.Inv;
      if Inv(Value()) {
        StepKeeps(Value(), Power(reading, freq));
      }
      if !radio.inTx || reading.Failed? {
        return;
      }
      var vswr := Vswr(reading.vfwd, reading.vref);
      if vswr > threshold && reading.vref != 0 {
        peaks := peaks + 1;
      } else {
        peaks := 0;
      }
      if peaks > REF_PEAK_REMOVAL {
        protect := true;
        TurnOff(freq);
        peaks := 0;
      }
    }

    method Reset()
      modifies this
      ensures Value() == Step(old(Value()), ResetProtection)
      ensures !protect && control == old(control) && peaks == old(peaks) && threshold == old(threshold)
      ensures old(Inv(Value())) ==> Inv(Value())
    {
      hide FilterPins.Inv;
      protect := false;
    }
  }
}
