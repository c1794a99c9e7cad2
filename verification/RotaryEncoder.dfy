/** The rotary encoder: quadrature states in, ticks out, with hysteresis. */
module RotaryEncoder {

  const ENC_FAST: nat := 1

  /** Both pins as two bits. */
  type Pins = n: nat | n < 4

  /** What a call of enc_read sees: the pins now, and again a little later. */
  datatype Sample = Sample(now: Pins, later: Pins)

  datatype State = State(history: int, prev: Pins)

  predicate Anticlockwise(a: Pins, b: Pins) {
    (a == 0 && b == 2) || (a == 2 && b == 3) || (a == 3 && b == 1) || (a == 1 && b == 0)
  }

  predicate Clockwise(a: Pins, b: Pins) {
    (a == 0 && b == 1) || (a == 1 && b == 3) || (a == 3 && b == 2) || (a == 2 && b == 0)
  }

  /** The sample is a change, and no bounce. */
  predicate Accepted(s: State, x: Sample) {
    x.now == x.later && x.now != s.prev
  }

  /** The quadrature step of an accepted sample; none if both bits changed. */
  function QuadStep(s: State, x: Sample): int {
    if !Accepted(s, x) then 0
    else if Anticlockwise(s.prev, x.now) then -1
    else if Clockwise(s.prev, x.now) then 1
    else 0
  }

  /** The state after a sample and the tick reported for it. */
  function Step(speed: nat, s: State, x: Sample): (State, int) {
    if !Accepted(s, x) then (s, 0)
    else
      var h := s.history + QuadStep(s, x);
      if h > speed then (State(0, x.now), 1)
      else if h < 0 - speed then (State(0, x.now), -1)
      else (State(h, x.now), 0)
  }

  function Run(speed: nat, s: State, xs: seq<Sample>): State
    decreases |xs|
  {
    if xs == [] then s else Run(speed, Step(speed, s, xs[0]).0, xs[1..])
  }

  function Ticks(speed: nat, s: State, xs: seq<Sample>): int
    decreases |xs|
  {
    if xs == [] then 0 else Step(speed, s, xs[0]).1 + Ticks(speed, Step(speed, s, xs[0]).0, xs[1..])
  }

  /** Quadrature steps accepted, clockwise less anticlockwise. */
  function NetSteps(speed: nat, s: State, xs: seq<Sample>): int
    decreases |xs|
  {
    if xs == [] then 0 else QuadStep(s, xs[0]) + NetSteps(speed, Step(speed, s, xs[0]).0, xs[1..])
  }

  /** Accepted samples in which both bits changed at once. */
  function Jumps(speed: nat, s: State, xs: seq<Sample>): nat
    decreases |xs|
  {
    if xs == [] then 0
    else
      (if Accepted(s, xs[0]) && QuadStep(s, xs[0]) == 0 then 1 else 0)
      + Jumps(speed, Step(speed, s, xs[0]).0, xs[1..])
  }

  // ----- conservation -----

  predicate Bounded(speed: nat, s: State) {
    0 - speed <= s.history <= speed
  }

  ghost predicate Conserved(speed: nat, s: State, xs: seq<Sample>) {
    NetSteps(speed, s, xs) == (speed + 1) * Ticks(speed, s, xs) + Run(speed, s, xs).history - s.history
  }

  lemma StepConserves(speed: nat, s: State, x: Sample)
    requires Bounded(speed, s)
    ensures Bounded(speed, Step(speed, s, x).0)
    ensures QuadStep(s, x) == (speed + 1) * Step(speed, s, x).1 + Step(speed, s, x).0.history - s.history
  {
    var tick := Step(speed, s, x).1;
    if tick == 1 {
      assert (speed + 1) * tick == speed + 1;
    } else if tick == -1 {
      assert (speed + 1) * tick == 0 - speed - 1;
    }
  }

  lemma {:induction false} RunConserves(speed: nat, s: State, xs: seq<Sample>)
    requires Bounded(speed, s)
    ensures Conserved(speed, s, xs) && Bounded(speed, Run(speed, s, xs))
    decreases |xs|
  {
    if xs != [] {
      hide QuadStep, Step;
      StepConserves(speed, s, xs[0]);
      var t := Step(speed, s, xs[0]).0;
      RunConserves(speed, t, xs[1..]);
      Distributes(speed + 1, Step(speed, s, xs[0]).1, Ticks(speed, t, xs[1..]));
    }
  }

  lemma Distributes(k: int, a: int, b: int)
    ensures k * (a + b) == k * a + k * b
  {
  }

  /** A state from which the pins go on clockwise, or anticlockwise. */
  function NextPins(prev: Pins, clockwise: bool): (p: Pins)
    ensures if clockwise then Clockwise(prev, p) else Anticlockwise(prev, p)
  {
    if clockwise then (if prev == 0 then 1 else if prev == 1 then 3 else if prev == 3 then 2 else 0)
    else (if prev == 0 then 2 else if prev == 2 then 3 else if prev == 3 then 1 else 0)
  }

  /** Every accepted step is accounted for, on whatever samples, exactly if the
      history is within the speed to begin with. */
  lemma ConservedExactlyIfBounded(speed: nat, s: State)
    ensures (forall xs :: Conserved(speed, s, xs)) <==> Bounded(speed, s)
  {
    if Bounded(speed, s) {
      forall xs
        ensures Conserved(speed, s, xs)
      {
        RunConserves(speed, s, xs);
      }
    } else {
      var p := NextPins(s.prev, s.history > speed);
      var x := Sample(p, p);
      assert [x][1..] == [];
      var tick := Step(speed, s, x).1;
      assert (speed + 1) * tick == if s.history > speed then speed + 1 else 0 - speed - 1;
      var t := Step(speed, s, x).0;
      assert Ticks(speed, s, [x]) == tick + Ticks(speed, t, []);
      assert Run(speed, s, [x]) == Run(speed, t, []);
      assert NetSteps(speed, s, [x]) == QuadStep(s, x) + NetSteps(speed, t, []);
      assert !Conserved(speed, s, [x]);
    }
  }

  /** enc_init leaves a history of 5. */
  const START := State(5, 0)

  /** That is out of bounds for the speed in use, so the first accepted change is
      reported as clockwise whichever way the knob went. */
  lemma FirstTickIsClockwise(speed: nat, x: Sample)
    requires speed < 4 && Accepted(START, x)
    ensures Step(speed, START, x) == (State(0, x.now), 1)
  {
  }

  /** The interrupt routines drop the tick of their first call. From there on every
      step is accounted for exactly if that call was an accepted change. */
  lemma CleanAfterFirstCall(x: Sample)
    ensures
      (forall xs :: Conserved(ENC_FAST, Step(ENC_FAST, START, x).0, xs)) <==> Accepted(START, x)
  {
    ConservedExactlyIfBounded(ENC_FAST, Step(ENC_FAST, START, x).0);
    hide Conserved;
  }

  // ----- the Gray code -----

  /** The place of the pins on the circle 0, 1, 3, 2. */
  function Gray(p: Pins): nat {
    if p == 0 then 0 else if p == 1 then 1 else if p == 3 then 2 else 3
  }

  lemma {:induction false} StepTurns(speed: nat, s: State, x: Sample)
    ensures
      var jump := if Accepted(s, x) && QuadStep(s, x) == 0 then 1 else 0;
      (Gray(Step(speed, s, x).0.prev) - Gray(s.prev) - QuadStep(s, x) - 2 * jump) % 4 == 0
  {
  }

  /** The net steps, and two for every jump, are the turn of the pins modulo 4. */
  lemma {:induction false} StepsTurnThePins(speed: nat, s: State, xs: seq<Sample>)
    ensures
      (Gray(Run(speed, s, xs).prev) - Gray(s.prev)) % 4
      == (NetSteps(speed, s, xs) + 2 * Jumps(speed, s, xs)) % 4
    decreases |xs|
  {
    if xs != [] {
      hide QuadStep, Step, Accepted, Gray;
      var t := Step(speed, s, xs[0]).0;
      StepTurns(speed, s, xs[0]);
      StepsTurnThePins(speed, t, xs[1..]);
      var jump := if Accepted(s, xs[0]) && QuadStep(s, xs[0]) == 0 then 1 else 0;
      TurnsAdd(Gray(s.prev), Gray(t.prev), Gray(Run(speed, t, xs[1..]).prev), QuadStep(s, xs[0]) + 2 * jump,
               NetSteps(speed, t, xs[1..]) + 2 * Jumps(speed, t, xs[1..]));
    }
  }

  lemma TurnsAdd(g0: int, g1: int, g2: int, q: int, n: int)
    requires (g1 - g0 - q) % 4 == 0 && (g2 - g1) % 4 == n % 4
    ensures (g2 - g0) % 4 == (q + n) % 4
  {
  }

  // ----- the code -----

  class Encoder {
    const speed: nat
    var history: int
    var prev: Pins

    function Value(): State
      reads this
    {
      State(history, prev)
    }

    constructor (speed: nat)
      ensures this.speed == speed && Value() == START == State(5, 0)
    {
      this.speed := speed;
      history := 5;
      prev := 0;
    }

    /** enc_read, with the two readings of the pins. */
    method Read(x: Sample) returns (result: int)
      modifies this
      ensures (Value(), result) == Step(speed, old(Value()), x)
      ensures old(Bounded(speed, Value())) ==>
        Bounded(speed, Value()) && QuadStep(old(Value()), x) == (speed + 1) * result + history - old(history)
    {
      if Bounded(speed, Value()) {
        StepConserves(speed, Value(), x);
      }
      result := 0;
      var newState := x.now;
      if x.later != newState || newState == prev {
        return 0;
      }
      if Anticlockwise(prev, newState) {
        history := history - 1;
      }
      if Clockwise(prev, newState) {
        history := history + 1;
      }
      prev := newState;
      if history > speed {
        result := 1;
        history := 0;
      }
      if history < 0 - speed {
        result := -1;
        history := 0;
      }
    }
  }

  /** A knob: its interrupt routine counts ticks, anticlockwise up, from its second call on. */
  class Knob {
    const encoder: Encoder
    var first: bool
    var ticks: int

    constructor ()
      ensures encoder.speed == 1 && encoder.Value() == State(5, 0) && first && ticks == 0 && fresh(encoder)
    {
      encoder := new Encoder(ENC_FAST);
      first := true;
      ticks := 0;
    }

    method Interrupt(x: Sample)
      modifies this, encoder
      ensures encoder.Value() == Step(encoder.speed, old(encoder.Value()), x).0 && !first
      ensures ticks == old(ticks) - if old(first) then 0 else Step(encoder.speed, old(encoder.Value()), x).1
    {
      var tuning := encoder.Read(x);
      if !first {
        if tuning < 0 {
          ticks := ticks + 1;
        }
        if tuning > 0 {
          ticks := ticks - 1;
        }
      } else {
        first := false;
      }
    }
  }
}
