/** Loading the fields of the screen from the settings file, and what it leaves of the
    frequency on the dial. */
module FieldSettings {
  import opened IniLines
  import opened IniParser
  import opened IniRoundTrip
  import opened Settings
  import opened Fields

  /** The field part of user_settings_handler. */
  function HandleField(fields: seq<Screen>, c: Call): (r: seq<Screen>)
    requires HasVfos(fields)
    ensures SameLayout(fields, r) && HasVfos(r)
  {
    StillThere(fields, AfterSet(fields, c.section + ":" + c.name, c.value));
    StillThere(fields, AfterSet(fields, c.name, c.value));
    if c.section == "r1" then AfterSet(fields, c.section + ":" + c.name, c.value)
    else if c.section == "tx" || c.section == "" then AfterSet(fields, c.name, c.value)
    else fields
  }

  function HandleFields(fields: seq<Screen>, calls: seq<Call>): (r: seq<Screen>)
    requires HasVfos(fields)
    ensures SameLayout(fields, r) && HasVfos(r)
    decreases |calls|
  {
    if calls == [] then fields else HandleFields(HandleField(fields, calls[0]), calls[1..])
  }

  method Handle(controls: Controls, section: string, name: string, value: string)
    requires HasVfos(controls.fields)
    modifies controls
    ensures HasVfos(controls.fields)
    ensures controls.fields == HandleField(old(controls.fields), Call(section, name, value))
  {
    if section == "r1" {
      controls.SetField(section + ":" + name, value);
    } else if section == "tx" || section == "" {
      controls.SetField(name, value);
    }
  }

  method Load(controls: Controls, text: string)
    requires HasVfos(controls.fields)
    modifies controls
    ensures controls.fields == HandleFields(old(controls.fields), Parse(INIT, text, ACCEPT).calls)
  {
    hide Parse, HandleField, HasVfos, SameLayout;
    var error, calls := ParseString(text, ACCEPT);
    var k := 0;
    assert calls[0..] == calls;
    while k < |calls|
      invariant k <= |calls| && HasVfos(controls.fields)
      invariant HandleFields(controls.fields, calls[k..]) == HandleFields(old(controls.fields), calls)
    {
      assert calls[k..][1..] == calls[k + 1..];
      Handle(controls, calls[k].section, calls[k].name, calls[k].value);
      k := k + 1;
    }
  }

  /** What save_user_settings writes of the screen. */
  function Saved(fields: seq<Screen>): (r: seq<Field>)
    ensures |r| == |fields|
  {
    if fields == [] then [] else [Field(fields[0].cmd, fields[0].value)] + Saved(fields[1..])
  }

  predicate Distinct(fields: seq<Screen>) {
    forall i, j :: 0 <= i < j < |fields| ==> fields[i].cmd != fields[j].cmd
  }

  lemma {:induction false} IndexOfIs(fields: seq<Screen>, k: nat)
    requires k < |fields| && Distinct(fields)
    ensures IndexOf(fields, fields[k].cmd) == k
    decreases k
  {
    if k > 0 {
      assert fields[1..][k - 1] == fields[k];
      IndexOfIs(fields[1..], k - 1);
    }
  }

  lemma {:induction false} HandleInTwo(fields: seq<Screen>, a: seq<Call>, b: seq<Call>)
    requires HasVfos(fields)
    ensures HandleFields(fields, a + b) == HandleFields(HandleFields(fields, a), b)
    decreases |a|
  {
    hide HandleField, HasVfos;
    if a == [] {
      assert a + b == b;
    } else {
      assert (a + b)[0] == a[0] && (a + b)[1..] == a[1..] + b;
      HandleInTwo(HandleField(fields, a[0]), a[1..], b);
    }
  }

  // ----- the screen of the program -----

  const TUNING := Number(500_000, 30_000_000)

  /** Where the fields are that commands read and write. */
  datatype Places = Places(dial: nat, split: nat, vfo: nat, a: nat, b: nat) {
    predicate Within(n: nat) {
      dial < split < vfo < a < b < n
    }
  }

  predicate OneSplit(fields: seq<Screen>, k: nat) {
    forall i :: 0 <= i < |fields| && i != k ==> !(SPLIT_PREFIX <= fields[i].cmd)
  }

  predicate Named(fields: seq<Screen>, p: Places)
    requires p.Within(|fields|)
  {
    && fields[p.dial].cmd == "r1:freq" && fields[p.split].cmd == "#split" && fields[p.vfo].cmd == "#vfo"
    && fields[p.a].cmd == "#vfo_a_freq" && fields[p.b].cmd == "#vfo_b_freq"
  }

  predicate Choices(fields: seq<Screen>, p: Places)
    requires p.Within(|fields|)
  {
    fields[p.split].kind == Choice(["ON", "OFF"]) && fields[p.vfo].kind == Choice(["A", "B"])
  }

  /** What main_controls looks like, as far as commands go: these five fields in this
      order, and any others. */
  predicate Panel(fields: seq<Screen>, p: Places) {
    && Distinct(fields) && p.Within(|fields|) && Named(fields, p) && Choices(fields, p)
    && fields[p.dial].kind == fields[p.a].kind == fields[p.b].kind == TUNING
    && OneSplit(fields, p.split)
  }

  lemma {:induction false} PanelHasVfos(fields: seq<Screen>, p: Places)
    requires Panel(fields, p)
    ensures HasVfos(fields)
    ensures IndexOf(fields, FREQ) == p.dial && IndexOf(fields, VFO) == p.vfo
    ensures IndexOf(fields, VFO_A) == p.a && IndexOf(fields, VFO_B) == p.b
  {
    IndexOfIs(fields, p.dial);
    IndexOfIs(fields, p.vfo);
    IndexOfIs(fields, p.a);
    IndexOfIs(fields, p.b);
  }

  lemma SamePanel(a: seq<Screen>, b: seq<Screen>, p: Places)
    requires Panel(a, p) && SameLayout(a, b)
    ensures Panel(b, p)
  {
  }

  // ----- one call -----

  lemma PlainIsSet(now: seq<Screen>, p: Places, k: nat, v: string)
    requires Panel(now, p) && k < |now| && k != p.split && k != p.vfo
    ensures HasVfos(now) && AfterSet(now, now[k].cmd, v) == now[k := SetTo(now[k], v)]
  {
    PanelHasVfos(now, p);
    IndexOfIs(now, k);
    assert now[k].cmd != VFO;
    hide SetTo, Panel, Distinct, OneSplit;
  }

  /** A number that was in range stays what it is. */
  lemma ToldAgain(f: Screen, g: Screen, v: string)
    requires f.kind == TUNING && g.kind == TUNING
    ensures SetTo(f, SetTo(g, v).value).value == SetTo(g, v).value
  {
    AtoiOfDecimal(Clamp(Atoi(v), 500_000, 30_000_000));
    hide Atoi, Decimal;
  }

  /** `#vfo` set to a choice: the dial is stored in one VFO and takes over the other. */
  function Chosen(now: seq<Screen>, p: Places, v: string): (r: seq<Screen>)
    requires Panel(now, p)
    ensures SameLayout(now, r)
  {
    var one := now[p.vfo := SetTo(now[p.vfo], v)];
    var dial := now[p.dial].value;
    if v == "A" then one[p.b := now[p.b].(value := dial)][p.dial := SetTo(now[p.dial], now[p.a].value)]
    else if v == "B" then one[p.a := now[p.a].(value := dial)][p.dial := SetTo(now[p.dial], now[p.b].value)]
    else one
  }

  lemma VfoIsSet(now: seq<Screen>, p: Places, v: string)
    requires Panel(now, p)
    ensures HasVfos(now) && AfterSet(now, VFO, v) == SetVfo(now, v) == Chosen(now, p, v)
  {
    hide Atoi, Decimal, Distinct, OneSplit;
    PanelHasVfos(now, p);
    var one := Set(now, VFO, v);
    SamePanel(now, one, p);
    PanelHasVfos(one, p);
    if v == "A" {
      var two := Overwrite(one, VFO_B, now[p.dial].value);
      SamePanel(one, two, p);
      PanelHasVfos(two, p);
    } else if v == "B" {
      var two := Overwrite(one, VFO_A, now[p.dial].value);
      SamePanel(one, two, p);
      PanelHasVfos(two, p);
    }
    hide IndexOf, Panel, SameLayout, Atoi, Decimal;
  }

  /** `#split` set to a choice while `#vfo` shows B: `#vfo` goes back to A. */
  predicate GoesBack(now: seq<Screen>, p: Places, v: string)
    requires Panel(now, p)
  {
    v in ["ON", "OFF"] && now[p.vfo].value == "B"
  }

  function Split(now: seq<Screen>, p: Places, v: string): (r: seq<Screen>)
    requires Panel(now, p)
    ensures SameLayout(now, r)
  {
    var one := now[p.split := SetTo(now[p.split], v)];
    if GoesBack(now, p, v) then
      one[p.vfo := SetTo(now[p.vfo], "A")][p.b := now[p.b].(value := now[p.dial].value)]
         [p.dial := SetTo(now[p.dial], now[p.a].value)]
    else one
  }

  lemma SplitIsSet(now: seq<Screen>, p: Places, v: string)
    requires Panel(now, p)
    ensures HasVfos(now) && AfterSet(now, "#split", v) == Split(now, p, v)
  {
    PanelHasVfos(now, p);
    IndexOfIs(now, p.split);
    var one := Set(now, "#split", v);
    SamePanel(now, one, p);
    PanelHasVfos(one, p);
    VfoIsSet(one, p, "A");
    assert SPLIT_PREFIX <= "#split";
    hide IndexOf, SameLayout, SetVfo, SetTo, Distinct, OneSplit;
  }

  // ----- all calls -----

  /** Fields from the k-th up to the m-th have been set. */
  function SetRange(now: seq<Screen>, saved: seq<Screen>, k: nat, m: nat): (r: seq<Screen>)
    requires |now| == |saved|
    ensures SameLayout(now, r)
  {
    assert forall i :: 0 <= i < |now| ==> SetTo(now[i], saved[i].value).cmd == now[i].cmd;
    seq(|now|, i requires 0 <= i < |now| => if k <= i < m then SetTo(now[i], saved[i].value) else now[i])
  }

  lemma SavedRest(fields: seq<Screen>, k: nat)
    requires k < |fields|
    ensures FieldCalls(Saved(fields[k..]))
         == [Call("", fields[k].cmd, fields[k].value)] + FieldCalls(Saved(fields[k + 1..]))
  {
    assert fields[k..][1..] == fields[k + 1..];
    assert Saved(fields[k..])[1..] == Saved(fields[k + 1..]);
  }

  /** The calls for the fields from the k-th on. */
  function CallsFrom(saved: seq<Screen>, k: nat): seq<Call>
    requires k <= |saved|
  {
    FieldCalls(Saved(saved[k..]))
  }

  lemma {:induction false} FirstCall(now: seq<Screen>, saved: seq<Screen>, k: nat)
    requires HasVfos(now) && SameLayout(now, saved) && k < |now|
    ensures
      var one := AfterSet(now, now[k].cmd, saved[k].value);
      HasVfos(one) && HandleFields(now, CallsFrom(saved, k)) == HandleFields(one, CallsFrom(saved, k + 1))
  {
    SavedRest(saved, k);
    var c, rest := Call("", saved[k].cmd, saved[k].value), CallsFrom(saved, k + 1);
    assert ([c] + rest)[1..] == rest;
    assert HandleField(now, c) == AfterSet(now, now[k].cmd, saved[k].value);
    hide AfterSet, HasVfos, SameLayout;
  }

  lemma PlainCall(now: seq<Screen>, saved: seq<Screen>, p: Places, k: nat)
    requires Panel(now, p) && SameLayout(now, saved) && k < |now| && k != p.split && k != p.vfo
    ensures
      var one := now[k := SetTo(now[k], saved[k].value)];
      && Panel(one, p) && SameLayout(one, saved) && HasVfos(now) && HasVfos(one)
      && HandleFields(now, CallsFrom(saved, k)) == HandleFields(one, CallsFrom(saved, k + 1))
  {
    hide SetTo, AfterSet, Panel, HasVfos, CallsFrom, HandleFields;
    PlainIsSet(now, p, k, saved[k].value);
    var one := now[k := SetTo(now[k], saved[k].value)];
    ShowsExactly(now[k], saved[k].value);
    FirstCall(now, saved, k);
    SamePanel(now, one, p);
    hide SameLayout;
    PanelHasVfos(one, p);
  }

  /** Calls for fields without a command that matters set these fields. */
  lemma {:induction false} PlainRun(now: seq<Screen>, saved: seq<Screen>, p: Places, k: nat, m: nat)
    requires Panel(now, p) && SameLayout(now, saved) && k <= m <= |now|
    requires !(k <= p.split < m) && !(k <= p.vfo < m)
    ensures HasVfos(now) && HasVfos(SetRange(now, saved, k, m))
    ensures HandleFields(now, CallsFrom(saved, k)) == HandleFields(SetRange(now, saved, k, m), CallsFrom(saved, m))
    decreases m - k
  {
    hide SetTo, Panel, HasVfos, CallsFrom, HandleFields;
    if k == m {
      PanelHasVfos(now, p);
      assert SetRange(now, saved, k, m) == now;
    } else {
      PlainCall(now, saved, p, k);
      var one := now[k := SetTo(now[k], saved[k].value)];
      PlainRun(one, saved, p, k + 1, m);
      assert SetRange(one, saved, k + 1, m) == SetRange(now, saved, k, m);
    }
  }

  /** The fields when `#vfo` is about to be set. */
  function BeforeVfo(now: seq<Screen>, saved: seq<Screen>, p: Places): (r: seq<Screen>)
    requires Panel(now, p) && SameLayout(now, saved)
    ensures SameLayout(now, r)
  {
    var one := SetRange(now, saved, 0, p.vfo);
    var v := SetTo(now[p.vfo], "A");
    var dial := SetTo(now[p.dial], now[p.a].value);
    if GoesBack(now, p, saved[p.split].value) then
      one[p.vfo := v][p.b := now[p.b].(value := one[p.dial].value)][p.dial := dial]
    else one
  }

  /** What a number is set to does not depend on what was shown before, nor for a choice. */
  lemma ToldAlike(f: Screen, g: Screen, v: string)
    requires f.cmd == g.cmd && f.kind == g.kind && (f.kind.Number? || (f.kind.Choice? && f.kind.options != []))
    ensures SetTo(f, v) == SetTo(g, v)
  {
  }

  lemma BeforeVfoIs(now: seq<Screen>, saved: seq<Screen>, p: Places)
    requires Panel(now, p) && SameLayout(now, saved)
    ensures
      var x := SetRange(now, saved, 0, p.split);
      && Panel(x, p)
      && SetRange(Split(x, p, saved[p.split].value), saved, p.split + 1, p.vfo) == BeforeVfo(now, saved, p)
  {
    hide SetTo, Distinct, OneSplit, Named, Choices;
    var x := SetRange(now, saved, 0, p.split);
    SamePanel(now, x, p);
    ToldAlike(now[p.dial], x[p.dial], now[p.a].value);
  }

  lemma {:induction false} SplitCall(now: seq<Screen>, saved: seq<Screen>, p: Places)
    requires Panel(now, p) && SameLayout(now, saved)
    ensures
      var y := Split(now, p, saved[p.split].value);
      && HasVfos(now) && HasVfos(y)
      && HandleFields(now, CallsFrom(saved, p.split)) == HandleFields(y, CallsFrom(saved, p.split + 1))
  {
    hide SetTo, AfterSet, Split, HandleFields, CallsFrom, HasVfos, Distinct, OneSplit;
    SplitIsSet(now, p, saved[p.split].value);
    FirstCall(now, saved, p.split);
  }

  lemma {:induction false} UpToVfo(now: seq<Screen>, saved: seq<Screen>, p: Places)
    requires Panel(now, p) && SameLayout(now, saved)
    ensures HasVfos(now) && HasVfos(BeforeVfo(now, saved, p))
    ensures HandleFields(now, CallsFrom(saved, 0)) == HandleFields(BeforeVfo(now, saved, p), CallsFrom(saved, p.vfo))
  {
    hide SetTo, HasVfos, CallsFrom, HandleFields, Split, BeforeVfo, SetRange, Distinct, OneSplit;
    BeforeVfoIs(now, saved, p);
    var x := SetRange(now, saved, 0, p.split);
    PlainRun(now, saved, p, 0, p.split);
    SameAgain(now, x, saved);
    SplitCall(x, saved, p);
    var y := Split(x, p, saved[p.split].value);
    SamePanel(x, y, p);
    SameAgain(x, y, saved);
    PlainRun(y, saved, p, p.split + 1, p.vfo);
  }

  /** Every field set to its saved value, and no more. */
  function EachSet(now: seq<Screen>, saved: seq<Screen>): (r: seq<Screen>)
    requires |now| == |saved|
    ensures SameLayout(now, r)
  {
    SetRange(now, saved, 0, |now|)
  }

  /** What the dial shows in the end. */
  function DialLoaded(now: seq<Screen>, saved: seq<Screen>, p: Places): Screen
    requires Panel(now, p) && SameLayout(now, saved)
  {
    var dial, back := now[p.dial], GoesBack(now, p, saved[p.split].value);
    if saved[p.vfo].value == "A" then SetTo(dial, now[p.a].value)
    else if saved[p.vfo].value == "B" then SetTo(dial, if back then saved[p.dial].value else now[p.b].value)
    else SetTo(dial, if back then now[p.a].value else saved[p.dial].value)
  }

  lemma DialIs(now: seq<Screen>, saved: seq<Screen>, p: Places)
    requires Panel(now, p) && SameLayout(now, saved)
    ensures
      var x := BeforeVfo(now, saved, p);
      Panel(x, p) && Chosen(x, p, saved[p.vfo].value)[p.dial] == DialLoaded(now, saved, p)
  {
    hide SetTo, Distinct, OneSplit, Named, Choices;
    var x := BeforeVfo(now, saved, p);
    SamePanel(now, x, p);
    var d := SetTo(now[p.dial], saved[p.dial].value);
    ToldAlike(now[p.dial], x[p.dial], now[p.a].value);
    ToldAlike(now[p.dial], x[p.dial], now[p.b].value);
    ToldAlike(now[p.dial], x[p.dial], d.value);
    ToldAgain(now[p.dial], now[p.dial], saved[p.dial].value);
  }

  lemma RestIs(now: seq<Screen>, saved: seq<Screen>, p: Places)
    requires Panel(now, p) && SameLayout(now, saved)
    ensures
      var x := BeforeVfo(now, saved, p);
      && Panel(x, p)
      && SetRange(Chosen(x, p, saved[p.vfo].value), saved, p.vfo + 1, |now|)
         == EachSet(now, saved)[p.dial := DialLoaded(now, saved, p)]
  {
    hide DialLoaded, SetTo, Distinct, OneSplit, Named, GoesBack;
    DialIs(now, saved, p);
    var x := BeforeVfo(now, saved, p);
    var y := Chosen(x, p, saved[p.vfo].value);
    var r := SetRange(y, saved, p.vfo + 1, |now|);
    ToldAlike(now[p.vfo], x[p.vfo], saved[p.vfo].value);
    ToldAlike(now[p.a], y[p.a], saved[p.a].value);
    ToldAlike(now[p.b], y[p.b], saved[p.b].value);
    forall i | 0 <= i < |now| && i != p.dial
      ensures r[i] == SetTo(now[i], saved[i].value)
    {
      if i < p.vfo {
        assert y[i] == x[i] == SetTo(now[i], saved[i].value);
      } else if i == p.vfo {
        assert y[i] == SetTo(x[i], saved[i].value);
      } else if i != p.a && i != p.b {
        assert y[i] == x[i] == now[i];
      }
    }
    hide BeforeVfo, Chosen;
    assert r[p.dial] == y[p.dial];
  }

  lemma FromVfo(now: seq<Screen>, saved: seq<Screen>, p: Places)
    requires Panel(now, p) && SameLayout(now, saved)
    ensures HasVfos(BeforeVfo(now, saved, p))
    ensures HandleFields(BeforeVfo(now, saved, p), CallsFrom(saved, p.vfo))
         == EachSet(now, saved)[p.dial := DialLoaded(now, saved, p)]
  {
    hide SetTo, HasVfos, HandleFields, CallsFrom, Chosen, BeforeVfo, SetRange, EachSet, DialLoaded, Distinct, OneSplit;
    var x := BeforeVfo(now, saved, p);
    SamePanel(now, x, p);
    SameAgain(now, x, saved);
    RestIs(now, saved, p);
    VfoIsSet(x, p, saved[p.vfo].value);
    VfoCall(x, saved, p);
    var y := Chosen(x, p, saved[p.vfo].value);
    SamePanel(x, y, p);
    SameAgain(x, y, saved);
    PlainRun(y, saved, p, p.vfo + 1, |now|);
    NoCalls(SetRange(y, saved, p.vfo + 1, |now|), saved);
  }

  lemma {:induction false} VfoCall(now: seq<Screen>, saved: seq<Screen>, p: Places)
    requires Panel(now, p) && SameLayout(now, saved)
    ensures
      var y := Chosen(now, p, saved[p.vfo].value);
      && HasVfos(now) && HasVfos(y)
      && HandleFields(now, CallsFrom(saved, p.vfo)) == HandleFields(y, CallsFrom(saved, p.vfo + 1))
  {
    hide SetTo, AfterSet, SetVfo, Chosen, HandleFields, CallsFrom, HasVfos, Distinct, OneSplit;
    VfoIsSet(now, p, saved[p.vfo].value);
    FirstCall(now, saved, p.vfo);
  }

  lemma {:induction false} NoCalls(now: seq<Screen>, saved: seq<Screen>)
    requires HasVfos(now)
    ensures HandleFields(now, CallsFrom(saved, |saved|)) == now
  {
    assert saved[|saved|..] == [];
  }

  lemma SameAgain(a: seq<Screen>, b: seq<Screen>, c: seq<Screen>)
    requires SameLayout(a, b) && SameLayout(a, c)
    ensures SameLayout(b, c)
  {
  }

  predicate BandSection(section: string) {
    section != "" && section != "r1" && section != "tx"
  }

  lemma {:induction false} OtherSectionsSetNothing(fields: seq<Screen>, calls: seq<Call>)
    requires HasVfos(fields) && forall c :: c in calls ==> BandSection(c.section)
    ensures HandleFields(fields, calls) == fields
    decreases |calls|
  {
    if calls != [] {
      OtherSectionsSetNothing(fields, calls[1..]);
    }
  }

  lemma {:induction false} StackCallsAreOfBand(b: Band, section: string, j: nat)
    requires |b.freq| == STACK_DEPTH && |b.mode| == STACK_DEPTH && j <= STACK_DEPTH
    ensures forall c :: c in Expected(StackItems(b, j), section) ==> c.section == section
    decreases STACK_DEPTH - j
  {
    if j < STACK_DEPTH {
      StackCalls(b, section, j);
      StackCallsAreOfBand(b, section, j + 1);
    }
  }

  lemma {:induction false} BandCallsAreOfBands(saved: seq<Band>, i: nat, section: string)
    requires ValidBands(saved) && i <= BANDS
    ensures forall c :: c in Expected(BandItems(saved, i), section) ==> BandSection(c.section)
    decreases BANDS - i
  {
    hide AllInt32, StackItems, Expected;
    if i == BANDS {
      NoBandsLeft(saved, section);
    } else {
      BandCalls(saved, i, section);
      StackCallsAreOfBand(saved[i], BandName(i), 0);
      BandCallsAreOfBands(saved, i + 1, BandName(i));
      assert BandSection(BandName(i));
      hide BandName, BandSection;
    }
  }


  lemma {:induction false} AllCalls(saved: seq<Screen>)
    ensures CallsFrom(saved, 0) == FieldCalls(Saved(saved))
    ensures saved != [] ==> Saved(saved)[0].cmd == saved[0].cmd
  {
    assert saved[0..] == saved;
  }

  /** Every field but the dial takes its saved value, or shows it already. */
  predicate OthersTake(now: seq<Screen>, saved: seq<Screen>, p: Places)
    requires |now| == |saved|
  {
    forall i :: 0 <= i < |now| && i != p.dial ==>
      Accepts(saved[i].kind, saved[i].value)
      || (Ignores(saved[i].kind, saved[i].value) && now[i].value == saved[i].value)
  }

  lemma AsSavedExactly(now: seq<Screen>, saved: seq<Screen>, p: Places, dial: Screen)
    requires Panel(now, p) && SameLayout(now, saved) && dial.cmd == FREQ && dial.kind == TUNING
    ensures EachSet(now, saved)[p.dial := dial] == saved
       <==> dial.value == saved[p.dial].value && OthersTake(now, saved, p)
  {
    hide SetTo, Accepts, Ignores, Distinct, OneSplit;
    var r := EachSet(now, saved)[p.dial := dial];
    forall i | 0 <= i < |now| && i != p.dial
      ensures r[i] == saved[i] <==>
        Accepts(saved[i].kind, saved[i].value)
        || (Ignores(saved[i].kind, saved[i].value) && now[i].value == saved[i].value)
    {
      ShowsExactly(now[i], saved[i].value);
    }
  }

  lemma DialKeepsName(now: seq<Screen>, saved: seq<Screen>, p: Places)
    requires Panel(now, p) && SameLayout(now, saved)
    ensures DialLoaded(now, saved, p).cmd == FREQ && DialLoaded(now, saved, p).kind == TUNING
  {
  }

  /** The fields after the settings file has been saved and loaded. */
  function Restored(now: seq<Screen>, saved: seq<Screen>, bands: seq<Band>): (r: seq<Screen>)
    requires HasVfos(now) && ValidBands(bands)
    ensures SameLayout(now, r) && HasVfos(r)
  {
    HandleFields(now, Parse(INIT, Print(Document(Saved(saved), bands)), ACCEPT).calls)
  }

  /** After loading every field has been set to its saved value but for the frequency
      on the dial, which the selection of the VFO replaces; and all fields are as saved
      exactly if it comes to the saved one, and every other field accepts its value, or
      ignores it and shows it already. */
  lemma {:induction false} FieldsSurvive(now: seq<Screen>, saved: seq<Screen>, bands: seq<Band>, p: Places)
    requires Panel(now, p) && SameLayout(now, saved) && ValidBands(bands)
    requires AllWritable(FieldItems(Saved(saved))) && !HasBom(saved[0].cmd)
    ensures HasVfos(now)
    ensures
      var r := Restored(now, saved, bands);
      && r == EachSet(now, saved)[p.dial := DialLoaded(now, saved, p)]
      && (r == saved <==> DialLoaded(now, saved, p).value == saved[p.dial].value && OthersTake(now, saved, p))
  {
    hide Parse, HasBom, Writable, BandItems, AllInt32, FieldItems, SetTo, Accepts, Ignores, Document;
    hide HasVfos, HandleFields, CallsFrom, BeforeVfo, DialLoaded, SetRange, Print, Distinct, OneSplit;
    hide Saved, FieldCalls, Expected, OthersTake;
    AllCalls(saved);
    SettingsAreExpected(Saved(saved), bands);
    var ours, others := CallsFrom(saved, 0), Expected(BandItems(bands, 0), "");
    UpToVfo(now, saved, p);
    FromVfo(now, saved, p);
    HandleInTwo(now, ours, others);
    BandCallsAreOfBands(bands, 0, "");
    var r := EachSet(now, saved)[p.dial := DialLoaded(now, saved, p)];
    OtherSectionsSetNothing(r, others);
    DialKeepsName(now, saved, p);
    AsSavedExactly(now, saved, p, DialLoaded(now, saved, p));
  }

  // ----- restoring and starting -----

  /** The fields that matter to commands, with VFO A on the dial. */
  function OnVfoA(n: int): seq<Screen> {
    [Screen(FREQ, TUNING, Decimal(n)), Screen("#split", Choice(["ON", "OFF"]), "OFF"),
     Screen(VFO, Choice(["A", "B"]), "A"), Screen(VFO_A, TUNING, Decimal(n)),
     Screen(VFO_B, TUNING, Decimal(7_000_000))]
  }

  const FIVE := Places(0, 1, 2, 3, 4)

  lemma OnVfoAIsPanel(n: int)
    ensures Panel(OnVfoA(n), FIVE)
  {
    hide Decimal;
    assert FREQ[0] == 'r' && VFO[1] == 'v' && VFO_A[1] == 'v' && VFO_B[1] == 'v' && SPLIT_PREFIX[1] == 's';
    assert VFO_A[5] != VFO_B[5] && |VFO_A| == |VFO_B| == 11 && |VFO| == 4;
    forall i | 0 <= i < 5 && i != 1
      ensures !(SPLIT_PREFIX <= OnVfoA(n)[i].cmd)
    {
      assert OnVfoA(n)[i].cmd[0] != '#' || OnVfoA(n)[i].cmd[1] != 's';
    }
  }

  lemma {:induction false} PairsAreWritable(s: seq<Screen>)
    requires forall f :: f in s ==> Writable(Pair(f.cmd, f.value))
    ensures AllWritable(FieldItems(Saved(s)))
  {
    hide Writable;
    if s != [] {
      assert s[0] in s;
      PairsAreWritable(s[1..]);
    }
  }

  predicate PlainName(name: string) {
    && 0 < |name| < 20 && name[0] != '['
    && forall k :: 0 <= k < |name| ==> name[k] > ' ' && name[k] != ';' && name[k] != '='
  }

  lemma PlainIsWritable(name: string, v: string)
    requires PlainName(name) && Trimmed(v) && NoComment(v) && '\n' !in v && '\0' !in v && |v| <= 11
    ensures Writable(Pair(name, v))
  {
  }

  lemma NamesArePlain()
    ensures PlainName(FREQ) && PlainName("#split") && PlainName(VFO) && PlainName(VFO_A) && PlainName(VFO_B)
  {
  }

  lemma OnVfoAIsWritable(n: int)
    requires Int32(n)
    ensures AllWritable(FieldItems(Saved(OnVfoA(n))))
  {
    hide Writable, Decimal, PlainName;
    DecimalIsPlain(n);
    DecimalIsPlain(7_000_000);
    NamesArePlain();
    PlainIsWritable(FREQ, Decimal(n));
    PlainIsWritable("#split", "OFF");
    PlainIsWritable(VFO, "A");
    PlainIsWritable(VFO_A, Decimal(n));
    PlainIsWritable(VFO_B, Decimal(7_000_000));
    PairsAreWritable(OnVfoA(n));
  }

  lemma Exact(f: Screen, n: int)
    requires f.kind == TUNING && 500_000 <= n <= 30_000_000
    ensures SetTo(f, Decimal(n)).value == Decimal(n) && Accepts(f.kind, Decimal(n))
  {
    AtoiOfDecimal(n);
    hide Decimal, Atoi;
  }

  /** Settings saved on one frequency and restored on another: every field takes its
      saved value as it is, and still the dial stays on the other frequency. */
  lemma {:induction false} SavedDialIsLost(f: int, g: int, bands: seq<Band>)
    requires 500_000 <= f <= 30_000_000 && 500_000 <= g <= 30_000_000 && ValidBands(bands)
    ensures
      var now, saved := OnVfoA(f), OnVfoA(g);
      && HasVfos(now) && (forall i :: 0 <= i < 5 ==> Accepts(saved[i].kind, saved[i].value))
      && Restored(now, saved, bands) == saved[0 := now[0]]
      && (Restored(now, saved, bands) == saved <==> f == g)
  {
    hide ValidBands, AllWritable, FieldItems, HasBom, Restored, HasVfos, Decimal, Distinct, OneSplit;
    var now, saved := OnVfoA(f), OnVfoA(g);
    OnVfoAIsPanel(f);
    OnVfoAIsPanel(g);
    OnVfoAIsWritable(g);
    assert !HasBom(FREQ) by {
      NoBom();
    }
    FieldsSurvive(now, saved, bands, FIVE);
    Exact(now[0], f);
    Exact(now[0], g);
    Exact(now[3], g);
    Exact(now[4], 7_000_000);
    AtoiOfDecimal(f);
    AtoiOfDecimal(g);
    assert DialLoaded(now, saved, FIVE) == now[0];
    hide Panel, DialLoaded;
    assert EachSet(now, saved)[0 := now[0]] == saved[0 := now[0]];
  }

  lemma NoBom()
    ensures !HasBom(FREQ)
  {
  }

  /** The program starts by loading the file and putting VFO A on the dial, also if VFO
      B was selected: it starts as it was saved exactly if the dial showed VFO A. */
  lemma {:induction false} StartShowsVfoA(now: seq<Screen>, saved: seq<Screen>, bands: seq<Band>, p: Places)
    requires Panel(now, p) && SameLayout(now, saved) && ValidBands(bands)
    requires AllWritable(FieldItems(Saved(saved))) && !HasBom(saved[0].cmd)
    ensures HasVfos(now)
    ensures
      var loaded := Restored(now, saved, bands);
      var r := AfterSet(loaded, FREQ, Shown(loaded, VFO_A));
      && |r| == |now| && r[p.dial].value == r[p.a].value == SetTo(now[p.a], saved[p.a].value).value
      && (r == saved <==> saved[p.dial].value == saved[p.a].value && OthersTake(now, saved, p))
  {
    hide Writable, FieldItems, AllWritable, HasBom, ValidBands, Restored, Distinct, OneSplit;
    hide DialLoaded, OthersTake, SetTo, AfterSet;
    FieldsSurvive(now, saved, bands, p);
    var loaded := Restored(now, saved, bands);
    SamePanel(now, loaded, p);
    PanelHasVfos(loaded, p);
    var a := SetTo(now[p.a], saved[p.a].value);
    PlainIsSet(loaded, p, p.dial, a.value);
    ToldAgain(loaded[p.dial], now[p.a], saved[p.a].value);
    ShowsExactly(loaded[p.dial], a.value);
    AsSavedExactly(now, saved, p, SetTo(loaded[p.dial], a.value));
    if OthersTake(now, saved, p) {
      TakenMeansShown(now, saved, p, p.a);
    }
  }

  lemma TakenMeansShown(now: seq<Screen>, saved: seq<Screen>, p: Places, i: nat)
    requires SameLayout(now, saved) && OthersTake(now, saved, p) && i < |now| && i != p.dial
    ensures SetTo(now[i], saved[i].value).value == saved[i].value
  {
    ShowsExactly(now[i], saved[i].value);
  }

  lemma OthersStay(now: seq<Screen>, saved: seq<Screen>, p: Places, dial: Screen)
    requires Panel(now, p) && SameLayout(now, saved) && OthersTake(now, saved, p)
    ensures
      var once := EachSet(now, saved)[p.dial := dial];
      OthersTake(once, saved, p) && forall i :: 0 <= i < |now| && i != p.dial ==> once[i].value == saved[i].value
  {
    hide Distinct, OneSplit, SetTo, Accepts, Ignores;
    var once := EachSet(now, saved)[p.dial := dial];
    forall i | 0 <= i < |now| && i != p.dial
      ensures once[i].value == saved[i].value
    {
      ShowsExactly(now[i], saved[i].value);
    }
  }

  lemma SecondDial(once: seq<Screen>, saved: seq<Screen>, p: Places)
    requires Panel(once, p) && SameLayout(once, saved) && OthersTake(once, saved, p)
    requires once[p.vfo].value == saved[p.vfo].value && once[p.a].value == saved[p.a].value
    requires Accepts(TUNING, saved[p.dial].value)
    ensures DialLoaded(once, saved, p).value == saved[if saved[p.vfo].value == "B" then p.dial else p.a].value
  {
    assert Accepts(saved[p.a].kind, saved[p.a].value) && saved[p.split].value in ["ON", "OFF"];
    assert saved[p.vfo].value in ["A", "B"];
    ShowsExactly(once[p.dial], saved[p.dial].value);
    ShowsExactly(once[p.dial], saved[p.a].value);
    hide SetTo, Distinct, OneSplit, SameLayout, Accepts;
  }

  /** A second restoring has VFO A to go by: it brings everything back unless VFO A was
      selected and the dial showed something else, or a field takes no such value. */
  lemma {:induction false} RestoredTwice(now: seq<Screen>, saved: seq<Screen>, bands: seq<Band>, p: Places)
    requires Panel(now, p) && SameLayout(now, saved) && ValidBands(bands)
    requires AllWritable(FieldItems(Saved(saved))) && !HasBom(saved[0].cmd)
    requires Accepts(TUNING, saved[p.dial].value) && OthersTake(now, saved, p)
    ensures HasVfos(now)
    ensures Restored(Restored(now, saved, bands), saved, bands) == saved
       <==> saved[p.vfo].value == "B" || saved[p.dial].value == saved[p.a].value
  {
    hide Writable, FieldItems, AllWritable, HasBom, ValidBands, Restored, Distinct, OneSplit;
    hide OthersTake, SetTo, Accepts, DialLoaded, EachSet;
    FieldsSurvive(now, saved, bands, p);
    var once := Restored(now, saved, bands);
    SamePanel(now, once, p);
    FieldsSurvive(once, saved, bands, p);
    OthersStay(now, saved, p, DialLoaded(now, saved, p));
    SecondDial(once, saved, p);
  }
}
