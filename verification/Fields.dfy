/** The fields of the screen: set_field, and what the command it ends with does to other
    fields. */
module Fields {
  import opened Settings

  const FREQ := "r1:freq"
  const VFO := "#vfo"
  const VFO_A := "#vfo_a_freq"
  const VFO_B := "#vfo_b_freq"
  const SPLIT_PREFIX := "#spli"           // five characters are compared

  /** What a field accepts. */
  datatype Kind =
    | Number(min: int, max: int)
    | Choice(options: seq<string>)          // a selection or a toggle
    | Text(min: int, max: int)              // lengths
    | Button
    | Display                               // static text or the console

  datatype Screen = Screen(cmd: string, kind: Kind, value: string)

  // ----- one field -----

  function Clamp(v: int, min: int, max: int): int {
    var low := if v < min then min else v;
    if low > max then max else low
  }

  /** The field after set_field. */
  function SetTo(f: Screen, v: string): Screen {
    match f.kind
    case Number(min, max) => f.(value := Decimal(Clamp(Atoi(v), min, max)))
    case Choice(options) =>
      if v in options then f.(value := v)
      else if options != [] then f.(value := options[|options| - 1])
      else f
    case Text(min, max) => if |v| > max || |v| < min then f else f.(value := v)
    case Button => f.(value := v)
    case Display => f
  }

  /** set_field goes on to its command. */
  predicate Commands(kind: Kind, v: string) {
    match kind
    case Number(_, _) => true
    case Choice(options) => v in options
    case Text(min, max) => min <= |v| <= max
    case Button => false
    case Display => true
  }

  /** A value the field takes as it is. */
  predicate Accepts(kind: Kind, v: string) {
    match kind
    case Number(min, max) => v == Decimal(Atoi(v)) && Clamp(Atoi(v), min, max) == Atoi(v)
    case Choice(options) => v in options
    case Text(min, max) => min <= |v| <= max
    case Button => true
    case Display => false
  }

  /** A value the field does not even replace its own for. */
  predicate Ignores(kind: Kind, v: string) {
    match kind
    case Number(_, _) => false
    case Choice(options) => options == []
    case Text(min, max) => |v| < min || |v| > max
    case Button => false
    case Display => true
  }

  /** The field shows the value afterwards exactly if it accepts it, or ignores it
      and showed it before. */
  lemma ShowsExactly(f: Screen, v: string)
    ensures SetTo(f, v).value == v <==> Accepts(f.kind, v) || (Ignores(f.kind, v) && f.value == v)
    ensures SetTo(f, v).cmd == f.cmd && SetTo(f, v).kind == f.kind
  {
    if f.kind.Number? {
      AtoiOfDecimal(Clamp(Atoi(v), f.kind.min, f.kind.max));
      hide Decimal, Atoi, Clamp;
    }
  }

  /** What the field shows, type by type: a number is brought into its range, to the
      nearest end if it is outside; a choice that is not offered becomes the last one. */
  predicate Shows(f: Screen, v: string, shown: string) {
    match f.kind
    case Number(min, max) =>
      && (Atoi(v) < min <= max ==> shown == Decimal(min))
      && (Atoi(v) > max || min > max ==> shown == Decimal(max))
      && (min <= Atoi(v) <= max ==> shown == Decimal(Atoi(v)))
    case Choice(options) =>
      if v in options then shown == v
      else if options == [] then shown == f.value
      else shown == options[|options| - 1]
    case Text(min, max) => shown == if min <= |v| <= max then v else f.value
    case Button => shown == v
    case Display => shown == f.value
  }

  lemma SetToShows(f: Screen, v: string)
    ensures Shows(f, v, SetTo(f, v).value)
  {
  }

  // ----- all fields -----

  /** get_field: the first field of that name, or the number of fields. */
  function IndexOf(fields: seq<Screen>, id: string): (i: nat)
    ensures i <= |fields| && (i < |fields| ==> fields[i].cmd == id)
  {
    if fields == [] then 0 else if fields[0].cmd == id then 0 else 1 + IndexOf(fields[1..], id)
  }

  predicate Has(fields: seq<Screen>, id: string) {
    IndexOf(fields, id) < |fields|
  }

  /** The fields that commands read and write are there. */
  predicate HasVfos(fields: seq<Screen>) {
    Has(fields, FREQ) && Has(fields, VFO) && Has(fields, VFO_A) && Has(fields, VFO_B)
  }

  function Shown(fields: seq<Screen>, id: string): string
    requires Has(fields, id)
  {
    fields[IndexOf(fields, id)].value
  }

  /** The same fields, maybe with other values. */
  predicate SameLayout(a: seq<Screen>, b: seq<Screen>) {
    |a| == |b| && forall i :: 0 <= i < |a| ==> a[i].cmd == b[i].cmd && a[i].kind == b[i].kind
  }

  lemma {:induction false} SameIndex(a: seq<Screen>, b: seq<Screen>, id: string)
    requires SameLayout(a, b)
    ensures IndexOf(a, id) == IndexOf(b, id)
    decreases |a|
  {
    if a != [] {
      SameIndex(a[1..], b[1..], id);
    }
  }

  /** The field is set, without any command. */
  function Set(fields: seq<Screen>, id: string, v: string): (r: seq<Screen>)
    requires Has(fields, id)
    ensures SameLayout(fields, r)
  {
    var i := IndexOf(fields, id);
    ShowsExactly(fields[i], v);
    fields[i := SetTo(fields[i], v)]
  }

  /** The value is overwritten, whatever the field accepts. */
  function Overwrite(fields: seq<Screen>, id: string, v: string): (r: seq<Screen>)
    requires Has(fields, id)
    ensures SameLayout(fields, r)
  {
    var i := IndexOf(fields, id);
    fields[i := fields[i].(value := v)]
  }

  lemma StillThere(a: seq<Screen>, b: seq<Screen>)
    requires SameLayout(a, b) && HasVfos(a)
    ensures HasVfos(b)
  {
    hide IndexOf;
    SameIndex(a, b, FREQ);
    SameIndex(a, b, VFO);
    SameIndex(a, b, VFO_A);
    SameIndex(a, b, VFO_B);
  }

  // ----- what setting a field comes to -----

  /** The frequency on the dial goes to one VFO, and that of the other to the dial. */
  function Exchange(fields: seq<Screen>, to: string, from: string): (r: seq<Screen>)
    requires Has(fields, FREQ) && Has(fields, to) && Has(fields, from)
    ensures SameLayout(fields, r)
  {
    var one := Overwrite(fields, to, Shown(fields, FREQ));
    SameIndex(fields, one, FREQ);
    SameIndex(fields, one, from);
    Set(one, FREQ, Shown(one, from))
  }

  /** The command a VFO selection ends with. */
  function Swapped(fields: seq<Screen>): (r: seq<Screen>)
    requires HasVfos(fields)
    ensures SameLayout(fields, r)
  {
    if Shown(fields, VFO) == "A" then Exchange(fields, VFO_B, VFO_A)
    else if Shown(fields, VFO) == "B" then Exchange(fields, VFO_A, VFO_B)
    else fields
  }

  function SetVfo(fields: seq<Screen>, v: string): (r: seq<Screen>)
    requires HasVfos(fields)
    ensures SameLayout(fields, r)
  {
    var one := Set(fields, VFO, v);
    StillThere(fields, one);
    if Commands(fields[IndexOf(fields, VFO)].kind, v) then Swapped(one) else one
  }

  /** What the command for a field does to the screen. */
  function Commanded(fields: seq<Screen>, id: string): (r: seq<Screen>)
    requires HasVfos(fields)
    ensures SameLayout(fields, r)
  {
    if SPLIT_PREFIX <= id then if Shown(fields, VFO) == "B" then SetVfo(fields, "A") else fields
    else if id == VFO then Swapped(fields)
    else fields
  }

  /** What set_field does to the screen, its command included. */
  function AfterSet(fields: seq<Screen>, id: string, v: string): (r: seq<Screen>)
    requires HasVfos(fields)
    ensures SameLayout(fields, r)
  {
    if !Has(fields, id) then fields
    else
      var one := Set(fields, id, v);
      StillThere(fields, one);
      if Commands(fields[IndexOf(fields, id)].kind, v) then Commanded(one, id) else one
  }

  // ----- the code -----

  class Controls {
    var fields: seq<Screen>

    constructor (fields: seq<Screen>)
      ensures this.fields == fields
    {
      this.fields := fields;
    }

    /** How deep setting a field can go. */
    static function Depth(id: string): nat {
      if SPLIT_PREFIX <= id then 2 else if id == VFO then 1 else 0
    }

    /** The switch over the field's type; `sends` if it does not return early. */
    method SetValue(i: nat, v: string) returns (sends: bool)
      requires i < |fields|
      modifies this
      ensures fields == old(fields)[i := SetTo(old(fields)[i], v)]
      ensures sends == Commands(old(fields)[i].kind, v)
      ensures |fields| == |old(fields)| && Shows(old(fields)[i], v, fields[i].value)
      ensures
        var kind := old(fields)[i].kind;
        !sends <==> kind.Button? || (kind.Choice? && v !in kind.options)
                    || (kind.Text? && !(kind.min <= |v| <= kind.max))
    {
      var f := fields[i];
      SetToShows(f, v);
      hide Shows;
      match f.kind {
        case Number(min, max) =>
          var n := Atoi(v);
          if n < min {
            n := min;
          }
          if n > max {
            n := max;
          }
          fields := fields[i := f.(value := Decimal(n))];
        case Choice(options) =>
          var k := 0;
          while k < |options| && options[k] != v
            invariant k <= |options| && v !in options[..k]
          {
            k := k + 1;
          }
          if k == |options| {
            if k > 0 {
              fields := fields[i := f.(value := options[k - 1])];
            }
            return false;
          }
          fields := fields[i := f.(value := v)];
        case Text(min, max) =>
          if |v| > max || |v| < min {
            return false;
          }
          fields := fields[i := f.(value := v)];
        case Button =>
          fields := fields[i := f.(value := v)];
          return false;
        case Display =>
      }
      return true;
    }

    method SetField(id: string, v: string)
      requires HasVfos(fields)
      modifies this
      ensures fields == AfterSet(old(fields), id, v)
      ensures SameLayout(old(fields), fields) && HasVfos(fields)
      decreases Depth(id), 1
    {
      hide SetTo, Commands, Commanded, SameLayout, HasVfos, IndexOf;
      var i := IndexOf(fields, id);
      if i < |fields| {
        var sends := SetValue(i, v);
        assert fields == Set(old(fields), id, v);
        StillThere(old(fields), fields);
        SameIndex(old(fields), fields, id);
        if sends {
          DoCmd(id, fields[i].value);
        }
      }
    }

    /** The command `id=v`, as far as it changes fields. */
    method DoCmd(id: string, v: string)
      requires HasVfos(fields) && (id == VFO ==> Shown(fields, VFO) == v)
      modifies this
      ensures fields == Commanded(old(fields), id)
      ensures |id| >= 5 && id[..5] == "#spli" ==>
        fields == old(if Shown(fields, VFO) == "B" then SetVfo(fields, "A") else fields)
      ensures !(|id| >= 5 && id[..5] == "#spli") && id != "#vfo" ==> fields == old(fields)
      ensures SameLayout(old(fields), fields) && HasVfos(fields)
      decreases Depth(id), 0
    {
      assert FREQ[0] != SPLIT_PREFIX[0] && VFO[1] != SPLIT_PREFIX[1];
      if SPLIT_PREFIX <= id {
        if Shown(fields, VFO) == "B" {
          SetField(VFO, "A");
        }
      } else if id == VFO && v == "B" {
        fields := Overwrite(fields, VFO_A, Shown(fields, FREQ));
        StillThere(old(fields), fields);
        SetField(FREQ, Shown(fields, VFO_B));
      } else if id == VFO && v == "A" {
        fields := Overwrite(fields, VFO_B, Shown(fields, FREQ));
        StillThere(old(fields), fields);
        SetField(FREQ, Shown(fields, VFO_A));
      }
    }
  }
}
