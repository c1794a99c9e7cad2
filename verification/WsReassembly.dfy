/** Reassembly of WebSocket messages from arriving bytes (sections 5.4 and 5.5 of
    RFC 6455): what the connection reports, as a function of the bytes alone. */
module WsReassembly {
  import opened Bytes
  import opened WsFrame

  const OP_CONTINUE: byte := 0
  const OP_TEXT: byte := 1
  const OP_BINARY: byte := 2
  const OP_CLOSE: byte := 8
  const OP_PING: byte := 9
  const OP_PONG: byte := 10

  /** Calls to the application, and the replies the connection sends by itself. */
  datatype Event =
    | Msg(flags: byte, data: seq<byte>)
    | Ctl(flags: byte, data: seq<byte>)
    | Pong(data: seq<byte>)
    | CloseEcho(data: seq<byte>)
    | UnknownOp(op: byte)
    | Overrun                       // a message of size_t(0 - 1) bytes is reported

  /** Events so far, and the bytes kept of an unfinished message: the flags of its
      first frame, then the payloads joined. */
  datatype Progress = Progress(kept: seq<byte>, events: seq<Event>)

  function Op(flags: byte): byte {
    flags % 16
  }

  function FrameEvents(flags: byte, data: seq<byte>): seq<Event> {
    var op := Op(flags);
    if op == OP_CONTINUE || op == OP_PONG then [Ctl(flags, data)]
    else if op == OP_PING then [Pong(data), Ctl(flags, data)]
    else if op == OP_TEXT || op == OP_BINARY then if flags >= FIN then [Msg(flags, data)] else []
    else if op == OP_CLOSE then [Ctl(flags, data), CloseEcho(data)]
    else [UnknownOp(op)]
  }

  /** One whole frame. */
  function Handle(p: Progress, flags: byte, data: seq<byte>): Progress {
    var events := p.events + FrameEvents(flags, data);
    var kept :=
      if flags < FIN || Op(flags) == OP_CONTINUE
      then p.kept + (if Op(flags) != OP_CONTINUE then [flags] else []) + data
      else p.kept;
    if flags >= FIN && Op(flags) == OP_CONTINUE then
      if kept == [] then Progress([], events + [Overrun])
      else Progress([], events + [Msg(kept[0], kept[1..])])
    else Progress(kept, events)
  }

  /** All whole frames at the front of the unread bytes. */
  function Drain(p: Progress, raw: seq<byte>): (r: (Progress, seq<byte>))
    ensures Parse(r.1) == Incomplete
    decreases |raw|
  {
    match Parse(raw)
    case Incomplete => (p, raw)
    case Complete(h, flags, data) => Drain(Handle(p, flags, data), raw[Parse(raw).Size()..])
  }

  /** Bytes arriving in pieces, each piece followed by one MG_EV_READ. */
  function Feed(p: Progress, raw: seq<byte>, pieces: seq<seq<byte>>): (Progress, seq<byte>)
    decreases |pieces|
  {
    if pieces == [] then (p, raw)
    else
      var (q, rest) := Drain(p, raw + pieces[0]);
      Feed(q, rest, pieces[1..])
  }

  function Concat(pieces: seq<seq<byte>>): seq<byte> {
    if pieces == [] then [] else pieces[0] + Concat(pieces[1..])
  }

  lemma {:induction false} DrainNothing(p: Progress, raw: seq<byte>)
    requires Parse(raw) == Incomplete
    ensures Drain(p, raw) == (p, raw)
  {
  }

  /** Draining early and draining late report the same. */
  lemma {:induction false} DrainInTwo(p: Progress, raw: seq<byte>, more: seq<byte>)
    ensures var (q, rest) := Drain(p, raw); Drain(p, raw + more) == Drain(q, rest + more)
    decreases |raw|
  {
    hide Parse, Handle;
    match Parse(raw)
    case Incomplete =>
    case Complete(h, flags, data) =>
      var n := Parse(raw).Size();
      ParseIgnoresWhatFollows(raw, more);
      assert (raw + more)[n..] == raw[n..] + more;
      DrainInTwo(Handle(p, flags, data), raw[n..], more);
  }

  /** However the byte stream is cut into reads, any stream, well formed or not,
      produces the same events and leaves the same bytes. */
  lemma {:induction false} CuttingDoesNotMatter(p: Progress, raw: seq<byte>, pieces: seq<seq<byte>>)
    requires Parse(raw) == Incomplete
    ensures Feed(p, raw, pieces) == Drain(p, raw + Concat(pieces))
    decreases |pieces|
  {
    hide Parse, Handle, Drain;
    if pieces == [] {
      assert raw + Concat(pieces) == raw;
      DrainNothing(p, raw);
    } else {
      var (q, rest) := Drain(p, raw + pieces[0]);
      DrainInTwo(p, raw + pieces[0], Concat(pieces[1..]));
      assert (raw + pieces[0]) + Concat(pieces[1..]) == raw + Concat(pieces);
      CuttingDoesNotMatter(q, rest, pieces[1..]);
    }
  }

  // ----- well-formed streams -----

  datatype Frame = Frame(flags: byte, mask: seq<byte>, data: seq<byte>) {
    predicate Valid() {
      IsMask(mask) && |data| <= MAX_DATA
    }
  }

  predicate AllValid(fs: seq<Frame>) {
    fs == [] || (fs[0].Valid() && AllValid(fs[1..]))
  }

  function Wire(fs: seq<Frame>): seq<byte>
    requires AllValid(fs)
  {
    if fs == [] then [] else Encode(fs[0].flags, fs[0].mask, fs[0].data) + Wire(fs[1..])
  }

  function HandleAll(p: Progress, fs: seq<Frame>): Progress
    decreases |fs|
  {
    if fs == [] then p else HandleAll(Handle(p, fs[0].flags, fs[0].data), fs[1..])
  }

  /** Every built frame is found and handled, one after the other. */
  lemma {:induction false} DrainWire(p: Progress, fs: seq<Frame>)
    requires AllValid(fs)
    ensures Drain(p, Wire(fs)) == (HandleAll(p, fs), [])
    decreases |fs|
  {
    if fs == [] {
      assert Parse([]) == Incomplete;
    } else {
      var f := fs[0];
      var wire, rest := Encode(f.flags, f.mask, f.data), Wire(fs[1..]);
      FrameRoundTrip(f.flags, f.mask, f.data, rest);
      assert (wire + rest)[|wire|..] == rest;
      DrainWire(Handle(p, f.flags, f.data), fs[1..]);
    }
  }

  lemma {:induction false} HandleAllInTwo(p: Progress, a: seq<Frame>, b: seq<Frame>)
    ensures HandleAll(p, a + b) == HandleAll(HandleAll(p, a), b)
    decreases |a|
  {
    if a == [] {
      assert a + b == b;
    } else {
      assert (a + b)[1..] == a[1..] + b;
      HandleAllInTwo(Handle(p, a[0].flags, a[0].data), a[1..], b);
    }
  }

  predicate IsControl(f: Frame) {
    f.flags == FIN + OP_CLOSE || f.flags == FIN + OP_PING || f.flags == FIN + OP_PONG
  }

  predicate AllControls(fs: seq<Frame>) {
    fs == [] || (IsControl(fs[0]) && AllControls(fs[1..]))
  }

  /** A continuation frame and the control frames sent right after it. */
  datatype Fragment = Fragment(mask: seq<byte>, data: seq<byte>, controls: seq<Frame>)

  predicate AllFragments(fs: seq<Fragment>) {
    fs == [] || (AllControls(fs[0].controls) && AllFragments(fs[1..]))
  }

  /** What a peer sends: unfragmented messages, messages in two or more fragments with
      control frames in between, and control frames on their own. */
  datatype Item =
    | Whole(op: byte, mask: seq<byte>, data: seq<byte>)
    | Fragmented(op: byte, first: Fragment, middle: seq<Fragment>, mask: seq<byte>, last: seq<byte>)
    | Between(control: Frame)
  {
    predicate WellFormed() {
      match this
      case Whole(op, mask, data) => op == OP_TEXT || op == OP_BINARY
      case Fragmented(op, first, middle, mask, last) =>
        (op == OP_TEXT || op == OP_BINARY) && AllControls(first.controls) && AllFragments(middle)
      case Between(f) => IsControl(f)
    }
  }

  predicate AllWellFormed(items: seq<Item>) {
    items == [] || (items[0].WellFormed() && AllWellFormed(items[1..]))
  }

  function MiddleFrames(fs: seq<Fragment>): seq<Frame> {
    if fs == [] then []
    else [Frame(OP_CONTINUE, fs[0].mask, fs[0].data)] + fs[0].controls + MiddleFrames(fs[1..])
  }

  function Join(fs: seq<Fragment>): seq<byte> {
    if fs == [] then [] else fs[0].data + Join(fs[1..])
  }

  function ItemFrames(i: Item): seq<Frame>
    requires i.WellFormed()
  {
    match i
    case Whole(op, mask, data) => [Frame(FIN + op, mask, data)]
    case Fragmented(op, first, middle, mask, last) =>
      [Frame(op, first.mask, first.data)] + first.controls + MiddleFrames(middle) + [Frame(FIN, mask, last)]
    case Between(f) => [f]
  }

  function StreamFrames(items: seq<Item>): seq<Frame>
    requires AllWellFormed(items)
  {
    if items == [] then [] else ItemFrames(items[0]) + StreamFrames(items[1..])
  }

  // What such a stream must report.

  function ControlEvents(f: Frame): seq<Event> {
    if f.flags == FIN + OP_PING then [Pong(f.data), Ctl(f.flags, f.data)]
    else if f.flags == FIN + OP_CLOSE then [Ctl(f.flags, f.data), CloseEcho(f.data)]
    else [Ctl(f.flags, f.data)]
  }

  function ControlsEvents(fs: seq<Frame>): seq<Event> {
    if fs == [] then [] else ControlEvents(fs[0]) + ControlsEvents(fs[1..])
  }

  function MiddleEvents(fs: seq<Fragment>): seq<Event> {
    if fs == [] then []
    else [Ctl(OP_CONTINUE, fs[0].data)] + ControlsEvents(fs[0].controls) + MiddleEvents(fs[1..])
  }

  /** A message is reported once, after its last fragment, with the flags of its first
      frame and the payloads joined in order; every continuation and control frame is
      reported as it arrives. */
  function ItemEvents(i: Item): seq<Event>
    requires i.WellFormed()
  {
    match i
    case Whole(op, mask, data) => [Msg(FIN + op, data)]
    case Fragmented(op, first, middle, mask, last) =>
      ControlsEvents(first.controls) + MiddleEvents(middle)
        + [Ctl(FIN, last), Msg(op, first.data + Join(middle) + last)]
    case Between(f) => ControlEvents(f)
  }

  function StreamEvents(items: seq<Item>): seq<Event>
    requires AllWellFormed(items)
  {
    if items == [] then [] else ItemEvents(items[0]) + StreamEvents(items[1..])
  }

  lemma HandleControl(p: Progress, f: Frame)
    requires IsControl(f)
    ensures Handle(p, f.flags, f.data) == Progress(p.kept, p.events + ControlEvents(f))
  {
  }

  lemma HandleContinuation(p: Progress, data: seq<byte>)
    ensures Handle(p, OP_CONTINUE, data) == Progress(p.kept + data, p.events + [Ctl(OP_CONTINUE, data)])
  {
    assert p.kept + [] == p.kept;
  }

  lemma HandleLast(op: byte, kept: seq<byte>, events: seq<Event>, data: seq<byte>)
    ensures Handle(Progress([op] + kept, events), FIN, data)
         == Progress([], events + [Ctl(FIN, data), Msg(op, kept + data)])
  {
    assert ([op] + kept) + [] + data == [op] + (kept + data);
    assert events + [Ctl(FIN, data)] + [Msg(op, kept + data)] == events + [Ctl(FIN, data), Msg(op, kept + data)];
  }

  lemma {:induction false} HandleOne(p: Progress, f: Frame)
    ensures HandleAll(p, [f]) == Handle(p, f.flags, f.data)
  {
    assert [f][1..] == [];
  }

  lemma Append3(a: seq<Event>, b: seq<Event>, c: seq<Event>)
    ensures (a + b) + c == a + (b + c)
  {
  }

  /** Control frames leave the fragments kept so far alone. */
  lemma {:induction false} HandleControls(p: Progress, fs: seq<Frame>)
    requires AllControls(fs)
    ensures HandleAll(p, fs) == Progress(p.kept, p.events + ControlsEvents(fs))
    decreases |fs|
  {
    if fs == [] {
      assert p.events + [] == p.events;
    } else {
      HandleControl(p, fs[0]);
      HandleControls(Progress(p.kept, p.events + ControlEvents(fs[0])), fs[1..]);
      Append3(p.events, ControlEvents(fs[0]), ControlsEvents(fs[1..]));
    }
  }

  lemma {:induction false} HandleFragment(p: Progress, f: Fragment)
    requires AllControls(f.controls)
    ensures HandleAll(p, [Frame(OP_CONTINUE, f.mask, f.data)] + f.controls)
         == Progress(p.kept + f.data, p.events + ([Ctl(OP_CONTINUE, f.data)] + ControlsEvents(f.controls)))
  {
    var head := Frame(OP_CONTINUE, f.mask, f.data);
    HandleAllInTwo(p, [head], f.controls);
    HandleOne(p, head);
    HandleContinuation(p, f.data);
    HandleControls(Progress(p.kept + f.data, p.events + [Ctl(OP_CONTINUE, f.data)]), f.controls);
    Append3(p.events, [Ctl(OP_CONTINUE, f.data)], ControlsEvents(f.controls));
  }

  lemma {:induction false} HandleMiddle(p: Progress, fs: seq<Fragment>)
    requires AllFragments(fs)
    ensures HandleAll(p, MiddleFrames(fs)) == Progress(p.kept + Join(fs), p.events + MiddleEvents(fs))
    decreases |fs|
  {
    if fs == [] {
      assert p.events + [] == p.events && p.kept + [] == p.kept;
    } else {
      var f, rest := fs[0], fs[1..];
      var events := [Ctl(OP_CONTINUE, f.data)] + ControlsEvents(f.controls);
      HandleAllInTwo(p, [Frame(OP_CONTINUE, f.mask, f.data)] + f.controls, MiddleFrames(rest));
      HandleFragment(p, f);
      HandleMiddle(Progress(p.kept + f.data, p.events + events), rest);
      Append3(p.events, events, MiddleEvents(rest));
      assert (p.kept + f.data) + Join(rest) == p.kept + (f.data + Join(rest));
    }
  }

  lemma HandleFirst(events: seq<Event>, op: byte, data: seq<byte>)
    requires op == OP_TEXT || op == OP_BINARY
    ensures Handle(Progress([], events), op, data) == Progress([op] + data, events)
  {
    assert events + [] == events;
    assert [] + [op] + data == [op] + data;
  }

  lemma HandleOpening(events: seq<Event>, op: byte, first: Fragment)
    requires (op == OP_TEXT || op == OP_BINARY) && AllControls(first.controls)
    ensures HandleAll(Progress([], events), [Frame(op, first.mask, first.data)] + first.controls)
         == Progress([op] + first.data, events + ControlsEvents(first.controls))
  {
    var p, head := Progress([], events), Frame(op, first.mask, first.data);
    HandleAllInTwo(p, [head], first.controls);
    HandleOne(p, head);
    HandleFirst(events, op, first.data);
    HandleControls(Progress([op] + first.data, events), first.controls);
  }

  lemma HandleFragmented(events: seq<Event>, i: Item)
    requires i.WellFormed() && i.Fragmented?
    ensures HandleAll(Progress([], events), ItemFrames(i)) == Progress([], events + ItemEvents(i))
  {
    hide Handle, HandleAll, ControlsEvents, MiddleEvents, MiddleFrames, Join;
    var opening := [Frame(i.op, i.first.mask, i.first.data)] + i.first.controls;
    var end := Frame(FIN, i.mask, i.last);
    var e1, e2 := ControlsEvents(i.first.controls), MiddleEvents(i.middle);
    var e3 := [Ctl(FIN, i.last), Msg(i.op, i.first.data + Join(i.middle) + i.last)];
    HandleAllInTwo(Progress([], events), opening + MiddleFrames(i.middle), [end]);
    HandleAllInTwo(Progress([], events), opening, MiddleFrames(i.middle));
    HandleOpening(events, i.op, i.first);
    HandleMiddle(Progress([i.op] + i.first.data, events + e1), i.middle);
    assert ([i.op] + i.first.data) + Join(i.middle) == [i.op] + (i.first.data + Join(i.middle));
    HandleOne(Progress([i.op] + (i.first.data + Join(i.middle)), events + e1 + e2), end);
    HandleLast(i.op, i.first.data + Join(i.middle), events + e1 + e2, i.last);
    assert events + e1 + e2 + e3 == events + (e1 + e2 + e3);
  }

  lemma HandleItem(events: seq<Event>, i: Item)
    requires i.WellFormed()
    ensures HandleAll(Progress([], events), ItemFrames(i)) == Progress([], events + ItemEvents(i))
  {
    match i
    case Whole(op, mask, data) => HandleOne(Progress([], events), Frame(FIN + op, mask, data));
    case Between(f) => HandleOne(Progress([], events), f); HandleControl(Progress([], events), f);
    case Fragmented(_, _, _, _, _) => HandleFragmented(events, i);
  }

  lemma {:induction false} HandleStream(events: seq<Event>, items: seq<Item>)
    requires AllWellFormed(items)
    ensures HandleAll(Progress([], events), StreamFrames(items)) == Progress([], events + StreamEvents(items))
    decreases |items|
  {
    if items == [] {
      assert events + [] == events;
    } else {
      var i, rest := items[0], items[1..];
      HandleAllInTwo(Progress([], events), ItemFrames(i), StreamFrames(rest));
      HandleItem(events, i);
      HandleStream(events + ItemEvents(i), rest);
      Append3(events, ItemEvents(i), StreamEvents(rest));
    }
  }

  /** For every well-formed stream and every way of cutting its bytes into reads, the
      events are exactly those of its items, in order, and nothing is left over. */
  lemma {:induction false} WellFormedStreamIsDelivered(items: seq<Item>, pieces: seq<seq<byte>>)
    requires AllWellFormed(items) && AllValid(StreamFrames(items))
    requires Concat(pieces) == Wire(StreamFrames(items))
    ensures Feed(Progress([], []), [], pieces) == (Progress([], StreamEvents(items)), [])
  {
    var start := Progress([], []);
    assert Parse([]) == Incomplete;
    CuttingDoesNotMatter(start, [], pieces);
    assert [] + Concat(pieces) == Concat(pieces);
    DrainWire(start, StreamFrames(items));
    HandleStream([], items);
    assert [] + StreamEvents(items) == StreamEvents(items);
  }
}
