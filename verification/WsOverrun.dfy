/** The one thing the reassembly gets wrong: after which frames, exactly, a message
    of size_t(0 - 1) bytes is reported. */
module WsOverrun {
  import opened Bytes
  import opened WsFrame
  import opened WsReassembly

  const START := Progress([], [])

  /** A last fragment: what was kept is reported and let go. */
  predicate Delivers(f: Frame) {
    f.flags >= FIN && Op(f.flags) == OP_CONTINUE
  }

  /** A whole message or control frame, or an empty fragment from the middle. */
  predicate KeepsNothing(f: Frame) {
    if f.flags >= FIN then Op(f.flags) != OP_CONTINUE else Op(f.flags) == OP_CONTINUE && f.data == []
  }

  /** From frame j on, which is the first or follows a delivery, nothing is kept. */
  predicate NothingFrom(fs: seq<Frame>, j: nat) {
    && j <= |fs| && (j > 0 ==> Delivers(fs[j - 1]))
    && forall k :: j <= k < |fs| ==> KeepsNothing(fs[k])
  }

  ghost predicate NothingKept(fs: seq<Frame>) {
    exists j: nat :: NothingFrom(fs, j)
  }

  /** The i-th frame is an empty last fragment of nothing. */
  ghost predicate OverrunsAt(fs: seq<Frame>, i: nat) {
    i < |fs| && Delivers(fs[i]) && fs[i].data == [] && NothingKept(fs[..i])
  }

  // ----- frame by frame -----

  function After(fs: seq<Frame>): Progress {
    HandleAll(START, fs)
  }

  lemma AfterOneMore(fs: seq<Frame>, f: Frame)
    ensures After(fs + [f]) == Handle(After(fs), f.flags, f.data)
  {
    hide Handle;
    HandleAllInTwo(START, fs, [f]);
    assert [f][1..] == [];
    assert HandleAll(After(fs), [f]) == HandleAll(Handle(After(fs), f.flags, f.data), []);
  }

  lemma NothingKeptOneMore(fs: seq<Frame>, f: Frame)
    ensures NothingKept(fs + [f]) <==> Delivers(f) || (NothingKept(fs) && KeepsNothing(f))
  {
    hide Delivers, KeepsNothing;
    var more := fs + [f];
    if Delivers(f) {
      assert NothingFrom(more, |more|);
    } else if NothingKept(more) {
      var j: nat :| NothingFrom(more, j);
      assert more[|fs|] == f;
      assert NothingFrom(fs, j) by {
        assert forall k :: 0 <= k < |fs| ==> more[k] == fs[k];
      }
    }
    if NothingKept(fs) && KeepsNothing(f) {
      var j: nat :| NothingFrom(fs, j);
      assert NothingFrom(more, j);
    }
  }

  lemma NothingKeptAtFirst()
    ensures NothingKept([])
  {
    assert NothingFrom([], 0);
  }

  /** What is kept is empty exactly after such frames. */
  lemma {:induction false} KeptIsEmptyExactly(fs: seq<Frame>)
    ensures After(fs).kept == [] <==> NothingKept(fs)
    decreases |fs|
  {
    if fs == [] {
      NothingKeptAtFirst();
    } else {
      var before, f := fs[..|fs| - 1], fs[|fs| - 1];
      assert fs == before + [f];
      KeptIsEmptyExactly(before);
      NothingKeptOneMore(before, f);
      AfterOneMore(before, f);
      hide NothingKept, HandleAll, FrameEvents, Op;
    }
  }

  lemma NoOverrunOfOne(flags: byte, data: seq<byte>)
    ensures Overrun !in FrameEvents(flags, data)
  {
  }

  lemma OverrunOfOne(p: Progress, flags: byte, data: seq<byte>)
    ensures
      Overrun in Handle(p, flags, data).events
      <==> Overrun in p.events || (flags >= FIN && Op(flags) == OP_CONTINUE && p.kept == [] && data == [])
  {
    NoOverrunOfOne(flags, data);
    hide FrameEvents, Op;
  }

  lemma OverrunsOneMore(fs: seq<Frame>, f: Frame)
    ensures
      (exists i: nat :: OverrunsAt(fs + [f], i))
      <==> (exists i: nat :: OverrunsAt(fs, i)) || (Delivers(f) && f.data == [] && NothingKept(fs))
  {
    hide Delivers, NothingKept;
    var more := fs + [f];
    assert more[..|fs|] == fs;
    forall i: nat | i < |fs|
      ensures OverrunsAt(more, i) <==> OverrunsAt(fs, i)
    {
      assert more[..i] == fs[..i];
    }
    assert OverrunsAt(more, |fs|) <==> Delivers(f) && f.data == [] && NothingKept(fs);
  }

  lemma {:induction false} OverrunAmongEvents(fs: seq<Frame>)
    ensures Overrun in After(fs).events <==> exists i: nat :: OverrunsAt(fs, i)
    decreases |fs|
  {
    if fs != [] {
      var before, f := fs[..|fs| - 1], fs[|fs| - 1];
      assert fs == before + [f];
      OverrunAmongEvents(before);
      KeptIsEmptyExactly(before);
      AfterOneMore(before, f);
      OverrunOfOne(After(before), f.flags, f.data);
      OverrunsOneMore(before, f);
      hide NothingKept, HandleAll, FrameEvents, Op, Handle, OverrunsAt;
    }
  }

  // ----- over streams -----

  /** The frames at the front of any bytes, with lengths of any form, unmasked. */
  function FramesIn(raw: seq<byte>): seq<Frame>
    decreases |raw|
  {
    match Parse(raw)
    case Incomplete => []
    case Complete(_, flags, data) => [Frame(flags, [], data)] + FramesIn(raw[Parse(raw).Size()..])
  }

  lemma {:induction false} DrainIsFrames(p: Progress, raw: seq<byte>)
    ensures Drain(p, raw).0 == HandleAll(p, FramesIn(raw))
    decreases |raw|
  {
    hide Parse, Handle;
    match Parse(raw)
    case Incomplete =>
    case Complete(_, flags, data) =>
      var rest := raw[Parse(raw).Size()..];
      DrainIsFrames(Handle(p, flags, data), rest);
      assert ([Frame(flags, [], data)] + FramesIn(rest))[1..] == FramesIn(rest);
  }

  /** For all bytes and every way of cutting them into reads, a message beyond the
      buffer is reported exactly if among the frames they hold some empty last fragment
      comes when the frames since the last delivery have left nothing. */
  lemma {:induction false} OverrunExactly(pieces: seq<seq<byte>>)
    ensures Overrun in Feed(START, [], pieces).0.events
       <==> exists i: nat :: OverrunsAt(FramesIn(Concat(pieces)), i)
  {
    assert Parse([]) == Incomplete;
    CuttingDoesNotMatter(START, [], pieces);
    assert [] + Concat(pieces) == Concat(pieces);
    DrainIsFrames(START, Concat(pieces));
    OverrunAmongEvents(FramesIn(Concat(pieces)));
    hide Feed, Drain, HandleAll, OverrunsAt, FramesIn;
  }

  /** The frames in the bytes of built frames are those frames. */
  lemma {:induction false} FramesInWire(fs: seq<Frame>)
    requires AllValid(fs)
    ensures |FramesIn(Wire(fs))| == |fs|
    ensures forall i :: 0 <= i < |fs| ==> FramesIn(Wire(fs))[i] == Frame(fs[i].flags, [], fs[i].data)
    decreases |fs|
  {
    if fs == [] {
      assert Parse([]) == Incomplete;
    } else {
      var f := fs[0];
      var wire, rest := Encode(f.flags, f.mask, f.data), Wire(fs[1..]);
      FrameRoundTrip(f.flags, f.mask, f.data, rest);
      assert (wire + rest)[|wire|..] == rest;
      hide Parse, Encode;
      FramesInWire(fs[1..]);
      assert FramesIn(Wire(fs)) == [Frame(f.flags, [], f.data)] + FramesIn(rest);
    }
  }

  /** A frame of no bytes in the sixteen-bit and in the sixty-four-bit form. */
  lemma LongForms()
    ensures FramesIn([0x80, 126, 0, 0]) == FramesIn([0x80, 127, 0, 0, 0, 0, 0, 0, 0, 0]) == [Frame(0x80, [], [])]
  {
    assert Parse([]) == Incomplete;
    var a: seq<byte>, b: seq<byte> := [0x80, 126, 0, 0], [0x80, 127, 0, 0, 0, 0, 0, 0, 0, 0];
    assert b[2..6] == b[6..10] == [0, 0, 0, 0];
    var zeros: seq<byte> := [0, 0, 0, 0];
    assert zeros[..3] == [0, 0, 0] && zeros[..2] == [0, 0] && zeros[..1] == [0];
    assert FromBigEndian([0]) == FromBigEndian([0, 0]) == FromBigEndian([0, 0, 0]) == FromBigEndian(zeros) == 0;
    assert HeaderFields(a) == Fields(4, 0, 0) && HeaderFields(b) == Fields(10, 0, 0);
    assert Parse(a) == Complete(4, 0x80, []) && Parse(b) == Complete(10, 0x80, []);
    assert a[4..] == [] && b[10..] == [];
  }

  /** Two bytes are enough. */
  lemma TwoBytesOverrun()
    ensures Feed(START, [], [[0x80, 0x00]]) == (Progress([], [Ctl(0x80, []), Overrun]), [])
  {
    var raw: seq<byte> := [0x80, 0x00];
    assert HeaderFields(raw) == Fields(2, 0, 0);
    assert Parse(raw) == Complete(2, 0x80, []);
    assert Parse([]) == Incomplete;
    assert [] + raw == raw && raw[2..] == [];
    assert Handle(START, 0x80, []) == Progress([], [Ctl(0x80, []), Overrun]);
    hide Parse, Handle;
    assert Drain(START, raw) == Drain(Handle(START, 0x80, []), []);
  }

  lemma {:induction false} ControlsHaveNoOverrun(fs: seq<Frame>)
    ensures Overrun !in ControlsEvents(fs)
  {
    if fs != [] {
      ControlsHaveNoOverrun(fs[1..]);
    }
  }

  lemma {:induction false} MiddleHasNoOverrun(fs: seq<Fragment>)
    ensures Overrun !in MiddleEvents(fs)
  {
    if fs != [] {
      ControlsHaveNoOverrun(fs[0].controls);
      MiddleHasNoOverrun(fs[1..]);
    }
  }

  lemma {:induction false} StreamHasNoOverrun(items: seq<Item>)
    requires AllWellFormed(items)
    ensures Overrun !in StreamEvents(items)
  {
    if items != [] {
      match items[0] {
        case Whole(_, _, _) =>
        case Fragmented(_, first, middle, _, _) =>
          ControlsHaveNoOverrun(first.controls);
          MiddleHasNoOverrun(middle);
        case Between(_) =>
      }
      StreamHasNoOverrun(items[1..]);
      hide ControlEvents, ControlsEvents, MiddleEvents, ItemFrames;
    }
  }

  /** No well-formed stream reports it, however it is cut. */
  lemma {:induction false} WellFormedStreamsDoNotOverrun(items: seq<Item>, pieces: seq<seq<byte>>)
    requires AllWellFormed(items) && AllValid(StreamFrames(items)) && Concat(pieces) == Wire(StreamFrames(items))
    ensures Overrun !in Feed(START, [], pieces).0.events
  {
    WellFormedStreamIsDelivered(items, pieces);
    StreamHasNoOverrun(items);
    hide Feed, StreamEvents;
  }
}
