/** The WebSocket side of a connection, as mongoose keeps it: received bytes parsed
    and unmasked in place, fragments squeezed together at the front of the receive
    buffer, frames built at the end of the send buffer. */
module WsConnection {
  import opened Bytes
  import opened WsFrame
  import opened WsReassembly

  lemma MaskStep(data: seq<byte>, mask: seq<byte>, i: nat)
    requires |mask| == 4 && i < |data|
    ensures Mask(data[..i], mask) + [Xor(data[i], mask[i % 4])] == Mask(data[..i + 1], mask)
  {
  }

  lemma SliceOfRest(s: seq<byte>, at: nat, from: nat, to: nat)
    requires from <= to && at + to <= |s|
    ensures s[at..][from..to] == s[at + from..at + to]
  {
  }

  lemma SplitConcat(a: seq<byte>, b: seq<byte>, n: nat)
    requires n <= |b|
    ensures (a + b)[..|a| + n] == a + b[..n] && (a + b)[|a| + n..] == b[n..]
  {
  }

  lemma HeaderShape(b: seq<byte>)
    ensures var f := HeaderFields(b);
      && (f.maskLen == 0 || f.maskLen == 4)
      && (f.headerLen == 0 ==> f.dataLen == 0)
      && (f.headerLen > 0 ==> 2 + f.maskLen <= f.headerLen && |b| >= 2 && (f.maskLen == 4 <==> b[1] >= 128))
  {
  }

  lemma MaskNothing(data: seq<byte>)
    ensures Mask(data, []) == data
  {
  }

  lemma {:induction false} DrainOnce(p: Progress, raw: seq<byte>)
    requires Parse(raw).Complete?
    ensures Drain(p, raw) == Drain(Handle(p, Parse(raw).flags, Parse(raw).data), raw[Parse(raw).Size()..])
  {
    hide Parse, Handle;
  }

  /** An echo of a close frame is among the events. */
  ghost predicate Echoed(es: seq<Event>) {
    exists i :: 0 <= i < |es| && es[i].CloseEcho?
  }

  /** A frame of an unknown operation is among the events. */
  ghost predicate Refused(es: seq<Event>) {
    exists i :: 0 <= i < |es| && es[i].UnknownOp?
  }

  lemma OneMoreEvent(es: seq<Event>, e: Event)
    ensures Echoed(es + [e]) <==> Echoed(es) || e.CloseEcho?
    ensures Refused(es + [e]) <==> Refused(es) || e.UnknownOp?
  {
    var more := es + [e];
    assert more[|es|] == e;
    assert forall i :: 0 <= i < |es| ==> more[i] == es[i];
  }

  class Connection {
    const isClient: bool
    var recv: seq<byte>
    var ofs: nat                    // pfn_data: where the unread bytes begin
    var events: seq<Event>
    var isDraining: bool
    var isClosing: bool
    var send: seq<byte>

    constructor (isClient: bool)
      ensures recv == [] && ofs == 0 && events == [] && send == []
      ensures Valid() && this.isClient == isClient
    {
      this.isClient := isClient;
      recv, ofs, events, send := [], 0, [], [];
      isDraining, isClosing := false, false;
    }

    /** The connection drains once a close frame is echoed, and closes once an
        operation is refused. */
    ghost predicate FlagsAgree()
      reads this
    {
      (isDraining <==> Echoed(events)) && (isClosing <==> Refused(events))
    }

    ghost predicate Valid()
      reads this
    {
      ofs <= |recv| && FlagsAgree()
    }

    ghost function Done(): Progress
      reads this
      requires Valid()
    {
      Progress(recv[..ofs], events)
    }

    ghost function Unread(): seq<byte>
      reads this
      requires Valid()
    {
      recv[ofs..]
    }

    /** mg_iobuf_add, at any place of the buffer or its end. */
    method RecvAdd(at: nat, data: seq<byte>)
      requires at <= |recv|
      modifies this`recv
      ensures recv == old(recv)[..at] + data + old(recv)[at..]
    {
      recv := recv[..at] + data + recv[at..];
    }

    /** mg_iobuf_del. */
    method RecvDel(at: nat, n: nat) returns (gone: nat)
      modifies this`recv
      ensures at + n <= |old(recv)| ==> gone == n && recv == old(recv)[..at] + old(recv)[at + n..]
      ensures |old(recv)| < at + n && at <= |old(recv)| ==> gone == |old(recv)| - at && recv == old(recv)[..at]
      ensures |old(recv)| < at ==> gone == 0 && recv == old(recv)
    {
      var from := if at > |recv| then |recv| else at;
      gone := if from + n > |recv| then |recv| - from else n;
      recv := recv[..from] + recv[from + gone..];
    }

    /** The header tests of ws_process. */
    method ReadHeader(at: nat) returns (headerLen: nat, dataLen: nat, maskLen: nat)
      requires at <= |recv|
      ensures Fields(headerLen, dataLen, maskLen) == HeaderFields(recv[at..])
    {
      var len := |recv| - at;
      headerLen, dataLen, maskLen := 0, 0, 0;
      if len >= 2 {
        var n := recv[at + 1] % 128;
        maskLen := if recv[at + 1] >= 128 then 4 else 0;
        if n < 126 && len >= maskLen {
          dataLen := n;
          headerLen := 2 + maskLen;
        } else if n == 126 && len >= 4 + maskLen {
          headerLen := 4 + maskLen;
          dataLen := 256 * recv[at + 2] as int + recv[at + 3] as int;
        } else if len >= 10 + maskLen {
          headerLen := 10 + maskLen;
          dataLen := FromBigEndian(recv[at + 2..at + 6]) * TWO_TO_32 + FromBigEndian(recv[at + 6..at + 10]);
          assert recv[at + 2..at + 6] == recv[at..][2..6] && recv[at + 6..at + 10] == recv[at..][6..10];
        }
      }
    }

    /** ws_process on the bytes from `at`; a size of zero means nothing was found. */
    method WsProcess(at: nat) returns (size: nat, headerLen: nat, dataLen: nat)
      requires at <= |recv|
      modifies this`recv
      ensures match Parse(old(recv)[at..])
        case Incomplete => size == 0 && recv == old(recv)
        case Complete(h, f, data) =>
          && size == h + |data| > 0 && headerLen == h && dataLen == |data|
          && recv == old(recv)[..at + h] + data + old(recv)[at + size..]
      ensures size > 0 ==>
        && at + headerLen + dataLen == at + size <= |recv| == |old(recv)| && 2 <= headerLen
        && forall j :: 0 <= j < dataLen ==>
             var from := at + headerLen;
             if old(recv)[at + 1] < 128 then recv[from + j] == old(recv)[from + j]
             else 4 <= headerLen && Turned(recv[from + j], old(recv)[from + j], old(recv)[from - 4 + j % 4])
    {
      hide HeaderFields, Mask, Turned;
      ghost var raw := recv[at..];
      var maskLen;
      headerLen, dataLen, maskLen := ReadHeader(at);
      HeaderShape(raw);
      size := 0;
      if dataLen > MAX_DATA { return; }
      if headerLen + dataLen > |recv| - at { return; }
      size := headerLen + dataLen;
      if headerLen > 0 {
        SliceOfRest(recv, at, headerLen - maskLen, headerLen);
        SliceOfRest(recv, at, headerLen, size);
        if maskLen > 0 {
          Unmask(at + headerLen, dataLen);
        } else {
          MaskNothing(recv[at + headerLen..at + size]);
          assert recv == recv[..at + headerLen] + recv[at + headerLen..at + size] + recv[at + size..];
        }
      }
    }

    /** The unmasking loop: the key is the four bytes before the payload. */
    method Unmask(from: nat, n: nat)
      requires 4 <= from && from + n <= |recv|
      modifies this`recv
      ensures recv
        == old(recv)[..from] + Mask(old(recv)[from..from + n], old(recv)[from - 4..from]) + old(recv)[from + n..]
      ensures forall j :: 0 <= j < n ==> Turned(recv[from + j], old(recv)[from + j], old(recv)[from - 4 + j % 4])
    {
      hide Turned;
      ghost var before := recv;
      ghost var data, key := recv[from..from + n], recv[from - 4..from];
      var i := 0;
      while i < n
        invariant 0 <= i <= n
        invariant recv == before[..from] + Mask(data[..i], key) + before[from + i..]
      {
        MaskStep(data, key, i);
        assert recv[from + i] == before[from + i] == data[i];
        assert recv[from - 4 + i % 4] == key[i % 4];
        recv := recv[from + i := Xor(recv[from + i], recv[from - 4 + i % 4])];
        i := i + 1;
      }
      assert data[..n] == data;
      MaskTurns(data, key);
    }

    method Report(e: Event)
      modifies this`events
      ensures events == old(events) + [e]
      ensures Echoed(events) <==> old(Echoed(events)) || e.CloseEcho?
      ensures Refused(events) <==> old(Refused(events)) || e.UnknownOp?
    {
      OneMoreEvent(events, e);
      events := events + [e];
    }

    /** The switch of mg_ws_cb over the frame's operation code. */
    method Dispatch(flags: byte, data: seq<byte>)
      requires FlagsAgree()
      modifies this`events, this`isDraining, this`isClosing
      ensures FlagsAgree()
      ensures events == old(events) + FrameEvents(flags, data)
      ensures isDraining == (old(isDraining) || Op(flags) == OP_CLOSE)
      ensures isClosing
        == (old(isClosing) || Op(flags) !in {OP_CONTINUE, OP_TEXT, OP_BINARY, OP_CLOSE, OP_PING, OP_PONG})
    {
      hide Echoed, Refused;
      var op := Op(flags);
      if op == OP_CONTINUE {
        Report(Ctl(flags, data));
      } else if op == OP_PING {
        Report(Pong(data));
        Report(Ctl(flags, data));
      } else if op == OP_PONG {
        Report(Ctl(flags, data));
      } else if op == OP_TEXT || op == OP_BINARY {
        if flags >= FIN {
          Report(Msg(flags, data));
        }
      } else if op == OP_CLOSE {
        Report(Ctl(flags, data));
        Report(CloseEcho(data));
        isDraining := true;
      } else {
        Report(UnknownOp(op));
        isClosing := true;
      }
    }

    /** Strips the header of a fragment, leaving its payload (and, of a first
        fragment, its flags) in front of `ofs`. */
    method KeepFragment(headerLen: nat, dataLen: nat)
      requires Valid() && 2 <= headerLen && ofs + headerLen + dataLen <= |recv|
      modifies this`recv, this`ofs
      ensures Valid()
      ensures var flags, from := old(recv[ofs]), old(ofs) + headerLen;
        && recv[..ofs] == old(recv[..ofs]) + (if Op(flags) != OP_CONTINUE then [flags] else [])
                          + old(recv[ofs + headerLen..ofs + headerLen + dataLen])
        && recv[ofs..] == old(recv)[from + dataLen..]
    {
      ghost var before, start, from := recv, ofs, ofs + headerLen;
      var len, strip := headerLen + dataLen, headerLen;
      if Op(recv[ofs]) != OP_CONTINUE {
        ofs, len, strip := ofs + 1, len - 1, strip - 1;
      }
      assert ofs + strip == from && len - strip == dataLen;
      ghost var kept := before[..ofs];
      assert kept == before[..start] + if Op(before[start]) != OP_CONTINUE then [before[start]] else [];
      hide Op;
      var gone := RecvDel(ofs, strip);
      len := len - strip;
      ofs := ofs + len;
      SplitConcat(kept, before[from..], dataLen);
      SliceOfRest(before, from, 0, dataLen);
      SliceOfRest(before, from, dataLen, |before| - from);
    }

    /** The last fragment of a message is in: the message is reported and let go. */
    method Deliver()
      requires Valid()
      modifies this`recv, this`ofs, this`events
      ensures Valid() && ofs == 0 && recv == old(Unread())
      ensures events
        == old(events) + if old(ofs) == 0 then [Overrun] else [Msg(old(recv[..ofs])[0], old(recv[..ofs])[1..])]
    {
      hide Echoed, Refused;
      if ofs == 0 {
        Report(Overrun);
      } else {
        assert recv[..ofs][0] == recv[0] && recv[..ofs][1..] == recv[1..ofs];
        Report(Msg(recv[0], recv[1..ofs]));
      }
      var gone := RecvDel(0, ofs);
      ofs := 0;
    }

    /** One frame, found whole at `ofs` with its payload already unmasked. */
    method HandleFrame(headerLen: nat, dataLen: nat)
      requires Valid() && 2 <= headerLen && ofs + headerLen + dataLen <= |recv|
      modifies this`recv, this`ofs, this`events, this`isDraining, this`isClosing
      ensures Valid()
      ensures Done() == Handle(old(Done()), old(recv[ofs]), old(recv[ofs + headerLen..ofs + headerLen + dataLen]))
      ensures Unread() == old(recv[ofs + headerLen + dataLen..])
    {
      hide FrameEvents, Op, Echoed, Refused;
      var flags, data := recv[ofs], recv[ofs + headerLen..ofs + headerLen + dataLen];
      Dispatch(flags, data);
      if flags < FIN || Op(flags) == OP_CONTINUE {
        KeepFragment(headerLen, dataLen);
        if flags >= FIN {
          Deliver();
        }
      } else {
        var gone := RecvDel(ofs, headerLen + dataLen);
      }
    }

    /** One turn of the loop of mg_ws_cb. */
    method Step() returns (found: bool)
      requires Valid()
      modifies this`recv, this`ofs, this`events, this`isDraining, this`isClosing
      ensures Valid()
      ensures match Parse(old(Unread()))
        case Incomplete => !found && Done() == old(Done()) && Unread() == old(Unread())
        case Complete(h, flags, data) =>
          && found && Done() == Handle(old(Done()), flags, data)
          && Unread() == old(Unread())[h + |data|..]
    {
      ghost var before := recv;
      var size, headerLen, dataLen := WsProcess(ofs);
      found := size > 0;
      if found {
        assert recv[..ofs] == before[..ofs] && recv[ofs] == before[ofs];
        assert recv[ofs + size..] == before[ofs + size..];
        HandleFrame(headerLen, dataLen);
      }
    }

    /** mg_ws_cb on MG_EV_READ: every whole frame, in place. */
    method OnRead()
      requires Valid()
      modifies this`recv, this`ofs, this`events, this`isDraining, this`isClosing
      ensures Valid()
      ensures (Done(), Unread()) == Drain(old(Done()), old(Unread()))
    {
      hide Drain, Parse, Handle, Done;
      ghost var goal := Drain(Done(), Unread());
      var found := true;
      while found
        invariant Valid()
        invariant !found ==> Parse(Unread()) == Incomplete
        invariant Drain(Done(), Unread()) == goal
        decreases found, |Unread()|
      {
        ghost var p, raw := Done(), Unread();
        found := Step();
        if found {
          DrainOnce(p, raw);
        }
      }
      DrainNothing(Done(), Unread());
    }

    /** Bytes arrive and are read. */
    method Receive(data: seq<byte>)
      requires Valid()
      modifies this`recv, this`ofs, this`events, this`isDraining, this`isClosing
      ensures Valid()
      ensures (Done(), Unread()) == Drain(old(Done()), old(Unread()) + data)
    {
      RecvAdd(|recv|, data);
      assert recv[..ofs] == old(recv[..ofs]) && recv[ofs..] == old(recv[ofs..]) + data;
      OnRead();
    }

    /** A whole stream, in pieces. */
    method ReceiveAll(pieces: seq<seq<byte>>)
      requires Valid()
      modifies this`recv, this`ofs, this`events, this`isDraining, this`isClosing
      ensures Valid()
      ensures (Done(), Unread()) == Feed(old(Done()), old(Unread()), pieces)
    {
      var k := 0;
      assert pieces[0..] == pieces;
      while k < |pieces|
        invariant 0 <= k <= |pieces| && Valid()
        invariant Feed(Done(), Unread(), pieces[k..]) == Feed(old(Done()), old(Unread()), pieces)
      {
        assert pieces[k..][0] == pieces[k] && pieces[k..][1..] == pieces[k + 1..];
        Receive(pieces[k]);
        k := k + 1;
      }
    }

    /** What a peer sends to a new connection, in whatever pieces it arrives, is
        reported: every message once, joined, and nothing else. */
    static method ReceiveStream(isClient: bool, pieces: seq<seq<byte>>, ghost items: seq<Item>)
      returns (c: Connection)
      requires AllWellFormed(items) && AllValid(StreamFrames(items)) && Concat(pieces) == Wire(StreamFrames(items))
      ensures fresh(c) && c.Valid() && c.events == StreamEvents(items) && c.Done().kept == [] && c.Unread() == []
      ensures c.isDraining <==> Echoed(StreamEvents(items))
    {
      c := new Connection(isClient);
      hide Feed, Echoed, Refused;
      WellFormedStreamIsDelivered(items, pieces);
      c.ReceiveAll(pieces);
    }

    /** The length bytes of mkhdr, without the mask bit. */
    static method MkLength(len: nat, buf: array<byte>) returns (n: nat)
      requires len < TWO_TO_64 && buf.Length == 14
      modifies buf
      ensures n == 1 + |LengthField(len, false)| <= 10 && buf[0] == old(buf[0])
      ensures buf[1..n] == LengthField(len, false)
    {
      hide BigEndian;
      if len < 126 {
        buf[1] := len;
        n := 2;
      } else if len < 65536 {
        buf[1] := 126;
        Store(buf, 2, BigEndian(len, 2));
        n := 4;
      } else {
        buf[1] := 127;
        Store(buf, 2, BigEndian(len / TWO_TO_32, 4));
        Store(buf, 6, BigEndian(len % TWO_TO_32, 4));
        n := 10;
      }
    }

    lemma MaskBit(len: nat)
      requires len < TWO_TO_64
      ensures LengthField(len, false)[0] < 128
      ensures LengthField(len, true) == LengthField(len, false)[0 := LengthField(len, false)[0] + 128]
    {
    }

    /** mkhdr: the header into `buf`; `key` is what mg_random yields for a client. */
    method MkHdr(len: nat, op: byte, key: seq<byte>, buf: array<byte>) returns (n: nat)
      requires len < TWO_TO_64 && op < 128 && |key| == 4 && buf.Length == 14
      modifies buf
      ensures n <= 14 && buf[..n] == Header(FIN + op, len, if isClient then key else [])
    {
      buf[0] := FIN + op;
      n := MkLength(len, buf);
      MaskBit(len);
      hide LengthField;
      if isClient {
        buf[1] := buf[1] + 128;
        assert buf[1..n] == LengthField(len, true);
        Store(buf, n, key);
        n := n + 4;
        assert buf[..n] == [FIN + op] + LengthField(len, true) + key;
      } else {
        assert buf[..n] == [FIN + op] + LengthField(len, false) + [];
      }
    }

    /** memcpy into the header. */
    static method Store(buf: array<byte>, at: nat, data: seq<byte>)
      requires at + |data| <= buf.Length
      modifies buf
      ensures buf[..] == old(buf[..at]) + data + old(buf[at + |data|..])
      ensures buf[..at + |data|] == old(buf[..at]) + data
    {
      var i := 0;
      while i < |data|
        invariant 0 <= i <= |data|
        invariant buf[..] == old(buf[..at]) + data[..i] + old(buf[at + i..])
      {
        buf[at + i] := data[i];
        i := i + 1;
      }
      assert data[..i] == data;
    }

    /** mg_ws_mask: the end of the send buffer, masked with the four bytes before it. */
    method WsMask(n: nat, ghost sent: seq<byte>, ghost data: seq<byte>)
      requires |data| == n && |sent| >= 4 && send == sent + data
      modifies this`send
      ensures send == sent + Mask(data, sent[|sent| - 4..])
      ensures forall j :: 0 <= j < n ==> Turned(send[|sent| + j], data[j], sent[|sent| - 4 + j % 4])
    {
      hide Xor, Turned;
      ghost var key := sent[|sent| - 4..];
      var from := |send| - n;
      var i := 0;
      while i < n
        invariant 0 <= i <= n
        invariant send == sent + Mask(data[..i], key) + data[i..]
      {
        MaskStep(data, key, i);
        assert send[from + i] == data[i];
        assert send[from - 4 + i % 4] == sent[|sent| - 4 + i % 4] == key[i % 4];
        send := send[from + i := Xor(send[from + i], send[from - 4 + i % 4])];
        i := i + 1;
      }
      assert data[..i] == data;
      MaskTurns(data, key);
    }

    /** mg_ws_send: header, payload, then masking. */
    method WsSend(data: seq<byte>, op: byte, key: seq<byte>)
      requires |data| < TWO_TO_64 && op < 128 && |key| == 4
      modifies this`send
      ensures send == old(send) + Encode(FIN + op, if isClient then key else [], data)
      ensures |data| <= |send| && forall j :: 0 <= j < |data| ==>
        var sent := send[|send| - |data| + j];
        if isClient then Turned(sent, data[j], key[j % 4]) else sent == data[j]
    {
      hide Turned, Mask;
      var header := new byte[14](_ => 0);
      var n := MkHdr(|data|, op, key, header);
      ghost var h := header[..n];
      ghost var sent := old(send) + h;
      send := send + header[..n] + data;
      assert send == sent + data;
      if isClient {
        assert sent[|sent| - 4..] == h[n - 4..] == key;
        WsMask(|data|, sent, data);
        assert sent + Mask(data, key) == old(send) + (h + Mask(data, key));
      } else {
        MaskNothing(data);
        assert sent + data == old(send) + (h + data);
      }
    }
  }
}
