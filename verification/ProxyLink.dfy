/** The byte stream from one proxy to the other: whatever either of them does,
    the bytes under way are the packets that were sent and not handed on. */
module ProxyLink {
  import opened Wrappers
  import opened Frames
  import opened ProxySteps
  import opened ProxySide

  // ------------------------------------------- the stream between proxies

  /** The receiver never holds more than the packet it is assembling. */
  predicate Framed(rbuf: seq<byte>) {
    |rbuf| >= HEADER_SIZE ==> |rbuf| <= PacketSize(rbuf)
  }

  /** What is buffered at the receiver, on the wire and in the sender's queue
      is the encoding of the packets not yet handed on. After the sender lost
      the connection, only an initial piece of it is left. */
  predicate LinkOk(x: Side, wire: seq<byte>, y: Side)
    requires forall p <- x.sent :: p.Fits()
  {
    && y.handed <= x.sent
    && Framed(y.rbuf)
    && y.rbuf + wire + (if x.mux.writable then x.mux.Pending() else []) <= EncodeAll(x.sent[|y.handed|..])
    && (x.mux.writable ==> y.rbuf + wire + x.mux.Pending() == EncodeAll(x.sent[|y.handed|..]))
  }

  lemma LinkSend(x: Side, wire: seq<byte>, y: Side, z: Side, p: Packet, m: Mbuf)
    requires (forall q <- x.sent :: q.Fits()) && p.Fits() && LinkOk(x, wire, y)
    requires z.sent == x.sent + [p] && z.mux == x.mux.Enqueue(m) && m.data == Encode(p)
    ensures LinkOk(z, wire, y)
  {
    hide EncodeAll, Encode, QueueBytes;
    var rest := x.sent[|y.handed|..];
    assert z.sent[|y.handed|..] == rest + [p];
    EncodeOneMore(rest, p);
    var out := x.mux.Pending();
    assert z.mux.Pending() == out + m.data by {
      QueueAppend(x.mux.wqueue, m, MUX_REF);
    }
    assert y.rbuf + wire + (out + m.data) == y.rbuf + wire + out + m.data;
  }

  lemma EncodeOneMore(ps: seq<Packet>, p: Packet)
    requires forall q <- ps + [p] :: q.Fits()
    ensures forall q <- ps :: q.Fits()
    ensures p.Fits() && EncodeAll(ps + [p]) == EncodeAll(ps) + Encode(p)
  {
    EncodeAllAppend(ps, [p]);
    assert p in ps + [p];
    assert EncodeAll([p]) == Encode(p) + EncodeAll([]);
  }

  lemma LinkMuxPrepare(x: Side, wire: seq<byte>, y: Side, z: Side)
    requires (forall q <- x.sent :: q.Fits()) && LinkOk(x, wire, y)
    requires z.sent == x.sent && z.mux == x.mux.Prepare()
    ensures LinkOk(z, wire, y)
  {
    PullupKeeps(x.mux);
  }

  lemma LinkMuxWrite(x: Side, wire: seq<byte>, y: Side, k: nat)
    requires (forall q <- x.sent :: q.Fits()) && LinkOk(x, wire, y) && Enabled(x, [], MuxWrite(k))
    ensures LinkOk(x.(mux := x.mux.Write(k)), wire + x.mux.wbuf.value[..k], y)
  {
    hide EncodeAll, QueueBytes;
    var b := x.mux.wbuf.value;
    assert b == b[..k] + b[k..];
    assert x.mux.Pending() == b[..k] + x.mux.Write(k).Pending();
    assert y.rbuf + (wire + b[..k]) + x.mux.Write(k).Pending() == y.rbuf + wire + x.mux.Pending();
  }

  lemma LinkMuxRead(x: Side, wire: seq<byte>, y: Side, k: nat)
    requires (forall q <- x.sent :: q.Fits()) && LinkOk(x, wire, y) && Enabled(y, wire, MuxRead(k))
    ensures LinkOk(x, wire[k..], y.(rbuf := y.rbuf + wire[..k]))
  {
    var r := y.rbuf + wire[..k];
    assert wire == wire[..k] + wire[k..];
    assert r + wire[k..] == y.rbuf + wire;
    if |r| >= HEADER_SIZE {
      StartsWithSize(x.sent[|y.handed|..], r);
      if |y.rbuf| >= HEADER_SIZE {
        StartsWithSize(x.sent[|y.handed|..], y.rbuf);
      }
    }
  }

  /** At the start of a packet stream, a complete header gives the size of the
      first packet. */
  lemma StartsWithSize(ps: seq<Packet>, r: seq<byte>)
    requires forall q <- ps :: q.Fits()
    requires r <= EncodeAll(ps) && |r| >= HEADER_SIZE
    ensures ps != [] && PacketSize(r) == |Encode(ps[0])|
  {
    HeaderOfEncoded(ps[0], EncodeAll(ps[1..]));
    assert r[8..12] == EncodeAll(ps)[8..12];
  }

  /** A complete buffer holds exactly the next packet that the peer sent. */
  lemma NextPacket(x: Side, wire: seq<byte>, y: Side)
    requires (forall q <- x.sent :: q.Fits()) && LinkOk(x, wire, y) && Complete(y.rbuf)
    ensures |y.handed| < |x.sent|
    ensures Decode(y.rbuf) == x.sent[|y.handed|]
    ensures y.rbuf == Encode(x.sent[|y.handed|])
  {
    var rest := x.sent[|y.handed|..];
    assert y.rbuf <= EncodeAll(rest);
    StartsWithSize(rest, y.rbuf);
    assert rest[0] in x.sent;
    assert y.rbuf == EncodeAll(rest)[..|y.rbuf|] == Encode(rest[0]);
    DecodeEncode(rest[0]);
  }

  lemma LinkHandle(x: Side, wire: seq<byte>, y: Side, z: Side)
    requires (forall q <- x.sent :: q.Fits()) && LinkOk(x, wire, y) && Complete(y.rbuf)
    requires z.rbuf == [] && z.handed == y.handed + [Decode(y.rbuf)]
    ensures LinkOk(x, wire, z)
  {
    NextPacket(x, wire, y);
    var rest := x.sent[|y.handed|..];
    assert rest[0] in x.sent && rest == [rest[0]] + rest[1..];
    assert x.sent[|z.handed|..] == rest[1..];
    assert EncodeAll(rest) == Encode(rest[0]) + EncodeAll(rest[1..]);
    var m := if x.mux.writable then x.mux.Pending() else [];
    hide EncodeAll, Encode, Decode, Complete, QueueBytes;
    DropFirst(y.rbuf, wire, m, EncodeAll(rest[1..]));
  }

  lemma DropFirst(first: seq<byte>, wire: seq<byte>, m: seq<byte>, rest: seq<byte>)
    ensures first + wire + m <= first + rest ==> [] + wire + m <= rest
    ensures first + wire + m == first + rest ==> [] + wire + m == rest
  {
    var a, b := first + wire + m, first + rest;
    assert a[|first|..] == [] + wire + m && b[|first|..] == rest;
    if a <= b {
      assert a[|first|..] <= b[|first|..];
    }
  }

  // --------------------------------------------------- one event, any kind

  /** The packet that an event queues for the peer, if it queues one. */
  function Emits(s: Side, wire: seq<byte>, e: Event): Option<Packet>
    requires Enabled(s, wire, e)
  {
    match e
    case Accept => Some(Packet(CHANNEL_OPEN, s.nextId, []))
    case Read(i, data) => Some(Packet(CHANNEL_DATA, s.chans[i].ep.id, data))
    case Eof(i) => Some(Packet(CHANNEL_CLOSE, s.chans[i].ep.id, []))
    case _ => None
  }

  /** An event of the sender leaves the stream to its peer in order. */
  lemma SenderKeepsLink(x: Side, back: seq<byte>, e: Event, wire: seq<byte>, y: Side)
    requires SideOk(x) && Enabled(x, back, e) && LinkOk(x, wire, y)
    requires forall p <- Step(x, back, e).s.sent :: p.Fits()
    ensures LinkOk(Step(x, back, e).s, wire + Step(x, back, e).out, y)
  {
    var z := Step(x, back, e).s;
    assert wire + [] == wire;
    if Emits(x, back, e).Some? {
      LinkSend(x, wire, y, z, Emits(x, back, e).value, z.mux.wqueue[|x.mux.wqueue|]);
    } else if e.MuxWrite? {
      LinkMuxWrite(x, wire, y, e.k);
    } else if e.MuxPrepare? {
      LinkMuxPrepare(x, wire, y, z);
    } else if e.MuxHangup? {
      LinkCut(x, wire, y, z);
    } else if e.Purge? {
      PurgeFromShape(x, 0);
      LinkPurge(x, wire, y, z);
    } else {
      MuxUntouched(x, back, e);
      LinkSameQueue(x, wire, y, z);
    }
  }

  lemma LinkCut(x: Side, wire: seq<byte>, y: Side, z: Side)
    requires (forall q <- x.sent :: q.Fits()) && LinkOk(x, wire, y)
    requires z.sent == x.sent && z.mux == x.mux.ShutdownWrite()
    ensures LinkOk(z, wire, y)
  {
    assert y.rbuf + wire + [] == y.rbuf + wire;
    assert x.mux.writable ==> y.rbuf + wire <= y.rbuf + wire + x.mux.Pending();
  }

  lemma LinkPurge(x: Side, wire: seq<byte>, y: Side, z: Side)
    requires (forall q <- x.sent :: q.Fits()) && LinkOk(x, wire, y)
    requires z.sent == x.sent && z.mux.writable == x.mux.writable
    requires x.mux.writable ==> z.mux.wbuf == x.mux.wbuf && z.mux.wqueue == x.mux.wqueue
    ensures LinkOk(z, wire, y)
  {
  }

  lemma LinkSameQueue(x: Side, wire: seq<byte>, y: Side, z: Side)
    requires (forall q <- x.sent :: q.Fits()) && LinkOk(x, wire, y)
    requires z.sent == x.sent
    requires z.mux.writable == x.mux.writable && z.mux.wbuf == x.mux.wbuf && z.mux.wqueue == x.mux.wqueue
    ensures LinkOk(z, wire, y)
  {
  }

  /** These events leave the multiplexed endpoint's output alone. */
  lemma MuxUntouched(s: Side, wire: seq<byte>, e: Event)
    requires Enabled(s, wire, e)
    requires e.Prepare? || e.Write? || e.Hangup? || e.MuxRead? || e.MuxHandle? || e.MuxEof?
    ensures var t := Step(s, wire, e).s;
      && t.sent == s.sent && Step(s, wire, e).out == []
      && t.mux.writable == s.mux.writable && t.mux.wbuf == s.mux.wbuf && t.mux.wqueue == s.mux.wqueue
  {
    if e.MuxEof? {
      HalfcloseFromShape(s, 0);
    }
  }

  /** So does an event of the receiver. */
  lemma ReceiverKeepsLink(x: Side, wire: seq<byte>, e: Event, y: Side)
    requires SideOk(x) && SideOk(y) && Enabled(y, wire, e) && LinkOk(x, wire, y)
    ensures LinkOk(x, Step(y, wire, e).wire, Step(y, wire, e).s)
  {
    assert forall q <- x.sent :: PacketOk(x, q) && q.Fits();
    hide SideOk, LinkOk, HalfcloseFrom, HandleStep, MuxEofStep, MuxPrepareStep, MuxHangupStep;
    if e.MuxRead? {
      LinkMuxRead(x, wire, y, e.k);
    } else if e.MuxHandle? {
      HandleRecords(y);
      LinkHandle(x, wire, y, HandleStep(y));
    } else {
      KeepsRbuf(y, wire, e);
      LinkSameReceiver(x, wire, y, Step(y, wire, e).s);
    }
  }

  lemma HandleRecords(y: Side)
    requires Enabled(y, [], MuxHandle)
    ensures var z := HandleStep(y); z.rbuf == [] && z.handed == y.handed + [Decode(y.rbuf)]
  {
  }

  lemma LinkSameReceiver(x: Side, wire: seq<byte>, y: Side, z: Side)
    requires (forall q <- x.sent :: q.Fits()) && LinkOk(x, wire, y)
    requires z.rbuf == y.rbuf && z.handed == y.handed
    ensures LinkOk(x, wire, z)
  {
  }

  /** Only reading and handling change what is being assembled. */
  lemma KeepsRbuf(s: Side, wire: seq<byte>, e: Event)
    requires Enabled(s, wire, e) && !e.MuxRead? && !e.MuxHandle?
    ensures var f := Step(s, wire, e); f.s.rbuf == s.rbuf && f.s.handed == s.handed && f.wire == wire
  {
    if e.MuxEof? {
      HalfcloseFromShape(s, 0);
    } else if e.Purge? {
      PurgeFromShape(s, 0);
    }
  }

  /** An event keeps the invariant of its own side, provided that a channel it
      opens is new to both proxies. */
  lemma EventOk(s: Side, wire: seq<byte>, e: Event)
    requires SideOk(s) && Enabled(s, wire, e)
    requires Fresh(s, e)
    ensures SideOk(Step(s, wire, e).s)
  {
    hide SideOk, HandleStep, HalfcloseFrom, MuxPrepareStep, MuxHangupStep, PurgeStep, Refund, DataOf;
    var t := Step(s, wire, e).s;
    match e
    case Accept => AcceptOk(s);
    case Read(i, data) =>
      SendOk(s, t, i, Emits(s, wire, e).value, t.mux.wqueue[|s.mux.wqueue|], t.chans[i]);
    case Eof(i) =>
      SendOk(s, t, i, Emits(s, wire, e).value, t.mux.wqueue[|s.mux.wqueue|], t.chans[i]);
    case Prepare(i) => PrepareOk(s, i);
    case Write(i, k) => WriteOk(s, i, k);
    case Hangup(i) => HangupOk(s, i);
    case MuxPrepare => MuxPrepareOk(s);
    case MuxWrite(k) => ChannelsKept(s, t); SameQueuesOk(s, t);
    case MuxHangup => MuxHangupOk(s);
    case MuxRead(k) => ChannelsKept(s, t); SameQueuesOk(s, t);
    case MuxHandle => HandleOk(s);
    case MuxEof =>
      HalfcloseFromOk(s, 0);
      ChannelsKept(HalfcloseFrom(s, 0), t);
      SameQueuesOk(HalfcloseFrom(s, 0), t);
    case Purge => PurgeOk(s);
  }

  lemma AcceptOk(s: Side)
    requires SideOk(s) && Enabled(s, [], Accept) && Fresh(s, Accept)
    ensures SideOk(AcceptStep(s))
  {
    var t := AcceptStep(s);
    var u := s.(nextId := s.nextId + 1, chans := s.chans + [NewChannel(|s.chans| + 1, s.nextId)]);
    NewChannelOk(s, u, s.nextId);
    assert u.chans[|s.chans|].ep.id == s.nextId;
    forall q <- s.sent ensures q.channel != s.nextId {
      assert PacketOk(s, q);
    }
    hide SideOk, DataOf;
    OpenOk(u, t, Packet(CHANNEL_OPEN, s.nextId, []), t.mux.wqueue[|s.mux.wqueue|]);
  }

  lemma SameQueuesOk(s: Side, t: Side)
    requires SideOk(s)
    requires t == s.(rbuf := t.rbuf, mux := t.mux) && t.mux.wqueue == s.mux.wqueue && t.mux.credit == s.mux.credit
    ensures SideOk(t)
  {
    ChannelsKept(s, t);
    forall j | 0 <= j < |t.chans| ensures ChannelOk(t, t.chans[j]) {
      assert ChannelOk(s, s.chans[j]);
    }
  }

  /** The channel that an event adds to its side, if it adds one. */
  function Adds(s: Side, e: Event): Option<word>
    requires e.MuxHandle? ==> Complete(s.rbuf)
  {
    if e.Accept? then Some(s.nextId)
    else if e.MuxHandle? && Decode(s.rbuf).cmd == CHANNEL_OPEN then Some(Decode(s.rbuf).channel)
    else None
  }

  predicate HistoryStep(s: Side, t: Side, sent: Option<Packet>, handed: Option<Packet>, added: Option<word>) {
    && KeepsIds(s, t)
    && t.sent == (if sent.Some? then s.sent + [sent.value] else s.sent)
    && t.handed == (if handed.Some? then s.handed + [handed.value] else s.handed)
    && |t.chans| == |s.chans| + (if added.Some? then 1 else 0)
    && (added.Some? ==> t.chans[|s.chans|] == NewChannel(|s.chans| + 1, added.value))
    && (sent.Some? ==> sent.value.Fits())
    && (sent.Some? && sent.value.cmd != CHANNEL_OPEN ==> HasChannel(s, sent.value.channel))
    && (sent.Some? && sent.value.cmd == CHANNEL_OPEN ==>
          sent.value == Packet(CHANNEL_OPEN, s.nextId, []) && added == Some(s.nextId) && t.nextId == s.nextId + 1)
    && (added.Some? ==>
          || sent == Some(Packet(CHANNEL_OPEN, added.value, []))
          || (handed.Some? && handed.value.cmd == CHANNEL_OPEN && handed.value.channel == added.value && t.nextId == s.nextId))
    && t.nextId >= s.nextId
  }

  function Handed(s: Side, e: Event): Option<Packet>
    requires e.MuxHandle? ==> Complete(s.rbuf)
  {
    if e.MuxHandle? then Some(Decode(s.rbuf)) else None
  }

  /** A channel that this event adds is new to this side. */
  predicate Fresh(s: Side, e: Event) {
    && (e.Accept? ==> !HasChannel(s, s.nextId) && forall p <- s.handed :: p.channel != s.nextId)
    && (e.MuxHandle? && Complete(s.rbuf) && Decode(s.rbuf).cmd == CHANNEL_OPEN ==>
          var id := Decode(s.rbuf).channel;
          !HasChannel(s, id) && forall q <- s.handed :: q.channel != id)
  }

  /** What an event does to the ids and histories of its side. */
  lemma EventHistory(s: Side, wire: seq<byte>, e: Event)
    requires Enabled(s, wire, e)
    ensures HistoryStep(s, Step(s, wire, e).s, Emits(s, wire, e),
                        Handed(s, e), Adds(s, e))
  {
    match e
    case MuxEof => HalfcloseFromShape(s, 0);
    case MuxHandle => HandleHistory(s);
    case Purge => PurgeFromShape(s, 0);
    case Accept => hide HandleStep, HalfcloseFrom, PurgeFrom;
    case Read(_, _) => hide HandleStep, HalfcloseFrom, PurgeFrom;
    case Eof(_) => hide HandleStep, HalfcloseFrom, PurgeFrom;
    case _ => hide HandleStep, HalfcloseFrom, PurgeFrom, Fresh;
  }

  lemma HandleHistory(s: Side)
    requires Enabled(s, [], MuxHandle)
    ensures HistoryStep(s, HandleStep(s), None, Handed(s, MuxHandle), Adds(s, MuxHandle))
  {
  }
}
