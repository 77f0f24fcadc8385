/** One proxy that joins many simplex connections to one multiplexed one,
    as values: what every event does to its state. The class in Proxy.dfy is
    proved against these functions, and ProxyNet.dfy runs two such proxies
    against each other. */
module ProxySteps {
  import opened Wrappers
  import opened Frames

  const SIMPLEX_GRANT := 8192
  const MULTIPLEX_GRANT := 16 * SIMPLEX_GRANT

  /** Every endpoint has an identity (in the source, its address): 0 is the
      multiplexed one, the simplex ones count from 1. */
  const MUX_REF := 0

  /** A queued buffer, the endpoint that gets its credit back once the buffer
      leaves the queue, and the amount. */
  datatype Mbuf = Mbuf(source: Option<nat>, data: seq<byte>, credit: nat)

  function QueueBytes(q: seq<Mbuf>): seq<byte> {
    if q == [] then [] else q[0].data + QueueBytes(q[1..])
  }

  /** The credit that the buffers of a queue owe to one endpoint. */
  function CreditOf(q: seq<Mbuf>, ref: nat): nat {
    if q == [] then 0
    else (if q[0].source == Some(ref) then q[0].credit else 0) + CreditOf(q[1..], ref)
  }

  /** rfd >= 0 is readable, wfd >= 0 is writable. */
  datatype Endpoint = Endpoint(ref: nat, id: word, readable: bool, writable: bool, shutdownWrite: bool,
                               credit: nat, wbuf: Option<seq<byte>>, wqueue: seq<Mbuf>)
  {
    /** Everything accepted for writing and not yet written. */
    function Pending(): seq<byte> {
      (if wbuf.Some? then wbuf.value else []) + QueueBytes(wqueue)
    }

    predicate Alive() { readable || writable }

    function Enqueue(m: Mbuf): Endpoint {
      this.(wqueue := wqueue + [m])
    }

    predicate PullsUp() { wbuf.None? && wqueue != [] }

    function Pullup(): Endpoint {
      if PullsUp() then this.(wbuf := Some(wqueue[0].data), wqueue := wqueue[1..]) else this
    }

    /** The credit that pulling up returns to this endpoint. */
    function PullupCredit(to: nat): nat {
      if PullsUp() && wqueue[0].source == Some(to) then wqueue[0].credit else 0
    }

    function ShutdownRead(): Endpoint {
      this.(readable := false)
    }

    /** Pending data is discarded. */
    function ShutdownWrite(): Endpoint {
      if writable then this.(writable := false, wbuf := None, wqueue := []) else this
    }

    function ShutdownWriteCredit(to: nat): nat {
      if writable then CreditOf(wqueue, to) else 0
    }

    /** No more input; close the output side too once it has drained. */
    function Halfclose(): Endpoint {
      var e := this.(shutdownWrite := true).Pullup();
      if e.wbuf.Some? then e.ShutdownRead() else e.ShutdownRead().ShutdownWrite()
    }

    /** What happens to an endpoint before each poll. */
    function Prepare(): Endpoint {
      if !writable then this
      else
        var e := Pullup();
        if e.wbuf.None? && e.shutdownWrite then e.ShutdownWrite() else e
    }

    function Write(k: nat): Endpoint
      requires wbuf.Some? && k <= |wbuf.value|
    {
      this.(wbuf := if k == |wbuf.value| then None else Some(wbuf.value[k..]))
    }
  }

  function NewEndpoint(ref: nat, id: word, grant: nat): Endpoint {
    Endpoint(ref, id, true, true, false, grant, None, [])
  }

  /** A simplex connection with the history of its socket. An endpoint whose
      two directions are closed is no longer linked into the endpoint list. */
  datatype Channel = Channel(ep: Endpoint, read: seq<byte>, written: seq<byte>)

  function NewChannel(ref: nat, id: word): Channel {
    Channel(NewEndpoint(ref, id, SIMPLEX_GRANT), [], [])
  }

  /** One proxy: its simplex connections in list order, its multiplexed
      endpoint with the packet being assembled, and the packets that it
      queued for its peer and received from it so far. */
  datatype Side = Side(nextId: word, chans: seq<Channel>, mux: Endpoint, rbuf: seq<byte>,
                       sent: seq<Packet>, handed: seq<Packet>)

  const INIT_SIDE := Side(1, [], NewEndpoint(MUX_REF, 0, MULTIPLEX_GRANT), [], [], [])

  function SetEp(s: Side, i: nat, e: Endpoint): Side
    requires i < |s.chans|
  {
    s.(chans := s.chans[i := s.chans[i].(ep := e)])
  }

  function Send(s: Side, p: Packet, source: Option<nat>, credit: nat): Side
    requires p.Fits()
  {
    s.(mux := s.mux.Enqueue(Mbuf(source, Encode(p), credit)), sent := s.sent + [p])
  }

  /** Position of the first linked endpoint with this id, or |cs|. */
  function FindChannel(cs: seq<Channel>, id: word): (i: nat)
    ensures i <= |cs|
    ensures i < |cs| ==> cs[i].ep.id == id && cs[i].ep.Alive()
    ensures forall j :: 0 <= j < i ==> !(cs[j].ep.id == id && cs[j].ep.Alive())
  {
    if cs == [] then 0
    else if cs[0].ep.id == id && cs[0].ep.Alive() then 0
    else 1 + FindChannel(cs[1..], id)
  }

  /** Give credit back to the simplex endpoints. */
  function Refund(cs: seq<Channel>, q: seq<Mbuf>): (r: seq<Channel>)
    ensures |r| == |cs|
    ensures forall i :: 0 <= i < |cs| ==>
      r[i] == cs[i].(ep := cs[i].ep.(credit := cs[i].ep.credit + CreditOf(q, cs[i].ep.ref)))
  {
    seq(|cs|, i requires 0 <= i < |cs| =>
      cs[i].(ep := cs[i].ep.(credit := cs[i].ep.credit + CreditOf(q, cs[i].ep.ref))))
  }

  lemma RefundNothing(cs: seq<Channel>)
    ensures Refund(cs, []) == cs
  {
  }

  /** How many bytes the receiver still wants before it looks at its buffer again. */
  function Wanted(rbuf: seq<byte>): int {
    if |rbuf| < HEADER_SIZE then HEADER_SIZE - |rbuf| else PacketSize(rbuf) - |rbuf|
  }

  predicate Complete(rbuf: seq<byte>) {
    |rbuf| >= HEADER_SIZE && |rbuf| == PacketSize(rbuf)
  }

  datatype Event =
    | Accept
    | Read(i: nat, data: seq<byte>)
    | Eof(i: nat)
    | Prepare(i: nat)
    | Write(i: nat, k: nat)
    | Hangup(i: nat)
    | MuxPrepare
    | MuxWrite(k: nat)
    | MuxHangup
    | MuxRead(k: nat)
    | MuxHandle
    | MuxEof
    | Purge

  /** When an event can happen, given the bytes waiting on the incoming half
      of the multiplexed connection. */
  predicate Enabled(s: Side, wire: seq<byte>, e: Event) {
    match e
    case Accept => s.nextId < WORD_LIMIT - 1
    case Read(i, data) => i < |s.chans| && s.chans[i].ep.readable && 0 < |data| <= s.chans[i].ep.credit
                          && Packet(CHANNEL_DATA, s.chans[i].ep.id, data).Fits()
    case Eof(i) => i < |s.chans| && s.chans[i].ep.readable && s.chans[i].ep.credit > 0
    case Prepare(i) => i < |s.chans| && s.chans[i].ep.Alive()
    case Write(i, k) => i < |s.chans| && s.chans[i].ep.writable && s.chans[i].ep.wbuf.Some?
                        && 0 < k <= |s.chans[i].ep.wbuf.value|
    case Hangup(i) => i < |s.chans| && s.chans[i].ep.Alive()
    case MuxPrepare => true
    case MuxWrite(k) => s.mux.writable && s.mux.wbuf.Some? && 0 < k <= |s.mux.wbuf.value|
    case MuxHangup => true
    case MuxRead(k) => s.mux.readable && !Complete(s.rbuf) && 0 < k <= |wire| && k <= Wanted(s.rbuf) && k <= s.mux.credit
    case MuxHandle => s.mux.readable && Complete(s.rbuf) && Delivers(s, Decode(s.rbuf))
    case MuxEof => s.mux.readable && wire == []
    case Purge => true
  }

  /** The receiver can queue a DATA packet: it is not empty, and the credit
      left covers it. (The source asserts the latter.) */
  predicate Delivers(s: Side, p: Packet) {
    (p.cmd == CHANNEL_DATA && FindChannel(s.chans, p.channel) < |s.chans|) ==>
      0 < |p.payload| <= s.mux.credit
  }

  function AcceptStep(s: Side): Side
    requires s.nextId < WORD_LIMIT - 1
  {
    var t := Send(s, Packet(CHANNEL_OPEN, s.nextId, []), None, 0);
    t.(nextId := s.nextId + 1, chans := s.chans + [NewChannel(|s.chans| + 1, s.nextId)])
  }

  function ReadStep(s: Side, i: nat, data: seq<byte>): Side
    requires Enabled(s, [], Read(i, data))
  {
    var c := s.chans[i];
    var t := Send(s, Packet(CHANNEL_DATA, c.ep.id, data), Some(c.ep.ref), |data|);
    t.(chans := s.chans[i := c.(ep := c.ep.(credit := c.ep.credit - |data|), read := c.read + data)])
  }

  function EofStep(s: Side, i: nat): Side
    requires i < |s.chans|
  {
    SetEp(Send(s, Packet(CHANNEL_CLOSE, s.chans[i].ep.id, []), None, 0), i, s.chans[i].ep.ShutdownRead())
  }

  /** Buffers queued to a simplex endpoint owe their credit to the
      multiplexed one. */
  function PrepareStep(s: Side, i: nat): Side
    requires i < |s.chans|
  {
    var e := s.chans[i].ep;
    SetEp(s, i, e.Prepare()).(mux := s.mux.(credit := s.mux.credit + if e.writable then e.PullupCredit(MUX_REF) else 0))
  }

  function WriteStep(s: Side, i: nat, k: nat): Side
    requires Enabled(s, [], Write(i, k))
  {
    var c := s.chans[i];
    s.(chans := s.chans[i := c.(ep := c.ep.Write(k), written := c.written + c.ep.wbuf.value[..k])])
  }

  function HangupStep(s: Side, i: nat): Side
    requires i < |s.chans|
  {
    var e := s.chans[i].ep;
    SetEp(s, i, e.ShutdownWrite()).(mux := s.mux.(credit := s.mux.credit + e.ShutdownWriteCredit(MUX_REF)))
  }

  function HalfcloseStep(s: Side, i: nat): Side
    requires i < |s.chans|
  {
    var e := s.chans[i].ep;
    SetEp(s, i, e.Halfclose()).(mux := s.mux.(credit := s.mux.credit + e.PullupCredit(MUX_REF)))
  }

  function MuxPrepareStep(s: Side): Side {
    s.(mux := s.mux.Prepare(),
       chans := if s.mux.writable && s.mux.PullsUp() then Refund(s.chans, s.mux.wqueue[..1]) else s.chans)
  }

  function MuxHangupStep(s: Side): Side {
    s.(mux := s.mux.ShutdownWrite(),
       chans := if s.mux.writable then Refund(s.chans, s.mux.wqueue) else s.chans)
  }

  /** A packet that has just been recorded takes effect. */
  function Dispatch(s: Side, p: Packet): Side
    requires Delivers(s, p)
  {
    var i := FindChannel(s.chans, p.channel);
    if p.cmd == CHANNEL_OPEN then s.(chans := s.chans + [NewChannel(|s.chans| + 1, p.channel)])
    else if i == |s.chans| then s
    else if p.cmd == CHANNEL_CLOSE then HalfcloseStep(s, i)
    else if p.cmd == CHANNEL_DATA then
      SetEp(s, i, s.chans[i].ep.Enqueue(Mbuf(Some(MUX_REF), p.payload, |p.payload|)))
        .(mux := s.mux.(credit := s.mux.credit - |p.payload|))
    else s
  }

  function HandleStep(s: Side): Side
    requires Complete(s.rbuf) && Delivers(s, Decode(s.rbuf))
  {
    var p := Decode(s.rbuf);
    Dispatch(s.(rbuf := [], handed := s.handed + [p]), p)
  }

  /** The loop that closes all channels when the multiplexed connection ends.
      Closing one completely takes it off the list that the loop walks, which
      ends the loop. */
  function HalfcloseFrom(s: Side, i: nat): (t: Side)
    ensures |t.chans| == |s.chans|
    decreases |s.chans| - i
  {
    if i >= |s.chans| then s
    else if !s.chans[i].ep.Alive() then HalfcloseFrom(s, i + 1)
    else
      var t := HalfcloseStep(s, i);
      if t.chans[i].ep.Alive() then HalfcloseFrom(t, i + 1) else t
  }

  function MuxEofStep(s: Side): Side {
    var t := HalfcloseFrom(s, 0);
    t.(mux := t.mux.ShutdownRead())
  }

  /** Before each poll, endpoints whose two directions are closed are freed: what
      is still queued for them gives its credit back. */
  function PurgeOne(s: Side, i: nat): Side
    requires i < |s.chans|
  {
    var e := s.chans[i].ep;
    if e.Alive() then s
    else SetEp(s, i, e.(wbuf := None, wqueue := [])).(mux := s.mux.(credit := s.mux.credit + CreditOf(e.wqueue, MUX_REF)))
  }

  function PurgeFrom(s: Side, i: nat): (t: Side)
    ensures |t.chans| == |s.chans|
    decreases |s.chans| - i
  {
    if i >= |s.chans| then s else PurgeFrom(PurgeOne(s, i), i + 1)
  }

  function PurgeMux(s: Side): Side {
    if s.mux.Alive() then s
    else s.(mux := s.mux.(wbuf := None, wqueue := []), chans := Refund(s.chans, s.mux.wqueue))
  }

  function PurgeStep(s: Side): Side {
    PurgeMux(PurgeFrom(s, 0))
  }

  /** New state, what is left on the incoming wire, what is put on the
      outgoing one. */
  datatype Effect = Effect(s: Side, wire: seq<byte>, out: seq<byte>)

  function Step(s: Side, wire: seq<byte>, e: Event): Effect
    requires Enabled(s, wire, e)
  {
    match e
    case Accept => Effect(AcceptStep(s), wire, [])
    case Read(i, data) => Effect(ReadStep(s, i, data), wire, [])
    case Eof(i) => Effect(EofStep(s, i), wire, [])
    case Prepare(i) => Effect(PrepareStep(s, i), wire, [])
    case Write(i, k) => Effect(WriteStep(s, i, k), wire, [])
    case Hangup(i) => Effect(HangupStep(s, i), wire, [])
    case MuxPrepare => Effect(MuxPrepareStep(s), wire, [])
    case MuxWrite(k) => Effect(s.(mux := s.mux.Write(k)), wire, s.mux.wbuf.value[..k])
    case MuxHangup => Effect(MuxHangupStep(s), wire, [])
    case MuxRead(k) => Effect(s.(rbuf := s.rbuf + wire[..k]), wire[k..], [])
    case MuxHandle => Effect(HandleStep(s), wire, [])
    case MuxEof => Effect(MuxEofStep(s), wire, [])
    case Purge => Effect(PurgeStep(s), wire, [])
  }

  /** A series of events on one side, each of them enabled in its turn: the
      state and the incoming wire afterwards. */
  function Steps(s: Side, wire: seq<byte>, es: seq<Event>): Option<(Side, seq<byte>)> {
    if es == [] then Some((s, wire))
    else
      var r := Steps(s, wire, es[..|es| - 1]);
      var e := es[|es| - 1];
      if r.Some? && Enabled(r.value.0, r.value.1, e)
      then var f := Step(r.value.0, r.value.1, e); Some((f.s, f.wire))
      else None
  }

  lemma OneMoreStep(s: Side, wire: seq<byte>, es: seq<Event>, e: Event)
    requires Steps(s, wire, es).Some?
    requires var r := Steps(s, wire, es).value; Enabled(r.0, r.1, e)
    ensures var r := Steps(s, wire, es).value; var f := Step(r.0, r.1, e);
      Steps(s, wire, es + [e]) == Some((f.s, f.wire))
  {
    assert (es + [e])[..|es|] == es;
  }
}
