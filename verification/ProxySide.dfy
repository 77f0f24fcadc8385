/** What one proxy keeps: its credit adds up, its queues and its packet
    histories agree, and every event preserves that. */
module ProxySide {
  import opened Wrappers
  import opened Frames
  import opened ProxySteps

  // ------------------------------------------------------------ histories

  /** The payload that these packets carry for one channel. */
  function DataOf(id: word, ps: seq<Packet>): seq<byte> {
    if ps == [] then []
    else
      var p := ps[|ps| - 1];
      DataOf(id, ps[..|ps| - 1]) + if p.cmd == CHANNEL_DATA && p.channel == id then p.payload else []
  }

  /** OPEN comes before everything else of its channel, CLOSE after. */
  predicate WellOrdered(ps: seq<Packet>) {
    forall i, j :: 0 <= i < j < |ps| && ps[i].channel == ps[j].channel ==>
      ps[i].cmd != CHANNEL_CLOSE && ps[j].cmd != CHANNEL_OPEN
  }

  predicate OpenedBefore(ps: seq<Packet>, j: nat)
    requires j < |ps|
  {
    Packet(CHANNEL_OPEN, ps[j].channel, []) in ps[..j + 1]
  }

  predicate OpensFirst(ps: seq<Packet>) {
    forall j {:trigger OpenedBefore(ps, j)} :: 0 <= j < |ps| ==> OpenedBefore(ps, j)
  }

  predicate HasChannel(s: Side, id: word) {
    exists i :: 0 <= i < |s.chans| && s.chans[i].ep.id == id
  }

  /** All bytes that one proxy read from (wrote to) the sockets of a channel. */
  function ReadFrom(cs: seq<Channel>, id: word): seq<byte> {
    if cs == [] then [] else (if cs[0].ep.id == id then cs[0].read else []) + ReadFrom(cs[1..], id)
  }

  function WrittenTo(cs: seq<Channel>, id: word): seq<byte> {
    if cs == [] then [] else (if cs[0].ep.id == id then cs[0].written else []) + WrittenTo(cs[1..], id)
  }

  lemma DataOfAppend(id: word, ps: seq<Packet>, p: Packet)
    ensures DataOf(id, ps + [p]) == DataOf(id, ps) + if p.cmd == CHANNEL_DATA && p.channel == id then p.payload else []
  {
    assert (ps + [p])[..|ps|] == ps;
  }

  lemma {:induction false} DataOfPrefix(id: word, ps: seq<Packet>, qs: seq<Packet>)
    requires ps <= qs
    ensures DataOf(id, ps) <= DataOf(id, qs)
    decreases |qs|
  {
    if ps != qs {
      DataOfPrefix(id, ps, qs[..|qs| - 1]);
    }
  }

  lemma {:induction false} NoDataOf(id: word, ps: seq<Packet>)
    requires forall p <- ps :: p.channel != id
    ensures DataOf(id, ps) == []
  {
    if ps != [] {
      NoDataOf(id, ps[..|ps| - 1]);
    }
  }

  // ------------------------------------------------------- queue accounts

  lemma {:induction false} QueueAppend(q: seq<Mbuf>, m: Mbuf, ref: nat)
    ensures QueueBytes(q + [m]) == QueueBytes(q) + m.data
    ensures CreditOf(q + [m], ref) == CreditOf(q, ref) + if m.source == Some(ref) then m.credit else 0
  {
    if q == [] {
      assert q + [m] == [m];
    } else {
      assert (q + [m])[1..] == q[1..] + [m];
      QueueAppend(q[1..], m, ref);
    }
  }

  /** What the simplex endpoints' queues owe to the multiplexed endpoint. */
  function Owed(cs: seq<Channel>): nat {
    if cs == [] then 0 else CreditOf(cs[0].ep.wqueue, MUX_REF) + Owed(cs[1..])
  }

  lemma {:induction false} OwedUpdate(cs: seq<Channel>, i: nat, c: Channel)
    requires i < |cs|
    ensures Owed(cs[i := c]) == Owed(cs) - CreditOf(cs[i].ep.wqueue, MUX_REF) + CreditOf(c.ep.wqueue, MUX_REF)
  {
    if i > 0 {
      OwedUpdate(cs[1..], i - 1, c);
      assert cs[i := c][1..] == cs[1..][i - 1 := c];
    } else {
      assert cs[i := c][1..] == cs[1..];
    }
  }

  lemma {:induction false} OwedAppend(cs: seq<Channel>, c: Channel)
    ensures Owed(cs + [c]) == Owed(cs) + CreditOf(c.ep.wqueue, MUX_REF)
  {
    if cs == [] {
      assert cs + [c] == [c];
    } else {
      assert (cs + [c])[1..] == cs[1..] + [c];
      OwedAppend(cs[1..], c);
    }
  }

  lemma {:induction false} OwedSameQueues(cs: seq<Channel>, ds: seq<Channel>)
    requires |cs| == |ds| && forall i :: 0 <= i < |cs| ==> cs[i].ep.wqueue == ds[i].ep.wqueue
    ensures Owed(cs) == Owed(ds)
  {
    if cs != [] {
      OwedSameQueues(cs[1..], ds[1..]);
    }
  }

  // ------------------------------------------------- what every side keeps

  predicate ChannelOk(s: Side, c: Channel) {
    && c.read == DataOf(c.ep.id, s.sent)
    && c.written <= DataOf(c.ep.id, s.handed)
    && (c.ep.writable ==> c.written + c.ep.Pending() == DataOf(c.ep.id, s.handed))
    && c.ep.credit + CreditOf(s.mux.wqueue, c.ep.ref) == SIMPLEX_GRANT
    && (c.ep.readable ==> Packet(CHANNEL_CLOSE, c.ep.id, []) !in s.sent)
    && forall m <- c.ep.wqueue :: FromMux(m)
  }

  /** A buffer queued for a simplex endpoint is not empty, and owes its length
      to the multiplexed one. */
  predicate FromMux(m: Mbuf) {
    m.source == Some(MUX_REF) && m.credit == |m.data| > 0
  }

  predicate DistinctIds(cs: seq<Channel>) {
    forall i, j :: 0 <= i < j < |cs| ==> cs[i].ep.id != cs[j].ep.id
  }

  predicate PacketOk(s: Side, p: Packet) {
    p.Fits() && HasChannel(s, p.channel) && (p.cmd == CHANNEL_CLOSE ==> p.payload == [])
  }

  predicate MbufOk(s: Side, m: Mbuf) {
    m.source.Some? ==> 1 <= m.source.value <= |s.chans| && |m.data| == HEADER_SIZE + m.credit && m.credit > 0
  }

  predicate SideOk(s: Side) {
    && DistinctIds(s.chans)
    && (forall i :: 0 <= i < |s.chans| ==> s.chans[i].ep.ref == i + 1 && ChannelOk(s, s.chans[i]))
    && s.mux.credit + Owed(s.chans) == MULTIPLEX_GRANT
    && (forall p <- s.sent :: PacketOk(s, p))
    && (forall m <- s.mux.wqueue :: MbufOk(s, m))
    && WellOrdered(s.sent)
  }

  predicate KeepsIds(s: Side, t: Side) {
    |s.chans| <= |t.chans| && forall i :: 0 <= i < |s.chans| ==> s.chans[i].ep.id == t.chans[i].ep.id
  }

  lemma ChannelsKept(s: Side, t: Side)
    requires KeepsIds(s, t)
    ensures forall id: word :: HasChannel(s, id) ==> HasChannel(t, id)
    ensures forall p: Packet :: PacketOk(s, p) ==> PacketOk(t, p)
    ensures forall m: Mbuf :: MbufOk(s, m) ==> MbufOk(t, m)
  {
    forall id: word | HasChannel(s, id) ensures HasChannel(t, id) {
      var j :| 0 <= j < |s.chans| && s.chans[j].ep.id == id;
      assert t.chans[j].ep.id == id;
    }
  }

  /** One channel changes, the sent and received packets do not. */
  lemma SideOkUpdate(s: Side, t: Side, i: nat, c: Channel)
    requires SideOk(s) && i < |s.chans|
    requires t == s.(chans := s.chans[i := c], mux := s.mux.(credit := t.mux.credit))
    requires c.ep.id == s.chans[i].ep.id && c.ep.ref == s.chans[i].ep.ref
    requires ChannelOk(s, c)
    requires t.mux.credit + CreditOf(c.ep.wqueue, MUX_REF) == s.mux.credit + CreditOf(s.chans[i].ep.wqueue, MUX_REF)
    ensures SideOk(t)
  {
    OwedUpdate(s.chans, i, c);
    ChannelsKept(s, t);
    forall j | 0 <= j < |t.chans| ensures ChannelOk(t, t.chans[j]) {
      assert ChannelOk(s, s.chans[j]);
    }
  }

  lemma PullupKeeps(e: Endpoint)
    ensures e.Pullup().Pending() == e.Pending()
    ensures e.PullupCredit(MUX_REF) + CreditOf(e.Pullup().wqueue, MUX_REF) == CreditOf(e.wqueue, MUX_REF)
  {
    assert e.PullsUp() ==> e.Pending() == [] + (e.wqueue[0].data + QueueBytes(e.wqueue[1..]));
  }

  lemma PrepareOk(s: Side, i: nat)
    requires SideOk(s) && i < |s.chans|
    ensures SideOk(PrepareStep(s, i))
  {
    assert ChannelOk(s, s.chans[i]);
    var e := s.chans[i].ep;
    PullupKeeps(e);
    assert s.(chans := s.chans[i := s.chans[i].(ep := e)]) == s;
    SideOkUpdate(s, PrepareStep(s, i), i, s.chans[i].(ep := e.Prepare()));
  }

  lemma WriteChannelOk(s: Side, c: Channel, d: Channel, k: nat)
    requires ChannelOk(s, c) && c.ep.writable && c.ep.wbuf.Some? && k <= |c.ep.wbuf.value|
    requires d == c.(ep := c.ep.Write(k), written := c.written + c.ep.wbuf.value[..k])
    ensures ChannelOk(s, d)
  {
    hide DataOf, QueueBytes;
    var b := c.ep.wbuf.value;
    assert b == b[..k] + b[k..];
    assert d.written + d.ep.Pending() == c.written + c.ep.Pending();
  }

  lemma WriteOk(s: Side, i: nat, k: nat)
    requires SideOk(s) && Enabled(s, [], Write(i, k))
    ensures SideOk(WriteStep(s, i, k))
  {
    var c := s.chans[i];
    var d := c.(ep := c.ep.Write(k), written := c.written + c.ep.wbuf.value[..k]);
    WriteChannelOk(s, c, d, k);
    hide ChannelOk;
    SideOkUpdate(s, WriteStep(s, i, k), i, d);
  }

  lemma HangupOk(s: Side, i: nat)
    requires SideOk(s) && i < |s.chans|
    ensures SideOk(HangupStep(s, i))
  {
    assert ChannelOk(s, s.chans[i]);
    SideOkUpdate(s, HangupStep(s, i), i, s.chans[i].(ep := s.chans[i].ep.ShutdownWrite()));
  }

  lemma HalfcloseOk(s: Side, i: nat)
    requires SideOk(s) && i < |s.chans|
    ensures SideOk(HalfcloseStep(s, i))
  {
    assert ChannelOk(s, s.chans[i]);
    var e := s.chans[i].ep;
    PullupKeeps(e.(shutdownWrite := true));
    var f := e.Halfclose();
    assert f.wbuf.None? ==> CreditOf(f.wqueue, MUX_REF) + e.PullupCredit(MUX_REF) == CreditOf(e.wqueue, MUX_REF);
    SideOkUpdate(s, HalfcloseStep(s, i), i, s.chans[i].(ep := f));
  }

  /** Only the simplex endpoints and the credit that they return change. */
  predicate OnlyChannels(s: Side, t: Side) {
    && t == s.(chans := t.chans, mux := s.mux.(credit := t.mux.credit))
    && |s.chans| == |t.chans| && KeepsIds(s, t)
  }

  lemma {:induction false} HalfcloseFromShape(s: Side, i: nat)
    ensures OnlyChannels(s, HalfcloseFrom(s, i))
    decreases |s.chans| - i
  {
    if i < |s.chans| {
      if !s.chans[i].ep.Alive() {
        HalfcloseFromShape(s, i + 1);
      } else {
        var t := HalfcloseStep(s, i);
        assert OnlyChannels(s, t);
        if t.chans[i].ep.Alive() {
          HalfcloseFromShape(t, i + 1);
        }
      }
    }
  }

  lemma {:induction false} HalfcloseFromOk(s: Side, i: nat)
    requires SideOk(s)
    ensures SideOk(HalfcloseFrom(s, i))
    decreases |s.chans| - i
  {
    if i < |s.chans| {
      if !s.chans[i].ep.Alive() {
        HalfcloseFromOk(s, i + 1);
      } else {
        HalfcloseOk(s, i);
        HalfcloseFromOk(HalfcloseStep(s, i), i + 1);
      }
    }
  }

  // ------------------------------------------------ freeing what is closed

  lemma PurgeOneOk(s: Side, i: nat)
    requires SideOk(s) && i < |s.chans|
    ensures SideOk(PurgeOne(s, i))
  {
    assert ChannelOk(s, s.chans[i]);
    var e := s.chans[i].ep;
    assert s.(chans := s.chans[i := s.chans[i].(ep := e)]) == s;
    if !e.Alive() {
      SideOkUpdate(s, PurgeOne(s, i), i, s.chans[i].(ep := e.(wbuf := None, wqueue := [])));
    }
  }

  lemma {:induction false} PurgeFromOk(s: Side, i: nat)
    requires SideOk(s)
    ensures SideOk(PurgeFrom(s, i))
    decreases |s.chans| - i
  {
    if i < |s.chans| {
      PurgeOneOk(s, i);
      PurgeFromOk(PurgeOne(s, i), i + 1);
    }
  }

  lemma {:induction false} PurgeFromShape(s: Side, i: nat)
    ensures OnlyChannels(s, PurgeFrom(s, i))
    decreases |s.chans| - i
  {
    if i < |s.chans| {
      assert OnlyChannels(s, PurgeOne(s, i));
      PurgeFromShape(PurgeOne(s, i), i + 1);
    }
  }

  /** A closed endpoint is emptied, the others stay as they are. */
  predicate Purged(c: Channel, d: Channel) {
    d == c || (!c.ep.Alive() && d == c.(ep := c.ep.(wbuf := None, wqueue := [])))
  }

  lemma {:induction false} PurgeFromEach(s: Side, k: nat, i: nat)
    requires i < |s.chans|
    ensures Purged(s.chans[i], PurgeFrom(s, k).chans[i])
    decreases |s.chans| - k
  {
    if k < |s.chans| {
      PurgeFromEach(PurgeOne(s, k), k + 1, i);
    }
  }

  function Emptied(e: Endpoint): Endpoint {
    if e.Alive() then e else e.(wbuf := None, wqueue := [])
  }

  lemma {:induction false} PurgeFromAll(s: Side, k: nat, i: nat)
    requires k <= i < |s.chans|
    ensures PurgeFrom(s, k).chans[i] == s.chans[i].(ep := Emptied(s.chans[i].ep))
    decreases |s.chans| - k
  {
    if k < i {
      PurgeFromAll(PurgeOne(s, k), k + 1, i);
    } else {
      PurgedStay(PurgeOne(s, k), k + 1, i);
    }
  }

  lemma {:induction false} PurgedStay(s: Side, k: nat, i: nat)
    requires i < k && i < |s.chans|
    ensures PurgeFrom(s, k).chans[i] == s.chans[i]
    decreases |s.chans| - k
  {
    if k < |s.chans| {
      PurgedStay(PurgeOne(s, k), k + 1, i);
    }
  }

  /** Freeing empties the closed endpoints' queues. The multiplexed endpoint is
      owed nothing by closed clients any more, and the clients nothing by a closed
      multiplexed endpoint: the credit is theirs. Nothing else changes. */
  lemma PurgeEach(s: Side, i: nat)
    requires SideOk(s) && i < |s.chans|
    ensures var t, c := PurgeStep(s), s.chans[i];
      && |t.chans| == |s.chans|
      && t.chans[i] == c.(ep := Emptied(c.ep).(credit := c.ep.credit + if s.mux.Alive() then 0 else CreditOf(s.mux.wqueue, i + 1)))
      && t.mux == Emptied(s.mux).(credit := t.mux.credit)
      && t.mux.credit == MULTIPLEX_GRANT - Owed(t.chans)
      && t == s.(chans := t.chans, mux := t.mux)
  {
    var p := PurgeFrom(s, 0);
    PurgeFromShape(s, 0);
    PurgeFromAll(s, 0, i);
    PurgeFromOk(s, 0);
    hide PurgeFrom, ChannelOk;
    OwedSameQueues(p.chans, PurgeStep(s).chans);
  }

  // ------------------------------------------------ sending to the peer

  lemma WellOrderedAppend(ps: seq<Packet>, p: Packet)
    requires WellOrdered(ps)
    requires forall q <- ps :: q.channel == p.channel ==> q.cmd != CHANNEL_CLOSE && p.cmd != CHANNEL_OPEN
    ensures WellOrdered(ps + [p])
  {
  }

  /** How queueing packet p in buffer m affects a channel. */
  lemma ChannelOkSend(s: Side, t: Side, p: Packet, m: Mbuf, c: Channel, d: Channel)
    requires ChannelOk(s, c)
    requires t.sent == s.sent + [p] && t.handed == s.handed && t.mux.wqueue == s.mux.wqueue + [m]
    requires d.ep == c.ep.(readable := d.ep.readable, credit := d.ep.credit) && d.written == c.written
    requires d.ep.readable ==> c.ep.readable && !(p.cmd == CHANNEL_CLOSE && p.channel == c.ep.id)
    requires d.ep.credit + (if m.source == Some(c.ep.ref) then m.credit else 0) == c.ep.credit
    requires d.read == c.read + if p.cmd == CHANNEL_DATA && p.channel == c.ep.id then p.payload else []
    ensures ChannelOk(t, d)
  {
    DataOfAppend(c.ep.id, s.sent, p);
    QueueAppend(s.mux.wqueue, m, c.ep.ref);
  }

  /** A packet of an existing channel is queued, and its credit (if any) is
      taken from that channel. */
  lemma SendOk(s: Side, t: Side, i: nat, p: Packet, m: Mbuf, c: Channel)
    requires SideOk(s) && i < |s.chans| && s.chans[i].ep.readable
    requires t == s.(mux := s.mux.Enqueue(m), sent := s.sent + [p], chans := s.chans[i := c])
    requires p.Fits() && p.channel == s.chans[i].ep.id == c.ep.id && |m.data| == HEADER_SIZE + m.credit
    requires m.source.Some? ==> m.credit > 0
    requires
      || (p == Packet(CHANNEL_CLOSE, c.ep.id, []) && m.source == None && c == s.chans[i].(ep := s.chans[i].ep.ShutdownRead()))
      || (p.cmd == CHANNEL_DATA && m.source == Some(c.ep.ref)
          && c == s.chans[i].(read := s.chans[i].read + p.payload, ep := s.chans[i].ep.(credit := c.ep.credit))
          && c.ep.credit + m.credit == s.chans[i].ep.credit)
    ensures SideOk(t)
  {
    OwedUpdate(s.chans, i, c);
    ChannelsKept(s, t);
    assert t.chans[i].ep.id == p.channel;
    assert PacketOk(t, p) && MbufOk(t, m);
    forall j | 0 <= j < |t.chans| ensures ChannelOk(t, t.chans[j]) {
      assert j != i ==> s.chans[j].ep.id != p.channel;
      ChannelOkSend(s, t, p, m, s.chans[j], t.chans[j]);
    }
    forall q <- s.sent | q.channel == p.channel ensures q.cmd != CHANNEL_CLOSE {
      assert PacketOk(s, q) && ChannelOk(s, s.chans[i]);
      assert q.cmd == CHANNEL_CLOSE ==> q == Packet(CHANNEL_CLOSE, p.channel, []);
    }
    WellOrderedAppend(s.sent, p);
  }

  /** A channel that neither proxy has heard of before joins. */
  lemma NothingPending(ref: nat, id: word)
    ensures NewEndpoint(ref, id, SIMPLEX_GRANT).Pending() == []
  {
  }

  lemma NewChannelOk(s: Side, t: Side, id: word)
    requires SideOk(s) && !HasChannel(s, id)
    requires forall p <- s.handed :: p.channel != id
    requires t == s.(chans := s.chans + [NewChannel(|s.chans| + 1, id)], nextId := t.nextId)
    ensures SideOk(t)
  {
    OwedAppend(s.chans, NewChannel(|s.chans| + 1, id));
    ChannelsKept(s, t);
    forall q <- s.sent ensures q.channel != id {
      assert PacketOk(s, q);
    }
    NoDataOf(id, s.sent);
    NoDataOf(id, t.handed);
    NoCreditIn(s.mux.wqueue, |s.chans| + 1);
    hide DataOf, CreditOf, QueueBytes, Owed;
    forall j | 0 <= j < |t.chans| ensures ChannelOk(t, t.chans[j]) {
      if j < |s.chans| {
        assert ChannelOk(s, s.chans[j]);
      } else {
        NothingPending(|s.chans| + 1, id);
      }
    }
    assert DistinctIds(t.chans) by {
      assert forall j :: 0 <= j < |s.chans| ==> s.chans[j].ep.id != id;
    }
  }

  /** The OPEN packet of a channel that just joined is queued. */
  lemma OpenOk(s: Side, t: Side, p: Packet, m: Mbuf)
    requires SideOk(s) && HasChannel(s, p.channel) && p.Fits() && p.cmd == CHANNEL_OPEN && m.source == None
    requires forall q <- s.sent :: q.channel != p.channel
    requires t == s.(mux := s.mux.Enqueue(m), sent := s.sent + [p])
    ensures SideOk(t)
  {
    ChannelsKept(s, t);
    assert PacketOk(t, p) && MbufOk(t, m);
    forall j | 0 <= j < |t.chans| ensures ChannelOk(t, t.chans[j]) {
      ChannelOkSend(s, t, p, m, s.chans[j], t.chans[j]);
    }
    WellOrderedAppend(s.sent, p);
  }

  lemma {:induction false} NoCreditIn(q: seq<Mbuf>, ref: nat)
    requires forall m <- q :: m.source != Some(ref)
    ensures CreditOf(q, ref) == 0
  {
    if q != [] {
      NoCreditIn(q[1..], ref);
    }
  }

  // -------------------------------------------- the multiplexed endpoint

  lemma {:induction false} CreditSplit(q: seq<Mbuf>, k: nat, ref: nat)
    requires k <= |q|
    ensures CreditOf(q, ref) == CreditOf(q[..k], ref) + CreditOf(q[k..], ref)
  {
    if k > 0 {
      CreditSplit(q[1..], k - 1, ref);
      assert q[..k][1..] == q[1..][..k - 1];
    }
  }

  /** The first buffers leave the multiplexed endpoint's queue, and their
      sources get the credit back. */
  lemma RefundOk(s: Side, k: nat, mux: Endpoint)
    requires SideOk(s) && k <= |s.mux.wqueue|
    requires mux.wqueue == s.mux.wqueue[k..] && mux.credit == s.mux.credit
    ensures SideOk(s.(mux := mux, chans := Refund(s.chans, s.mux.wqueue[..k])))
  {
    var cs := Refund(s.chans, s.mux.wqueue[..k]);
    var t := s.(mux := mux, chans := cs);
    OwedSameQueues(s.chans, cs);
    ChannelsKept(s, t);
    assert forall m <- t.mux.wqueue :: m in s.mux.wqueue;
    forall j | 0 <= j < |t.chans| ensures ChannelOk(t, t.chans[j]) {
      assert ChannelOk(s, s.chans[j]);
      CreditSplit(s.mux.wqueue, k, s.chans[j].ep.ref);
    }
  }

  lemma MuxPrepareOk(s: Side)
    requires SideOk(s)
    ensures SideOk(MuxPrepareStep(s))
  {
    hide SideOk, CreditOf;
    var t := MuxPrepareStep(s);
    if s.mux.writable && s.mux.PullsUp() {
      RefundOk(s, 1, t.mux);
    } else {
      assert s.mux.wqueue[..0] == [] && s.mux.wqueue[0..] == s.mux.wqueue;
      RefundNothing(s.chans);
      RefundOk(s, 0, t.mux);
    }
  }

  lemma MuxHangupOk(s: Side)
    requires SideOk(s)
    ensures SideOk(MuxHangupStep(s))
  {
    var t := MuxHangupStep(s);
    if s.mux.writable {
      assert s.mux.wqueue[..|s.mux.wqueue|] == s.mux.wqueue;
      RefundOk(s, |s.mux.wqueue|, t.mux);
    } else {
      assert t == s;
    }
  }

  lemma PurgeOk(s: Side)
    requires SideOk(s)
    ensures SideOk(PurgeStep(s))
  {
    PurgeFromOk(s, 0);
    var t := PurgeFrom(s, 0);
    hide PurgeFrom, SideOk;
    if !t.mux.Alive() {
      assert t.mux.wqueue[..|t.mux.wqueue|] == t.mux.wqueue;
      RefundOk(t, |t.mux.wqueue|, t.mux.(wbuf := None, wqueue := []));
    }
  }

  // ------------------------------------------- receiving from the peer

  /** The packet is recorded; its payload reaches channel d if that is live. */
  lemma ChannelOkHand(s: Side, t: Side, p: Packet, c: Channel, d: Channel)
    requires ChannelOk(s, c)
    requires t.sent == s.sent && t.handed == s.handed + [p] && t.mux.wqueue == s.mux.wqueue
    requires
      if p.cmd == CHANNEL_DATA && p.channel == c.ep.id && c.ep.writable
      then d == c.(ep := c.ep.(wqueue := d.ep.wqueue)) && d.ep.Pending() == c.ep.Pending() + p.payload
      else d == c.(ep := c.ep.(wqueue := d.ep.wqueue)) && (c.ep.writable ==> d == c)
    requires forall m <- d.ep.wqueue :: m in c.ep.wqueue || FromMux(m)
    ensures ChannelOk(t, d)
  {
    DataOfAppend(c.ep.id, s.handed, p);
  }

  /** Recording a packet that carries no data for a live channel. */
  lemma RecordOk(s: Side, p: Packet)
    requires SideOk(s)
    requires p.cmd == CHANNEL_DATA ==> FindChannel(s.chans, p.channel) == |s.chans|
    ensures SideOk(s.(rbuf := [], handed := s.handed + [p]))
  {
    var t := s.(rbuf := [], handed := s.handed + [p]);
    ChannelsKept(s, t);
    forall j | 0 <= j < |t.chans| ensures ChannelOk(t, t.chans[j]) {
      ChannelOkHand(s, t, p, s.chans[j], t.chans[j]);
    }
  }

  lemma DataOk(s: Side, t: Side, p: Packet)
    requires SideOk(s) && p.cmd == CHANNEL_DATA && Delivers(s, p)
    requires FindChannel(s.chans, p.channel) < |s.chans|
    requires var i := FindChannel(s.chans, p.channel);
             t == s.(rbuf := [], handed := s.handed + [p], mux := s.mux.(credit := s.mux.credit - |p.payload|),
                     chans := s.chans[i := s.chans[i].(ep := s.chans[i].ep.Enqueue(Mbuf(Some(MUX_REF), p.payload, |p.payload|)))])
    ensures SideOk(t)
  {
    hide DataOf, CreditOf, QueueBytes, Owed;
    var i := FindChannel(s.chans, p.channel);
    var m := Mbuf(Some(MUX_REF), p.payload, |p.payload|);
    QueueAppend(s.chans[i].ep.wqueue, m, MUX_REF);
    OwedUpdate(s.chans, i, t.chans[i]);
    ChannelsKept(s, t);
    forall j | 0 <= j < |t.chans| ensures ChannelOk(t, t.chans[j]) {
      ChannelOkHand(s, t, p, s.chans[j], t.chans[j]);
    }
  }

  lemma HandleOk(s: Side)
    requires SideOk(s) && Enabled(s, [], MuxHandle)
    requires var p := Decode(s.rbuf); p.cmd == CHANNEL_OPEN ==>
      !HasChannel(s, p.channel) && forall q <- s.handed :: q.channel != p.channel
    ensures SideOk(HandleStep(s))
  {
    var p := Decode(s.rbuf);
    var i := FindChannel(s.chans, p.channel);
    var r := s.(rbuf := [], handed := s.handed + [p]);
    if p.cmd == CHANNEL_DATA && i < |s.chans| {
      DataOk(s, HandleStep(s), p);
    } else if p.cmd == CHANNEL_OPEN {
      NewChannelOk(s, s.(chans := s.chans + [NewChannel(|s.chans| + 1, p.channel)]), p.channel);
      RecordOk(s.(chans := s.chans + [NewChannel(|s.chans| + 1, p.channel)]), p);
    } else {
      RecordOk(s, p);
      if i < |s.chans| && p.cmd == CHANNEL_CLOSE {
        HalfcloseOk(r, i);
      }
    }
  }
}
