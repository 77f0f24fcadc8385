/** Two proxies joined by a reliable byte stream in each direction: proxy A
    accepts the clients, proxy B opens one connection to the server for each
    of them. */
module ProxyNet {
  import opened Wrappers
  import opened Frames
  import opened ProxySteps
  import opened ProxySide
  import opened ProxyLink

  // ---------------------------------------------------------------- runs

  datatype Net = Net(a: Side, b: Side, ab: seq<byte>, ba: seq<byte>)

  datatype Move = AtA(e: Event) | AtB(e: Event)

  const INIT := Net(INIT_SIDE, INIT_SIDE, [], [])

  predicate CanMove(n: Net, m: Move) {
    match m
    case AtA(e) => Enabled(n.a, n.ba, e)
    case AtB(e) => !e.Accept? && Enabled(n.b, n.ab, e)
  }

  function Next(n: Net, m: Move): Net
    requires CanMove(n, m)
  {
    match m
    case AtA(e) => var f := Step(n.a, n.ba, e); Net(f.s, n.b, n.ab + f.out, f.wire)
    case AtB(e) => var f := Step(n.b, n.ab, e); Net(n.a, f.s, f.wire, n.ba + f.out)
  }

  /** The state after these moves, if each of them can happen. */
  function Run(ms: seq<Move>): Option<Net> {
    if ms == [] then Some(INIT)
    else
      var r := Run(ms[..|ms| - 1]);
      var m := ms[|ms| - 1];
      if r.Some? && CanMove(r.value, m) then Some(Next(r.value, m)) else None
  }

  // ------------------------------------------------------ the whole system

  ghost predicate Opened(s: Side, ps: seq<Packet>) {
    forall id: word :: HasChannel(s, id) ==> Packet(CHANNEL_OPEN, id, []) in ps
  }

  predicate OpensClean(ps: seq<Packet>) {
    forall p <- ps :: p.cmd == CHANNEL_OPEN ==> p.payload == []
  }

  ghost predicate NetOk(n: Net) {
    && SideOk(n.a) && SideOk(n.b)
    && LinkOk(n.a, n.ab, n.b) && LinkOk(n.b, n.ba, n.a)
    && (forall i :: 0 <= i < |n.a.chans| ==> n.a.chans[i].ep.id < n.a.nextId)
    && Opened(n.a, n.a.sent) && Opened(n.b, n.b.handed)
    && OpensFirst(n.a.sent)
    && OpensClean(n.a.sent)
    && (forall p <- n.b.sent :: p.cmd != CHANNEL_OPEN)
  }

  /** A client id that A has not assigned yet never came back from B. */
  lemma UnusedAtA(n: Net)
    requires NetOk(n)
    ensures !HasChannel(n.a, n.a.nextId)
    ensures forall p <- n.a.handed :: p.channel < n.a.nextId
  {
    forall p <- n.a.handed ensures p.channel < n.a.nextId {
      assert p in n.b.sent && PacketOk(n.b, p);
      var open := Packet(CHANNEL_OPEN, p.channel, []);
      assert open in n.b.handed && open in n.a.sent;
      assert PacketOk(n.a, open);
    }
  }

  /** An OPEN that arrives at B is the first that B hears of that channel. */
  lemma UnusedAtB(a: Side, b: Side, p: Packet)
    requires SideOk(a) && Opened(b, b.handed)
    requires b.handed + [p] <= a.sent && p.cmd == CHANNEL_OPEN
    ensures !HasChannel(b, p.channel) && (forall q <- b.handed :: q.channel != p.channel)
  {
    var k := |b.handed|;
    assert a.sent[k] == (b.handed + [p])[k] == p;
    assert PacketOk(a, p);
    var i :| 0 <= i < |a.chans| && a.chans[i].ep.id == p.channel;
    assert ChannelOk(a, a.chans[i]);
    forall q <- b.handed ensures q.channel != p.channel {
      var j :| 0 <= j < k && b.handed[j] == q;
      assert a.sent[j] == (b.handed + [p])[j] == q;
    }
  }

  lemma OpensFirstAppend(ps: seq<Packet>, p: Packet)
    requires OpensFirst(ps)
    requires p == Packet(CHANNEL_OPEN, p.channel, []) || Packet(CHANNEL_OPEN, p.channel, []) in ps
    ensures OpensFirst(ps + [p])
  {
    var qs := ps + [p];
    forall j | 0 <= j < |qs| ensures OpenedBefore(qs, j) {
      if j < |ps| {
        assert OpenedBefore(ps, j) && qs[..j + 1] == ps[..j + 1];
      } else {
        assert qs[..j + 1] == qs;
      }
    }
  }

  lemma FreshAtA(n: Net, e: Event)
    requires NetOk(n) && CanMove(n, AtA(e))
    ensures Fresh(n.a, e)
    ensures e.MuxHandle? ==> Decode(n.a.rbuf).cmd != CHANNEL_OPEN
  {
    UnusedAtA(n);
    if e.MuxHandle? {
      NextPacket(n.b, n.ba, n.a);
      assert n.b.sent[|n.a.handed|] in n.b.sent;
    }
  }

  lemma MoveAtAOk(n: Net, e: Event)
    requires NetOk(n) && CanMove(n, AtA(e))
    ensures NetOk(Next(n, AtA(e)))
  {
    FreshAtA(n, e);
    EventOk(n.a, n.ba, e);
    EventHistory(n.a, n.ba, e);
    SenderKeepsLink(n.a, n.ba, e, n.ab, n.b);
    ReceiverKeepsLink(n.b, n.ba, e, n.a);
    AssembleA(n, Step(n.a, n.ba, e), Emits(n.a, n.ba, e), Handed(n.a, e), Adds(n.a, e));
  }

  lemma AssembleA(n: Net, f: Effect, sent: Option<Packet>, handed: Option<Packet>, added: Option<word>)
    requires NetOk(n)
    requires SideOk(f.s) && HistoryStep(n.a, f.s, sent, handed, added)
    requires LinkOk(f.s, n.ab + f.out, n.b) && LinkOk(n.b, f.wire, f.s)
    requires handed.Some? ==> handed.value.cmd != CHANNEL_OPEN
    ensures NetOk(Net(f.s, n.b, n.ab + f.out, f.wire))
  {
    OpensAtA(n.a, f.s, sent, added) by {
      hide SideOk, LinkOk, Opened, OpensFirst, OpensClean;
    }
    IdsBelowNext(n.a, f.s, added) by {
      hide SideOk, LinkOk, Opened, OpensFirst, OpensClean;
    }
    hide SideOk, LinkOk, Opened, OpensFirst, OpensClean, HistoryStep;
  }

  /** A's client ids stay below the next one it will assign. */
  lemma IdsBelowNext(s: Side, t: Side, added: Option<word>)
    requires forall i :: 0 <= i < |s.chans| ==> s.chans[i].ep.id < s.nextId
    requires KeepsIds(s, t) && |t.chans| == |s.chans| + (if added.Some? then 1 else 0) && t.nextId >= s.nextId
    requires added.Some? ==> t.chans[|s.chans|].ep.id < t.nextId
    ensures forall i :: 0 <= i < |t.chans| ==> t.chans[i].ep.id < t.nextId
  {
    forall i | 0 <= i < |t.chans| ensures t.chans[i].ep.id < t.nextId {
      assert i < |s.chans| ==> s.chans[i].ep.id == t.chans[i].ep.id < s.nextId;
    }
  }

  /** A's client ids and OPEN packets after an event. */
  lemma OpensAtA(s: Side, t: Side, sent: Option<Packet>, added: Option<word>)
    requires Opened(s, s.sent) && OpensFirst(s.sent) && OpensClean(s.sent)
    requires KeepsIds(s, t) && t.sent == (if sent.Some? then s.sent + [sent.value] else s.sent)
    requires |t.chans| == |s.chans| + (if added.Some? then 1 else 0)
    requires added.Some? ==> t.chans[|s.chans|] == NewChannel(|s.chans| + 1, added.value)
                             && sent == Some(Packet(CHANNEL_OPEN, added.value, []))
    requires added.None? && sent.Some? ==> sent.value.cmd != CHANNEL_OPEN && HasChannel(s, sent.value.channel)
    ensures Opened(t, t.sent) && OpensFirst(t.sent) && OpensClean(t.sent)
  {
    if sent.Some? {
      OpensFirstAppend(s.sent, sent.value);
    }
    forall id: word | HasChannel(t, id) ensures Packet(CHANNEL_OPEN, id, []) in t.sent {
      var i :| 0 <= i < |t.chans| && t.chans[i].ep.id == id;
      if i < |s.chans| {
        assert s.chans[i].ep.id == id && HasChannel(s, id);
      }
    }
  }

  lemma FreshAtB(a: Side, wire: seq<byte>, b: Side)
    requires SideOk(a) && Opened(b, b.handed) && OpensClean(a.sent)
    requires LinkOk(a, wire, b) && Complete(b.rbuf)
    ensures Fresh(b, MuxHandle)
    ensures Decode(b.rbuf).cmd == CHANNEL_OPEN ==> Decode(b.rbuf).payload == []
  {
    HandsNext(a, wire, b);
    var p := Decode(b.rbuf);
    if p.cmd == CHANNEL_OPEN {
      UnusedAtB(a, b, p);
    }
  }

  lemma HandsNext(x: Side, wire: seq<byte>, y: Side)
    requires (forall q <- x.sent :: q.Fits()) && LinkOk(x, wire, y) && Complete(y.rbuf)
    ensures y.handed + [Decode(y.rbuf)] <= x.sent
    ensures Decode(y.rbuf) in x.sent
  {
    NextPacket(x, wire, y);
  }

  lemma MoveAtBOk(n: Net, e: Event)
    requires NetOk(n) && CanMove(n, AtB(e))
    ensures NetOk(Next(n, AtB(e)))
  {
    if e.MuxHandle? {
      FreshAtB(n.a, n.ab, n.b);
    }
    EventOk(n.b, n.ab, e);
    EventHistory(n.b, n.ab, e);
    SenderKeepsLink(n.b, n.ab, e, n.ba, n.a);
    ReceiverKeepsLink(n.a, n.ab, e, n.b);
    AssembleB(n, Step(n.b, n.ab, e), Emits(n.b, n.ab, e), Handed(n.b, e), Adds(n.b, e));
  }

  lemma AssembleB(n: Net, f: Effect, sent: Option<Packet>, handed: Option<Packet>, added: Option<word>)
    requires NetOk(n)
    requires SideOk(f.s) && HistoryStep(n.b, f.s, sent, handed, added)
    requires LinkOk(f.s, n.ba + f.out, n.a) && LinkOk(n.a, f.wire, f.s)
    requires handed.Some? && handed.value.cmd == CHANNEL_OPEN ==> handed.value.payload == []
    requires sent.Some? ==> sent.value.cmd != CHANNEL_OPEN
    ensures NetOk(Net(n.a, f.s, f.wire, n.ba + f.out))
  {
    OpensAtB(n.b, f.s, handed, added) by {
      hide SideOk, LinkOk, Opened;
    }
    hide SideOk, LinkOk, Opened, HistoryStep;
  }

  lemma OpensAtB(s: Side, t: Side, handed: Option<Packet>, added: Option<word>)
    requires Opened(s, s.handed)
    requires KeepsIds(s, t) && t.handed == (if handed.Some? then s.handed + [handed.value] else s.handed)
    requires |t.chans| == |s.chans| + (if added.Some? then 1 else 0)
    requires added.Some? ==> t.chans[|s.chans|] == NewChannel(|s.chans| + 1, added.value)
                             && handed == Some(Packet(CHANNEL_OPEN, added.value, []))
    ensures Opened(t, t.handed)
  {
    forall id: word | HasChannel(t, id) ensures Packet(CHANNEL_OPEN, id, []) in t.handed {
      var i :| 0 <= i < |t.chans| && t.chans[i].ep.id == id;
      if i < |s.chans| {
        assert s.chans[i].ep.id == id && HasChannel(s, id);
      }
    }
  }

  lemma InitOk()
    ensures NetOk(INIT)
  {
    var s := INIT_SIDE;
    assert s.mux.Pending() == [] && EncodeAll(s.sent[|s.handed|..]) == [];
    assert SideOk(s) && LinkOk(s, [], s);
    assert Opened(s, []) && OpensFirst([]);
  }

  /** The invariant holds after every run. */
  lemma {:induction false} RunOk(ms: seq<Move>)
    requires Run(ms).Some?
    ensures NetOk(Run(ms).value)
  {
    if ms == [] {
      InitOk();
    } else {
      RunOk(ms[..|ms| - 1]);
      match ms[|ms| - 1]
      case AtA(e) => MoveAtAOk(Run(ms[..|ms| - 1]).value, e);
      case AtB(e) => MoveAtBOk(Run(ms[..|ms| - 1]).value, e);
    }
  }
}
