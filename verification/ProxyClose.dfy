/** The orderly end of a channel: unless its socket hangs up, everything reaches
    it before it is closed. */
module ProxyClose {
  import opened Frames
  import opened ProxySteps
  import opened ProxySide
  import opened ProxyLink
  import opened ProxyNet
  import opened ProxyRuns

  function CloseOf(id: word): Packet { Packet(CHANNEL_CLOSE, id, []) }

  /** An endpoint is to close only after CLOSE, or after the end of the
      multiplexed connection; and it has closed only once all that came was
      written. */
  predicate ClosesLast(s: Side, c: Channel) {
    && (c.ep.shutdownWrite ==> !c.ep.readable && (CloseOf(c.ep.id) in s.handed || !s.mux.readable))
    && (!c.ep.writable ==> c.ep.shutdownWrite && c.written == DataOf(c.ep.id, s.handed))
  }

  /** The endpoint is half-closed, or not. */
  predicate Halfclosed(c: Channel, d: Channel) {
    d == c || d == c.(ep := c.ep.Halfclose())
  }

  lemma {:induction false} HalfcloseFromEach(s: Side, k: nat, i: nat)
    requires i < |s.chans|
    ensures Halfclosed(s.chans[i], HalfcloseFrom(s, k).chans[i])
    ensures i < k ==> HalfcloseFrom(s, k).chans[i] == s.chans[i]
    decreases |s.chans| - k
  {
    if k < |s.chans| {
      if !s.chans[k].ep.Alive() {
        HalfcloseFromEach(s, k + 1, i);
      } else {
        var t := HalfcloseStep(s, k);
        if t.chans[k].ep.Alive() {
          HalfcloseFromEach(t, k + 1, i);
        }
      }
    }
  }

  /** Nothing is pending when half-closing closes the output side. */
  lemma HalfcloseDrained(e: Endpoint)
    requires e.writable && !e.Halfclose().writable
    ensures e.Pending() == []
  {
  }

  lemma PrepareDrained(e: Endpoint)
    requires e.writable && !e.Prepare().writable
    ensures e.Pending() == [] && e.shutdownWrite
  {
  }

  /** After half-closing, on a side that has a reason for it. */
  lemma HalfcloseLast(s: Side, t: Side, c: Channel)
    requires ChannelOk(s, c) && ClosesLast(s, c)
    requires t.handed == s.handed && (CloseOf(c.ep.id) in t.handed || !t.mux.readable)
    requires s.mux.readable || !t.mux.readable
    ensures ClosesLast(t, c.(ep := c.ep.Halfclose()))
  {
    var d := c.(ep := c.ep.Halfclose());
    if c.ep.writable && !d.ep.writable {
      HalfcloseDrained(c.ep);
      assert c.written + [] == c.written;
    }
    hide DataOf, QueueBytes, CreditOf;
  }

  lemma EofLast(s: Side, i: nat)
    requires SideOk(s) && i < |s.chans| && ClosesLast(s, s.chans[i])
    ensures |MuxEofStep(s).chans| == |s.chans| && ClosesLast(MuxEofStep(s), MuxEofStep(s).chans[i])
  {
    HalfcloseFromShape(s, 0);
    HalfcloseFromEach(s, 0, i);
    var t := MuxEofStep(s);
    assert ChannelOk(s, s.chans[i]);
    HalfcloseLast(s, t, s.chans[i]);
    hide HalfcloseFrom, DataOf;
  }

  /** The packet is in its place among those handed on. */
  predicate InPlace(s: Side, p: Packet) {
    WellOrdered(s.handed + [p]) && (p.cmd == CHANNEL_CLOSE ==> p.payload == [])
  }

  /** Recording a packet; its effect on the channel comes after. */
  lemma RecordLast(s: Side, p: Packet, c: Channel)
    requires ClosesLast(s, c) && InPlace(s, p) && s.mux.readable
    requires c.ep.writable ==> p.cmd != CHANNEL_DATA || p.channel != c.ep.id
    ensures ClosesLast(s.(rbuf := [], handed := s.handed + [p]), c)
  {
    DataOfAppend(c.ep.id, s.handed, p);
    var hs := s.handed + [p];
    if CloseOf(c.ep.id) in s.handed {
      var k :| 0 <= k < |s.handed| && s.handed[k] == CloseOf(c.ep.id);
      assert hs[k] == s.handed[k] && hs[|s.handed|] == p;
    }
  }

  lemma HandleLast(s: Side, i: nat)
    requires SideOk(s) && i < |s.chans| && ClosesLast(s, s.chans[i])
    requires Enabled(s, [], MuxHandle) && InPlace(s, Decode(s.rbuf))
    ensures |HandleStep(s).chans| >= |s.chans| && ClosesLast(HandleStep(s), HandleStep(s).chans[i])
  {
    var p, c := Decode(s.rbuf), s.chans[i];
    var r := s.(rbuf := [], handed := s.handed + [p]);
    var k := FindChannel(s.chans, p.channel);
    assert ChannelOk(s, c);
    if p.cmd == CHANNEL_DATA && p.channel == c.ep.id && c.ep.writable {
      StillOpen(s, HandleStep(s), i);
    } else {
      RecordLast(s, p, c);
      if p.cmd == CHANNEL_CLOSE && k == i {
        assert p == CloseOf(c.ep.id) && p in r.handed;
        RecordedOk(s, r, p, c);
        HalfcloseLast(r, HalfcloseStep(r, k), c);
      }
    }
    hide DataOf, QueueBytes, CreditOf, Decode, WellOrdered;
  }

  lemma RecordedOk(s: Side, r: Side, p: Packet, c: Channel)
    requires ChannelOk(s, c) && r == s.(rbuf := [], handed := s.handed + [p]) && p.cmd == CHANNEL_CLOSE
    ensures ChannelOk(r, c)
  {
    DataOfAppend(c.ep.id, s.handed, p);
  }

  lemma StillOpen(s: Side, t: Side, i: nat)
    requires SideOk(s) && i < |s.chans| && ClosesLast(s, s.chans[i]) && s.chans[i].ep.writable
    requires Enabled(s, [], MuxHandle) && t == HandleStep(s)
    requires Decode(s.rbuf).cmd == CHANNEL_DATA
    ensures |t.chans| == |s.chans| && ClosesLast(t, t.chans[i])
  {
    hide DataOf, QueueBytes, CreditOf;
  }

  /** Every event but a hangup of the channel. */
  lemma EventLast(s: Side, wire: seq<byte>, e: Event, i: nat)
    requires SideOk(s) && Enabled(s, wire, e) && i < |s.chans| && ClosesLast(s, s.chans[i])
    requires e != Hangup(i) && (e.MuxHandle? ==> InPlace(s, Decode(s.rbuf)))
    ensures var t := Step(s, wire, e).s; i < |t.chans| && ClosesLast(t, t.chans[i])
  {
    assert ChannelOk(s, s.chans[i]);
    if e.MuxEof? {
      EofLast(s, i);
    } else if e.MuxHandle? {
      HandleLast(s, i);
    } else if e.Prepare? && e.i == i {
      PrepareLast(s, i);
    } else {
      OtherLast(s, wire, e, i);
    }
  }

  lemma PrepareLast(s: Side, i: nat)
    requires SideOk(s) && i < |s.chans| && ClosesLast(s, s.chans[i])
    ensures ClosesLast(PrepareStep(s, i), PrepareStep(s, i).chans[i])
  {
    var c := s.chans[i];
    assert ChannelOk(s, c);
    if c.ep.writable && !c.ep.Prepare().writable {
      PrepareDrained(c.ep);
      assert c.written + [] == c.written;
    }
  }

  lemma OtherLast(s: Side, wire: seq<byte>, e: Event, i: nat)
    requires SideOk(s) && Enabled(s, wire, e) && i < |s.chans| && ClosesLast(s, s.chans[i])
    requires !e.MuxEof? && !e.MuxHandle? && e != Prepare(i) && e != Hangup(i)
    ensures var t := Step(s, wire, e).s; i < |t.chans| && ClosesLast(t, t.chans[i])
  {
    hide DataOf, QueueBytes, CreditOf, SideOk, Encode;
    if e.Purge? {
      PurgeFromShape(s, 0);
      PurgeFromEach(s, 0, i);
      hide PurgeFrom;
    }
  }

  // ------------------------------------------------------------ whole runs

  /** Packets handed on next are in their place. */
  lemma NextInPlace(x: Side, wire: seq<byte>, y: Side)
    requires SideOk(x) && LinkOk(x, wire, y) && Complete(y.rbuf)
    ensures InPlace(y, Decode(y.rbuf))
  {
    HandsNext(x, wire, y);
    var p, hs := Decode(y.rbuf), y.handed + [Decode(y.rbuf)];
    assert PacketOk(x, p);
    forall i, j | 0 <= i < j < |hs| && hs[i].channel == hs[j].channel
      ensures hs[i].cmd != CHANNEL_CLOSE && hs[j].cmd != CHANNEL_OPEN
    {
      assert hs[i] == x.sent[i] && hs[j] == x.sent[j];
    }
  }

  lemma MoveLast(s: Side, wire: seq<byte>, peer: Side, e: Event, i: nat)
    requires SideOk(s) && SideOk(peer) && LinkOk(peer, wire, s) && Enabled(s, wire, e) && e != Hangup(i)
    requires i < |s.chans| ==> ClosesLast(s, s.chans[i])
    ensures var t := Step(s, wire, e).s; i < |t.chans| ==> ClosesLast(t, t.chans[i])
  {
    hide SideOk, LinkOk, ClosesLast, InPlace, Step, Enabled;
    if e.MuxHandle? {
      assert Complete(s.rbuf) by {
        HandleIsComplete(s, wire);
      }
      NextInPlace(peer, wire, s);
    }
    if i < |s.chans| {
      EventLast(s, wire, e, i);
    } else {
      AddedLast(s, wire, e, i);
    }
  }

  lemma HandleIsComplete(s: Side, wire: seq<byte>)
    requires Enabled(s, wire, MuxHandle)
    ensures Complete(s.rbuf)
  {
  }

  lemma AddedLast(s: Side, wire: seq<byte>, e: Event, i: nat)
    requires Enabled(s, wire, e) && i >= |s.chans|
    ensures var t := Step(s, wire, e).s; i < |t.chans| ==> ClosesLast(t, t.chans[i])
  {
    EventHistory(s, wire, e);
    hide Step, Enabled, Emits, DataOf;
  }

  lemma {:induction false} RunLast(ms: seq<Move>, i: nat)
    requires Run(ms).Some?
    ensures var n := Run(ms).value;
      && (i < |n.a.chans| && AtA(Hangup(i)) !in ms ==> ClosesLast(n.a, n.a.chans[i]))
      && (i < |n.b.chans| && AtB(Hangup(i)) !in ms ==> ClosesLast(n.b, n.b.chans[i]))
  {
    hide NetOk, ClosesLast, Step, Enabled;
    if ms != [] {
      var k := |ms| - 1;
      RunLast(ms[..k], i);
      RunOk(ms[..k]);
      var n := Run(ms[..k]).value;
      assert NetOk(n) ==> SideOk(n.a) && SideOk(n.b) && LinkOk(n.a, n.ab, n.b) && LinkOk(n.b, n.ba, n.a) by {
        NetParts(n);
      }
      assert ms[k] in ms && forall m <- ms[..k] :: m in ms;
      hide SideOk, LinkOk;
      match ms[k]
      case AtA(e) =>
        if AtA(Hangup(i)) !in ms { MoveLast(n.a, n.ba, n.b, e, i); }
      case AtB(e) =>
        if AtB(Hangup(i)) !in ms { MoveLast(n.b, n.ab, n.a, e, i); }
    }
  }

  lemma NetParts(n: Net)
    ensures NetOk(n) ==> SideOk(n.a) && SideOk(n.b) && LinkOk(n.a, n.ab, n.b) && LinkOk(n.b, n.ba, n.a)
  {
  }

  /** After CLOSE, a channel carries nothing. */
  lemma {:induction false} NothingAfterClose(id: word, ps: seq<Packet>, qs: seq<Packet>)
    requires ps <= qs && WellOrdered(qs) && CloseOf(id) in ps
    ensures DataOf(id, ps) == DataOf(id, qs)
    decreases |qs|
  {
    if ps != qs {
      var k := |qs| - 1;
      NothingAfterClose(id, ps, qs[..k]);
      var j :| 0 <= j < |ps| && ps[j] == CloseOf(id);
      assert qs[j] == ps[j];
    }
  }

  /** In every run in which a channel's socket did not hang up: once it has
      closed, exactly what the packets handed on carried for it has been
      written; and if its CLOSE was among them, exactly what was read at the
      other end. */
  lemma OrderlyClose(ms: seq<Move>, i: nat)
    requires Run(ms).Some?
    ensures var n := Run(ms).value;
      && (AtB(Hangup(i)) !in ms ==> AllWritten(n.b, i)) && (AtA(Hangup(i)) !in ms ==> AllWritten(n.a, i))
      && (AtB(Hangup(i)) !in ms && Ended(n.b, i) ==> n.b.chans[i].written == ReadFrom(n.a.chans, n.b.chans[i].ep.id))
      && (AtA(Hangup(i)) !in ms && Ended(n.a, i) ==> n.a.chans[i].written == ReadFrom(n.b.chans, n.a.chans[i].ep.id))
  {
    RunOk(ms);
    RunLast(ms, i);
    var n := Run(ms).value;
    NetParts(n);
    hide NetOk, Run;
    if AtB(Hangup(i)) !in ms && Ended(n.b, i) {
      EndedAll(n.a, n.ab, n.b, i);
    }
    if AtA(Hangup(i)) !in ms && Ended(n.a, i) {
      EndedAll(n.b, n.ba, n.a, i);
    }
  }

  predicate AllWritten(s: Side, i: nat) {
    i < |s.chans| && !s.chans[i].ep.writable ==> s.chans[i].written == DataOf(s.chans[i].ep.id, s.handed)
  }

  predicate Ended(s: Side, i: nat) {
    i < |s.chans| && CloseOf(s.chans[i].ep.id) in s.handed && !s.chans[i].ep.writable
  }

  lemma EndedAll(x: Side, wire: seq<byte>, y: Side, i: nat)
    requires SideOk(x) && SideOk(y) && LinkOk(x, wire, y) && Ended(y, i) && ClosesLast(y, y.chans[i])
    ensures y.chans[i].written == ReadFrom(x.chans, y.chans[i].ep.id)
  {
    var id := y.chans[i].ep.id;
    ReadAll(x, id);
    NothingAfterClose(id, y.handed, x.sent);
  }
}
