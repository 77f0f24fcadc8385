/** That channels do end: a CLOSE packet closes its channel once what came before
    it is written, and the end of a socket's input is told to the other side. */
module ProxyEnds {
  import opened Wrappers
  import opened Frames
  import opened ProxySteps
  import opened ProxySide
  import opened ProxyLink
  import opened ProxyNet
  import opened ProxyClose

  /** After CLOSE, nothing more is read, and the output side is closed or to be
      closed. Reading only ends if CLOSE was sent or came, or the multiplexed
      connection ended. A buffer that is being written is not empty. */
  predicate Ends(s: Side, c: Channel) {
    && (CloseOf(c.ep.id) in s.handed ==> !c.ep.readable && (c.ep.writable ==> c.ep.shutdownWrite))
    && (!c.ep.readable ==> CloseOf(c.ep.id) in s.sent || CloseOf(c.ep.id) in s.handed || !s.mux.readable)
    && (c.ep.wbuf.Some? ==> c.ep.wbuf.value != [])
  }

  /** All that an endpoint may go through without changing when it ends. */
  predicate KeepsEnds(c: Channel, d: Channel) {
    && d.ep.id == c.ep.id && d.ep.readable == c.ep.readable && (c.ep.shutdownWrite ==> d.ep.shutdownWrite)
    && (d.ep.writable ==> c.ep.writable)
    && (d.ep.wbuf == c.ep.wbuf || (d.ep.wbuf.Some? ==> d.ep.wbuf.value != []))
  }

  lemma EndsKept(s: Side, t: Side, c: Channel, d: Channel)
    requires Ends(s, c) && KeepsEnds(c, d)
    requires t.handed == s.handed && s.sent <= t.sent && (t.mux.readable ==> s.mux.readable)
    ensures Ends(t, d)
  {
    assert CloseOf(c.ep.id) in s.sent ==> CloseOf(c.ep.id) in t.sent;
  }

  /** Half-closing is one way to end, on a side that has a reason for it. */
  lemma HalfcloseEnds(s: Side, t: Side, c: Channel)
    requires ChannelOk(s, c) && Ends(s, c)
    requires CloseOf(c.ep.id) in t.handed || !t.mux.readable
    ensures Ends(t, c.(ep := c.ep.Halfclose()))
  {
    assert c.ep.wqueue != [] ==> FromMux(c.ep.wqueue[0]);
  }

  lemma PulledUp(s: Side, c: Channel)
    requires ChannelOk(s, c)
    ensures c.ep.PullsUp() ==> c.ep.wqueue[0].data != []
  {
    assert c.ep.wqueue != [] ==> FromMux(c.ep.wqueue[0]);
  }

  lemma EofEnds(s: Side, i: nat)
    requires i < |s.chans| && ChannelOk(s, s.chans[i]) && Ends(s, s.chans[i])
    ensures |MuxEofStep(s).chans| == |s.chans| && Ends(MuxEofStep(s), MuxEofStep(s).chans[i])
  {
    HalfcloseFromShape(s, 0);
    HalfcloseFromEach(s, 0, i);
    var t := MuxEofStep(s);
    HalfcloseEnds(s, t, s.chans[i]);
    hide HalfcloseFrom;
  }

  lemma HandleEnds(s: Side, i: nat)
    requires SideOk(s) && i < |s.chans| && Ends(s, s.chans[i])
    requires Enabled(s, [], MuxHandle) && InPlace(s, Decode(s.rbuf))
    ensures |HandleStep(s).chans| >= |s.chans| && Ends(HandleStep(s), HandleStep(s).chans[i])
  {
    var p, c := Decode(s.rbuf), s.chans[i];
    assert ChannelOk(s, c);
    if p.cmd == CHANNEL_CLOSE && p.channel == c.ep.id {
      CloseEnds(s, i);
    } else {
      NoClose(s, i);
      HandleRecords(s);
      hide HandleStep, ChannelOk, SideOk, Decode, Enabled, InPlace;
      assert CloseOf(c.ep.id) in HandleStep(s).handed <==> CloseOf(c.ep.id) in s.handed;
    }
  }

  /** The CLOSE of a linked channel half-closes it. */
  lemma CloseEnds(s: Side, i: nat)
    requires DistinctIds(s.chans) && i < |s.chans| && ChannelOk(s, s.chans[i]) && Ends(s, s.chans[i])
    requires Enabled(s, [], MuxHandle) && InPlace(s, Decode(s.rbuf))
    requires Decode(s.rbuf).cmd == CHANNEL_CLOSE && Decode(s.rbuf).channel == s.chans[i].ep.id
    ensures |HandleStep(s).chans| >= |s.chans| && Ends(HandleStep(s), HandleStep(s).chans[i])
  {
    var p, c := Decode(s.rbuf), s.chans[i];
    var r := s.(rbuf := [], handed := s.handed + [p]);
    var k := FindChannel(s.chans, p.channel);
    hide DataOf, QueueBytes, CreditOf, Decode, WellOrdered, ChannelOk;
    assert p == CloseOf(c.ep.id) && r.handed[|s.handed|] == p;
    if k == i {
      HalfcloseEnds(s, HalfcloseStep(r, k), c);
    } else {
      NotLinked(s, i);
    }
  }

  /** Any other packet leaves a channel as open as it was. */
  lemma NoClose(s: Side, i: nat)
    requires SideOk(s) && i < |s.chans| && Enabled(s, [], MuxHandle)
    requires var p := Decode(s.rbuf); !(p.cmd == CHANNEL_CLOSE && p.channel == s.chans[i].ep.id)
    ensures var t := HandleStep(s);
      |t.chans| >= |s.chans| && KeepsEnds(s.chans[i], t.chans[i]) && t.sent == s.sent && t.mux.readable == s.mux.readable
  {
    hide DataOf, QueueBytes, CreditOf, Decode, SideOk;
  }

  /** If its id is found elsewhere or nowhere, an endpoint is closed. */
  lemma NotLinked(s: Side, i: nat)
    requires DistinctIds(s.chans) && i < |s.chans| && FindChannel(s.chans, s.chans[i].ep.id) != i
    ensures !s.chans[i].ep.Alive()
  {
  }

  /** The other events leave a channel as open as it was, except for the end of
      its input. */
  lemma OtherKeeps(s: Side, wire: seq<byte>, e: Event, i: nat)
    requires Enabled(s, wire, e) && i < |s.chans| && (s.chans[i].ep.PullsUp() ==> s.chans[i].ep.wqueue[0].data != [])
    requires !e.MuxEof? && !e.MuxHandle? && e != Eof(i)
    ensures var t := Step(s, wire, e).s;
      && i < |t.chans| && KeepsEnds(s.chans[i], t.chans[i])
      && t.handed == s.handed && s.sent <= t.sent && (t.mux.readable ==> s.mux.readable)
  {
    hide DataOf, QueueBytes, CreditOf, Encode, Decode, HandleStep, MuxEofStep;
    if e.Purge? {
      PurgeFromShape(s, 0);
      PurgeFromEach(s, 0, i);
      hide PurgeFrom;
    } else {
      hide PurgeStep;
    }
  }

  lemma OtherEnds(s: Side, wire: seq<byte>, e: Event, i: nat)
    requires Enabled(s, wire, e) && i < |s.chans| && ChannelOk(s, s.chans[i]) && Ends(s, s.chans[i])
    requires !e.MuxEof? && !e.MuxHandle?
    ensures var t := Step(s, wire, e).s; i < |t.chans| && Ends(t, t.chans[i])
  {
    var c := s.chans[i];
    PulledUp(s, c);
    hide ChannelOk;
    if e == Eof(i) {
      var t := EofStep(s, i);
      assert t.sent[|s.sent|] == CloseOf(c.ep.id);
      assert forall p <- s.sent :: p in t.sent;
    } else {
      OtherKeeps(s, wire, e, i);
      hide Step, Enabled;
      var t := Step(s, wire, e).s;
      EndsKept(s, t, c, t.chans[i]);
    }
  }

  /** A channel that has just joined. */
  lemma NewEnds(s: Side, wire: seq<byte>, e: Event, i: nat)
    requires Enabled(s, wire, e) && Fresh(s, e) && i >= |s.chans| && (e.MuxHandle? ==> Complete(s.rbuf))
    ensures var t := Step(s, wire, e).s; i < |t.chans| ==> Ends(t, t.chans[i])
  {
    EventHistory(s, wire, e);
    hide Step, Enabled, Emits, Decode;
  }

  lemma EventEnds(s: Side, wire: seq<byte>, e: Event, i: nat)
    requires SideOk(s) && Enabled(s, wire, e) && Fresh(s, e) && (e.MuxHandle? ==> InPlace(s, Decode(s.rbuf)))
    requires i < |s.chans| ==> Ends(s, s.chans[i])
    ensures var t := Step(s, wire, e).s; i < |t.chans| ==> Ends(t, t.chans[i])
  {
    hide Ends, InPlace, Fresh;
    if i >= |s.chans| {
      NewEnds(s, wire, e, i);
    } else {
      assert ChannelOk(s, s.chans[i]);
      if e.MuxEof? {
        EofEnds(s, i);
      } else if e.MuxHandle? {
        HandleEnds(s, i);
      } else {
        OtherEnds(s, wire, e, i);
      }
    }
    hide SideOk;
  }

  // ------------------------------------------------------------ whole runs

  lemma MoveEnds(n: Net, m: Move, i: nat)
    requires NetOk(n) && CanMove(n, m)
    requires (i < |n.a.chans| ==> Ends(n.a, n.a.chans[i])) && (i < |n.b.chans| ==> Ends(n.b, n.b.chans[i]))
    ensures var k := Next(n, m);
      (i < |k.a.chans| ==> Ends(k.a, k.a.chans[i])) && (i < |k.b.chans| ==> Ends(k.b, k.b.chans[i]))
  {
    NetParts(n);
    match m
    case AtA(e) =>
      FreshAtA(n, e);
      hide NetOk, SideOk, LinkOk, Ends, InPlace, Step, Fresh;
      if e.MuxHandle? {
        HandleIsComplete(n.a, n.ba);
        NextInPlace(n.b, n.ba, n.a);
      }
      hide Enabled;
      EventEnds(n.a, n.ba, e, i);
    case AtB(e) =>
      if e.MuxHandle? {
        HandleIsComplete(n.b, n.ab);
        FreshAtB(n.a, n.ab, n.b);
      }
      hide NetOk, SideOk, LinkOk, Ends, InPlace, Step, Fresh;
      if e.MuxHandle? {
        NextInPlace(n.a, n.ab, n.b);
      }
      hide Enabled;
      EventEnds(n.b, n.ab, e, i);
  }

  lemma {:induction false} RunEnds(ms: seq<Move>, i: nat)
    requires Run(ms).Some?
    ensures var n := Run(ms).value;
      (i < |n.a.chans| ==> Ends(n.a, n.a.chans[i])) && (i < |n.b.chans| ==> Ends(n.b, n.b.chans[i]))
  {
    hide NetOk, Ends, Next, CanMove;
    if ms != [] {
      var k := |ms| - 1;
      RunEnds(ms[..k], i);
      RunOk(ms[..k]);
      MoveEnds(Run(ms[..k]).value, ms[k], i);
    }
  }

  /** How far a channel has ended. */
  predicate Ended(s: Side, i: nat) {
    i < |s.chans| ==>
      (var c := s.chans[i];
       && (CloseOf(c.ep.id) in s.handed ==> !c.ep.readable && (c.ep.writable ==> c.ep.shutdownWrite))
       && (!c.ep.readable ==> CloseOf(c.ep.id) in s.sent || CloseOf(c.ep.id) in s.handed || !s.mux.readable))
  }

  /** In every run, once CLOSE was handed on for a channel, nothing is read from
      it any more, and its output side is closed or to be closed. It only stops
      reading otherwise if it sent CLOSE itself, or if the multiplexed connection
      ended. */
  lemma ClosesChannels(ms: seq<Move>, i: nat)
    requires Run(ms).Some?
    ensures Ended(Run(ms).value.a, i) && Ended(Run(ms).value.b, i)
  {
    RunEnds(ms, i);
  }

  /** What the next round of preparations makes of an open channel: it closes if
      it is to close and has drained, and otherwise has something ready to write
      if there is anything. */
  predicate Prepared(c: Channel, d: Channel) {
    && (d.ep.writable <==> !(c.ep.shutdownWrite && c.ep.Pending() == []))
    && (d.ep.wbuf.Some? <==> c.ep.Pending() != []) && d.ep.Pending() == c.ep.Pending()
    && d.ep.readable == c.ep.readable && d.read == c.read && d.written == c.written
  }

  lemma PrepareSide(s: Side, wire: seq<byte>, i: nat)
    requires i < |s.chans| && ChannelOk(s, s.chans[i]) && Ends(s, s.chans[i]) && s.chans[i].ep.writable
    ensures Enabled(s, wire, Event.Prepare(i))
    ensures var f := Step(s, wire, Event.Prepare(i));
      f.wire == wire && |f.s.chans| == |s.chans| && Prepared(s.chans[i], f.s.chans[i])
  {
    PulledUp(s, s.chans[i]);
    PullupKeeps(s.chans[i].ep);
  }

  lemma PreparesChannels(ms: seq<Move>, i: nat)
    requires Run(ms).Some?
    ensures var n := Run(ms).value; PreparesOk(n.a, n.ba, i) && PreparesOk(n.b, n.ab, i)
  {
    RunOk(ms);
    RunEnds(ms, i);
    var n := Run(ms).value;
    NetParts(n);
    hide Run, NetOk, Enabled, Step, Prepared;
    if i < |n.a.chans| && n.a.chans[i].ep.writable {
      assert ChannelOk(n.a, n.a.chans[i]);
      PrepareSide(n.a, n.ba, i);
    }
    if i < |n.b.chans| && n.b.chans[i].ep.writable {
      assert ChannelOk(n.b, n.b.chans[i]);
      PrepareSide(n.b, n.ab, i);
    }
  }

  predicate PreparesOk(s: Side, wire: seq<byte>, i: nat) {
    i < |s.chans| && s.chans[i].ep.writable ==>
      Enabled(s, wire, Event.Prepare(i)) && Prepared(s.chans[i], Step(s, wire, Event.Prepare(i)).s.chans[i])
  }

  /** When a socket hangs up, its output side closes and what was to be written is
      gone; reading goes on. */
  lemma HangupDiscards(s: Side, wire: seq<byte>, i: nat)
    requires Enabled(s, wire, Event.Hangup(i))
    ensures var c, d := s.chans[i], Step(s, wire, Event.Hangup(i)).s.chans[i];
      && !d.ep.writable && (c.ep.writable ==> d.ep.Pending() == [])
      && d.ep.readable == c.ep.readable && d.read == c.read && d.written == c.written
  {
  }

  lemma MuxHangupDiscards(s: Side, wire: seq<byte>)
    ensures var t := Step(s, wire, MuxHangup).s;
      && !t.mux.writable && (s.mux.writable ==> t.mux.Pending() == [])
      && t.mux.readable == s.mux.readable && t.rbuf == s.rbuf && t.sent == s.sent && t.handed == s.handed
  {
  }

  // -------------------------------------------------- a closing channel closes

  /** Only preparing and writing on one channel. */
  predicate Writes(es: seq<Event>, i: nat) {
    forall e <- es :: e == Event.Prepare(i) || (e.Write? && e.i == i)
  }

  /** Where a series of writes leads. */
  predicate Reached(s: Side, wire: seq<byte>, es: seq<Event>, t: Side, i: nat) {
    && Steps(s, wire, es) == Some((t, wire)) && Writes(es, i)
    && i < |t.chans| && SideOk(t) && Ends(t, t.chans[i]) && t.handed == s.handed
    && t.chans[i].ep.shutdownWrite && AllWritten(t, i)
  }

  lemma OneMoreWrite(s: Side, wire: seq<byte>, es: seq<Event>, t: Side, i: nat, e: Event)
    requires Reached(s, wire, es, t, i) && Enabled(t, wire, e) && (e == Event.Prepare(i) || (e.Write? && e.i == i))
    ensures Reached(s, wire, es + [e], Step(t, wire, e).s, i)
  {
    OneMoreStep(s, wire, es, e);
    EventOk(t, wire, e);
    EventEnds(t, wire, e, i);
    StillClosing(t, wire, e, i);
    AllStillWritten(t, wire, e, i);
    hide Step, Steps, Enabled, SideOk, Ends, AllWritten;
  }

  lemma StillClosing(t: Side, wire: seq<byte>, e: Event, i: nat)
    requires Enabled(t, wire, e) && (e == Event.Prepare(i) || (e.Write? && e.i == i)) && i < |t.chans|
    ensures var f := Step(t, wire, e);
      && f.wire == wire && i < |f.s.chans| && f.s.handed == t.handed
      && f.s.chans[i].ep.shutdownWrite == t.chans[i].ep.shutdownWrite
  {
  }

  lemma AllStillWritten(t: Side, wire: seq<byte>, e: Event, i: nat)
    requires Enabled(t, wire, e) && (e == Event.Prepare(i) || (e.Write? && e.i == i)) && i < |t.chans|
    requires ChannelOk(t, t.chans[i]) && Ends(t, t.chans[i]) && AllWritten(t, i)
    ensures AllWritten(Step(t, wire, e).s, i)
  {
    if e.Prepare? && t.chans[i].ep.writable {
      PrepareSide(t, wire, i);
      assert t.chans[i].written + [] == t.chans[i].written;
    }
    hide DataOf, QueueBytes;
  }

  lemma WriteAll(t: Side, wire: seq<byte>, i: nat)
    requires i < |t.chans| && Ends(t, t.chans[i]) && t.chans[i].ep.writable && t.chans[i].ep.wbuf.Some?
    ensures var c := t.chans[i]; var e := Event.Write(i, |c.ep.wbuf.value|);
      && Enabled(t, wire, e) && i < |Step(t, wire, e).s.chans|
      && (var d := Step(t, wire, e).s.chans[i];
          d.ep.writable && |d.ep.Pending()| < |c.ep.Pending()| && d.ep.readable == c.ep.readable)
  {
  }

  /** Preparing and writing go on until the channel has closed. */
  lemma {:induction false} WritesOut(s: Side, wire: seq<byte>, es: seq<Event>, t: Side, i: nat) returns (all: seq<Event>, u: Side)
    requires Reached(s, wire, es, t, i)
    ensures Reached(s, wire, all, u, i) && !u.chans[i].ep.writable
    ensures u.chans[i].ep.id == t.chans[i].ep.id
    decreases |t.chans[i].ep.Pending()|
  {
    if !t.chans[i].ep.writable {
      return es, t;
    }
    assert ChannelOk(t, t.chans[i]);
    PrepareSide(t, wire, i);
    var e := Event.Prepare(i);
    OneMoreWrite(s, wire, es, t, i, e);
    u := Step(t, wire, e).s;
    all := es + [e];
    hide Step, Enabled, Steps, SideOk, Ends, Writes;
    if u.chans[i].ep.writable {
      WriteAll(u, wire, i);
      var w := Event.Write(i, |u.chans[i].ep.wbuf.value|);
      OneMoreWrite(s, wire, all, u, i, w);
      all, u := WritesOut(s, wire, all + [w], Step(u, wire, w).s, i);
    }
  }

  lemma SideCloses(s: Side, wire: seq<byte>, i: nat) returns (es: seq<Event>, t: Side)
    requires SideOk(s) && i < |s.chans| && Ends(s, s.chans[i]) && CloseOf(s.chans[i].ep.id) in s.handed
    ensures Closes(s, wire, i, es, t)
  {
    assert Steps(s, wire, []) == Some((s, wire)) && Writes([], i);
    if !s.chans[i].ep.writable {
      return [], s;
    }
    es, t := WritesOut(s, wire, [], s, i);
    hide Steps, SideOk;
  }

  /** A channel has been written out and is closed. */
  predicate Closes(s: Side, wire: seq<byte>, i: nat, es: seq<Event>, t: Side)
    requires i < |s.chans|
  {
    && Writes(es, i) && Steps(s, wire, es) == Some((t, wire))
    && i < |t.chans| && !t.chans[i].ep.Alive()
    && (s.chans[i].ep.writable ==> t.chans[i].written == DataOf(s.chans[i].ep.id, s.handed))
  }

  /** From every state of a run in which CLOSE was handed on for a channel, it
      does close: once its socket takes what is left for it, and without anything
      else having to happen. If its socket has not hung up, all that the packets
      handed on carried for it is written then. */
  lemma ClosingChannelCloses(ms: seq<Move>, i: nat, atA: bool) returns (es: seq<Event>, t: Side)
    requires Run(ms).Some?
    requires var s := if atA then Run(ms).value.a else Run(ms).value.b; i < |s.chans| && CloseOf(s.chans[i].ep.id) in s.handed
    ensures if atA then Closes(Run(ms).value.a, Run(ms).value.ba, i, es, t)
            else Closes(Run(ms).value.b, Run(ms).value.ab, i, es, t)
  {
    RunOk(ms);
    RunEnds(ms, i);
    var n := Run(ms).value;
    NetParts(n);
    hide *;
    if atA {
      es, t := SideCloses(n.a, n.ba, i);
    } else {
      es, t := SideCloses(n.b, n.ab, i);
    }
  }
}
