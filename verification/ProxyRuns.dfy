/** What every run of two joined proxies guarantees, and what one proxy makes of
    any bytes that arrive. */
module ProxyRuns {
  import opened Wrappers
  import opened Frames
  import opened ProxySteps
  import opened ProxySide
  import opened ProxyLink
  import opened ProxyNet

  // ---------------------------------------------------------- the theorems

  lemma {:induction false} HistoryOf(s: Side, cs: seq<Channel>, id: word)
    requires DistinctIds(cs)
    requires forall c <- cs :: ChannelOk(s, c)
    ensures WrittenTo(cs, id) <= DataOf(id, s.handed)
    ensures (exists c <- cs :: c.ep.id == id) ==> ReadFrom(cs, id) == DataOf(id, s.sent)
    ensures (forall c <- cs :: c.ep.id != id) ==> ReadFrom(cs, id) == WrittenTo(cs, id) == []
  {
    if cs != [] {
      assert DistinctIds(cs[1..]);
      HistoryOf(s, cs[1..], id);
      if cs[0].ep.id == id {
        assert forall c <- cs[1..] :: c.ep.id != id;
        assert cs[0] in cs;
      } else {
        assert forall c <- cs :: c.ep.id == id ==> c in cs[1..];
      }
    }
  }

  lemma ReadAll(s: Side, id: word)
    requires SideOk(s)
    ensures ReadFrom(s.chans, id) == DataOf(id, s.sent)
    ensures WrittenTo(s.chans, id) <= DataOf(id, s.handed)
  {
    HistoryOf(s, s.chans, id);
    if forall c <- s.chans :: c.ep.id != id {
      forall p <- s.sent ensures p.channel != id {
        assert PacketOk(s, p);
      }
      NoDataOf(id, s.sent);
    }
  }

  /** In every run, for every channel and in both directions: what one proxy
      wrote to its socket is an initial piece of what the other one read from
      its own. */
  lemma ChannelsDeliverInOrder(ms: seq<Move>, id: word)
    requires Run(ms).Some?
    ensures var n := Run(ms).value;
      && WrittenTo(n.b.chans, id) <= ReadFrom(n.a.chans, id)
      && WrittenTo(n.a.chans, id) <= ReadFrom(n.b.chans, id)
  {
    RunOk(ms);
    var n := Run(ms).value;
    ReadAll(n.a, id);
    ReadAll(n.b, id);
    DataOfPrefix(id, n.b.handed, n.a.sent);
    DataOfPrefix(id, n.a.handed, n.b.sent);
  }

  /** Nothing is on its way from x to y. */
  predicate Flushed(x: Side, wire: seq<byte>, y: Side) {
    x.mux.writable && x.mux.Pending() == [] && wire == [] && y.rbuf == []
  }

  /** A channel is still open for output and has written everything. */
  predicate Drained(cs: seq<Channel>, id: word) {
    (exists c <- cs :: c.ep.id == id) && forall c <- cs :: c.ep.id == id ==> c.ep.writable && c.ep.Pending() == []
  }

  lemma {:induction false} WrittenAll(s: Side, cs: seq<Channel>, id: word)
    requires DistinctIds(cs) && (forall c <- cs :: ChannelOk(s, c)) && Drained(cs, id)
    ensures WrittenTo(cs, id) == DataOf(id, s.handed)
  {
    HistoryOf(s, cs[1..], id);
    assert cs[0] in cs && forall c <- cs[1..] :: c in cs;
    if cs[0].ep.id == id {
      assert forall c <- cs[1..] :: c.ep.id != id;
      assert cs[0].written + [] == cs[0].written;
    } else {
      assert forall c <- cs :: c.ep.id == id ==> c in cs[1..];
      WrittenAll(s, cs[1..], id);
    }
  }

  lemma FlushedAll(x: Side, wire: seq<byte>, y: Side)
    requires (forall p <- x.sent :: p.Fits()) && LinkOk(x, wire, y) && Flushed(x, wire, y)
    ensures y.handed == x.sent
  {
    var rest := x.sent[|y.handed|..];
    assert forall p <- rest :: p in x.sent;
    SomeBytes(rest);
  }

  lemma SomeBytes(ps: seq<Packet>)
    requires forall p <- ps :: p.Fits()
    ensures EncodeAll(ps) == [] ==> ps == []
  {
    assert ps != [] ==> |Encode(ps[0])| >= HEADER_SIZE;
  }

  /** In every run, once nothing is on its way and a channel has written
      everything, it has written exactly what was read at the other end:
      nothing is lost. */
  lemma NothingIsLost(ms: seq<Move>, id: word)
    requires Run(ms).Some?
    ensures var n := Run(ms).value;
      && (Flushed(n.a, n.ab, n.b) && Drained(n.b.chans, id) ==> WrittenTo(n.b.chans, id) == ReadFrom(n.a.chans, id))
      && (Flushed(n.b, n.ba, n.a) && Drained(n.a.chans, id) ==> WrittenTo(n.a.chans, id) == ReadFrom(n.b.chans, id))
  {
    RunOk(ms);
    var n := Run(ms).value;
    if Flushed(n.a, n.ab, n.b) && Drained(n.b.chans, id) {
      LostNothing(n.a, n.ab, n.b, id);
    }
    if Flushed(n.b, n.ba, n.a) && Drained(n.a.chans, id) {
      LostNothing(n.b, n.ba, n.a, id);
    }
  }

  lemma LostNothing(x: Side, wire: seq<byte>, y: Side, id: word)
    requires SideOk(x) && SideOk(y) && LinkOk(x, wire, y) && Flushed(x, wire, y) && Drained(y.chans, id)
    ensures WrittenTo(y.chans, id) == ReadFrom(x.chans, id)
  {
    FlushedAll(x, wire, y);
    ReadAll(x, id);
    WrittenAll(y, y.chans, id);
  }

  /** In every run, packets reach the other proxy whole, once and in the order
      in which they were sent; there, each channel's OPEN comes before its
      DATA, and its DATA before its CLOSE. */
  lemma PacketsArriveInOrder(ms: seq<Move>)
    requires Run(ms).Some?
    ensures var n := Run(ms).value;
      && n.b.handed <= n.a.sent && n.a.handed <= n.b.sent
      && WellOrdered(n.b.handed) && OpensFirst(n.b.handed)
      && WellOrdered(n.a.handed) && (forall p <- n.a.handed :: p.cmd != CHANNEL_OPEN)
  {
    RunOk(ms);
    var n := Run(ms).value;
    var hs := n.b.handed;
    forall j | 0 <= j < |hs| ensures OpenedBefore(hs, j) {
      assert OpenedBefore(n.a.sent, j) && hs[j] == n.a.sent[j] && hs[..j + 1] == n.a.sent[..j + 1];
    }
  }

  /** The payload that is queued on behalf of one client. */
  function QueuedPayload(q: seq<Mbuf>, ref: nat): int {
    if q == [] then 0
    else (if q[0].source == Some(ref) then |q[0].data| - HEADER_SIZE else 0) + QueuedPayload(q[1..], ref)
  }

  /** What is queued for all clients together. */
  function QueuedBytes(cs: seq<Channel>): nat {
    if cs == [] then 0 else |QueueBytes(cs[0].ep.wqueue)| + QueuedBytes(cs[1..])
  }

  lemma {:induction false} PayloadIsCredit(s: Side, q: seq<Mbuf>, ref: nat)
    requires forall m <- q :: MbufOk(s, m)
    ensures QueuedPayload(q, ref) == CreditOf(q, ref)
  {
    if q != [] {
      assert MbufOk(s, q[0]);
      PayloadIsCredit(s, q[1..], ref);
    }
  }

  lemma {:induction false} BytesAreCredit(q: seq<Mbuf>)
    requires forall m <- q :: FromMux(m)
    ensures |QueueBytes(q)| == CreditOf(q, MUX_REF)
  {
    if q != [] {
      assert FromMux(q[0]);
      BytesAreCredit(q[1..]);
    }
  }

  lemma {:induction false} AllBytesAreOwed(s: Side, cs: seq<Channel>)
    requires forall c <- cs :: ChannelOk(s, c)
    ensures QueuedBytes(cs) == Owed(cs)
  {
    if cs != [] {
      assert ChannelOk(s, cs[0]);
      BytesAreCredit(cs[0].ep.wqueue);
      AllBytesAreOwed(s, cs[1..]);
    }
  }

  /** Credit left and payload queued make up what was granted. */
  predicate CreditAddsUp(s: Side) {
    && s.mux.credit + QueuedBytes(s.chans) == MULTIPLEX_GRANT
    && forall c <- s.chans :: c.ep.credit + QueuedPayload(s.mux.wqueue, c.ep.ref) == SIMPLEX_GRANT
  }

  lemma SideAddsUp(s: Side)
    requires SideOk(s)
    ensures CreditAddsUp(s)
  {
    AllBytesAreOwed(s, s.chans);
    forall c <- s.chans ensures c.ep.credit + QueuedPayload(s.mux.wqueue, c.ep.ref) == SIMPLEX_GRANT {
      assert ChannelOk(s, c);
      PayloadIsCredit(s, s.mux.wqueue, c.ep.ref);
    }
  }

  /** In every run, an endpoint's credit and the payload that is queued on its
      behalf add up to what it was granted. So a client never has more than its
      grant of payload queued, and all clients together never more than the
      grant of the multiplexed endpoint. */
  lemma CreditIsConserved(ms: seq<Move>)
    requires Run(ms).Some?
    ensures var n := Run(ms).value;
      && CreditAddsUp(n.a) && CreditAddsUp(n.b)
      && QueuedBytes(n.a.chans) <= MULTIPLEX_GRANT && QueuedBytes(n.b.chans) <= MULTIPLEX_GRANT
      && (forall c <- n.a.chans :: QueuedPayload(n.a.mux.wqueue, c.ep.ref) <= SIMPLEX_GRANT)
      && (forall c <- n.b.chans :: QueuedPayload(n.b.mux.wqueue, c.ep.ref) <= SIMPLEX_GRANT)
  {
    RunOk(ms);
    SideAddsUp(Run(ms).value.a);
    SideAddsUp(Run(ms).value.b);
  }

  /** In every run, the assertion made when a complete DATA packet is queued for
      its client holds if and only if the packet and all that is queued for the
      clients are within the grant of the multiplexed endpoint. */
  lemma CreditAssertion(ms: seq<Move>)
    requires Run(ms).Some?
    ensures AssertionIff(Run(ms).value.a) && AssertionIff(Run(ms).value.b)
  {
    RunOk(ms);
    SideAddsUp(Run(ms).value.a);
    SideAddsUp(Run(ms).value.b);
  }

  predicate AssertionIff(s: Side) {
    Complete(s.rbuf) ==>
      (var p := Decode(s.rbuf);
       p.cmd == CHANNEL_DATA && FindChannel(s.chans, p.channel) < |s.chans| ==>
         && (|p.payload| <= s.mux.credit <==> QueuedBytes(s.chans) + |p.payload| <= MULTIPLEX_GRANT)
         && (Delivers(s, p) <==> 0 < |p.payload| && QueuedBytes(s.chans) + |p.payload| <= MULTIPLEX_GRANT))
  }

  // ------------------------------------------------ freeing closed endpoints

  /** An endpoint whose two directions are closed is freed before the next
      poll. */
  predicate Closed(s: Side, ref: nat) {
    if ref == MUX_REF then !s.mux.Alive() else ref <= |s.chans| && !s.chans[ref - 1].ep.Alive()
  }

  /** A buffer that is queued anywhere: for the multiplexed connection, or for a
      client. */
  predicate Queued(s: Side, m: Mbuf) {
    m in s.mux.wqueue || exists c <- s.chans :: m in c.ep.wqueue
  }

  /** A queued buffer names the endpoint that it came from, and gives its credit
      back to it. No such endpoint is closed. */
  ghost predicate SourcesStay(s: Side) {
    forall m :: Queued(s, m) && m.source.Some? ==> !Closed(s, m.source.value)
  }

  /** All of its credit has come back to every endpoint that is closed. */
  predicate ClosedHaveCredit(s: Side) {
    && (forall c <- s.chans :: !c.ep.Alive() ==> c.ep.credit == SIMPLEX_GRANT)
    && (!s.mux.Alive() ==> s.mux.credit == MULTIPLEX_GRANT)
  }

  /** In every run, no queued buffer's source is freed if and only if every
      closed endpoint, clients and the multiplexed one alike, has all its credit
      back. */
  lemma FreedSources(ms: seq<Move>)
    requires Run(ms).Some?
    ensures var n := Run(ms).value;
      (SourcesStay(n.a) <==> ClosedHaveCredit(n.a)) && (SourcesStay(n.b) <==> ClosedHaveCredit(n.b))
  {
    RunOk(ms);
    FreedAtSide(Run(ms).value.a);
    FreedAtSide(Run(ms).value.b);
  }

  lemma FreedAtSide(s: Side)
    requires SideOk(s)
    ensures SourcesStay(s) <==> ClosedHaveCredit(s)
  {
    hide SideOk, ClosedHaveCredit;
    if SourcesStay(s) {
      CreditIsBack(s);
    }
    if ClosedHaveCredit(s) {
      forall m | Queued(s, m) && m.source.Some? ensures !Closed(s, m.source.value) {
        SourceIsOpen(s, m);
      }
    }
  }

  lemma CreditIsBack(s: Side)
    requires SideOk(s) && SourcesStay(s)
    ensures ClosedHaveCredit(s)
  {
    var q := s.mux.wqueue;
    forall c <- s.chans | !c.ep.Alive() ensures c.ep.credit == SIMPLEX_GRANT {
      assert ChannelOk(s, c) && Closed(s, c.ep.ref);
      forall m <- q ensures m.source != Some(c.ep.ref) {
        assert Queued(s, m);
      }
      NoCreditIn(q, c.ep.ref);
    }
    if !s.mux.Alive() {
      forall c <- s.chans ensures c.ep.wqueue == [] {
        assert ChannelOk(s, c) && Closed(s, MUX_REF);
        if c.ep.wqueue != [] {
          assert FromMux(c.ep.wqueue[0]) && Queued(s, c.ep.wqueue[0]);
        }
      }
      NothingOwed(s.chans);
    }
  }

  lemma {:induction false} NothingOwed(cs: seq<Channel>)
    requires forall c <- cs :: c.ep.wqueue == []
    ensures Owed(cs) == 0
  {
    if cs != [] {
      NothingOwed(cs[1..]);
    }
  }

  lemma SourceIsOpen(s: Side, m: Mbuf)
    requires SideOk(s) && ClosedHaveCredit(s) && Queued(s, m) && m.source.Some?
    ensures !Closed(s, m.source.value)
  {
    if m in s.mux.wqueue {
      assert MbufOk(s, m);
      var c := s.chans[m.source.value - 1];
      assert ChannelOk(s, c) && c in s.chans;
      SomeCreditIn(s.mux.wqueue, m, c.ep.ref);
    } else {
      var c :| c in s.chans && m in c.ep.wqueue;
      assert ChannelOk(s, c) && FromMux(m);
      SomeCreditIn(c.ep.wqueue, m, MUX_REF);
      SomeOwed(s.chans, c);
    }
  }

  lemma {:induction false} SomeCreditIn(q: seq<Mbuf>, m: Mbuf, ref: nat)
    requires m in q && m.source == Some(ref)
    ensures CreditOf(q, ref) >= m.credit
  {
    if q[0] != m {
      SomeCreditIn(q[1..], m, ref);
    }
  }

  lemma {:induction false} SomeOwed(cs: seq<Channel>, c: Channel)
    requires c in cs
    ensures Owed(cs) >= CreditOf(c.ep.wqueue, MUX_REF)
  {
    if cs[0] != c {
      SomeOwed(cs[1..], c);
    }
  }

  /** A queued buffer names an endpoint that was closed, and so freed, in an
      earlier state. */
  ghost predicate NamesFreed(earlier: Side, s: Side) {
    exists m :: Queued(s, m) && m.source.Some? && Closed(earlier, m.source.value)
  }

  /** Endpoint ref was not closed, or it still is and no further buffer names
      it. */
  ghost predicate NothingNew(s: Side, t: Side, ref: nat) {
    Closed(s, ref) ==> Closed(t, ref) && forall m :: Queued(t, m) && m.source == Some(ref) ==> Queued(s, m)
  }

  /** A closed client stays closed, and no buffer is queued for it. */
  lemma ClosedForGood(s: Side, wire: seq<byte>, e: Event, i: nat)
    requires Enabled(s, wire, e) && i < |s.chans| && !s.chans[i].ep.Alive()
    requires forall j :: 0 <= j < |s.chans| ==> s.chans[j].ep.ref == j + 1
    ensures var t := Step(s, wire, e).s;
      && i < |t.chans| && !t.chans[i].ep.Alive()
      && forall m <- t.mux.wqueue :: m.source == Some(i + 1) ==> m in s.mux.wqueue
  {
    hide Encode, CreditOf, QueueBytes, HalfcloseFrom;
    if e.MuxEof? {
      HalfcloseFromShape(s, 0);
      HalfcloseFromClosed(s, 0, i);
    } else if e.MuxHandle? {
      HandleClosed(s, i);
    } else if e.Purge? {
      PurgeFromShape(s, 0);
      PurgeFromEach(s, 0, i);
      hide PurgeFrom;
    } else {
      hide HandleStep, MuxEofStep, PurgeStep;
    }
  }

  lemma HandleClosed(s: Side, i: nat)
    requires Enabled(s, [], MuxHandle) && i < |s.chans| && !s.chans[i].ep.Alive()
    ensures var t := HandleStep(s); i < |t.chans| && !t.chans[i].ep.Alive() && t.mux.wqueue == s.mux.wqueue
  {
  }

  lemma {:induction false} HalfcloseFromClosed(s: Side, k: nat, i: nat)
    requires i < |s.chans| && !s.chans[i].ep.Alive()
    ensures !HalfcloseFrom(s, k).chans[i].ep.Alive()
    decreases |s.chans| - k
  {
    if k < |s.chans| {
      if !s.chans[k].ep.Alive() {
        HalfcloseFromClosed(s, k + 1, i);
      } else if HalfcloseStep(s, k).chans[k].ep.Alive() {
        HalfcloseFromClosed(HalfcloseStep(s, k), k + 1, i);
      }
    }
  }

  /** The queue of a client does not grow. */
  predicate Drops(c: Channel, d: Channel) {
    forall m <- d.ep.wqueue :: m in c.ep.wqueue
  }

  /** A closed multiplexed endpoint stays closed, and nothing is queued for the
      clients. */
  lemma MuxClosedForGood(s: Side, wire: seq<byte>, e: Event, i: nat)
    requires Enabled(s, wire, e) && !s.mux.Alive()
    ensures var t := Step(s, wire, e).s;
      && !t.mux.Alive() && |t.chans| >= |s.chans|
      && (i < |s.chans| ==> Drops(s.chans[i], t.chans[i]))
      && (|s.chans| <= i < |t.chans| ==> t.chans[i].ep.wqueue == [])
  {
    hide Encode, CreditOf, QueueBytes, HalfcloseFrom, PurgeFrom, HandleStep;
    if e.Purge? {
      PurgeFromShape(s, 0);
      if i < |s.chans| {
        PurgeFromEach(s, 0, i);
      }
    } else {
      hide MuxEofStep, PurgeStep;
    }
  }

  lemma StillClosed(s: Side, t: Side, wire: seq<byte>, e: Event, ref: nat)
    requires SideOk(s) && Enabled(s, wire, e) && t == Step(s, wire, e).s && SideOk(t) && Closed(s, ref)
    ensures NothingNew(s, t, ref)
  {
    if ref == MUX_REF {
      MuxClosedForGood(s, wire, e, 0);
      hide Enabled, Step;
      forall m | Queued(t, m) && m.source == Some(ref) ensures Queued(s, m) {
        assert m in t.mux.wqueue ==> MbufOk(t, m);
        var i :| 0 <= i < |t.chans| && m in t.chans[i].ep.wqueue;
        MuxClosedForGood(s, wire, e, i);
        assert s.chans[i] in s.chans;
      }
    } else {
      ClosedForGood(s, wire, e, ref - 1);
      hide Enabled, Step;
      forall m | Queued(t, m) && m.source == Some(ref) ensures Queued(s, m) {
        NamesClient(t, m);
      }
    }
  }

  lemma NamesClient(t: Side, m: Mbuf)
    requires SideOk(t) && Queued(t, m) && m.source.Some? && m.source.value != MUX_REF
    ensures m in t.mux.wqueue
  {
    forall c <- t.chans, x <- c.ep.wqueue ensures x.source == Some(MUX_REF) {
      assert ChannelOk(t, c) && FromMux(x);
    }
  }

  lemma {:induction false} NothingNewOverRun(ms: seq<Move>, more: seq<Move>, ref: nat)
    requires Run(ms + more).Some?
    ensures Run(ms).Some?
    ensures var n, k := Run(ms).value, Run(ms + more).value; NothingNew(n.a, k.a, ref) && NothingNew(n.b, k.b, ref)
    decreases |more|
  {
    if more == [] {
      assert ms + more == ms;
      hide Run;
    } else {
      var j := |more| - 1;
      assert (ms + more)[..|ms| + j] == ms + more[..j];
      NothingNewOverRun(ms, more[..j], ref);
      RunOk(ms + more[..j]);
      RunOk(ms + more);
      var k := Run(ms + more[..j]).value;
      SidesOk(k);
      SidesOk(Run(ms + more).value);
      hide Step, Enabled, NothingNew, NetOk, SideOk;
      match more[j]
      case AtA(e) => NothingNewMove(Run(ms).value.a, k.a, Run(ms + more).value.a, k.ba, e, ref);
      case AtB(e) => NothingNewMove(Run(ms).value.b, k.b, Run(ms + more).value.b, k.ab, e, ref);
    }
  }

  lemma NothingNewMove(s: Side, t: Side, u: Side, wire: seq<byte>, e: Event, ref: nat)
    requires SideOk(t) && SideOk(u) && NothingNew(s, t, ref) && Enabled(t, wire, e) && u == Step(t, wire, e).s
    ensures NothingNew(s, u, ref)
  {
    hide Step, Enabled, SideOk, Closed, Queued;
    if Closed(s, ref) {
      StillClosed(t, u, wire, e, ref);
    }
  }

  lemma SidesOk(n: Net)
    requires NetOk(n)
    ensures SideOk(n.a) && SideOk(n.b)
  {
  }

  /** However a run goes on after closed endpoints were freed: a queued buffer
      names one of them only if one did at that moment. */
  lemma FreedForGood(ms: seq<Move>, more: seq<Move>)
    requires Run(ms + more).Some?
    ensures Run(ms).Some?
    ensures var n, k := Run(ms).value, Run(ms + more).value;
      && (NamesFreed(n.a, k.a) ==> !SourcesStay(n.a))
      && (NamesFreed(n.b, k.b) ==> !SourcesStay(n.b))
  {
    NothingNewOverRun(ms, more, MUX_REF);
    var n, k := Run(ms).value, Run(ms + more).value;
    hide Run, Closed, Queued;
    if NamesFreed(n.a, k.a) {
      var m :| Queued(k.a, m) && m.source.Some? && Closed(n.a, m.source.value);
      NothingNewOverRun(ms, more, m.source.value);
      assert Queued(n.a, m);
    }
    if NamesFreed(n.b, k.b) {
      var m :| Queued(k.b, m) && m.source.Some? && Closed(n.b, m.source.value);
      NothingNewOverRun(ms, more, m.source.value);
      assert Queued(n.b, m);
    }
  }

  /** In every run, the assertion made while a packet is being assembled
      holds: the buffer is never longer than the packet. */
  lemma NeverBeyondThePacket(ms: seq<Move>)
    requires Run(ms).Some?
    ensures Framed(Run(ms).value.a.rbuf) && Framed(Run(ms).value.b.rbuf)
  {
    RunOk(ms);
  }

  // ------------------------------------------------ any incoming byte stream

  /** What reassembly keeps, whatever bytes arrive. */
  predicate Reassembled(wire: seq<byte>, handed: seq<Packet>, rbuf: seq<byte>, rest: seq<byte>) {
    && (forall p <- handed :: p.Fits())
    && EncodeAll(handed) + rbuf + rest == wire
    && (|rbuf| > HEADER_SIZE ==> |rbuf| <= PacketSize(rbuf))
  }

  lemma ReadReassembles(wire: seq<byte>, handed: seq<Packet>, rbuf: seq<byte>, rest: seq<byte>, k: nat)
    requires Reassembled(wire, handed, rbuf, rest)
    requires k <= |rest| && k <= Wanted(rbuf)
    ensures Reassembled(wire, handed, rbuf + rest[..k], rest[k..])
  {
    var r := rbuf + rest[..k];
    assert r + rest[k..] == rbuf + rest;
    assert EncodeAll(handed) + rbuf + rest == EncodeAll(handed) + (rbuf + rest);
    assert EncodeAll(handed) + r + rest[k..] == EncodeAll(handed) + (r + rest[k..]);
    if |rbuf| >= HEADER_SIZE {
      assert r[8..12] == rbuf[8..12];
    }
  }

  lemma HandleReassembles(wire: seq<byte>, handed: seq<Packet>, rbuf: seq<byte>, rest: seq<byte>)
    requires Reassembled(wire, handed, rbuf, rest) && Complete(rbuf)
    ensures Reassembled(wire, handed + [Decode(rbuf)], [], rest)
  {
    CompleteSize(rbuf);
    EncodeDecode(rbuf);
    EncodeOneMore(handed, Decode(rbuf));
    assert EncodeAll(handed) + rbuf + [] + rest == EncodeAll(handed) + rbuf + rest;
  }

  /** A complete packet has not overflowed its size. */
  lemma CompleteSize(rbuf: seq<byte>)
    requires Complete(rbuf)
    ensures HeaderCount(rbuf) + HEADER_SIZE == |rbuf|
  {
  }

  lemma EventReassembles(wire: seq<byte>, s: Side, rest: seq<byte>, e: Event)
    requires Reassembled(wire, s.handed, s.rbuf, rest) && Enabled(s, rest, e)
    ensures var f := Step(s, rest, e); Reassembled(wire, f.s.handed, f.s.rbuf, f.wire)
  {
    if e.MuxRead? {
      ReadReassembles(wire, s.handed, s.rbuf, rest, e.k);
    } else if e.MuxHandle? {
      HandleReassembles(wire, s.handed, s.rbuf, rest);
    } else {
      KeepsRbuf(s, rest, e);
    }
  }

  /** Whatever a proxy reads and does in whatever order: the packets it handed
      on, the bytes of the packet it is assembling and the bytes it has not read
      yet are exactly the bytes that arrived. */
  lemma {:induction false} BytesAreConserved(wire: seq<byte>, es: seq<Event>)
    requires Steps(INIT_SIDE, wire, es).Some?
    ensures var r := Steps(INIT_SIDE, wire, es).value; Reassembled(wire, r.0.handed, r.0.rbuf, r.1)
  {
    if es == [] {
      assert EncodeAll([]) + [] + wire == wire;
    } else {
      BytesAreConserved(wire, es[..|es| - 1]);
      var r := Steps(INIT_SIDE, wire, es[..|es| - 1]).value;
      EventReassembles(wire, r.0, r.1, es[|es| - 1]);
    }
  }

  /** If the bytes are (the start of) a series of packets, these are handed on
      whole, in order and once. */
  lemma PacketsComeOutWhole(wire: seq<byte>, es: seq<Event>, ps: seq<Packet>)
    requires Steps(INIT_SIDE, wire, es).Some?
    requires (forall p <- ps :: p.Fits()) && wire <= EncodeAll(ps)
    ensures var s := Steps(INIT_SIDE, wire, es).value.0; s.handed <= ps && Framed(s.rbuf)
  {
    BytesAreConserved(wire, es);
    var r := Steps(INIT_SIDE, wire, es).value;
    StartOfStream(wire, r.0.handed, r.0.rbuf, r.1, ps);
  }

  lemma StartOfStream(wire: seq<byte>, handed: seq<Packet>, rbuf: seq<byte>, rest: seq<byte>, ps: seq<Packet>)
    requires Reassembled(wire, handed, rbuf, rest)
    requires (forall p <- ps :: p.Fits()) && wire <= EncodeAll(ps)
    ensures handed <= ps && Framed(rbuf)
  {
    var tail := rbuf + rest;
    assert EncodeAll(handed) + rbuf + rest == EncodeAll(handed) + tail;
    UniqueFraming(handed, tail, ps);
    var left := ps[|handed|..];
    assert ps == handed + left;
    EncodeAllAppend(handed, left);
    assert rbuf <= tail && tail <= EncodeAll(left) by {
      assert tail == wire[|EncodeAll(handed)|..];
      assert EncodeAll(left) == EncodeAll(ps)[|EncodeAll(handed)|..];
    }
    if |rbuf| >= HEADER_SIZE {
      StartsWithSize(left, rbuf);
    }
  }

  /** The assertion that the buffer is no longer than the packet fails for one
      kind of input only: a header whose size field overflows when the header
      itself is added. */
  lemma SizeAssertion(wire: seq<byte>, es: seq<Event>)
    requires Steps(INIT_SIDE, wire, es).Some?
    ensures var rbuf := Steps(INIT_SIDE, wire, es).value.0.rbuf;
      |rbuf| >= HEADER_SIZE ==> (Framed(rbuf) <==> HeaderCount(rbuf) + HEADER_SIZE < WORD_LIMIT)
  {
    BytesAreConserved(wire, es);
    var rbuf := Steps(INIT_SIDE, wire, es).value.0.rbuf;
    if |rbuf| >= HEADER_SIZE {
      SizeOverflow(rbuf);
    }
  }

  lemma SizeOverflow(rbuf: seq<byte>)
    requires |rbuf| >= HEADER_SIZE && (|rbuf| > HEADER_SIZE ==> |rbuf| <= PacketSize(rbuf))
    ensures Framed(rbuf) <==> HeaderCount(rbuf) + HEADER_SIZE < WORD_LIMIT
  {
    var c := HeaderCount(rbuf);
    if c + HEADER_SIZE >= WORD_LIMIT {
      assert (c + HEADER_SIZE) % WORD_LIMIT == c + HEADER_SIZE - WORD_LIMIT;
    }
  }

  // --------------------------------------- end of the multiplexed connection

  /** The endpoint still has output to write, so that half-closing it leaves
      it on the list. */
  predicate Drains(e: Endpoint) {
    e.writable && (e.wbuf.Some? || e.wqueue != [])
  }

  lemma {:induction false} HalfcloseFromBelow(s: Side, i: nat, k: nat)
    requires k < i <= |s.chans|
    ensures HalfcloseFrom(s, i).chans[k] == s.chans[k]
    decreases |s.chans| - i
  {
    if i < |s.chans| {
      HalfcloseFromBelow(if s.chans[i].ep.Alive() then HalfcloseStep(s, i) else s, i + 1, k);
    }
  }

  predicate ClosedFrom(s: Side, i: nat) {
    forall k :: i <= k < |s.chans| ==> !s.chans[k].ep.readable
  }

  /** Every client in front of a readable one still has output to write. */
  predicate AllDrainFrom(s: Side, i: nat) {
    forall j, k :: i <= j < k < |s.chans| && s.chans[j].ep.Alive() && s.chans[k].ep.readable ==>
      Drains(s.chans[j].ep)
  }

  /** When the multiplexed connection ends, all clients should be closed for
      reading. That happens if and only if every client in front of a readable
      one still has output to write: the first client without any ends the walk
      over the list. */
  lemma AllClientsClosed(s: Side)
    ensures ClosedFrom(MuxEofStep(s), 0) <==> AllDrainFrom(s, 0)
  {
    ClientsClosedFrom(s, 0);
  }

  lemma {:induction false} ClientsClosedFrom(s: Side, i: nat)
    requires i <= |s.chans|
    ensures ClosedFrom(HalfcloseFrom(s, i), i) <==> AllDrainFrom(s, i)
    decreases |s.chans| - i
  {
    if i < |s.chans| {
      var e := s.chans[i].ep;
      if !e.Alive() {
        ClientsClosedFrom(s, i + 1);
        HalfcloseFromBelow(s, i + 1, i);
        assert AllDrainFrom(s, i) <==> AllDrainFrom(s, i + 1);
      } else {
        var t := HalfcloseStep(s, i);
        assert t.chans[i].ep.Alive() <==> Drains(e);
        assert forall k :: i < k < |s.chans| ==> t.chans[k] == s.chans[k];
        if t.chans[i].ep.Alive() {
          ClientsClosedFrom(t, i + 1);
          HalfcloseFromBelow(t, i + 1, i);
          assert AllDrainFrom(s, i) <==> AllDrainFrom(t, i + 1);
        } else {
          assert AllDrainFrom(s, i) <==> ClosedFrom(s, i + 1);
        }
      }
    }
  }
}
