/** Runs of the proxies that end where they should not: one for each promise
    that holds only under a condition. */
module ProxyFailures {
  import opened Wrappers
  import opened Frames
  import opened ProxySteps
  import opened ProxySide
  import opened ProxyLink
  import opened ProxyNet
  import opened ProxyRuns

  lemma OneMoreMove(ms: seq<Move>, m: Move)
    requires Run(ms).Some? && CanMove(Run(ms).value, m)
    ensures Run(ms + [m]) == Some(Next(Run(ms).value, m))
  {
    assert (ms + [m])[..|ms|] == ms;
  }

  /** The multiplexed connection ends while two clients are connected: the
      second one is still read from. */
  lemma SecondClientStays() returns (ms: seq<Move>)
    ensures ms == [AtA(Accept), AtA(Accept), AtA(MuxEof)] && Run(ms).Some?
    ensures var a := Run(ms).value.a; |a.chans| == 2 && !a.mux.readable && !a.chans[0].ep.readable && a.chans[1].ep.readable
  {
    OneMoreMove([], AtA(Accept));
    OneMoreMove([] + [AtA(Accept)], AtA(Accept));
    ms := [AtA(Accept), AtA(Accept)];
    assert [] + [AtA(Accept)] + [AtA(Accept)] == ms;
    var a := Run(ms).value.a;
    assert Run(ms).value.ba == [];
    OneMoreMove(ms, AtA(MuxEof));
    var t := HalfcloseStep(a, 0);
    assert !t.chans[0].ep.Alive() && HalfcloseFrom(a, 0) == t;
    ms := ms + [AtA(MuxEof)];
  }

  /** A header whose size field overflows: the buffer is longer than the packet,
      so the assertion about that fails. */
  lemma SizeOverflows() returns (wire: seq<byte>)
    ensures wire == Header(CHANNEL_DATA, 1, 0xFFFF_FFF5)
    ensures Steps(INIT_SIDE, wire, [MuxRead(HEADER_SIZE)]).Some?
    ensures var rbuf := Steps(INIT_SIDE, wire, [MuxRead(HEADER_SIZE)]).value.0.rbuf;
      !Framed(rbuf) && !Complete(rbuf) && Wanted(rbuf) < 0
  {
    wire := Header(CHANNEL_DATA, 1, 0xFFFF_FFF5);
    Overflowing(wire);
    ReadHeader(wire);
    hide Header, PacketSize, Steps;
  }

  lemma ReadHeader(wire: seq<byte>)
    requires |wire| == HEADER_SIZE
    ensures var r := Steps(INIT_SIDE, wire, [MuxRead(HEADER_SIZE)]); r.Some? && r.value.0.rbuf == wire
  {
    hide PacketSize, Steps, HandleStep, MuxEofStep, MuxHangupStep, MuxPrepareStep, Delivers;
    OneEvent(INIT_SIDE, wire, MuxRead(HEADER_SIZE));
    assert [] + wire[..HEADER_SIZE] == wire;
  }

  lemma OneEvent(s: Side, wire: seq<byte>, e: Event)
    requires Enabled(s, wire, e)
    ensures Steps(s, wire, [e]) == Some((Step(s, wire, e).s, Step(s, wire, e).wire))
  {
    hide Step, Enabled;
    assert Steps(s, wire, []) == Some((s, wire));
    OneMoreStep(s, wire, [], e);
    assert [] + [e] == [e];
  }

  lemma Overflowing(wire: seq<byte>)
    requires wire == Header(CHANNEL_DATA, 1, 0xFFFF_FFF5)
    ensures PacketSize(wire) == 1
  {
    hide GetWord, PutWord;
    assert wire[8..12] == PutWord(0xFFFF_FFF5);
    GetPutWord(0xFFFF_FFF5);
    assert HeaderCount(wire) == 0xFFFF_FFF5;
  }

  /** A client sends something and closes both directions before it is passed
      on: the buffer outlives its source. */
  lemma SourceIsFreed() returns (ms: seq<Move>)
    ensures ms == [AtA(Accept), AtA(Read(0, [65])), AtA(Eof(0)), AtA(Hangup(0))] && Run(ms).Some?
    ensures !SourcesStay(Run(ms).value.a)
  {
    OneMoreMove([], AtA(Accept));
    ms := [AtA(Accept)];
    assert [] + [AtA(Accept)] == ms;
    OneMoreMove(ms, AtA(Read(0, [65])));
    ms := ms + [AtA(Read(0, [65]))];
    var q := Run(ms).value.a.mux.wqueue;
    assert q[1].source == Some(1) && q[1] in q;
    OneMoreMove(ms, AtA(Eof(0)));
    ms := ms + [AtA(Eof(0))];
    OneMoreMove(ms, AtA(Hangup(0)));
    ms := ms + [AtA(Hangup(0))];
    assert q[1] in Run(ms).value.a.mux.wqueue;
  }

  // ------------------------------------------- packets read in small pieces

  /** One client at A, with nothing queued. */
  predicate SenderReady(a: Side) {
    && |a.chans| == 1 && a.chans[0].ep.readable && a.chans[0].ep.id == 1 && a.chans[0].ep.credit == SIMPLEX_GRANT
    && a.mux.writable && a.mux.wbuf.None? && a.mux.wqueue == []
  }

  /** The client's channel at B, and the credit that is left there. */
  predicate ReceiverReady(b: Side, credit: nat) {
    && |b.chans| == 1 && b.chans[0].ep.id == 1 && b.chans[0].ep.Alive()
    && b.mux.readable && b.mux.credit == credit && b.mux.wqueue == [] && b.rbuf == []
  }

  predicate Ready(n: Net, credit: nat) {
    SenderReady(n.a) && n.ab == [] && ReceiverReady(n.b, credit)
  }

  function Zeros(d: nat): (r: seq<byte>)
    ensures |r| == d
  {
    seq(d, i => 0)
  }

  /** The only buffer in A's queue goes out. */
  lemma SendFirst(ms: seq<Move>, p: Packet) returns (after: seq<Move>)
    requires p.Fits() && Run(ms).Some?
    requires var a := Run(ms).value.a; a.mux.writable && a.mux.wbuf.None? && |a.mux.wqueue| == 1 && a.mux.wqueue[0].data == Encode(p)
    requires Run(ms).value.ab == []
    ensures Run(after).Some?
    ensures var m, n := Run(ms).value, Run(after).value;
      && n.a.mux == m.a.mux.(wqueue := []) && n.a.chans == Refund(m.a.chans, m.a.mux.wqueue)
      && n.b == m.b && n.ab == Encode(p)
  {
    hide Encode, CreditOf;
    var a := Run(ms).value.a;
    assert a.mux.wqueue[..1] == a.mux.wqueue;
    OneMoreMove(ms, AtA(MuxPrepare));
    after := ms + [AtA(MuxPrepare)];
    var k := |Encode(p)|;
    assert Run(after).value.a.mux == a.mux.(wbuf := Some(Encode(p)), wqueue := []);
    OneMoreMove(after, AtA(MuxWrite(k)));
    after := after + [AtA(MuxWrite(k))];
    assert [] + Encode(p)[..k] == Encode(p);
  }

  lemma OpenOne() returns (ms: seq<Move>)
    ensures Run(ms).Some? && Ready(Run(ms).value, MULTIPLEX_GRANT)
    ensures Run(ms).value.b.chans == [NewChannel(1, 1)]
  {
    var open := Packet(CHANNEL_OPEN, 1, []);
    ms := AcceptOne();
    var a := Run(ms).value.a;
    assert CreditOf(a.mux.wqueue[1..], 1) == 0;
    ms := SendFirst(ms, open);
    ms := ReadWhole(ms, open);
    EncodedIsComplete(open);
    HandleOpen(Run(ms).value.b, [], open);
    hide Run, Encode, Step, Enabled;
    ms := MoveAtB(ms, MuxHandle);
  }

  lemma HandleOpen(b: Side, wire: seq<byte>, open: Packet)
    requires open == Packet(CHANNEL_OPEN, 1, []) && b.mux.readable && b.chans == []
    requires Complete(b.rbuf) && Decode(b.rbuf) == open
    ensures Enabled(b, wire, MuxHandle)
    ensures Step(b, wire, MuxHandle) == Effect(b.(rbuf := [], handed := b.handed + [open], chans := [NewChannel(1, 1)]), wire, [])
  {
    hide Decode, Complete;
  }

  lemma AcceptOne() returns (ms: seq<Move>)
    ensures Run(ms).Some?
    ensures var n, open := Run(ms).value, Packet(CHANNEL_OPEN, 1, []);
      && n.a.mux == INIT_SIDE.mux.(wqueue := [Mbuf(None, Encode(open), 0)]) && n.a.chans == [NewChannel(1, 1)]
      && n.b == INIT_SIDE && n.ab == []
  {
    hide Encode;
    OneMoreMove([], AtA(Accept));
    ms := [] + [AtA(Accept)];
  }

  lemma EncodedIsComplete(p: Packet)
    requires p.Fits()
    ensures Complete(Encode(p)) && Decode(Encode(p)) == p
  {
    PieceSize(p, |Encode(p)|);
    assert Encode(p)[..|Encode(p)|] == Encode(p);
    DecodeEncode(p);
  }

  /** A sends d bytes of its client. */
  lemma SendData(ms: seq<Move>, credit: nat, d: nat) returns (after: seq<Move>)
    requires Run(ms).Some? && Ready(Run(ms).value, credit) && 0 < d <= SIMPLEX_GRANT
    ensures Run(after).Some?
    ensures var n := Run(after).value;
      SenderReady(n.a) && n.b == Run(ms).value.b && n.ab == Encode(Packet(CHANNEL_DATA, 1, Zeros(d)))
  {
    var p, n := Packet(CHANNEL_DATA, 1, Zeros(d)), Run(ms).value;
    ReadReady(n.a, n.ba, d);
    var q := Step(n.a, n.ba, Read(0, Zeros(d))).s;
    hide Encode, Zeros, ReadStep, SenderReady, ReceiverReady, Refund;
    OneMoreMove(ms, AtA(Read(0, Zeros(d))));
    after := ms + [AtA(Read(0, Zeros(d)))];
    assert Run(after).value == Net(q, n.b, n.ab, n.ba);
    hide *;
    after := SendFirst(after, p);
    SentReady(n.a, q, Run(after).value.a, d);
  }

  lemma ReadReady(a: Side, wire: seq<byte>, d: nat)
    requires SenderReady(a) && 0 < d <= SIMPLEX_GRANT
    ensures Enabled(a, wire, Read(0, Zeros(d)))
    ensures var f, c := Step(a, wire, Read(0, Zeros(d))), a.chans[0];
      && f.wire == wire && f.out == []
      && f.s.mux == a.mux.(wqueue := [Mbuf(Some(c.ep.ref), Encode(Packet(CHANNEL_DATA, 1, Zeros(d))), d)])
      && f.s.chans == [c.(ep := c.ep.(credit := SIMPLEX_GRANT - d), read := c.read + Zeros(d))]
  {
    hide Encode;
  }

  lemma SentReady(a: Side, b: Side, t: Side, d: nat)
    requires SenderReady(a) && d <= SIMPLEX_GRANT
    requires b.mux == a.mux.(wqueue := b.mux.wqueue) && |b.mux.wqueue| == 1
    requires b.mux.wqueue[0].source == Some(a.chans[0].ep.ref) && b.mux.wqueue[0].credit == d
    requires |b.chans| == 1 && b.chans[0].ep == a.chans[0].ep.(credit := SIMPLEX_GRANT - d)
    requires t.mux == b.mux.(wqueue := []) && t.chans == Refund(b.chans, b.mux.wqueue)
    ensures SenderReady(t)
  {
    assert CreditOf(b.mux.wqueue[1..], a.chans[0].ep.ref) == 0;
  }

  /** B reads a packet that is on its way, piece by piece if its credit does
      not cover all of it. */
  lemma ReadWhole(ms: seq<Move>, p: Packet) returns (after: seq<Move>)
    requires p.Fits() && Run(ms).Some?
    requires var n := Run(ms).value; n.b.mux.readable && n.b.mux.credit >= HEADER_SIZE && n.b.rbuf == [] && n.ab == Encode(p)
    ensures Run(after).Some?
    ensures var m, n := Run(ms).value, Run(after).value;
      n.a == m.a && n.ab == [] && n.b == m.b.(rbuf := Encode(p))
  {
    after := ReadPiece(ms, HEADER_SIZE);
    assert [] + Encode(p)[..HEADER_SIZE] == Encode(p)[..HEADER_SIZE];
    after := ReadRest(after, p, HEADER_SIZE);
  }

  lemma ReadPiece(ms: seq<Move>, k: nat) returns (after: seq<Move>)
    requires Run(ms).Some?
    requires var n := Run(ms).value;
      n.b.mux.readable && 0 < k <= |n.ab| && k <= n.b.mux.credit &&
      if |n.b.rbuf| < HEADER_SIZE then |n.b.rbuf| + k <= HEADER_SIZE else |n.b.rbuf| + k <= PacketSize(n.b.rbuf)
    ensures Run(after).Some?
    ensures var n := Run(ms).value;
      Run(after).value == n.(b := n.b.(rbuf := n.b.rbuf + n.ab[..k]), ab := n.ab[k..])
  {
    hide PacketSize;
    OneMoreMove(ms, AtB(MuxRead(k)));
    after := ms + [AtB(MuxRead(k))];
    assert Run(ms).value.ba + [] == Run(ms).value.ba;
  }

  lemma {:induction false} ReadRest(ms: seq<Move>, p: Packet, k: nat) returns (after: seq<Move>)
    requires p.Fits() && Run(ms).Some? && HEADER_SIZE <= k <= |Encode(p)|
    requires var n := Run(ms).value;
      n.b.mux.readable && n.b.mux.credit >= HEADER_SIZE && n.b.rbuf == Encode(p)[..k] && n.ab == Encode(p)[k..]
    ensures Run(after).Some?
    ensures var m, n := Run(ms).value, Run(after).value;
      n.a == m.a && n.ab == [] && n.b == m.b.(rbuf := Encode(p))
    decreases |Encode(p)| - k
  {
    hide Encode, Run, CanMove, Next, PacketSize;
    var n := Run(ms).value;
    after := ms;
    if k == |Encode(p)| {
      assert Encode(p)[..k] == Encode(p);
      assert n.b == n.b.(rbuf := n.b.rbuf);
    } else {
      PieceSize(p, k);
      var left := |Encode(p)| - k;
      var j := if left > n.b.mux.credit then n.b.mux.credit else left;
      after := ReadPiece(ms, j);
      assert Encode(p)[..k] + Encode(p)[k..][..j] == Encode(p)[..k + j];
      assert Encode(p)[k..][j..] == Encode(p)[k + j..];
      after := ReadRest(after, p, k + j);
    }
  }

  lemma PieceSize(p: Packet, k: nat)
    requires p.Fits() && HEADER_SIZE <= k <= |Encode(p)|
    ensures PacketSize(Encode(p)[..k]) == |Encode(p)|
  {
    HeaderOfEncoded(p, []);
    assert Encode(p) + [] == Encode(p);
    assert Encode(p)[..k][8..12] == Encode(p)[8..12];
  }

  /** d bytes reach B and stay queued there. */
  lemma DeliverData(ms: seq<Move>, credit: nat, d: nat) returns (after: seq<Move>)
    requires Run(ms).Some? && Ready(Run(ms).value, credit) && 0 < d <= SIMPLEX_GRANT && d <= credit && HEADER_SIZE <= credit
    ensures Run(after).Some? && Ready(Run(after).value, credit - d)
    ensures var c := Run(ms).value.b.chans[0];
      Run(after).value.b.chans == [c.(ep := c.ep.Enqueue(Mbuf(Some(MUX_REF), Zeros(d), d)))]
  {
    after := ArriveData(ms, credit, d);
    hide Encode, Zeros;
    OneMoreMove(after, AtB(MuxHandle));
    after := after + [AtB(MuxHandle)];
  }

  lemma ArriveData(ms: seq<Move>, credit: nat, d: nat) returns (after: seq<Move>)
    requires Run(ms).Some? && Ready(Run(ms).value, credit) && 0 < d <= SIMPLEX_GRANT && HEADER_SIZE <= credit
    ensures Run(after).Some?
    ensures var m, n := Run(ms).value, Run(after).value;
      && SenderReady(n.a) && n.ab == [] && n.b == m.b.(rbuf := n.b.rbuf)
      && Complete(n.b.rbuf) && Decode(n.b.rbuf) == Packet(CHANNEL_DATA, 1, Zeros(d))
  {
    var p := Packet(CHANNEL_DATA, 1, Zeros(d));
    after := SendData(ms, credit, d);
    after := ReadWhole(after, p);
    EncodedIsComplete(p);
  }

  /** Two packets are queued for B's client when the multiplexed connection ends
      and hangs up. Half-closing the client takes the first one off the queue;
      the second one outlives its source, the multiplexed endpoint. All clients
      have all of their credit meanwhile. */
  lemma MuxIsFreed() returns (ms: seq<Move>)
    ensures Run(ms).Some?
    ensures var b := Run(ms).value.b;
      !b.mux.Alive() && (forall c <- b.chans :: c.ep.credit == SIMPLEX_GRANT) && !SourcesStay(b)
  {
    ms := QueueTwo();
    EofAndHangup(Run(ms).value.b);
    hide *;
    ms := MoveAtB(ms, MuxEof);
    ms := MoveAtB(ms, MuxHangup);
  }

  /** One client at B with two packets queued. */
  predicate TwoQueued(b: Side) {
    && |b.chans| == 1 && b.chans[0].ep.Alive() && b.chans[0].ep.wbuf == None && b.chans[0].ep.credit == SIMPLEX_GRANT
    && |b.chans[0].ep.wqueue| == 2 && b.chans[0].ep.wqueue[1].source == Some(MUX_REF)
    && b.mux.readable && b.mux.wqueue == []
  }

  lemma QueueTwo() returns (ms: seq<Move>)
    ensures Run(ms).Some? && Run(ms).value.ab == [] && TwoQueued(Run(ms).value.b)
  {
    ms := OpenOne();
    hide Run, Zeros;
    ms := DeliverData(ms, MULTIPLEX_GRANT, 1);
    ms := DeliverData(ms, MULTIPLEX_GRANT - 1, 1);
  }

  lemma MoveAtB(ms: seq<Move>, e: Event) returns (after: seq<Move>)
    requires Run(ms).Some? && Run(ms).value.ab == [] && Enabled(Run(ms).value.b, [], e) && !e.Accept?
    ensures Run(after).Some?
    ensures var f := Step(Run(ms).value.b, [], e);
      Run(after).value.b == f.s && Run(after).value.ab == f.wire && Run(after).value.a == Run(ms).value.a
  {
    hide Step, Enabled;
    OneMoreMove(ms, AtB(e));
    after := ms + [AtB(e)];
  }

  lemma EofAndHangup(s: Side)
    requires TwoQueued(s)
    ensures Enabled(s, [], MuxEof) && Step(s, [], MuxEof).wire == []
    ensures var t := Step(s, [], MuxEof).s; var u := Step(t, [], MuxHangup).s;
      && Enabled(t, [], MuxHangup) && !u.mux.Alive() && !SourcesStay(u)
      && (forall c <- u.chans :: c.ep.credit == SIMPLEX_GRANT)
  {
    var e, m := HalfcloseStep(s, 0), s.chans[0].ep.wqueue[1];
    assert HalfcloseFrom(e, 1) == e && HalfcloseFrom(s, 0) == e;
    var t := Step(s, [], MuxEof).s;
    var u := Step(t, [], MuxHangup).s;
    hide Step, Enabled, HalfcloseFrom;
    assert u.chans[0] in u.chans && m in u.chans[0].ep.wqueue && Queued(u, m);
  }

  /** Fill B's queue to its client, a full grant of A's client at a time, until
      that much credit is left. */
  lemma {:induction false} DeliverMany(k: nat) returns (ms: seq<Move>)
    requires k <= 15
    ensures Run(ms).Some? && Ready(Run(ms).value, MULTIPLEX_GRANT - k * SIMPLEX_GRANT)
  {
    if k == 0 {
      ms := OpenOne();
    } else {
      ms := DeliverMany(k - 1);
      ms := DeliverData(ms, MULTIPLEX_GRANT - (k - 1) * SIMPLEX_GRANT, SIMPLEX_GRANT);
    }
  }

  /** While the server takes nothing, the clients use up the credit of the
      multiplexed connection. The next packet is then read in pieces that the
      credit covers, but as a whole it exceeds the credit, and the assertion
      made when it is queued fails. */
  lemma CreditIsOverrun() returns (ms: seq<Move>)
    ensures Run(ms).Some?
    ensures var b := Run(ms).value.b; Complete(b.rbuf) && 0 < |Decode(b.rbuf).payload| && !Delivers(b, Decode(b.rbuf))
  {
    ms := DeliverMany(15);
    ms := DeliverData(ms, SIMPLEX_GRANT, SIMPLEX_GRANT - 100);
    ms := ArriveData(ms, 100, SIMPLEX_GRANT);
  }
}
