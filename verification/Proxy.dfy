/** The proxy as the program it is: endpoints with write queues and credit,
    and one handler for every kind of poll event, each tied to the function
    of ProxySteps that says what the event does. */
module Proxy {
  import opened Wrappers
  import opened Frames
  import opened Buffers
  import S = ProxySteps
  import C = ProxyCopy

  datatype IoMbuf = IoMbuf(source: IoEndpoint?, data: seq<byte>, credit: nat) {
    ghost function View(): S.Mbuf {
      S.Mbuf(if source == null then None else Some(source.ref), data, credit)
    }
  }

  ghost function QueueView(q: seq<IoMbuf>): (r: seq<S.Mbuf>)
    ensures |r| == |q| && forall i :: 0 <= i < |q| ==> r[i] == q[i].View()
  {
    seq(|q|, i requires 0 <= i < |q| => q[i].View())
  }

  /** What a read() returns: some bytes, end of file, or an error. */
  datatype ReadResult = Bytes(data: seq<byte>) | Eof | Failed

  /** The kernel's end of an incoming byte stream. */
  class Wire {
    var data: seq<byte>
    var closed: bool

    /** A read returns any piece that is available, up to the limit. */
    method Read(limit: nat) returns (r: ReadResult)
      requires limit > 0
      modifies this`data
      ensures r.Bytes? ==> 0 < |r.data| <= limit && old(data) == r.data + data
      ensures r.Eof? ==> closed && data == []
      ensures !r.Bytes? ==> data == old(data)
    {
      if data == [] {
        return if closed then Eof else Failed;
      }
      var k :| 0 < k <= limit && k <= |data|;
      r := Bytes(data[..k]);
      data := data[k..];
    }
  }

  class IoEndpoint {
    const ref: nat
    const id: word
    var readable: bool
    var writable: bool
    var shutdownWrite: bool
    var rxCredit: nat
    var wbuf: Option<seq<byte>>
    var wqueue: seq<IoMbuf>

    constructor (ref: nat, id: word, grant: nat)
      ensures View() == S.NewEndpoint(ref, id, grant)
      ensures this.ref == ref && this.id == id && wqueue == []
    {
      this.ref, this.id := ref, id;
      readable, writable, shutdownWrite := true, true, false;
      rxCredit, wbuf, wqueue := grant, None, [];
    }

    ghost function View(): S.Endpoint
      reads this
    {
      S.Endpoint(ref, id, readable, writable, shutdownWrite, rxCredit, wbuf, QueueView(wqueue))
    }

    /** Hand the credit of a dequeued buffer back to where it came from. */
    static method Release(m: IoMbuf)
      modifies if m.source == null then {} else {m.source}
      ensures m.source != null ==>
        && m.source.View() == old(m.source.View()).(credit := old(m.source.rxCredit) + m.credit)
        && m.source.wqueue == old(m.source.wqueue)
    {
      if m.source != null {
        m.source.rxCredit := m.source.rxCredit + m.credit;
      }
    }

    /** Append a buffer and debit its source, which must have that much credit. */
    method QueueWrite(m: IoMbuf)
      requires m.source != this
      requires m.source != null ==> m.credit <= m.source.rxCredit
      modifies this`wqueue
      modifies if m.source == null then {} else {m.source}
      ensures View() == old(View()).Enqueue(m.View()) && wqueue == old(wqueue) + [m]
      ensures m.source != null ==>
        && m.source.View() == old(m.source.View()).(credit := old(m.source.rxCredit) - m.credit)
        && m.source.wqueue == old(m.source.wqueue)
    {
      if m.source != null {
        m.source.rxCredit := m.source.rxCredit - m.credit;
      }
      wqueue := wqueue + [m];
      assert QueueView(wqueue) == QueueView(old(wqueue)) + [m.View()];
    }

    /** Make sure that a queued buffer, if there is one, is ready to be written. */
    method Pullup() returns (pending: bool)
      requires wqueue != [] ==> wqueue[0].source != this
      modifies this`wbuf, this`wqueue
      modifies if wqueue == [] || wqueue[0].source == null then {} else {wqueue[0].source}
      ensures View() == old(View()).Pullup() && pending == wbuf.Some?
      ensures wqueue == if old(View()).PullsUp() then old(wqueue)[1..] else old(wqueue)
      ensures old(wqueue) != [] && old(wqueue[0].source) != null ==>
        var src := old(wqueue[0].source);
        src.View() == old(src.View()).(credit := old(src.rxCredit) + if old(View()).PullsUp() then old(wqueue[0].credit) else 0)
        && src.wqueue == old(src.wqueue)
    {
      if wbuf.None? && wqueue != [] {
        var m := wqueue[0];
        Release(m);
        wbuf := Some(m.data);
        wqueue := wqueue[1..];
        assert QueueView(wqueue) == QueueView(old(wqueue))[1..];
      }
      pending := wbuf.Some?;
    }

    /** One write() on the socket took k bytes. */
    method Wrote(k: nat)
      requires wbuf.Some? && k <= |wbuf.value|
      modifies this`wbuf
      ensures View() == old(View()).Write(k)
    {
      wbuf := if k == |wbuf.value| then None else Some(wbuf.value[k..]);
    }

    /** Between two connections of the same kind, data is passed on as it is.
        Never more is read than there is credit. */
    method RecvCopy(sink: IoEndpoint, socket: Wire, available: nat) returns (r: ReadResult)
      requires sink != this && readable && rxCredit > 0
      modifies this, sink, socket`data
      ensures r.Bytes? ==>
        0 < |r.data| <= old(rxCredit) && (View(), sink.View()) == C.CopyData(old(View()), old(sink.View()), r.data)
      ensures r.Eof? ==> (View(), sink.View()) == C.CopyEof(old(View()), old(sink.View()))
      ensures r.Failed? ==> View() == old(View()) && sink.View() == old(sink.View())
    {
      var rcount := if available > rxCredit then rxCredit else available;
      if rcount == 0 {
        r := Eof;
      } else {
        r := socket.Read(rcount);
      }
      match r
      case Bytes(data) =>
        sink.QueueWrite(IoMbuf(this, data, |data|));
      case Eof =>
        sink.shutdownWrite := true;
        readable := false;
      case Failed =>
    }

    /** What the buffers of a queue owe to one endpoint. */
    static ghost function OwedTo(q: seq<IoMbuf>, e: IoEndpoint): nat {
      if q == [] then 0 else (if q[0].source == e then q[0].credit else 0) + OwedTo(q[1..], e)
    }

    /** Throw away everything still to be written. */
    method Discard(ghost owners: set<IoEndpoint>)
      requires this !in owners && forall m <- wqueue :: m.source != null ==> m.source in owners
      modifies this`wbuf, this`wqueue, owners`rxCredit
      ensures wbuf == None && wqueue == []
      ensures forall e <- owners :: e.rxCredit == old(e.rxCredit) + OwedTo(old(wqueue), e)
    {
      wbuf := None;
      while wqueue != []
        invariant wbuf == None
        invariant forall m <- wqueue :: m.source != null ==> m.source in owners
        invariant forall e <- owners :: e.rxCredit + OwedTo(wqueue, e) == old(e.rxCredit) + OwedTo(old(wqueue), e)
        decreases |wqueue|
      {
        var m := wqueue[0];
        if m.source != null {
          m.source.rxCredit := m.source.rxCredit + m.credit;
        }
        wqueue := wqueue[1..];
      }
    }

    /** All buffers queued here owe their credit to one endpoint. */
    ghost predicate OwesOnly(owner: IoEndpoint)
      reads this
    {
      owner != this && forall m <- wqueue :: m.source == owner
    }

    /** Close the output side of an endpoint. */
    method ShutdownWrite(ghost owner: IoEndpoint)
      requires OwesOnly(owner)
      modifies this, owner
      ensures View() == old(View()).ShutdownWrite() && OwesOnly(owner)
      ensures owner.View() == old(owner.View()).(credit := old(owner.rxCredit) + old(View()).ShutdownWriteCredit(owner.ref))
      ensures owner.wqueue == old(owner.wqueue)
    {
      if writable {
        OwedToView(wqueue, owner);
        Discard({owner});
        writable := false;
      }
    }

    /** Before each poll: get the next buffer ready, or close an endpoint that
        has drained. */
    method PrepareOutput(ghost owner: IoEndpoint)
      requires OwesOnly(owner)
      modifies this, owner
      ensures View() == old(View()).Prepare() && OwesOnly(owner)
      ensures owner.View() == old(owner.View()).(credit :=
        old(owner.rxCredit) + if old(writable) then old(View()).PullupCredit(owner.ref) else 0)
      ensures owner.wqueue == old(owner.wqueue)
    {
      if writable {
        var pending := Pullup();
        if !pending && shutdownWrite {
          ShutdownWrite(owner);
        }
      }
    }

    /** No more input; the endpoint drains before it closes. */
    method Halfclose(ghost owner: IoEndpoint)
      requires OwesOnly(owner)
      modifies this, owner
      ensures View() == old(View()).Halfclose() && OwesOnly(owner)
      ensures owner.View() == old(owner.View()).(credit := old(owner.rxCredit) + old(View()).PullupCredit(owner.ref))
      ensures owner.wqueue == old(owner.wqueue)
    {
      shutdownWrite := true;
      var pending := Pullup();
      readable := false;
      if !pending {
        ShutdownWrite(owner);
      }
    }
  }

  lemma {:induction false} OwedToView(q: seq<IoMbuf>, e: IoEndpoint)
    requires forall m <- q :: m.source != null && m.source.ref == e.ref ==> m.source == e
    ensures IoEndpoint.OwedTo(q, e) == S.CreditOf(QueueView(q), e.ref)
  {
    if q != [] {
      OwedToView(q[1..], e);
      assert QueueView(q)[1..] == QueueView(q[1..]);
      assert q[0] in q;
    }
  }

  /** A proxy with simplex connections on one side and one multiplexed
      connection on the other. The ghost state st is the proxy as a value,
      together with the history of its sockets; Valid ties it to the fields. */
  class Proxy {
    const mux: IoEndpoint
    var chans: seq<IoEndpoint>
    var nextId: word
    var rbuf: Buffer?
    ghost var st: S.Side

    ghost predicate Owned()
      reads this, mux, chans
    {
      && mux !in chans && mux.ref == S.MUX_REF
      && (forall i :: 0 <= i < |chans| ==> chans[i].ref == i + 1)
      && (forall m <- mux.wqueue :: m.source == null || m.source in chans)
      && (forall c <- chans :: forall m <- c.wqueue :: m.source == mux)
    }

    ghost predicate Shows()
      reads this, mux, chans
    {
      && nextId == st.nextId
      && mux.View() == st.mux
      && |chans| == |st.chans|
      && (forall i :: 0 <= i < |chans| ==> chans[i].View() == st.chans[i].ep)
    }

    ghost predicate Assembles()
      reads this, rbuf, if rbuf == null then {} else {rbuf.base}
    {
      if rbuf == null then st.rbuf == [] else rbuf.Valid() && rbuf.Contents() == st.rbuf
    }

    ghost predicate Valid()
      reads this, mux, chans, rbuf, if rbuf == null then {} else {rbuf.base}
    {
      Owned() && Shows() && Assembles()
    }

    constructor ()
      ensures Valid() && st == S.INIT_SIDE
      ensures fresh(mux)
    {
      mux := new IoEndpoint(S.MUX_REF, 0, S.MULTIPLEX_GRANT);
      chans, nextId, rbuf := [], 1, null;
      st := S.INIT_SIDE;
    }

    /** A client connects: queue an OPEN packet for the peer. */
    method Accept()
      requires Valid() && nextId < WORD_LIMIT - 1
      modifies this, mux
      ensures Valid() && st == S.AcceptStep(old(st))
    {
      var id := nextId;
      nextId := nextId + 1;
      st := st.(nextId := nextId);
      QueueCommand(CHANNEL_OPEN, id);
      OpenChannel(id);
    }

    /** Queue a packet that is only a header. */
    method QueueCommand(cmd: word, id: word)
      requires Valid()
      modifies this`st, mux
      ensures Valid() && st == S.Send(old(st), Packet(cmd, id, []), None, 0)
      ensures mux.readable == old(mux.readable)
    {
      var bp := Header(cmd, id, 0);
      assert bp == Encode(Packet(cmd, id, []));
      hide Encode, Header, S.CreditOf, S.QueueBytes, S.Refund, S.FindChannel;
      mux.QueueWrite(IoMbuf(null, bp, 0));
      st := S.Send(st, Packet(cmd, id, []), None, 0);
    }

    /** Read from a client and prepend a DATA header to what was read. */
    static method ReadPacket(id: word, socket: Wire, rcount: nat) returns (r: ReadResult, whole: seq<byte>)
      requires rcount + HEADER_SIZE < WORD_LIMIT
      modifies socket`data
      ensures r.Bytes? ==> 0 < |r.data| <= rcount && old(socket.data) == r.data + socket.data
                           && whole == Encode(Packet(CHANNEL_DATA, id, r.data))
    {
      var bp := new Buffer(rcount + HEADER_SIZE);
      bp.ReserveHead(HEADER_SIZE);
      whole := [];
      if rcount == 0 {
        return Eof, whole;
      }
      r := socket.Read(rcount);
      if r.Bytes? {
        bp.PushTail(r.data);
        assert bp.Contents() == r.data;
        var payload := bp.Count();
        bp.PushHead(Header(CHANNEL_DATA, id, payload));
        whole := bp.PullHead(HEADER_SIZE + payload);
      }
    }

    /** Data (or the end of it) from a client: queue a DATA packet, or a CLOSE.
        Never more is read than there is credit. */
    method RecvMux(i: nat, socket: Wire, available: nat) returns (r: ReadResult)
      requires Valid() && i < |chans| && chans[i].readable && chans[i].rxCredit > 0
      requires available < 0x8000_0000
      modifies this`st, mux, chans[i], socket`data
      ensures Valid()
      ensures r.Bytes? ==> S.Enabled(old(st), [], S.Read(i, r.data)) && st == S.ReadStep(old(st), i, r.data)
      ensures r.Eof? ==> S.Enabled(old(st), [], S.Eof(i)) && st == S.EofStep(old(st), i)
      ensures r.Failed? ==> st == old(st)
    {
      var ep := chans[i];
      var rcount := if available > ep.rxCredit then ep.rxCredit else available;
      var whole;
      r, whole := ReadPacket(ep.id, socket, rcount);
      match r
      case Bytes(data) => QueueData(i, data, whole);
      case Eof => QueueClose(i);
      case Failed =>
    }

    method QueueData(i: nat, ghost data: seq<byte>, whole: seq<byte>)
      requires Valid() && i < |chans|
      requires S.Enabled(st, [], S.Read(i, data)) && whole == Encode(Packet(CHANNEL_DATA, chans[i].id, data))
      modifies this`st, mux, chans[i]
      ensures Valid() && st == S.ReadStep(old(st), i, data)
    {
      hide Encode, S.CreditOf, S.QueueBytes, S.Refund, S.FindChannel;
      assert |whole| == HEADER_SIZE + |data|;
      assert chans[i] in chans;
      mux.QueueWrite(IoMbuf(chans[i], whole, |whole| - HEADER_SIZE));
      st := S.ReadStep(st, i, data);
    }

    method QueueClose(i: nat)
      requires Valid() && i < |chans|
      modifies this`st, mux, chans[i]
      ensures Valid() && st == S.EofStep(old(st), i)
    {
      hide Encode, S.CreditOf, S.QueueBytes, S.Refund, S.FindChannel, Assembles;
      QueueCommand(CHANNEL_CLOSE, chans[i].id);
      CloseReading(i);
    }

    method CloseReading(i: nat)
      requires Valid() && i < |chans|
      modifies this`st, chans[i]
      ensures Valid() && st == S.SetEp(old(st), i, old(st).chans[i].ep.ShutdownRead())
    {
      hide S.CreditOf, S.QueueBytes, S.Refund, S.FindChannel;
      chans[i].readable := false;
      st := S.SetEp(st, i, st.chans[i].ep.ShutdownRead());
    }

    method Hangup(i: nat)
      requires Valid() && i < |chans|
      modifies this`st, mux, chans[i]
      ensures Valid() && st == S.HangupStep(old(st), i)
    {
      assert chans[i] in chans;
      chans[i].ShutdownWrite(mux);
      st := S.HangupStep(st, i);
    }

    method Prepare(i: nat)
      requires Valid() && i < |chans|
      modifies this`st, mux, chans[i]
      ensures Valid() && st == S.PrepareStep(old(st), i)
    {
      assert chans[i] in chans;
      chans[i].PrepareOutput(mux);
      st := S.PrepareStep(st, i);
    }

    method Halfclose(i: nat)
      requires Valid() && i < |chans|
      modifies this`st, mux, chans[i]
      ensures Valid() && st == S.HalfcloseStep(old(st), i)
      ensures mux.readable == old(mux.readable)
    {
      assert chans[i] in chans;
      chans[i].Halfclose(mux);
      st := S.HalfcloseStep(st, i);
    }

    /** A write() to a simplex socket took k bytes. */
    method WriteReady(i: nat, k: nat)
      requires Valid() && i < |chans| && chans[i].writable
      requires chans[i].wbuf.Some? && 0 < k <= |chans[i].wbuf.value|
      modifies this`st, chans[i]
      ensures Valid() && S.Enabled(old(st), [], S.Write(i, k)) && st == S.WriteStep(old(st), i, k)
    {
      chans[i].Wrote(k);
      st := S.WriteStep(st, i, k);
    }

    /** The clients' endpoints after these buffers left the multiplexed queue. */
    ghost predicate Refunded(q: seq<S.Mbuf>)
      reads this, chans
    {
      |chans| == |st.chans| && forall i :: 0 <= i < |chans| ==>
        chans[i].View() == st.chans[i].ep.(credit := st.chans[i].ep.credit + S.CreditOf(q, st.chans[i].ep.ref))
    }

    /** Ready the next buffer; its credit goes back to the client it came from. */
    method MuxPullup() returns (pending: bool)
      requires Valid()
      modifies mux, chans
      ensures Owned() && mux.View() == st.mux.Pullup() && pending == mux.wbuf.Some?
      ensures Refunded(if st.mux.PullsUp() then st.mux.wqueue[..1] else [])
    {
      ghost var q := mux.wqueue;
      pending := MuxTakeFirst();
      ghost var first := if st.mux.PullsUp() then st.mux.wqueue[..1] else [];
      forall i | 0 <= i < |chans|
        ensures chans[i].View() == st.chans[i].ep.(credit := st.chans[i].ep.credit + S.CreditOf(first, st.chans[i].ep.ref))
      {
        if st.mux.PullsUp() {
          FirstOwner(q, chans[i], chans);
        }
      }
    }

    method MuxTakeFirst() returns (pending: bool)
      requires Valid()
      modifies mux, chans
      ensures Owned() && mux.View() == st.mux.Pullup() && pending == mux.wbuf.Some?
      ensures old(mux.wqueue) != [] && old(mux.wqueue[0].source) != null ==> old(mux.wqueue[0].source) in chans
      ensures forall i :: 0 <= i < |chans| ==>
        chans[i].View() == st.chans[i].ep.(credit := st.chans[i].ep.credit +
          if st.mux.PullsUp() && old(mux.wqueue[0].source) == chans[i] then old(mux.wqueue[0].credit) else 0)
    {
      ghost var q := mux.wqueue;
      assert q != [] ==> q[0] in q;
      pending := mux.Pullup();
      assert forall m <- mux.wqueue :: m in q;
    }

    ghost method SettleMux(q: seq<S.Mbuf>)
      requires Owned() && Assembles() && nextId == st.nextId && Refunded(q)
      modifies this`st
      ensures Valid() && st == old(st).(mux := mux.View(), chans := S.Refund(old(st).chans, q))
    {
      st := st.(mux := mux.View(), chans := S.Refund(st.chans, q));
    }

    method MuxPrepare()
      requires Valid()
      modifies this`st, mux, chans
      ensures Valid() && st == S.MuxPrepareStep(old(st))
    {
      if mux.writable {
        var pending := MuxPullup();
        ghost var q := if st.mux.PullsUp() then st.mux.wqueue[..1] else [];
        FinishMux(pending, q);
        S.RefundNothing(st.chans);
        hide S.Refund, Refunded, Owned, Shows, Assembles;
        SettleMux(q);
      }
    }

    /** Close the output side if nothing is left to write and that was asked
        for. */
    method FinishMux(pending: bool, ghost q: seq<S.Mbuf>)
      requires Owned() && Assembles() && mux.View() == st.mux.Pullup() && pending == mux.wbuf.Some? && Refunded(q) && st.mux.writable
      modifies mux
      ensures Owned() && Assembles() && mux.View() == st.mux.Prepare() && Refunded(q)
    {
      hide S.CreditOf, S.QueueBytes, S.Refund;
      if !pending && mux.shutdownWrite {
        assert st.mux.Pullup().wqueue == [] && QueueView(mux.wqueue) == [];
        mux.writable := false;
      }
    }

    /** A write() to the multiplexed connection took k bytes. */
    method MuxWrite(k: nat) returns (out: seq<byte>)
      requires Valid() && mux.writable && mux.wbuf.Some? && 0 < k <= |mux.wbuf.value|
      modifies this`st, mux
      ensures Valid() && S.Enabled(old(st), [], S.MuxWrite(k))
      ensures S.Effect(st, [], out) == S.Step(old(st), [], S.MuxWrite(k))
    {
      out := mux.wbuf.value[..k];
      mux.Wrote(k);
      st := st.(mux := st.mux.Write(k));
    }

    /** Throw away what is queued for the multiplexed connection. */
    method MuxDiscard()
      requires Valid()
      modifies mux, chans
      ensures Owned() && mux.View() == st.mux.(wbuf := None, wqueue := []) && Refunded(st.mux.wqueue)
    {
      ghost var q := mux.wqueue;
      mux.Discard(set c | c in chans);
      forall i | 0 <= i < |chans|
        ensures chans[i].View() ==
                st.chans[i].ep.(credit := st.chans[i].ep.credit + S.CreditOf(st.mux.wqueue, st.chans[i].ep.ref))
      {
        assert chans[i] in chans && old(chans[i].View()) == st.chans[i].ep;
        OwedToView(q, chans[i]);
      }
    }

    /** The multiplexed connection went away. */
    method MuxHangup()
      requires Valid()
      modifies this`st, mux, chans
      ensures Valid() && st == S.MuxHangupStep(old(st))
    {
      if mux.writable {
        MuxDiscard();
        mux.writable := false;
        SettleMux(st.mux.wqueue);
      }
    }

    /** Before each poll: free the endpoints whose two directions are closed.
        What is still queued for them gives its credit back. */
    method Purge()
      requires Valid()
      modifies this`st, mux, chans
      ensures Valid() && st == S.PurgeStep(old(st))
    {
      hide Owned, Shows, Assembles, S.PurgeFrom, S.PurgeMux;
      var i := 0;
      ghost var was := st;
      while i < |chans|
        invariant Valid() && i <= |chans| == |old(chans)| && chans == old(chans)
        invariant S.PurgeFrom(was, 0) == S.PurgeFrom(st, i)
      {
        PurgeClient(i);
        i := i + 1;
      }
      AllPurged(i);
      PurgeMux();
    }

    lemma AllPurged(i: nat)
      requires Valid() && i >= |chans|
      ensures S.PurgeFrom(st, i) == st
    {
    }

    method PurgeClient(i: nat)
      requires Valid() && i < |chans|
      modifies this`st, mux, chans[i]
      ensures Valid() && S.PurgeFrom(old(st), i) == S.PurgeFrom(st, i + 1)
    {
      if !chans[i].readable && !chans[i].writable {
        assert chans[i] in chans;
        OwedToView(chans[i].wqueue, mux);
        chans[i].Discard({mux});
        st := S.PurgeOne(st, i);
      }
    }

    method PurgeMux()
      requires Valid()
      modifies this`st, mux, chans
      ensures Valid() && st == S.PurgeMux(old(st))
    {
      if !mux.readable && !mux.writable {
        MuxDiscard();
        SettleMux(st.mux.wqueue);
      }
    }

    /** Hand on the packet that rbuf holds; rbuf is given up. */
    method HandOn()
      requires Valid() && rbuf != null && S.Complete(st.rbuf) && S.Delivers(st, Decode(st.rbuf))
      modifies this, mux, chans, rbuf`head
      ensures Valid() && rbuf == null && st == S.HandleStep(old(st))
      ensures mux.readable == old(mux.readable) && forall c <- chans :: c in old(chans) || fresh(c)
    {
      var cmd, id, payload := TakePacket();
      Dispatch(cmd, id, payload);
    }

    method TakePacket() returns (cmd: word, id: word, payload: seq<byte>)
      requires Valid() && rbuf != null && S.Complete(st.rbuf)
      modifies this`rbuf, this`st, rbuf`head
      ensures Valid() && rbuf == null && Packet(cmd, id, payload) == Decode(old(st.rbuf))
      ensures st == old(st).(rbuf := [], handed := old(st).handed + [Packet(cmd, id, payload)])
    {
      var whole := rbuf.base[rbuf.head..rbuf.tail];
      cmd, id := HeaderCmd(whole), HeaderChannel(whole);
      var header := rbuf.PullHead(HEADER_SIZE);
      payload := rbuf.base[rbuf.head..rbuf.tail];
      assert payload == whole[HEADER_SIZE..];
      rbuf := null;
      st := st.(rbuf := [], handed := st.handed + [Packet(cmd, id, payload)]);
    }

    method Dispatch(cmd: word, id: word, payload: seq<byte>)
      requires Valid() && rbuf == null && S.Delivers(st, Packet(cmd, id, payload))
      modifies this`chans, this`st, mux, chans
      ensures Valid() && rbuf == null && st == S.Dispatch(old(st), Packet(cmd, id, payload))
      ensures mux.readable == old(mux.readable) && forall c <- chans :: c in old(chans) || fresh(c)
    {
      if cmd == CHANNEL_OPEN {
        OpenChannel(id);
        return;
      }
      var i := FindEndpoint(id);
      if i < |chans| {
        // packets for an unknown channel are dropped
        DispatchTo(i, cmd, id, payload);
      }
    }

    method DispatchTo(i: nat, cmd: word, id: word, payload: seq<byte>)
      requires Valid() && rbuf == null && S.Delivers(st, Packet(cmd, id, payload))
      requires cmd != CHANNEL_OPEN && i == S.FindChannel(st.chans, id) && i < |chans|
      modifies this`st, mux, chans[i]
      ensures Valid() && rbuf == null && st == S.Dispatch(old(st), Packet(cmd, id, payload))
      ensures mux.readable == old(mux.readable)
    {
      if cmd == CHANNEL_CLOSE {
        Halfclose(i);
      } else if cmd == CHANNEL_DATA {
        QueueToClient(i, payload);
      }
    }

    method OpenChannel(id: word)
      requires Valid()
      modifies this`chans, this`st
      ensures Valid() && st == old(st).(chans := old(st).chans + [S.NewChannel(|old(st).chans| + 1, id)])
      ensures forall c <- chans :: c in old(chans) || fresh(c)
    {
      hide S.CreditOf, S.QueueBytes, S.Refund;
      var ep := new IoEndpoint(|chans| + 1, id, S.SIMPLEX_GRANT);
      chans := chans + [ep];
      st := st.(chans := st.chans + [S.NewChannel(|st.chans| + 1, id)]);
    }

    /** The first endpoint in the list with this channel id. */
    method FindEndpoint(id: word) returns (i: nat)
      requires Owned() && Shows()
      ensures i == S.FindChannel(st.chans, id)
    {
      i := 0;
      while i < |chans|
        invariant i <= |chans|
        invariant S.FindChannel(st.chans, id) == i + S.FindChannel(st.chans[i..], id)
      {
        if chans[i].id == id && (chans[i].readable || chans[i].writable) {
          return;
        }
        assert st.chans[i..][1..] == st.chans[i + 1..];
        i := i + 1;
      }
    }

    /** Payload for a client, at the expense of the multiplexed endpoint. */
    method QueueToClient(i: nat, payload: seq<byte>)
      requires Valid() && i < |chans| && |payload| <= mux.rxCredit
      modifies this`st, mux, chans[i]
      ensures Valid()
      ensures st == S.SetEp(old(st), i, old(st).chans[i].ep.Enqueue(S.Mbuf(Some(S.MUX_REF), payload, |payload|)))
                      .(mux := old(st).mux.(credit := old(st).mux.credit - |payload|))
      ensures mux.readable == old(mux.readable)
    {
      hide S.CreditOf, S.QueueBytes, S.Refund, S.FindChannel;
      assert chans[i] in chans;
      chans[i].QueueWrite(IoMbuf(mux, payload, |payload|));
      st := S.SetEp(st, i, st.chans[i].ep.Enqueue(S.Mbuf(Some(S.MUX_REF), payload, |payload|)))
              .(mux := st.mux.(credit := st.mux.credit - |payload|));
    }

    /** The multiplexed connection ended: half-close the clients, in list
        order. The walk ends early at the first client that this takes off the
        list. */
    method CloseClients()
      requires Valid()
      modifies this`st, mux, chans
      ensures Valid() && st == S.MuxEofStep(old(st))
    {
      hide Owned, Shows, Assembles, S.HalfcloseFrom;
      var i := 0;
      ghost var was := st;
      while i < |chans|
        invariant Valid() && i <= |chans| == |old(chans)| && chans == old(chans)
        invariant S.HalfcloseFrom(was, 0) == S.HalfcloseFrom(st, i)
      {
        i := CloseNext(i);
      }
      NoneLeft(i);
      CloseInput();
    }

    lemma NoneLeft(i: nat)
      requires Valid() && i >= |chans|
      ensures S.HalfcloseFrom(st, i) == st
    {
    }

    method CloseInput()
      requires Valid()
      modifies this`st, mux
      ensures Valid() && st == old(st).(mux := old(st).mux.ShutdownRead())
    {
      mux.readable := false;
      st := st.(mux := st.mux.ShutdownRead());
    }

    /** Half-close one client and move on to the next one in the list. */
    method CloseNext(i: nat) returns (next: nat)
      requires Valid() && i < |chans|
      modifies this`st, mux, chans
      ensures Valid() && i < next <= |chans|
      ensures S.HalfcloseFrom(old(st), i) == S.HalfcloseFrom(st, next)
    {
      next := i + 1;
      if chans[i].readable || chans[i].writable {
        Halfclose(i);
        if !chans[i].readable && !chans[i].writable {
          next := |chans|;
        }
      }
    }

    /** One turn of the receive loop decides how much to read next. */
    method NextRead() returns (whole: bool, rnext: int)
      requires Valid() && rbuf != null
      ensures whole == S.Complete(st.rbuf)
      ensures !whole ==> rnext == S.Wanted(st.rbuf)
    {
      var avail := rbuf.Count();
      if avail < HEADER_SIZE {
        return false, HEADER_SIZE - avail;
      }
      var bytes := rbuf.base[rbuf.head..rbuf.tail];
      var pktsize := PacketSize(bytes);
      if avail == pktsize {
        return true, 0;
      }
      return false, pktsize - avail;
    }

    /** What was read goes to the end of rbuf. */
    method Receive(data: seq<byte>)
      requires Valid() && rbuf != null && |data| <= rbuf.base.Length - rbuf.tail
      modifies this`st, rbuf`tail, rbuf.base
      ensures Valid() && st == old(st).(rbuf := old(st).rbuf + data)
    {
      rbuf.PushTail(data);
      st := st.(rbuf := st.rbuf + data);
    }

    method CanDeliver() returns (ok: bool)
      requires Valid() && rbuf != null && S.Complete(st.rbuf)
      ensures ok == S.Delivers(st, Decode(st.rbuf))
    {
      var bytes := rbuf.base[rbuf.head..rbuf.tail];
      var i := FindEndpoint(HeaderChannel(bytes));
      ok := !(HeaderCmd(bytes) == CHANNEL_DATA && i < |chans|)
        || 0 < |bytes| - HEADER_SIZE <= mux.rxCredit;
    }

    /** Read up to rnext more bytes of the current packet. */
    method ReadSome(wire: Wire, rnext: nat) returns (r: ReadResult)
      requires Valid() && rbuf != null && rnext > 0
      modifies this`st, rbuf, rbuf.base, wire`data
      ensures Valid() && (rbuf.base == old(rbuf.base) || fresh(rbuf.base))
      ensures r.Bytes? ==>
        && 0 < |r.data| <= rnext && |r.data| <= |old(wire.data)|
        && wire.data == old(wire.data)[|r.data|..]
        && st == old(st).(rbuf := old(st).rbuf + old(wire.data)[..|r.data|])
      ensures !r.Bytes? ==> st == old(st) && wire.data == old(wire.data)
      ensures r.Eof? ==> wire.data == []
    {
      rbuf.EnsureTailroom(rnext);
      r := wire.Read(rnext);
      if r.Bytes? {
        Receive(r.data);
      }
    }

    /** One turn of the receive loop; e is what happened, n is how many bytes
        were read. */
    method Turn(wire: Wire, rcount: nat, readSome: bool) returns (again: bool, aborted: bool, n: nat, ghost e: Option<S.Event>)
      requires Valid() && rbuf != null && mux.readable && 0 < rcount <= mux.rxCredit
      modifies this, mux, chans, wire`data, rbuf, rbuf.base
      ensures Valid()
      ensures e.None? ==> st == old(st) && wire.data == old(wire.data)
      ensures e.Some? ==> S.Enabled(old(st), old(wire.data), e.value)
                          && S.Step(old(st), old(wire.data), e.value) == S.Effect(st, wire.data, [])
      ensures again ==> 0 < n <= rcount && rbuf == old(rbuf) && (rbuf.base == old(rbuf.base) || fresh(rbuf.base))
      ensures again ==> chans == old(chans) && mux.readable && mux.rxCredit == old(mux.rxCredit)
      ensures again ==> !aborted && |st.rbuf| == |old(st.rbuf)| + n
      ensures aborted ==> e.None? && mux.rxCredit == old(mux.rxCredit)
      ensures aborted ==> if S.Complete(st.rbuf) then !S.Delivers(st, Decode(st.rbuf)) else S.Wanted(st.rbuf) <= 0
    {
      again, aborted, n, e := false, false, 0, None;
      var whole, rnext := NextRead();
      if whole {
        aborted := DemuxPacket();
        e := if aborted then None else Some(S.MuxHandle);
        return;
      }
      if rnext <= 0 {
        aborted := true;
        return;
      }
      again, n, e := ReadTurn(wire, if rnext > rcount then rcount else rnext, readSome);
    }

    /** A whole packet is there. The program ends if its payload exceeds the
        credit that is left; it also does, a little later, if that is empty. */
    method DemuxPacket() returns (aborted: bool)
      requires Valid() && rbuf != null && S.Complete(st.rbuf)
      modifies this, mux, chans, rbuf`head
      ensures Valid() && aborted == !S.Delivers(old(st), Decode(old(st.rbuf)))
      ensures st == if aborted then old(st) else S.HandleStep(old(st))
    {
      var ok := CanDeliver();
      if ok {
        HandOn();
      }
      aborted := !ok;
    }

    method ReadTurn(wire: Wire, rnext: nat, readSome: bool) returns (again: bool, n: nat, ghost e: Option<S.Event>)
      requires Valid() && rbuf != null && mux.readable && !S.Complete(st.rbuf)
      requires 0 < rnext <= mux.rxCredit && rnext <= S.Wanted(st.rbuf)
      modifies this`st, mux, chans, wire`data, rbuf, rbuf.base
      ensures Valid()
      ensures e.None? ==> st == old(st) && wire.data == old(wire.data)
      ensures e.Some? ==> S.Enabled(old(st), old(wire.data), e.value)
                          && S.Step(old(st), old(wire.data), e.value) == S.Effect(st, wire.data, [])
      ensures again ==> 0 < n <= rnext && (rbuf.base == old(rbuf.base) || fresh(rbuf.base))
      ensures again ==> mux.readable && mux.rxCredit == old(mux.rxCredit) && |st.rbuf| == |old(st.rbuf)| + n
    {
      again, n, e := false, 0, None;
      var r := ReadSome(wire, rnext);
      if r.Bytes? {
        again, n, e := true, |r.data|, Some(S.MuxRead(|r.data|));
      } else if r.Eof? && !readSome {
        e := Some(S.MuxEof);
        CloseClients();
      }
    }

    /** Data from the multiplexed connection: read up to the end of the current
        packet, never beyond it and never more than the credit, and hand on the
        packet if it is complete. The events es say what happened. The program
        aborts if its own assertion about the packet size or about the credit
        fails. If the call began at the start of a packet, all that it reads is
        covered by the credit, so the assertion about the credit holds. */
    method RecvDemux(wire: Wire, available: nat) returns (aborted: bool, ghost es: seq<S.Event>)
      requires Valid() && mux.readable && mux.rxCredit > 0
      modifies this, mux, chans, wire`data
      modifies if rbuf == null then {} else {rbuf, rbuf.base}
      ensures Valid() && S.Steps(old(st), old(wire.data), es) == Some((st, wire.data))
      ensures aborted ==> if S.Complete(st.rbuf) then !S.Delivers(st, Decode(st.rbuf)) else S.Wanted(st.rbuf) <= 0
      ensures aborted && S.Complete(st.rbuf) && old(st.rbuf) == [] ==> Decode(st.rbuf).payload == []
    {
      aborted, es := false, [];
      var rcount: nat := if available > mux.rxCredit then mux.rxCredit else available;
      if rbuf == null {
        rbuf := new Buffer(4096 + HEADER_SIZE);
      }
      var readSome, again := false, true;
      while rcount != 0 && again
        invariant Valid() && S.Steps(old(st), old(wire.data), es) == Some((st, wire.data))
        invariant again ==> rbuf != null && chans == old(chans) && mux.readable && rcount <= mux.rxCredit && !aborted
        invariant again ==> rbuf == old(rbuf) || fresh(rbuf)
        invariant again ==> fresh(rbuf.base) || (rbuf == old(rbuf) && rbuf.base == old(rbuf.base))
        invariant aborted ==> if S.Complete(st.rbuf) then !S.Delivers(st, Decode(st.rbuf)) else S.Wanted(st.rbuf) <= 0
        invariant (again || aborted) && old(st.rbuf) == [] ==> |st.rbuf| + rcount <= mux.rxCredit
        decreases rcount, again
      {
        ghost var e;
        var n;
        again, aborted, n, e := Turn(wire, rcount, readSome);
        if e.Some? {
          S.OneMoreStep(old(st), old(wire.data), es, e.value);
          es := es + [e.value];
        }
        if again {
          readSome, rcount := true, rcount - n;
        }
      }
    }
  }

  /** The credit of a queue's first buffer belongs to the endpoint it names. */
  lemma FirstOwner(q: seq<IoMbuf>, e: IoEndpoint, es: seq<IoEndpoint>)
    requires q != [] && e in es && (q[0].source == null || q[0].source in es)
    requires forall i :: 0 <= i < |es| ==> es[i].ref == i + 1
    ensures S.CreditOf(QueueView(q)[..1], e.ref) == if q[0].source == e then q[0].credit else 0
  {
    assert QueueView(q)[..1] == [q[0].View()];
    assert S.CreditOf([q[0].View()], e.ref) == (if q[0].View().source == Some(e.ref) then q[0].credit else 0) + S.CreditOf([], e.ref);
  }
}
