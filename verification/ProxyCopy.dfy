/** Two connections of the same kind, each the sink of the other: what is read
    from one is written to the other as it is. */
module ProxyCopy {
  import opened Wrappers
  import opened Frames
  import opened ProxySteps
  import opened ProxySide

  /** Data read from one endpoint is queued at the other. */
  function CopyData(from: Endpoint, to: Endpoint, data: seq<byte>): (Endpoint, Endpoint)
    requires |data| <= from.credit
  {
    (from.(credit := from.credit - |data|), to.Enqueue(Mbuf(Some(from.ref), data, |data|)))
  }

  /** The other endpoint closes once it has drained. */
  function CopyEof(from: Endpoint, to: Endpoint): (Endpoint, Endpoint) {
    (from.ShutdownRead(), to.(shutdownWrite := true))
  }

  datatype Pair = Pair(x: Channel, y: Channel) {
    function Swap(): Pair { Pair(y, x) }
  }

  datatype CopyEvent = Read(data: seq<byte>) | Eof | Prepare | Write(k: nat) | Hangup

  /** When something can happen at the first endpoint. */
  predicate CopyEnabled(p: Pair, e: CopyEvent) {
    match e
    case Read(data) => p.x.ep.readable && 0 < |data| <= p.x.ep.credit
    case Eof => p.x.ep.readable && p.x.ep.credit > 0
    case Write(k) => p.x.ep.writable && p.x.ep.wbuf.Some? && 0 < k <= |p.x.ep.wbuf.value|
    case _ => true
  }

  function CopyStep(p: Pair, e: CopyEvent): Pair
    requires CopyEnabled(p, e)
  {
    var x, y := p.x, p.y;
    match e
    case Read(data) =>
      var r := CopyData(x.ep, y.ep, data);
      Pair(x.(ep := r.0, read := x.read + data), y.(ep := r.1))
    case Eof =>
      var r := CopyEof(x.ep, y.ep);
      Pair(x.(ep := r.0), y.(ep := r.1))
    case Prepare =>
      Pair(x.(ep := x.ep.Prepare()), Credited(y, if x.ep.writable then x.ep.PullupCredit(y.ep.ref) else 0))
    case Write(k) =>
      Pair(x.(ep := x.ep.Write(k), written := x.written + x.ep.wbuf.value[..k]), y)
    case Hangup =>
      Pair(x.(ep := x.ep.ShutdownWrite()), Credited(y, x.ep.ShutdownWriteCredit(y.ep.ref)))
  }

  function Credited(c: Channel, amount: nat): Channel {
    c.(ep := c.ep.(credit := c.ep.credit + amount))
  }

  /** Events at the first or the second endpoint. */
  datatype CopyMove = AtX(e: CopyEvent) | AtY(e: CopyEvent)

  function CopyRun(grant: nat, ms: seq<CopyMove>): Option<Pair> {
    if ms == [] then
      Some(Pair(Channel(NewEndpoint(1, 0, grant), [], []), Channel(NewEndpoint(2, 0, grant), [], [])))
    else
      var r := CopyRun(grant, ms[..|ms| - 1]);
      var m := ms[|ms| - 1];
      if r.None? then None
      else if m.AtX? then (if CopyEnabled(r.value, m.e) then Some(CopyStep(r.value, m.e)) else None)
      else (if CopyEnabled(r.value.Swap(), m.e) then Some(CopyStep(r.value.Swap(), m.e).Swap()) else None)
  }

  /** What y has written and still has to write is what was read from x, and
      x's credit and what is queued at y make up the grant. */
  predicate FlowOk(x: Channel, y: Channel, grant: nat) {
    && y.written <= x.read
    && (y.ep.writable ==> y.written + y.ep.Pending() == x.read)
    && (!x.ep.readable ==> y.ep.shutdownWrite)
    && x.ep.credit + CreditOf(y.ep.wqueue, x.ep.ref) == grant
    && forall m <- y.ep.wqueue :: m.source == Some(x.ep.ref) && m.credit == |m.data|
  }

  predicate PairOk(p: Pair, grant: nat) {
    FlowOk(p.x, p.y, grant) && FlowOk(p.y, p.x, grant)
  }

  lemma PullupFlow(e: Endpoint, ref: nat)
    ensures e.Pullup().Pending() == e.Pending()
    ensures e.PullupCredit(ref) + CreditOf(e.Pullup().wqueue, ref) == CreditOf(e.wqueue, ref)
    ensures forall m <- e.Pullup().wqueue :: m in e.wqueue
  {
    assert e.PullsUp() ==> e.Pending() == [] + (e.wqueue[0].data + QueueBytes(e.wqueue[1..]));
  }

  lemma CopyKeeps(p: Pair, e: CopyEvent, grant: nat)
    requires PairOk(p, grant) && CopyEnabled(p, e)
    ensures PairOk(CopyStep(p, e), grant)
  {
    hide FlowOk;
    var x, y := p.x, p.y;
    match e {
      case Read(data) => ReadKeeps(x, y, data, grant);
      case Eof => EofKeeps(x, y, grant);
      case Prepare => PrepareKeeps(x, y, grant);
      case Write(k) => WriteKeeps(x, y, k, grant);
      case Hangup => HangupKeeps(x, y, grant);
    }
  }

  lemma ReadKeeps(x: Channel, y: Channel, data: seq<byte>, grant: nat)
    requires FlowOk(x, y, grant) && FlowOk(y, x, grant) && |data| <= x.ep.credit
    ensures var r := CopyData(x.ep, y.ep, data);
      var x1, y1 := x.(ep := r.0, read := x.read + data), y.(ep := r.1);
      FlowOk(x1, y1, grant) && FlowOk(y1, x1, grant)
  {
    hide QueueBytes, CreditOf;
    var m := Mbuf(Some(x.ep.ref), data, |data|);
    QueueAppend(y.ep.wqueue, m, x.ep.ref);
    var out := y.ep.Pending();
    assert y.ep.Enqueue(m).Pending() == out + data;
    assert y.written + (out + data) == y.written + out + data;
    hide Endpoint.Pending;
  }

  lemma EofKeeps(x: Channel, y: Channel, grant: nat)
    requires FlowOk(x, y, grant) && FlowOk(y, x, grant)
    ensures var r := CopyEof(x.ep, y.ep);
      FlowOk(x.(ep := r.0), y.(ep := r.1), grant) && FlowOk(y.(ep := r.1), x.(ep := r.0), grant)
  {
    hide QueueBytes, CreditOf;
  }

  lemma PrepareKeeps(x: Channel, y: Channel, grant: nat)
    requires FlowOk(x, y, grant) && FlowOk(y, x, grant)
    ensures var x1, y1 := x.(ep := x.ep.Prepare()), Credited(y, if x.ep.writable then x.ep.PullupCredit(y.ep.ref) else 0);
      FlowOk(x1, y1, grant) && FlowOk(y1, x1, grant)
  {
    PullupFlow(x.ep, y.ep.ref);
  }

  lemma HangupKeeps(x: Channel, y: Channel, grant: nat)
    requires FlowOk(x, y, grant) && FlowOk(y, x, grant)
    ensures var x1, y1 := x.(ep := x.ep.ShutdownWrite()), Credited(y, x.ep.ShutdownWriteCredit(y.ep.ref));
      FlowOk(x1, y1, grant) && FlowOk(y1, x1, grant)
  {
    hide QueueBytes;
  }

  lemma WriteKeeps(x: Channel, y: Channel, k: nat, grant: nat)
    requires FlowOk(x, y, grant) && FlowOk(y, x, grant) && x.ep.writable && x.ep.wbuf.Some? && k <= |x.ep.wbuf.value|
    ensures var x1 := x.(ep := x.ep.Write(k), written := x.written + x.ep.wbuf.value[..k]);
      FlowOk(x1, y, grant) && FlowOk(y, x1, grant)
  {
    hide QueueBytes, CreditOf;
    var b := x.ep.wbuf.value;
    assert b == b[..k] + b[k..];
    assert (x.written + b[..k]) + x.ep.Write(k).Pending() == x.written + x.ep.Pending();
  }

  lemma {:induction false} CopyRunOk(grant: nat, ms: seq<CopyMove>)
    requires CopyRun(grant, ms).Some?
    ensures PairOk(CopyRun(grant, ms).value, grant)
  {
    if ms != [] {
      CopyRunOk(grant, ms[..|ms| - 1]);
      var p := CopyRun(grant, ms[..|ms| - 1]).value;
      match ms[|ms| - 1]
      case AtX(e) => CopyKeeps(p, e, grant);
      case AtY(e) => CopyKeeps(p.Swap(), e, grant);
    }
  }

  lemma {:induction false} QueuedIsCredit(q: seq<Mbuf>, ref: nat)
    requires forall m <- q :: m.source == Some(ref) && m.credit == |m.data|
    ensures |QueueBytes(q)| == CreditOf(q, ref)
  {
    if q != [] {
      assert q[0] in q;
      QueuedIsCredit(q[1..], ref);
    }
  }

  /** In every run, in both directions: what was written to one connection is an
      initial piece of what was read from the other, and all of it once the
      endpoint has drained; the end of one connection's input makes the other one
      close; and an endpoint's credit and what is queued at its sink make up its
      grant. */
  lemma CopyDelivers(grant: nat, ms: seq<CopyMove>)
    requires CopyRun(grant, ms).Some?
    ensures var p := CopyRun(grant, ms).value; CopiedSoFar(p.x, p.y, grant) && CopiedSoFar(p.y, p.x, grant)
  {
    CopyRunOk(grant, ms);
    var p := CopyRun(grant, ms).value;
    QueuedIsCredit(p.x.ep.wqueue, p.y.ep.ref);
    QueuedIsCredit(p.y.ep.wqueue, p.x.ep.ref);
    assert p.x.written + [] == p.x.written && p.y.written + [] == p.y.written;
  }

  predicate CopiedSoFar(x: Channel, y: Channel, grant: nat) {
    && y.written <= x.read
    && (y.ep.writable && y.ep.Pending() == [] ==> y.written == x.read)
    && (!x.ep.readable ==> y.ep.shutdownWrite)
    && x.ep.credit + |QueueBytes(y.ep.wqueue)| == grant
  }
}
