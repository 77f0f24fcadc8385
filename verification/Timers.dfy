/** The list of timers, sorted by when they expire. */
module Timers {
  datatype Time = Time(sec: nat, usec: nat)

  predicate Normal(t: Time) { t.usec < 1_000_000 }

  function Micros(t: Time): nat { t.sec * 1_000_000 + t.usec }

  predicate Before(a: Time, b: Time) {
    if a.sec == b.sec then a.usec < b.usec else a.sec < b.sec
  }

  lemma BeforeMicros(a: Time, b: Time)
    requires Normal(a) && Normal(b)
    ensures Before(a, b) <==> Micros(a) < Micros(b)
  {
  }

  /** A moment that many milliseconds later. */
  function Later(t: Time, ms: nat): (r: Time)
    requires Normal(t)
    ensures Normal(r) && Micros(r) == Micros(t) + ms * 1000
  {
    var sec, usec := t.sec + ms / 1000, t.usec + (ms % 1000) * 1000;
    if usec >= 1_000_000 then Time(sec + 1, usec - 1_000_000) else Time(sec, usec)
  }

  /** The milliseconds from one moment to a later one, rounded down. */
  function Until(now: Time, t: Time): (ms: nat)
    requires Normal(now) && Normal(t) && !Before(t, now)
    ensures ms == (Micros(t) - Micros(now)) / 1000
  {
    var sec, usec := if t.usec < now.usec then t.sec - now.sec - 1 else t.sec - now.sec,
                     if t.usec < now.usec then t.usec + 1_000_000 - now.usec else t.usec - now.usec;
    assert sec * 1_000_000 + usec == Micros(t) - Micros(now);
    assert (sec * 1_000_000 + usec) / 1000 == sec * 1000 + usec / 1000;
    sec * 1000 + usec / 1000
  }

  /** order tells in which order timers were armed; it serves to state what the
      list keeps, and decides nothing. */
  datatype Timer = Timer(ident: nat, expires: Time, order: nat)

  /** First by expiry, then in the order of arming. */
  predicate Precedes(a: Timer, b: Timer) {
    Micros(a.expires) < Micros(b.expires) || (Micros(a.expires) == Micros(b.expires) && a.order < b.order)
  }

  predicate Sorted(ts: seq<Timer>) {
    forall i, j :: 0 <= i < j < |ts| ==> Precedes(ts[i], ts[j])
  }

  /** What a callback may do: register a timer, cancel one, or arm one anew.
      Each reads the clock for itself. */
  datatype Action = Register(at: Clock, timeout: nat) | Cancel(ident: nat) | Rearm(ident: nat, at: Clock, timeout: nat)

  /** What the clock reads. */
  type Clock = t: Time | Normal(t) witness Time(0, 0)

  /** The actions of a callback, given how many callbacks ran before it. */
  type Callbacks = (nat, Timer) -> seq<Action>

  /** New deadlines are at least a millisecond after now. */
  predicate Patient(now: Time, a: Action) {
    match a
    case Register(at, timeout) => Micros(at) + timeout * 1000 >= Micros(now) + 1000
    case Rearm(_, at, timeout) => Micros(at) + timeout * 1000 >= Micros(now) + 1000
    case Cancel(_) => true
  }

  predicate AllPatient(now: Time, actions: seq<Action>) {
    forall a <- actions :: Patient(now, a)
  }

  ghost predicate PatientCallbacks(now: Time, callbacks: Callbacks) {
    forall n: nat, t: Timer :: AllPatient(now, callbacks(n, t))
  }

  /** Due within a millisecond. */
  predicate Due(now: Time, t: Timer) {
    Micros(t.expires) < Micros(now) + 1000
  }

  function CountDue(now: Time, ts: seq<Timer>): nat {
    if ts == [] then 0 else (if Due(now, ts[0]) then 1 else 0) + CountDue(now, ts[1..])
  }

  lemma {:induction false} CountDueAppend(now: Time, a: seq<Timer>, b: seq<Timer>)
    ensures CountDue(now, a + b) == CountDue(now, a) + CountDue(now, b)
  {
    if a == [] {
      assert a + b == b;
    } else {
      assert (a + b)[1..] == a[1..] + b;
      CountDueAppend(now, a[1..], b);
    }
  }

  /** The same timers in the same order, and one more. */
  predicate Inserted(ts: seq<Timer>, t: Timer, us: seq<Timer>) {
    exists k: nat {:trigger ts[..k]} :: k <= |ts| && us == ts[..k] + [t] + ts[k..]
  }

  /** The same timers in the same order, but for one. */
  predicate Removed(ts: seq<Timer>, ident: nat, us: seq<Timer>) {
    exists k: nat {:trigger ts[..k]} :: k < |ts| && ts[k].ident == ident && us == ts[..k] + ts[k + 1..]
  }

  lemma InsertedDue(now: Time, ts: seq<Timer>, t: Timer, us: seq<Timer>)
    requires Inserted(ts, t, us)
    ensures CountDue(now, us) == CountDue(now, ts) + if Due(now, t) then 1 else 0
    ensures forall u <- us :: u in ts || u == t
    ensures forall u <- ts :: u in us
  {
    var k: nat :| k <= |ts| && us == ts[..k] + [t] + ts[k..];
    assert ts == ts[..k] + ts[k..];
    CountDueAppend(now, ts[..k], ts[k..]);
    CountDueAppend(now, ts[..k], [t] + ts[k..]);
    assert us == ts[..k] + ([t] + ts[k..]);
    CountDueAppend(now, [t], ts[k..]);
    assert [t][1..] == [];
  }

  lemma RemovedDue(now: Time, ts: seq<Timer>, ident: nat, us: seq<Timer>)
    requires Removed(ts, ident, us)
    ensures CountDue(now, us) <= CountDue(now, ts)
    ensures forall u <- us :: u in ts
    ensures forall u <- ts :: u in us || u.ident == ident
  {
    var k: nat :| k < |ts| && ts[k].ident == ident && us == ts[..k] + ts[k + 1..];
    assert ts == ts[..k] + ([ts[k]] + ts[k + 1..]);
    CountDueAppend(now, ts[..k], [ts[k]] + ts[k + 1..]);
    CountDueAppend(now, ts[..k], ts[k + 1..]);
    CountDueAppend(now, [ts[k]], ts[k + 1..]);
  }

  /** The same timers in the same order, but one has moved. */
  ghost predicate Moved(ts: seq<Timer>, t: Timer, us: seq<Timer>) {
    exists mid :: Removed(ts, t.ident, mid) && Inserted(mid, t, us)
  }

  lemma MovedDue(now: Time, ts: seq<Timer>, t: Timer, us: seq<Timer>)
    requires Moved(ts, t, us)
    ensures CountDue(now, us) <= CountDue(now, ts) + if Due(now, t) then 1 else 0
    ensures forall u <- us :: u in ts || u == t
    ensures forall u <- ts :: u in us || u.ident == t.ident
  {
    var mid :| Removed(ts, t.ident, mid) && Inserted(mid, t, us);
    RemovedDue(now, ts, t.ident, mid);
    InsertedDue(now, mid, t, us);
  }

  lemma CountFirst(now: Time, ts: seq<Timer>)
    requires ts != [] && Due(now, ts[0])
    ensures CountDue(now, ts) > 0
  {
  }

  /** What patient actions do: no more timers are due than before, and new ones
      are not due and were armed later. */
  predicate Quiet(now: Time, ts: seq<Timer>, us: seq<Timer>, order: nat) {
    && CountDue(now, us) <= CountDue(now, ts)
    && forall u <- us :: u in ts || (!Due(now, u) && u.order >= order)
  }

  /** What ran so far was due at the start and ran in order, before all that is
      left; only what was there at the start is still due. */
  predicate InOrder(now: Time, start: seq<Timer>, fired: seq<Timer>, left: seq<Timer>, order: nat) {
    && |fired| + CountDue(now, left) <= CountDue(now, start)
    && Sorted(fired)
    && (forall t <- fired :: t in start && Due(now, t) && t.order < order)
    && (forall t <- left :: t in start || !Due(now, t))
    && (forall f <- fired, t <- left :: Precedes(f, t))
  }

  /** A list of timers as a value, with the numbers to be given next. */
  datatype List = List(timers: seq<Timer>, nextIdent: nat, nextOrder: nat)

  predicate Armed(ts: seq<Timer>, ident: nat) {
    exists t <- ts :: t.ident == ident
  }

  /** What an action makes of the list. */
  ghost predicate Acts(a: Action, l: List, m: List) {
    match a
    case Register(at, timeout) =>
      && m.nextIdent == l.nextIdent + 1 && m.nextOrder == l.nextOrder + 1
      && Inserted(l.timers, Timer(l.nextIdent, Later(at, timeout), l.nextOrder), m.timers)
    case Cancel(ident) =>
      && m == l.(timers := m.timers)
      && if Armed(l.timers, ident) then Removed(l.timers, ident, m.timers) else m == l
    case Rearm(ident, at, timeout) =>
      if Armed(l.timers, ident)
      then m.nextIdent == l.nextIdent && m.nextOrder == l.nextOrder + 1
           && Moved(l.timers, Timer(ident, Later(at, timeout), l.nextOrder), m.timers)
      else m == l
  }

  function Last(actions: seq<Action>): Action
    requires actions != []
  {
    actions[|actions| - 1]
  }

  /** What a series of actions makes of the list. */
  ghost predicate Performs(actions: seq<Action>, l: List, m: List) {
    if actions == [] then m == l
    else exists k :: Performs(actions[..|actions| - 1], l, k) && Acts(Last(actions), k, m)
  }

  lemma OneMoreAction(actions: seq<Action>, i: nat, l: List, k: List, m: List)
    requires i < |actions| && Performs(actions[..i], l, k) && Acts(actions[i], k, m)
    ensures Performs(actions[..i + 1], l, m)
  {
    assert actions[..i + 1][..i] == actions[..i];
    assert Acts(Last(actions[..i + 1]), k, m);
  }

  /** What is left of the list after those timers fired: each was the first one
      and due when it was unlinked, and then its callback did what it does. */
  ghost predicate Fires(now: Time, callbacks: Callbacks, l: List, fired: seq<Timer>, m: List) {
    if fired == [] then m == l
    else
      var n := |fired| - 1;
      exists k ::
        && Fires(now, callbacks, l, fired[..n], k)
        && k.timers != [] && k.timers[0] == fired[n] && Due(now, fired[n])
        && Performs(callbacks(n, fired[n]), k.(timers := k.timers[1..]), m)
  }

  lemma OneMoreFires(now: Time, callbacks: Callbacks, l: List, fired: seq<Timer>, k: List, m: List)
    requires Fires(now, callbacks, l, fired, k) && k.timers != [] && Due(now, k.timers[0])
    requires Performs(callbacks(|fired|, k.timers[0]), k.(timers := k.timers[1..]), m)
    ensures Fires(now, callbacks, l, fired + [k.timers[0]], m)
  {
    assert (fired + [k.timers[0]])[..|fired|] == fired;
  }

  class TimerList {
    var timers: seq<Timer>
    var nextIdent: nat
    var nextOrder: nat

    ghost function View(): List
      reads this
    {
      List(timers, nextIdent, nextOrder)
    }

    ghost predicate Valid()
      reads this
    {
      && Sorted(timers)
      && (forall t <- timers :: Normal(t.expires) && t.order < nextOrder && t.ident < nextIdent)
      && (forall i, j :: 0 <= i < j < |timers| ==> timers[i].ident != timers[j].ident)
    }

    constructor ()
      ensures Valid() && timers == []
    {
      timers, nextIdent, nextOrder := [], 0, 0;
    }

    /** Put a timer where it belongs: after those that expire at the same
        time or earlier. */
    method Arm(ident: nat, at: Time, timeout: nat)
      requires Valid() && Normal(at) && ident < nextIdent && forall t <- timers :: t.ident != ident
      modifies this`timers, this`nextOrder
      ensures Valid() && nextOrder == old(nextOrder) + 1
      ensures Inserted(old(timers), Timer(ident, Later(at, timeout), old(nextOrder)), timers)
    {
      var timer := Timer(ident, Later(at, timeout), nextOrder);
      var pos := FindPlace(timer.expires);
      ArmOk(timer, pos);
      timers := timers[..pos] + [timer] + timers[pos..];
      nextOrder := nextOrder + 1;
    }

    /** The first timer that expires later, or the end of the list. */
    method FindPlace(expires: Time) returns (pos: nat)
      requires Valid() && Normal(expires)
      ensures pos <= |timers|
      ensures forall i :: 0 <= i < pos ==> Micros(timers[i].expires) <= Micros(expires)
      ensures pos < |timers| ==> Micros(expires) < Micros(timers[pos].expires)
    {
      pos := 0;
      while pos < |timers|
        invariant pos <= |timers|
        invariant forall i :: 0 <= i < pos ==> Micros(timers[i].expires) <= Micros(expires)
      {
        assert timers[pos] in timers;
        BeforeMicros(expires, timers[pos].expires);
        if Before(expires, timers[pos].expires) {
          return;
        }
        pos := pos + 1;
      }
    }

    lemma ArmOk(t: Timer, pos: nat)
      requires Valid() && Normal(t.expires) && t.order == nextOrder && t.ident < nextIdent && pos <= |timers|
      requires forall u <- timers :: u.ident != t.ident
      requires forall i :: 0 <= i < pos ==> Micros(timers[i].expires) <= Micros(t.expires)
      requires pos < |timers| ==> Micros(t.expires) < Micros(timers[pos].expires)
      ensures var us := timers[..pos] + [t] + timers[pos..];
        && Sorted(us) && Inserted(timers, t, us)
        && (forall u <- us :: Normal(u.expires) && u.order < nextOrder + 1 && u.ident < nextIdent)
        && (forall i, j :: 0 <= i < j < |us| ==> us[i].ident != us[j].ident)
    {
      InsertSorted(timers, t, pos);
      hide Sorted, Micros;
      assert forall i :: 0 <= i < |timers| ==> timers[i] in timers;
    }

    lemma InsertSorted(ts: seq<Timer>, t: Timer, pos: nat)
      requires Sorted(ts) && pos <= |ts| && forall u <- ts :: u.order < t.order
      requires forall i :: 0 <= i < pos ==> Micros(ts[i].expires) <= Micros(t.expires)
      requires pos < |ts| ==> Micros(t.expires) < Micros(ts[pos].expires)
      ensures Sorted(ts[..pos] + [t] + ts[pos..])
    {
      forall i | 0 <= i < |ts| ensures if i < pos then Precedes(ts[i], t) else Precedes(t, ts[i]) {
        assert ts[i] in ts;
        assert i > pos ==> Precedes(ts[pos], ts[i]);
      }
    }

    /** A timer gets the next number. */
    method RegisterTimer(at: Time, timeout: nat) returns (ident: nat)
      requires Valid() && Normal(at)
      modifies this
      ensures Valid() && ident == old(nextIdent) && nextIdent == ident + 1 && nextOrder == old(nextOrder) + 1
      ensures Inserted(old(timers), Timer(ident, Later(at, timeout), old(nextOrder)), timers)
    {
      ident := nextIdent;
      nextIdent := nextIdent + 1;
      Arm(ident, at, timeout);
    }

    /** Unlink a timer; the others keep their places. */
    method Disarm(ident: nat) returns (found: bool)
      requires Valid()
      modifies this`timers
      ensures Valid() && found == Armed(old(timers), ident)
      ensures forall t <- timers :: t.ident != ident
      ensures !found ==> timers == old(timers)
      ensures found ==> Removed(old(timers), ident, timers)
    {
      var pos: nat := 0;
      while pos < |timers| && timers[pos].ident != ident
        invariant pos <= |timers| && forall i :: 0 <= i < pos ==> timers[i].ident != ident
      {
        pos := pos + 1;
      }
      found := pos < |timers|;
      if found {
        assert timers[pos] in timers;
        timers := timers[..pos] + timers[pos + 1..];
      }
    }

    /** Unlink a timer and put it where it belongs now. */
    method RearmTimer(ident: nat, at: Time, timeout: nat) returns (found: bool)
      requires Valid() && Normal(at)
      modifies this`timers, this`nextOrder
      ensures Valid() && found == Armed(old(timers), ident)
      ensures !found ==> timers == old(timers) && nextOrder == old(nextOrder)
      ensures found ==> nextOrder == old(nextOrder) + 1
      ensures found ==> Moved(old(timers), Timer(ident, Later(at, timeout), old(nextOrder)), timers)
    {
      assert forall t <- timers :: t.ident < nextIdent;
      ghost var was := timers;
      found := Disarm(ident);
      if found {
        ghost var mid, t := timers, Timer(ident, Later(at, timeout), nextOrder);
        Arm(ident, at, timeout);
        assert Removed(was, ident, mid) && Inserted(mid, t, timers);
      }
    }

    // ------------------------------------------------------------ running

    /** What a callback does, one action after the other. */
    method RunActions(actions: seq<Action>, ghost now: Time)
      requires Valid()
      modifies this
      ensures Valid() && nextOrder >= old(nextOrder) && Performs(actions, old(View()), View())
      ensures AllPatient(now, actions) ==> Quiet(now, old(timers), timers, old(nextOrder))
      ensures forall t <- old(timers) :: t in timers || t.ident in Mentioned(actions)
    {
      var i: nat := 0;
      while i < |actions|
        invariant i <= |actions| && Valid() && nextOrder >= old(nextOrder) && Performs(actions[..i], old(View()), View())
        invariant AllPatient(now, actions) ==> Quiet(now, old(timers), timers, old(nextOrder))
        invariant forall t <- old(timers) :: t in timers || t.ident in Mentioned(actions[..i])
      {
        assert actions[i] in actions;
        MentionedNext(actions, i);
        ghost var was := View();
        RunAction(actions[i], now);
        OneMoreAction(actions, i, old(View()), was, View());
        i := i + 1;
      }
      assert actions[..i] == actions;
    }

    method RunAction(a: Action, ghost now: Time)
      requires Valid()
      modifies this
      ensures Valid() && nextOrder >= old(nextOrder) && Acts(a, old(View()), View())
      ensures Patient(now, a) ==> Quiet(now, old(timers), timers, old(nextOrder))
      ensures forall t <- old(timers) :: t in timers || t.ident in Mentions(a)
    {
      ghost var was := timers;
      match a {
        case Register(at, timeout) =>
          ghost var t := Timer(nextIdent, Later(at, timeout), nextOrder);
          var ident := RegisterTimer(at, timeout);
          InsertedDue(now, was, t, timers);
        case Cancel(ident) =>
          var found := Disarm(ident);
          if found {
            RemovedDue(now, was, ident, timers);
          }
        case Rearm(ident, at, timeout) =>
          ghost var t := Timer(ident, Later(at, timeout), nextOrder);
          var found := RearmTimer(ident, at, timeout);
          if found {
            MovedDue(now, was, t, timers);
          }
      }
    }

    /** Run what is due, and tell how long to wait for the rest: -1 if there
        are no timers left, or else the time until the first of them expires, in
        whole milliseconds; none of the others expires earlier. This looks at no
        more than so many callbacks; the program runs them all. If callbacks arm
        at least a millisecond ahead, that ends: timers run in the order of the
        list, each once, and every timer that was due runs unless a callback
        cancelled or re-armed it. */
    method NextTimeout(now: Time, callbacks: Callbacks, limit: nat) returns (done: bool, timeout: int, fired: seq<Timer>)
      requires Valid() && Normal(now)
      modifies this
      ensures Valid()
      ensures Fires(now, callbacks, old(View()), fired, View())
      ensures done ==> (timeout == -1 <==> timers == [])
      ensures done && timeout != -1 ==>
        && timeout > 0 && (forall t <- timers :: Micros(t.expires) >= Micros(now) + timeout * 1000)
        && Micros(timers[0].expires) < Micros(now) + (timeout + 1) * 1000
      ensures !done ==> |fired| == limit && timers != [] && Due(now, timers[0])
      ensures forall t <- old(timers) :: t in timers || t in fired || t.ident in Touched(callbacks, fired)
      ensures PatientCallbacks(now, callbacks) ==>
        && (limit >= CountDue(now, old(timers)) ==> done)
        && Sorted(fired) && (forall t <- fired :: t in old(timers) && Due(now, t))
        && (done ==> forall t <- old(timers) :: Due(now, t) ==> t in fired || t.ident in Touched(callbacks, fired))
    {
      fired := [];
      while timers != []
        invariant Valid() && |fired| <= limit && Fires(now, callbacks, old(View()), fired, View())
        invariant PatientCallbacks(now, callbacks) ==> InOrder(now, old(timers), fired, timers, nextOrder)
        invariant forall t <- old(timers) :: t in timers || t in fired || t.ident in Touched(callbacks, fired)
        decreases limit - |fired|
      {
        var timer := timers[0];
        assert timer in timers;
        BeforeMicros(timer.expires, now);
        if !Before(timer.expires, now) {
          timeout := Until(now, timer.expires);
          if timeout > 0 {
            FirstIsLeast(timer, timeout, now);
            done := true;
            return;
          }
        }
        if |fired| == limit {
          CountFirst(now, timers);
          return false, 0, fired;
        }
        ghost var was := View();
        Fire(now, timer, fired, old(timers), callbacks(|fired|, timer));
        OneMoreFires(now, callbacks, old(View()), fired, was, View());
        TouchedNext(callbacks, fired, timer);
        fired := fired + [timer];
      }
      done, timeout := true, -1;
    }

    lemma FirstIsLeast(timer: Timer, timeout: nat, now: Time)
      requires Valid() && timers != [] && timer == timers[0] && Normal(now) && !Before(timer.expires, now)
      requires timeout == Until(now, timer.expires) && timeout > 0
      ensures forall t <- timers :: Micros(t.expires) >= Micros(now) + timeout * 1000
      ensures Micros(timer.expires) < Micros(now) + (timeout + 1) * 1000
      ensures forall t <- timers :: !Due(now, t)
    {
      assert timer in timers;
      BeforeMicros(timer.expires, now);
      forall t <- timers ensures Micros(t.expires) >= Micros(timer.expires) {
        var i :| 0 <= i < |timers| && timers[i] == t;
        assert i > 0 ==> Precedes(timers[0], timers[i]);
      }
    }

    /** Unlink the first timer and run its callback. */
    method Fire(now: Time, timer: Timer, ghost fired: seq<Timer>, ghost start: seq<Timer>, actions: seq<Action>)
      requires Valid() && timers != [] && timer == timers[0] && Due(now, timer)
      modifies this
      ensures Valid() && nextOrder >= old(nextOrder)
      ensures Performs(actions, old(View()).(timers := old(timers)[1..]), View())
      ensures AllPatient(now, actions) && InOrder(now, start, fired, old(timers), old(nextOrder)) ==>
        InOrder(now, start, fired + [timer], timers, nextOrder)
      ensures forall t <- old(timers) :: t == timer || t in timers || t.ident in Mentioned(actions)
    {
      assert timer in timers;
      ghost var was, order := timers, nextOrder;
      timers := timers[1..];
      ghost var rest := timers;
      assert forall t <- was :: t == timer || t in rest;
      RunActions(actions, now);
      if AllPatient(now, actions) && InOrder(now, start, fired, was, order) {
        FiredInOrder(now, start, fired, was, rest, timers, order, nextOrder);
      }
    }

    lemma FiredInOrder(now: Time, start: seq<Timer>, fired: seq<Timer>, was: seq<Timer>, rest: seq<Timer>,
                       after: seq<Timer>, order: nat, next: nat)
      requires InOrder(now, start, fired, was, order) && was != [] && rest == was[1..] && Sorted(was) && Due(now, was[0])
      requires Quiet(now, rest, after, order) && order <= next && was[0].order < order
      ensures InOrder(now, start, fired + [was[0]], after, next)
    {
      assert was[0] in was && forall t <- rest :: t in was && Precedes(was[0], t);
    }
  }

  function Mentions(a: Action): set<nat> {
    match a
    case Register(_, _) => {}
    case Cancel(ident) => {ident}
    case Rearm(ident, _, _) => {ident}
  }

  /** The timers that actions cancel or arm anew. */
  function Mentioned(actions: seq<Action>): set<nat> {
    if actions == [] then {} else Mentioned(actions[..|actions| - 1]) + Mentions(actions[|actions| - 1])
  }

  lemma MentionedNext(actions: seq<Action>, i: nat)
    requires i < |actions|
    ensures Mentioned(actions[..i + 1]) == Mentioned(actions[..i]) + Mentions(actions[i])
  {
    assert actions[..i + 1][..i] == actions[..i];
  }

  /** The timers that the callbacks of those that fired cancelled or armed
      anew. */
  function Touched(callbacks: Callbacks, fired: seq<Timer>): set<nat> {
    if fired == [] then {}
    else Touched(callbacks, fired[..|fired| - 1]) + Mentioned(callbacks(|fired| - 1, fired[|fired| - 1]))
  }

  lemma TouchedNext(callbacks: Callbacks, fired: seq<Timer>, t: Timer)
    ensures Touched(callbacks, fired + [t]) == Touched(callbacks, fired) + Mentioned(callbacks(|fired|, t))
  {
    assert (fired + [t])[..|fired|] == fired;
  }
}
