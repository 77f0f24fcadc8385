/** Runs of the master: any calls, in any order, from the empty master on. */
module MasterRuns {
  import opened Wrappers
  import opened ContainerStore
  import opened Teardown
  import opened HostRegistry
  import opened Ownership
  import opened Containers
  import opened Handlers

  datatype Call =
    | CreateHostCall(name: string, agent: string, uuid: nat)
    | RemoveHostCall(name: string)
    | ReconnectCall(name: string, uuid: nat, agent: string, random: nat)
    | ReadySignal(sender: string)
    | NameLostSignal(name: string)
    | DisconnectCall(host: Ref)
    | AddHostCall(ctx: Ref, role: string, host: Ref)
    | CreateTestCall(ctx: Ref, name: string)
    | CreateCommandCall(ctx: Ref)
    | RunCall(host: Ref, command: Ref)
    | DeleteCall(c: Ref)

  /** The objects that a call names exist and have the interface for it;
      otherwise it is answered with an error. */
  predicate Served(s: Store, call: Call) {
    match call
    case DisconnectCall(h) => IsKind(s, h, Host)
    case AddHostCall(ctx, _, h) => Offers(s, ctx, Hosts) && IsKind(s, h, Host)
    case CreateTestCall(ctx, _) => Offers(s, ctx, Tests)
    case CreateCommandCall(ctx) => Offers(s, ctx, Commands)
    case RunCall(h, cmd) => IsKind(s, h, Host) && IsKind(s, cmd, Command)
    case DeleteCall(c) => Known(s, c)
    case _ => true
  }

  predicate IsKind(s: Store, c: Ref, kind: Kind) { Known(s, c) && s[c].kind == kind }

  predicate Offers(s: Store, c: Ref, k: Slot) { Known(s, c) && MayHold(s[c].kind, k) }

  /** The call that puts a host on the list of registered hosts although its
      name is there: a successful claim by the global context. */
  predicate ListsTwice(s: Store, call: Call)
    requires Shaped(s)
  {
    call.AddHostCall? && call.ctx == GLOBAL && Served(s, call)
    && Accepts(s, GLOBAL, call.role, call.host) && Listed(s, call.host)
  }

  /** What serving one call does. The registry of hosts stays in order exactly
      if the call does not list a host twice. */
  ghost predicate StepOk(s: Store, call: Call, t: Store)
    requires Shaped(s)
  {
    && Moves(s, t) && (Tidy(s) ==> Tidy(t)) && (DeadOwnNothing(s) ==> DeadOwnNothing(t))
    && (!Served(s, call) ==> t == s)
    && (Deletes(s, call) ==> Shaped(t) && Deleted(s, t, call.c))
    && (Registry(s) ==> (Registry(t) <==> !ListsTwice(s, call)))
  }

  /** The call that deletes a container: all have a parent but the global
      context, and hosts that were taken off the list. */
  predicate Deletes(s: Store, call: Call) {
    call.DeleteCall? && Served(s, call) && call.c != GLOBAL && s[call.c].parent.Some?
  }

  lemma KeepsStep(s: Store, call: Call, t: Store)
    requires Shaped(s) && Keeps(s, t) && (Served(s, call) || t == s) && (call.AddHostCall? ==> t == s && !Served(s, call))
    requires Deletes(s, call) ==> Shaped(t) && Deleted(s, t, call.c)
    ensures StepOk(s, call, t)
  {
  }

  method Serve(m: Master, call: Call)
    requires Idle(m)
    modifies m
    ensures Idle(m) && StepOk(old(m.cells), call, m.cells)
  {
    hide Fields, Shaped, Counted, Registry, Tidy, DeadOwnNothing, Moves, Keeps, StepOk, ListsTwice;
    ghost var s := m.cells;
    KeepsRefl(s);
    if Served(m.cells, call) {
      if call.AddHostCall? {
        ServeAddHost(m, call);
        return;
      }
      ServeOther(m, call);
    }
    assert Shaped(s);
    KeepsStep(s, call, m.cells);
  }

  method ServeOther(m: Master, call: Call)
    requires Idle(m) && Served(m.cells, call) && !call.AddHostCall?
    modifies m
    ensures Idle(m) && Keeps(old(m.cells), m.cells)
    ensures Shaped(old(m.cells)) && (Deletes(old(m.cells), call) ==> Deleted(old(m.cells), m.cells, call.c))
  {
    hide Fields, Shaped, Counted, Registry, Tidy, DeadOwnNothing, Moves, Shrinks, Keeps, Deleted;
    match call {
      case CreateHostCall(name, agent, uuid) =>
        var h := CreateHost(m, name, agent, uuid);
      case RemoveHostCall(name) =>
        var found := RemoveHost(m, name);
      case ReconnectCall(name, uuid, agent, random) =>
        var h := Reconnect(m, name, uuid, agent, random);
      case ReadySignal(sender) =>
        var h := AgentReady(m, sender);
      case NameLostSignal(name) =>
        NameLost(m, name);
      case DisconnectCall(h) =>
        AgentDisconnected(m, h);
      case CreateTestCall(ctx, name) =>
        var t := CreateTest(m, ctx, name);
      case CreateCommandCall(ctx) =>
        var c := CreateCommand(m, ctx);
      case RunCall(h, cmd) =>
        var p := Handlers.Run(m, h, cmd);
      case DeleteCall(c) =>
        var ok := Delete(m, c);
    }
  }

  method ServeAddHost(m: Master, call: Call)
    requires Idle(m) && Served(m.cells, call) && call.AddHostCall?
    modifies m
    ensures Idle(m) && StepOk(old(m.cells), call, m.cells)
  {
    hide Fields, Counted, Registry, Tidy, DeadOwnNothing, Moves;
    var ok := AddHost(m, call.ctx, call.role, call.host);
  }

  // ------------------------------------------------------------ whole runs

  /** The state between two calls: references are exact and nothing leaks, a
      host has a role exactly when it has an owner and is ready only with an
      agent, only a list of hosts holds anything twice, and nothing that can be
      reached belongs to a container that was destroyed. */
  ghost predicate Between(s: Store) {
    Inv(s, multiset{}) && Fields(s) && Tidy(s) && DeadOwnNothing(s)
  }

  /** The states that a series of calls goes through. */
  ghost predicate History(trace: seq<Store>, calls: seq<Call>) {
    && |trace| == |calls| + 1
    && (forall i :: 0 <= i < |trace| ==> Between(trace[i]))
    && (forall i :: 0 <= i < |calls| ==> StepOk(trace[i], calls[i], trace[i + 1]))
  }

  /** From any state of a run to any later one, claims last until the host or
      its owner is destroyed, generations never fall, and what was destroyed
      stays so. */
  lemma {:induction false} MovesOverRun(trace: seq<Store>, calls: seq<Call>, i: nat, j: nat)
    requires History(trace, calls) && i <= j < |trace|
    ensures Moves(trace[i], trace[j])
    decreases j - i
  {
    hide Moves, Fields, Tidy, Registry, ListsTwice;
    if i == j {
      KeepsRefl(trace[i]);
    } else {
      MovesOverRun(trace, calls, i, j - 1);
      assert StepOk(trace[j - 1], calls[j - 1], trace[j - 1 + 1]) && Between(trace[i]);
      MovesTrans(trace[i], trace[j - 1], trace[j]);
    }
  }

  /** Over a run that begins with the registry in order, it stays in order
      exactly as long as no call lists a host twice. */
  lemma {:induction false} RegistryOverRun(trace: seq<Store>, calls: seq<Call>, n: nat)
    requires History(trace, calls) && n < |trace| && Registry(trace[0])
    ensures (forall i :: 0 <= i <= n ==> Registry(trace[i])) <==> (forall i :: 0 <= i < n ==> !ListsTwice(trace[i], calls[i]))
  {
    hide Moves, Fields, Tidy, Registry, ListsTwice;
    if n > 0 {
      RegistryOverRun(trace, calls, n - 1);
      assert StepOk(trace[n - 1], calls[n - 1], trace[n - 1 + 1]);
    }
  }

  /** In every state of a run, a container other than the global context exists
      just as long as something refers to it, and its count is exact. */
  lemma NothingLeaksOverRun(trace: seq<Store>, calls: seq<Call>, i: nat, c: Ref)
    requires History(trace, calls) && i < |trace| && c < |trace[i]| && c != GLOBAL
    ensures var s := trace[i];
      && (s[c].phase.Live? <==> RefsTo(s, c) > 0) && (s[c].phase.Live? ==> s[c].refcount == RefsTo(s, c))
      && !s[c].phase.Dying?
  {
    assert Between(trace[i]);
    NothingLeaks(trace[i], c);
  }

  /** Over a run, a host passes from one owner to another only if the first was
      destroyed, and then nothing that can be reached belongs to it. */
  lemma ClaimsOverRun(trace: seq<Store>, calls: seq<Call>, i: nat, j: nat, h: Ref, o: Ref, p: Ref)
    requires History(trace, calls) && i <= j < |trace|
    requires h < |trace[i]| && trace[i][h].kind.Host? && trace[i][h].owner == Some(o)
    ensures h < |trace[j]|
    ensures trace[j][h].owner == Some(p) && !trace[j][h].down && p != o ==>
      o < |trace[j]| && trace[j][o].down && Shaped(trace[j]) && Clean(trace[j], GLOBAL, o)
  {
    hide Clean, Fields, Tidy, StepOk;
    MovesOverRun(trace, calls, i, j);
    assert Between(trace[j]);
    if trace[j][h].owner == Some(p) && !trace[j][h].down && p != o {
      ClaimIsExclusive(trace[i], trace[j], h, o, p);
    }
  }

  /** Every run of the master, from the empty one on. */
  method Run(calls: seq<Call>) returns (m: Master, ghost trace: seq<Store>)
    ensures fresh(m) && Idle(m) && Tidy(m.cells) && DeadOwnNothing(m.cells)
    ensures History(trace, calls) && m.cells == trace[|calls|] && |trace[0]| == 1
    ensures forall i, j :: 0 <= i <= j < |trace| ==> Moves(trace[i], trace[j])
    ensures (forall i :: 0 <= i < |calls| ==> !ListsTwice(trace[i], calls[i])) ==> Registry(m.cells)
  {
    hide Moves, ListsTwice;
    m := new Master();
    StartsOrderly(m);
    trace := ServeAll(m, calls);
    forall i, j | 0 <= i <= j < |trace| ensures Moves(trace[i], trace[j]) {
      MovesOverRun(trace, calls, i, j);
    }
    RegistryOverRun(trace, calls, |calls|);
  }

  method ServeAll(m: Master, calls: seq<Call>) returns (ghost trace: seq<Store>)
    requires Idle(m) && Tidy(m.cells) && DeadOwnNothing(m.cells)
    modifies m
    ensures Idle(m) && History(trace, calls)
    ensures trace[0] == old(m.cells) && trace[|calls|] == m.cells
  {
    hide Moves, Registry, Tidy, Fields, Inv, ListsTwice, StepOk, DeadOwnNothing;
    trace := [m.cells];
    var i: nat := 0;
    while i < |calls|
      invariant i <= |calls| && Idle(m) && |trace| == i + 1 && trace[0] == old(m.cells) && trace[i] == m.cells
      invariant History(trace, calls[..i])
    {
      ghost var s := m.cells;
      Serve(m, calls[i]);
      StepBetween(s, calls[i], m.cells);
      HistoryStep(trace, calls, i, m.cells);
      trace := trace + [m.cells];
      i := i + 1;
    }
    assert calls[..i] == calls;
  }

  lemma StepBetween(s: Store, call: Call, t: Store)
    requires Between(s) && StepOk(s, call, t) && Inv(t, multiset{}) && Fields(t)
    ensures Between(t)
  {
  }

  lemma HistoryStep(trace: seq<Store>, calls: seq<Call>, i: nat, t: Store)
    requires i < |calls| && History(trace, calls[..i]) && StepOk(trace[i], calls[i], t) && Between(t)
    ensures History(trace + [t], calls[..i + 1])
  {
    hide StepOk, CellOk, Counted, Fields, Tidy, DeadOwnNothing;
    var after, served := trace + [t], calls[..i + 1];
    forall j | 0 <= j < |served| ensures StepOk(after[j], served[j], after[j + 1]) {
      if j < i {
        assert StepOk(trace[j], calls[..i][j], trace[j + 1]);
      }
    }
  }

  lemma StartsOrderly(m: Master)
    requires m.Valid() && m.held == multiset{} && |m.cells| == 1 && NoRefs(m.cells[GLOBAL])
    ensures Idle(m) && Registry(m.cells) && Tidy(m.cells) && DeadOwnNothing(m.cells)
  {
    assert CellOk(m.cells, GLOBAL);
    forall p, k: Slot | 0 <= p < |m.cells| && !k.Hosts? ensures NoDup(Arr(m.cells[p], k)) {
      assert Arr(m.cells[p], k) == [];
    }
  }

  /** The registry does get out of order: an agent registers a host, and a
      client claims it on behalf of the global context. */
  method ListedTwice() returns (m: Master)
    ensures fresh(m) && Idle(m) && m.cells[GLOBAL].hosts == [1, 1] && !Registry(m.cells)
  {
    hide Registry, Tidy, DeadOwnNothing, Moves, Keeps, Accepts, Listed;
    m := OneHost();
    OneHostFree(m.cells);
    var ok := AddHost(m, GLOBAL, "s", 1);
    DoubleEntry(m.cells);
  }

  method OneHost() returns (m: Master)
    ensures fresh(m) && Idle(m) && |m.cells| == 2
    ensures m.cells[GLOBAL].hosts == [1] && m.cells[1] == AgentCell("node", ":1.7", 1)
  {
    hide Registry, Tidy, DeadOwnNothing, Moves, Keeps;
    m := new Master();
    StartsOrderly(m);
    FirstNamedIff(m.cells, [], "node");
    var h := CreateHost(m, "node", ":1.7", 1);
  }

  lemma OneHostFree(s: Store)
    requires Shaped(s) && |s| == 2 && s[GLOBAL].hosts == [1] && s[1] == AgentCell("node", ":1.7", 1)
    ensures Known(s, GLOBAL) && s[GLOBAL].kind.Global? && Accepts(s, GLOBAL, "s", 1)
  {
    assert CellOk(s, GLOBAL);
    assert !HasRole(s, s[GLOBAL].hosts, "s");
    assert "s"[1..] == [];
  }

  lemma DoubleEntry(s: Store)
    requires |s| > 0 && s[GLOBAL].hosts == [1, 1]
    ensures !Registry(s)
  {
    assert 1 in s[GLOBAL].hosts && multiset([1, 1])[1] == 2;
  }
}
