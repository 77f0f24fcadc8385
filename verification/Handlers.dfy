/** The calls that agents and clients make on the master. Whatever object a
    call names has not been destroyed, or it would have no object path. */
module Handlers {
  import opened Wrappers
  import opened ContainerStore
  import opened Teardown
  import opened HostRegistry
  import opened Ownership
  import opened Containers

  /** Between calls no code holds a reference. */
  ghost predicate Idle(m: Master)
    reads m
  {
    m.Valid() && m.held == multiset{} && Fields(m.cells)
  }

  predicate Known(s: Store, c: Ref) {
    c < |s| && s[c].phase.Live? && !s[c].down
  }

  /** What every call keeps. */
  ghost predicate Keeps(s: Store, t: Store) {
    Moves(s, t) && (Registry(s) ==> Registry(t)) && (Tidy(s) ==> Tidy(t)) && (DeadOwnNothing(s) ==> DeadOwnNothing(t))
  }

  function NewCell(kind: Kind, name: Option<string>): Cell {
    Cell(kind, Live, 1, None, None, [], [], [], [], None, false, name, None, None, false, 0, 0)
  }

  predicate IsAlpha(c: char) { 'a' <= c <= 'z' || 'A' <= c <= 'Z' }

  predicate IsAlnum(c: char) { IsAlpha(c) || '0' <= c <= '9' }

  /** Letters, digits and underscores, and no digit first. */
  predicate Identifier(name: string) {
    name != "" && !('0' <= name[0] <= '9') && forall c <- name :: IsAlnum(c) || c == '_'
  }

  method IdentifierValid(name: string) returns (ok: bool)
    ensures ok == Identifier(name)
  {
    if name == "" {
      return false;
    }
    assert name[0] in name;
    if !(IsAlpha(name[0]) || name[0] == '_') {
      return false;
    }
    var i := 1;
    while i < |name|
      invariant 1 <= i <= |name| && forall j :: 0 <= j < i ==> IsAlnum(name[j]) || name[j] == '_'
    {
      if !(IsAlnum(name[i]) || name[i] == '_') {
        return false;
      }
      i := i + 1;
    }
    ok := true;
  }

  // -------------------------------------------------------------- look-ups

  /** The first host of a list with this name. */
  function FirstNamed(s: Store, a: seq<Ref>, name: string): Option<Ref> {
    if a == [] then None else if Named(s, a[0], name) then Some(a[0]) else FirstNamed(s, a[1..], name)
  }

  /** The host that a name stands for. */
  function HostNamed(s: Store, name: string): Option<Ref>
    requires |s| > 0
  {
    FirstNamed(s, s[GLOBAL].hosts, name)
  }

  lemma {:induction false} FirstNamedIff(s: Store, a: seq<Ref>, name: string)
    ensures FirstNamed(s, a, name).Some? <==> exists h <- a :: Named(s, h, name)
    ensures var h := FirstNamed(s, a, name); h.Some? ==> h.value in a && Named(s, h.value, name)
  {
    if a != [] {
      FirstNamedIff(s, a[1..], name);
      assert a == [a[0]] + a[1..];
    }
  }

  /** As long as the registry is in order, a name stands for the only
      registered host that has it. */
  lemma NamesAreExact(s: Store, name: string, h: Ref)
    requires Registry(s)
    ensures HostNamed(s, name) == Some(h) <==> h in s[GLOBAL].hosts && Named(s, h, name)
    ensures HostNamed(s, name).Some? <==> NameTaken(s, name)
  {
    FirstNamedIff(s, s[GLOBAL].hosts, name);
  }

  method FindHost(m: Master, name: string) returns (h: Option<Ref>)
    requires m.Valid()
    ensures h == HostNamed(m.cells, name)
    ensures h.Some? <==> NameTaken(m.cells, name)
    ensures h.Some? ==> h.value in m.cells[GLOBAL].hosts && Named(m.cells, h.value, name)
  {
    RegisteredLive(m);
    var a := m.cells[GLOBAL].hosts;
    FirstNamedIff(m.cells, a, name);
    var i := 0;
    assert a[0..] == a;
    while i < |a|
      invariant i <= |a| && FirstNamed(m.cells, a, name) == FirstNamed(m.cells, a[i..], name)
    {
      assert a[i] in a && a[i..][0] == a[i] && a[i..][1..] == a[i + 1..];
      if m.cells[a[i]].name == Some(name) {
        return Some(a[i]);
      }
      i := i + 1;
    }
    h := None;
  }

  predicate HasAgent(s: Store, h: Ref, agent: string) {
    h < |s| && s[h].agent == Some(agent)
  }

  function FirstWithAgent(s: Store, a: seq<Ref>, agent: string): Option<Ref> {
    if a == [] then None else if HasAgent(s, a[0], agent) then Some(a[0]) else FirstWithAgent(s, a[1..], agent)
  }

  /** The host that a message from an agent is about. */
  function HostOfAgent(s: Store, agent: string): Option<Ref>
    requires |s| > 0
  {
    FirstWithAgent(s, s[GLOBAL].hosts, agent)
  }

  lemma {:induction false} FirstWithAgentIff(s: Store, a: seq<Ref>, agent: string)
    ensures FirstWithAgent(s, a, agent).Some? <==> exists h <- a :: HasAgent(s, h, agent)
    ensures var h := FirstWithAgent(s, a, agent); h.Some? ==> h.value in a && HasAgent(s, h.value, agent)
  {
    if a != [] {
      FirstWithAgentIff(s, a[1..], agent);
      assert a == [a[0]] + a[1..];
    }
  }

  method FindAgentHost(m: Master, sender: string) returns (h: Option<Ref>)
    requires m.Valid()
    ensures h == HostOfAgent(m.cells, sender)
    ensures h.Some? <==> AgentListed(m.cells, sender)
    ensures h.Some? ==> h.value in m.cells[GLOBAL].hosts && HasAgent(m.cells, h.value, sender)
  {
    RegisteredLive(m);
    var a := m.cells[GLOBAL].hosts;
    FirstWithAgentIff(m.cells, a, sender);
    var i := 0;
    assert a[0..] == a;
    while i < |a|
      invariant i <= |a| && FirstWithAgent(m.cells, a, sender) == FirstWithAgent(m.cells, a[i..], sender)
    {
      assert a[i] in a && a[i..][0] == a[i] && a[i..][1..] == a[i + 1..];
      if m.cells[a[i]].agent == Some(sender) {
        return Some(a[i]);
      }
      i := i + 1;
    }
    h := None;
  }

  predicate AgentListed(s: Store, agent: string)
    requires |s| > 0
  {
    exists h <- s[GLOBAL].hosts :: HasAgent(s, h, agent)
  }

  /** One agent serves two registered hosts. */
  predicate AgentShared(s: Store, agent: string)
    requires |s| > 0
  {
    exists h <- s[GLOBAL].hosts, g <- s[GLOBAL].hosts :: h != g && HasAgent(s, h, agent) && HasAgent(s, g, agent)
  }

  lemma RegisteredLive(m: Master)
    requires m.Valid()
    ensures |m.cells| > 0
    ensures forall h <- m.cells[GLOBAL].hosts ::
      0 != h < |m.cells| && m.cells[h].phase.Live? && m.cells[h].refcount > 0 && m.cells[h].kind.Host?
  {
    m.EntriesLive(GLOBAL, Hosts);
    forall h <- m.cells[GLOBAL].hosts ensures m.cells[h].kind.Host? {
      assert CellOk(m.cells, GLOBAL) && h in Arr(m.cells[GLOBAL], Hosts) && ChildOk(m.cells, GLOBAL, Hosts, h);
    }
  }

  /** Some host of c, or of a container above it, has this role. */
  predicate RoleTaken(s: Store, c: Ref, role: string)
    requires Shaped(s) && c < |s|
    decreases 3 + |s| - Level(s, c)
  {
    || HasRole(s, s[c].hosts, role)
    || (s[c].parent.Some? && (ParentLevel(s, c); RoleTaken(s, s[c].parent.value, role)))
  }

  predicate HasRole(s: Store, a: seq<Ref>, role: string) {
    exists h <- a :: h < |s| && s[h].role == Some(role)
  }

  lemma ParentLevel(s: Store, c: Ref)
    requires Shaped(s) && c < |s| && s[c].parent.Some?
    ensures s[c].parent.value < |s| && Level(s, c) < Level(s, s[c].parent.value) <= 3 + |s|
  {
    assert CellOk(s, c);
    var p := s[c].parent.value;
    assert c in Arr(s[p], SlotOf(s[c].kind)) && IsChild(s[p], c);
    ChildLevel(s, p, c);
  }

  /** A container, and the containers above it. */
  predicate Upwards(s: Store, path: seq<Ref>) {
    path != [] && (forall i :: 0 <= i < |path| ==> path[i] < |s|)
    && forall i :: 0 <= i < |path| - 1 ==> s[path[i]].parent == Some(path[i + 1])
  }

  /** A role is taken exactly if the container or one above it has a host of that
      role. */
  lemma {:induction false} RoleIsAbove(s: Store, c: Ref, role: string) returns (path: seq<Ref>)
    requires Shaped(s) && c < |s| && RoleTaken(s, c, role)
    ensures Upwards(s, path) && path[0] == c && HasRole(s, s[path[|path| - 1]].hosts, role)
    decreases 3 + |s| - Level(s, c)
  {
    if HasRole(s, s[c].hosts, role) {
      path := [c];
    } else {
      ParentLevel(s, c);
      var p := RoleIsAbove(s, s[c].parent.value, role);
      path := [c] + p;
    }
  }

  lemma {:induction false} RoleAboveIsTaken(s: Store, path: seq<Ref>, role: string)
    requires Shaped(s) && Upwards(s, path) && HasRole(s, s[path[|path| - 1]].hosts, role)
    ensures RoleTaken(s, path[0], role)
    decreases |path|
  {
    if |path| > 1 {
      assert s[path[0]].parent == Some(path[0 + 1]);
      ParentLevel(s, path[0]);
      assert Upwards(s, path[1..]) by {
        assert forall i :: 0 <= i < |path| - 1 ==> path[1..][i] == path[i + 1];
      }
      RoleAboveIsTaken(s, path[1..], role);
    }
  }

  method FindRole(m: Master, ctx: Ref, role: string) returns (taken: bool)
    requires m.Valid() && ctx < |m.cells|
    ensures taken == RoleTaken(m.cells, ctx, role)
  {
    var c: Ref := ctx;
    while true
      invariant c < |m.cells| && RoleTaken(m.cells, ctx, role) == RoleTaken(m.cells, c, role)
      decreases 3 + |m.cells| - Level(m.cells, c)
    {
      var here := SearchRole(m, m.cells[c].hosts, role);
      if here || m.cells[c].parent.None? {
        return here;
      }
      ParentLevel(m.cells, c);
      c := m.cells[c].parent.value;
    }
  }

  method SearchRole(m: Master, a: seq<Ref>, role: string) returns (found: bool)
    ensures found == HasRole(m.cells, a, role)
  {
    var i := 0;
    while i < |a|
      invariant i <= |a| && !HasRole(m.cells, a[..i], role)
    {
      assert a[..i + 1] == a[..i] + [a[i]];
      if a[i] < |m.cells| && m.cells[a[i]].role == Some(role) {
        assert a[i] in a;
        return true;
      }
      i := i + 1;
    }
    assert a[..i] == a;
    return false;
  }

  // ------------------------------------------------------------- creation

  method Create(m: Master, x: Cell, p: Ref) returns (n: Ref)
    requires Idle(m) && Newborn(x) && Known(m.cells, p) && MayHold(m.cells[p].kind, SlotOf(x.kind))
    requires HostFields(x) && (x.kind.Host? ==> p == GLOBAL && x.name.Some? && !NameTaken(m.cells, x.name.value))
    modifies m
    ensures Idle(m) && Keeps(old(m.cells), m.cells) && n == |old(m.cells)|
    ensures m.cells == Created(old(m.cells), x.(parent := Some(p)), p)
  {
    ghost var s := m.cells;
    n := m.Init(x, p);
    CreatedKeeps(s, x.(parent := Some(p)), p);
  }

  lemma CreatedKeeps(s: Store, x: Cell, p: Ref)
    requires Shaped(s) && Fields(s) && Known(s, p) && HostFields(x) && NoChildren(x) && !x.down && !x.kind.Global?
    requires x.parent == Some(p) && Linked(x)
    requires Shaped(Created(s, x, p)) && (x.owner.Some? ==> x.owner.value < |s| && !s[x.owner.value].down)
    requires x.kind.Host? ==> p == GLOBAL && x.name.Some? && !NameTaken(s, x.name.value)
    ensures Keeps(s, Created(s, x, p)) && Fields(Created(s, x, p))
  {
    if Registry(s) {
      CreatedRegistry(s, x, p);
    }
    if Tidy(s) {
      CreatedTidy(s, x, p);
    }
    if DeadOwnNothing(s) {
      CreatedOwners(s, x, p);
    }
    var t := Created(s, x, p);
    forall q | 0 <= q < |t| ensures HostFields(t[q]) {
      assert q < |s| ==> HostFields(s[q]);
    }
  }

  /** The properties of a host, or the owner of a new container, are set. */
  method Assign(m: Master, c: Ref, x: Cell)
    requires Idle(m) && c < |m.cells| && m.cells[c].phase.Live?
    requires SameRefs(m.cells[c], x) && x.refcount == m.cells[c].refcount && x.kind == m.cells[c].kind
    requires x.phase.Live? && x.down == m.cells[c].down
    requires x.parent == m.cells[c].parent && x.name == m.cells[c].name && x.generation >= m.cells[c].generation
    requires m.cells[c].owner.Some? ==> x.owner == m.cells[c].owner && x.role == m.cells[c].role
    requires x.owner.Some? && x.owner != m.cells[c].owner ==> x.owner.value < |m.cells| && !m.cells[x.owner.value].down
    requires HostFields(x) && Linked(x)
    modifies m`cells
    ensures Idle(m) && Keeps(old(m.cells), m.cells) && m.cells == old(m.cells)[c := x]
  {
    ghost var s := m.cells;
    assert CellOk(s, c);
    m.Set(c, x);
    if DeadOwnNothing(s) {
      AssignedOwners(s, c, x);
    }
    if Tidy(s) {
      AssignedTidy(s, c, x);
    }
    hide DeadOwnNothing, Tidy;
  }

  lemma AssignedTidy(s: Store, c: Ref, x: Cell)
    requires Tidy(s) && c < |s| && SameRefs(s[c], x) && x.parent == s[c].parent && Linked(x)
    ensures Tidy(s[c := x])
  {
    var t := s[c := x];
    forall p, k: Slot | 0 <= p < |t| && !k.Hosts? ensures NoDup(Arr(t[p], k)) && Home(t, p, k) {
      assert Arr(t[p], k) == Arr(s[p], k) && NoDup(Arr(s[p], k)) && Home(s, p, k);
    }
    forall q | 0 <= q < |t| ensures Linked(t[q]) {
      assert q != c ==> Linked(s[q]);
    }
  }

  lemma KeepsTrans(s: Store, t: Store, u: Store)
    requires Shaped(s) && Keeps(s, t) && Keeps(t, u)
    ensures Keeps(s, u)
  {
    MovesTrans(s, t, u);
  }

  lemma KeepsRefl(s: Store)
    ensures Keeps(s, s)
  {
    forall c | 0 <= c < |s| ensures CellMoves(s, s, c) {
    }
  }

  /** A host that an agent registers. */
  function AgentCell(name: string, agent: string, uuid: nat): Cell {
    NewCell(Host, Some(name)).(parent := Some(GLOBAL), agent := Some(agent), uuid := uuid)
  }

  /** A host that has just been registered: it has an agent, is free, and not
      ready. */
  predicate NewHost(s: Store, h: Ref, name: string, agent: string, uuid: nat) {
    && h < |s| && h in s[GLOBAL].hosts && s[h].kind.Host? && s[h].parent == Some(GLOBAL) && !s[h].down
    && s[h].name == Some(name) && s[h].agent == Some(agent) && s[h].uuid == uuid
    && s[h].owner.None? && s[h].role.None? && !s[h].ready && s[h].generation == 0 && NoRefs(s[h])
  }

  method CreateHost(m: Master, name: string, agent: string, uuid: nat) returns (h: Option<Ref>)
    requires Idle(m)
    modifies m
    ensures Idle(m) && Keeps(old(m.cells), m.cells)
    ensures h.None? <==> NameTaken(old(m.cells), name)
    ensures h.None? ==> m.cells == old(m.cells)
    ensures h.Some? ==> m.cells == Created(old(m.cells), AgentCell(name, agent, uuid), GLOBAL)
    ensures h.Some? ==> h.value == |old(m.cells)| && NewHost(m.cells, h.value, name, agent, uuid)
  {
    h := HostNew(m, name);
    if h.Some? {
      SetAgent(m, h.value, agent, uuid);
    }
  }

  method HostNew(m: Master, name: string) returns (h: Option<Ref>)
    requires Idle(m)
    modifies m
    ensures Idle(m) && Keeps(old(m.cells), m.cells)
    ensures h.None? <==> NameTaken(old(m.cells), name)
    ensures h.None? ==> m.cells == old(m.cells)
    ensures h.Some? ==> h.value == |old(m.cells)|
    ensures h.Some? ==> m.cells == Created(old(m.cells), NewCell(Host, Some(name)).(parent := Some(GLOBAL)), GLOBAL)
  {
    KeepsRefl(m.cells);
    var found := FindHost(m, name);
    if found.Some? {
      return None;
    }
    assert CellOk(m.cells, GLOBAL);
    var n := Create(m, NewCell(Host, Some(name)), GLOBAL);
    h := Some(n);
  }

  method SetAgent(m: Master, h: Ref, agent: string, uuid: nat)
    requires Idle(m) && h < |m.cells| && m.cells[h].phase.Live? && m.cells[h].kind.Host?
    modifies m`cells
    ensures Idle(m) && Keeps(old(m.cells), m.cells)
    ensures m.cells == old(m.cells)[h := old(m.cells[h]).(agent := Some(agent), uuid := uuid)]
  {
    assert HostFields(m.cells[h]) && CellOk(m.cells, h);
    Assign(m, h, m.cells[h].(agent := Some(agent), uuid := uuid));
  }

  method CreateTest(m: Master, ctx: Ref, name: string) returns (t: Option<Ref>)
    requires Idle(m) && Known(m.cells, ctx) && MayHold(m.cells[ctx].kind, Tests)
    modifies m
    ensures Idle(m) && Keeps(old(m.cells), m.cells)
    ensures t.Some? <==> Identifier(name) && forall y <- old(m.cells)[ctx].tests :: !Named(old(m.cells), y, name)
    ensures t.None? ==> m.cells == old(m.cells)
    ensures t.Some? ==> m.cells == Created(old(m.cells), NewCell(Test, Some(name)).(parent := Some(ctx)), ctx)
    ensures t.Some? ==> t.value == |old(m.cells)| && t.value in m.cells[ctx].tests && m.cells[t.value].name == Some(name)
  {
    KeepsRefl(m.cells);
    var wellFormed := IdentifierValid(name);
    if !wellFormed {
      return None;
    }
    m.EntriesLive(ctx, Tests);
    var a := m.cells[ctx].tests;
    var i := 0;
    while i < |a|
      invariant i <= |a| && forall j :: 0 <= j < i ==> !Named(m.cells, a[j], name)
    {
      assert a[i] in a;
      if m.cells[a[i]].name == Some(name) {
        assert Named(m.cells, a[i], name);
        return None;
      }
      i := i + 1;
    }
    var n := Create(m, NewCell(Test, Some(name)), ctx);
    t := Some(n);
  }

  /** A command is owned by the container that it is created in. */
  method CreateCommand(m: Master, ctx: Ref) returns (n: Ref)
    requires Idle(m) && Known(m.cells, ctx) && MayHold(m.cells[ctx].kind, Commands)
    modifies m
    ensures Idle(m) && Keeps(old(m.cells), m.cells)
    ensures m.cells == Created(old(m.cells), NewCell(Command, None).(parent := Some(ctx), owner := Some(ctx)), ctx)
    ensures n == |old(m.cells)| && n in m.cells[ctx].commands && m.cells[n].owner == m.cells[n].parent == Some(ctx)
  {
    ghost var s := m.cells;
    n := Create(m, NewCell(Command, None), ctx);
    ghost var s1 := m.cells;
    Assign(m, n, m.cells[n].(owner := Some(ctx)));
    KeepsTrans(s, s1, m.cells);
  }

  /** A process on a host, of a command, which cannot go as long as the process
      holds it. */
  predicate Running(s: Store, p: Ref, h: Ref, cmd: Ref) {
    && p < |s| && h < |s| && p in s[h].processes && s[p].kind.Process? && s[p].phase.Live? && !s[p].down
    && s[p].parent == Some(h) && s[p].owner == Some(cmd) && s[p].command == Some(cmd)
  }

  /** Run a command on a host. The process belongs to the command, and keeps
      it alive. */
  method Run(m: Master, h: Ref, cmd: Ref) returns (p: Option<Ref>)
    requires Idle(m) && Known(m.cells, h) && m.cells[h].kind.Host? && Known(m.cells, cmd) && m.cells[cmd].kind.Command?
    modifies m
    ensures Idle(m) && Keeps(old(m.cells), m.cells)
    ensures p.Some? <==> old(m.cells[h].ready)
    ensures p.None? ==> m.cells == old(m.cells)
    ensures p.Some? ==> m.cells == Started(old(m.cells), h, cmd)
    ensures p.Some? ==> Running(m.cells, p.value, h, cmd)
  {
    KeepsRefl(m.cells);
    if !m.cells[h].ready {
      return None;
    }
    ghost var s := m.cells;
    var n := StartProcess(m, h, cmd);
    StartedKeeps(s, h, cmd, m.cells);
    p := Some(n);
  }

  function Started(s: Store, h: Ref, cmd: Ref): Store
    requires h < |s| && cmd < |s|
  {
    var x := NewCell(Process, None).(parent := Some(h), owner := Some(cmd), command := Some(cmd));
    Created(s[cmd := s[cmd].(refcount := s[cmd].refcount + 1)], x, h)
  }

  method StartProcess(m: Master, h: Ref, cmd: Ref) returns (n: Ref)
    requires Idle(m) && Known(m.cells, h) && m.cells[h].kind.Host? && Known(m.cells, cmd) && m.cells[cmd].kind.Command?
    modifies m
    ensures m.Valid() && m.held == old(m.held) && n == |old(m.cells)|
    ensures m.cells == Started(old(m.cells), h, cmd)
  {
    assert CountOk(m.cells, m.held, cmd);
    m.Get(cmd);
    n := m.Init(NewCell(Process, None), h);
    m.SetCommand(n, cmd);
    m.Set(n, m.cells[n].(owner := Some(cmd)));
  }

  lemma StartedKeeps(s: Store, h: Ref, cmd: Ref, t: Store)
    requires Shaped(s) && Fields(s) && Known(s, h) && s[h].kind.Host? && Known(s, cmd) && s[cmd].kind.Command?
    requires t == Started(s, h, cmd) && Shaped(t)
    ensures Keeps(s, t) && Fields(t)
  {
    var s1 := s[cmd := s[cmd].(refcount := s[cmd].refcount + 1)];
    assert CellOk(s, cmd);
    ShapedKeep(s, cmd, s1[cmd]);
    ReferenceKeeps(s, cmd, s1);
    hide DeadOwnNothing, Keeps, Fields, Shaped;
    CreatedKeeps(s1, NewCell(Process, None).(parent := Some(h), owner := Some(cmd), command := Some(cmd)), h);
    KeepsTrans(s, s1, t);
  }

  /** Another reference changes nothing else. */
  lemma ReferenceKeeps(s: Store, c: Ref, t: Store)
    requires Shaped(s) && Fields(s) && Known(s, c) && Shaped(t) && t == s[c := s[c].(refcount := s[c].refcount + 1)]
    ensures Keeps(s, t) && Fields(t)
  {
    if DeadOwnNothing(s) {
      AssignedOwners(s, c, t[c]);
    }
    if Tidy(s) {
      assert Linked(s[c]);
      AssignedTidy(s, c, t[c]);
    }
    hide DeadOwnNothing, Tidy;
  }

  // ------------------------------------------------- the agent of a host

  /** An agent comes back under its host's name. It gets the host if no other
      agent has it; its uuid proves that it is the one that had it. */
  method Reconnect(m: Master, name: string, uuid: nat, agent: string, random: nat) returns (h: Option<Ref>)
    requires Idle(m)
    modifies m
    ensures Idle(m) && Keeps(old(m.cells), m.cells)
    ensures HostNamed(old(m.cells), name).None? ==>
      (h.Some? && m.cells == Created(old(m.cells), AgentCell(name, agent, if uuid == 0 then random else uuid), GLOBAL))
    ensures HostNamed(old(m.cells), name).Some? ==>
      (var g := HostNamed(old(m.cells), name).value;
       g < |old(m.cells)| && g < |m.cells| &&
       var x := old(m.cells)[g];
       (if x.agent.Some? && (uuid == 0 || x.uuid != uuid)
        then h.None? && m.cells == old(m.cells)
        else h == Some(g) && m.cells == old(m.cells)[g := Reconnected(x, agent, if uuid == 0 then random else uuid)]
             && m.cells[g].agent == Some(agent) && m.cells[g].uuid == (if uuid == 0 then random else uuid)
             && (!x.down ==> !m.cells[g].ready)))
  {
    KeepsRefl(m.cells);
    ghost var s := m.cells;
    var newUuid := if uuid == 0 then random else uuid;
    var found := FindHost(m, name);
    if found.None? {
      h := CreateHost(m, name, agent, newUuid);
      return;
    }
    RegisteredLive(m);
    var g := found.value;
    assert HostFields(s[g]);
    if uuid != 0 && m.cells[g].uuid == uuid && m.cells[g].agent.Some? {
      AgentDisconnected(m, g);
    }
    if m.cells[g].agent.Some? {
      return None;
    }
    ghost var s1 := m.cells;
    SetAgent(m, g, agent, newUuid);
    KeepsTrans(s, s1, m.cells);
    h := found;
  }

  function Disconnected(x: Cell): Cell {
    x.(agent := None, ready := false)
  }

  function Reconnected(x: Cell, agent: string, uuid: nat): Cell {
    x.(agent := Some(agent), uuid := uuid, ready := x.ready && x.agent.None?)
  }

  /** The agent is gone: it disconnected, or is asked to shut down or reboot. */
  method AgentDisconnected(m: Master, h: Ref)
    requires Idle(m) && h < |m.cells| && m.cells[h].phase.Live? && m.cells[h].kind.Host?
    modifies m`cells
    ensures Idle(m) && Keeps(old(m.cells), m.cells)
    ensures m.cells == old(m.cells)[h := Disconnected(old(m.cells[h]))]
    ensures m.cells[h].agent.None? && !m.cells[h].ready
  {
    assert HostFields(m.cells[h]) && CellOk(m.cells, h);
    Assign(m, h, m.cells[h].(agent := None, ready := false));
  }

  /** A bus name lost its owner. The first host that it was the agent of is
      disconnected; a host still has that agent afterwards if it served two. */
  method NameLost(m: Master, name: string)
    requires Idle(m)
    modifies m`cells
    ensures Idle(m) && Keeps(old(m.cells), m.cells)
    ensures var h := HostOfAgent(old(m.cells), name);
      m.cells == if h.None? || h.value >= |old(m.cells)| then old(m.cells)
                 else old(m.cells)[h.value := Disconnected(old(m.cells)[h.value])]
    ensures AgentListed(m.cells, name) <==> AgentShared(old(m.cells), name)
  {
    KeepsRefl(m.cells);
    RegisteredLive(m);
    var h := FindAgentHost(m, name);
    if h.Some? {
      DisconnectedList(m.cells, h.value, name);
      AgentDisconnected(m, h.value);
    }
  }

  lemma DisconnectedList(s: Store, h: Ref, name: string)
    requires Shaped(s) && h in s[GLOBAL].hosts && HasAgent(s, h, name) && s[h].kind.Host?
    ensures AgentListed(s[h := Disconnected(s[h])], name) <==> AgentShared(s, name)
  {
    var t := s[h := Disconnected(s[h])];
    assert CellOk(s, GLOBAL) && t[GLOBAL] == s[GLOBAL];
    forall g: Ref ensures HasAgent(t, g, name) <==> g != h && HasAgent(s, g, name) {
    }
    if AgentShared(s, name) {
      var g, k :| g in s[GLOBAL].hosts && k in s[GLOBAL].hosts && g != k && HasAgent(s, g, name) && HasAgent(s, k, name);
      assert HasAgent(t, if g == h then k else g, name);
    }
  }

  /** An agent says that it is ready. Only the host that it serves hears it. */
  method AgentReady(m: Master, sender: string) returns (h: Option<Ref>)
    requires Idle(m)
    modifies m`cells
    ensures Idle(m) && Keeps(old(m.cells), m.cells)
    ensures h == HostOfAgent(old(m.cells), sender) && (h.Some? <==> AgentListed(old(m.cells), sender))
    ensures h.None? ==> m.cells == old(m.cells)
    ensures h.Some? ==> h.value in old(m.cells)[GLOBAL].hosts && HasAgent(old(m.cells), h.value, sender)
    ensures h.Some? ==> (var x := old(m.cells)[h.value];
      m.cells == old(m.cells)[h.value := x.(ready := true, generation := x.generation + 1)])
  {
    KeepsRefl(m.cells);
    RegisteredLive(m);
    h := FindAgentHost(m, sender);
    if h.Some? {
      assert HostFields(m.cells[h.value]) && CellOk(m.cells, h.value);
      Assign(m, h.value, m.cells[h.value].(ready := true, generation := m.cells[h.value].generation + 1));
    }
  }

  // -------------------------------------------------------------- claiming

  /** Claim a host for a role. The registry survives unless the claim is one
      by the global context on a host whose name is registered. */
  method AddHost(m: Master, ctx: Ref, role: string, h: Ref) returns (ok: bool)
    requires Idle(m) && Known(m.cells, ctx) && MayHold(m.cells[ctx].kind, Hosts)
    requires Known(m.cells, h) && m.cells[h].kind.Host?
    modifies m
    ensures Idle(m) && Moves(old(m.cells), m.cells) && (Tidy(old(m.cells)) ==> Tidy(m.cells))
    ensures DeadOwnNothing(old(m.cells)) ==> DeadOwnNothing(m.cells)
    ensures ok <==> Accepts(old(m.cells), ctx, role, h)
    ensures !ok ==> m.cells == old(m.cells)
    ensures ok ==> m.cells == Claimed(old(m.cells), ctx, role, h)
    ensures ok ==> h in m.cells[ctx].hosts && m.cells[h].role == Some(role) && m.cells[h].owner == Some(ctx)
    ensures Registry(old(m.cells)) ==>
      (Registry(m.cells) <==> !(ok && ctx == GLOBAL && Listed(old(m.cells), h)))
  {
    hide Registry, Counted, Shaped, Fields, Moves, Tidy, DeadOwnNothing;
    ghost var s := m.cells;
    KeepsRefl(s);
    Claimant(m, ctx, h);
    var wellFormed := IdentifierValid(role);
    if !wellFormed {
      return false;
    }
    var taken := FindRole(m, ctx, role);
    if taken {
      return false;
    }
    ok := SetRole(m, ctx, role, h);
    if ok {
      m.Append(ctx, Hosts, h);
      assert m.cells == Claimed(s, ctx, role, h);
      ClaimedKeeps(s, ctx, role, h);
      if Registry(s) {
        ClaimedRegistry(s, ctx, role, h);
      }
      if DeadOwnNothing(s) {
        ClaimedOwners(s, ctx, role, h);
      }
    }
  }

  lemma Claimant(m: Master, ctx: Ref, h: Ref)
    requires Idle(m) && Known(m.cells, ctx) && Known(m.cells, h) && m.cells[h].kind.Host? && MayHold(m.cells[ctx].kind, Hosts)
    ensures ctx != h && m.cells[h].refcount > 0 && ChildOk(m.cells, ctx, Hosts, h) && HostFields(m.cells[h])
  {
    assert CountOk(m.cells, m.held, h);
  }

  predicate Accepts(s: Store, ctx: Ref, role: string, h: Ref)
    requires Shaped(s) && ctx < |s| && h < |s|
  {
    Identifier(role) && !RoleTaken(s, ctx, role) && Claimable(s[h], ctx, role)
  }

  /** A claim is accepted exactly if the role is an identifier, no container from
      the claimant upwards has a host of it, and the host is free, or has it from
      that claimant already. */
  lemma AcceptsIff(s: Store, ctx: Ref, role: string, h: Ref)
    requires Shaped(s) && ctx < |s| && h < |s|
    ensures Accepts(s, ctx, role, h) <==>
      && Identifier(role)
      && (forall path :: Upwards(s, path) && path[0] == ctx ==> !HasRole(s, s[path[|path| - 1]].hosts, role))
      && (s[h].role.None? || (s[h].role == Some(role) && s[h].owner == Some(ctx)))
  {
    if RoleTaken(s, ctx, role) {
      var path := RoleIsAbove(s, ctx, role);
    }
    forall path | Upwards(s, path) && path[0] == ctx && HasRole(s, s[path[|path| - 1]].hosts, role) ensures RoleTaken(s, ctx, role) {
      RoleAboveIsTaken(s, path, role);
    }
    hide RoleTaken, HasRole, Shaped, Identifier;
  }

  /** A host's name is registered. */
  predicate Listed(s: Store, h: Ref)
    requires h < |s|
  {
    s[h].name.Some? && NameTaken(s, s[h].name.value)
  }

  predicate Claimable(x: Cell, ctx: Ref, role: string) {
    x.role.None? || (x.role == Some(role) && x.owner == Some(ctx))
  }

  method SetRole(m: Master, ctx: Ref, role: string, h: Ref) returns (ok: bool)
    requires Idle(m) && Known(m.cells, ctx) && Known(m.cells, h) && m.cells[h].kind.Host?
    modifies m`cells
    ensures Idle(m)
    ensures ok == Claimable(old(m.cells[h]), ctx, role)
    ensures m.cells == if ok then old(m.cells)[h := old(m.cells[h]).(role := Some(role), owner := Some(ctx))] else old(m.cells)
  {
    assert HostFields(m.cells[h]) && CellOk(m.cells, h);
    if m.cells[h].role.Some? {
      return m.cells[h].role == Some(role) && m.cells[h].owner == Some(ctx);
    }
    Assign(m, h, m.cells[h].(role := Some(role), owner := Some(ctx)));
    ok := true;
  }

  lemma ClaimedKeeps(s: Store, ctx: Ref, role: string, h: Ref)
    requires Shaped(s) && Fields(s) && Known(s, ctx) && Known(s, h) && s[h].kind.Host? && ctx != h && Claimable(s[h], ctx, role)
    ensures Moves(s, Claimed(s, ctx, role, h)) && Fields(Claimed(s, ctx, role, h))
    ensures Tidy(s) ==> Tidy(Claimed(s, ctx, role, h))
  {
    var t := Claimed(s, ctx, role, h);
    assert HostFields(s[h]);
    forall q | 0 <= q < |t| ensures HostFields(t[q]) && CellMoves(s, t, q) {
      assert HostFields(s[q]);
    }
    if Tidy(s) {
      ClaimedTidy(s, ctx, role, h);
    }
  }

  lemma ClaimedTidy(s: Store, ctx: Ref, role: string, h: Ref)
    requires Tidy(s) && ctx < |s| && h < |s| && s[h].kind.Host? && ctx != h
    ensures Tidy(Claimed(s, ctx, role, h))
  {
    var t := Claimed(s, ctx, role, h);
    forall p, k: Slot | 0 <= p < |t| && !k.Hosts? ensures NoDup(Arr(t[p], k)) && Home(t, p, k) {
      assert Arr(t[p], k) == Arr(s[p], k) && NoDup(Arr(s[p], k)) && Home(s, p, k);
    }
    forall q | 0 <= q < |t| ensures Linked(t[q]) {
      assert Linked(s[q]);
    }
  }

  // -------------------------------------------------------------- teardown

  /** Delete a container and everything that it owns. */
  method Delete(m: Master, c: Ref) returns (ok: bool)
    requires Idle(m) && Known(m.cells, c)
    modifies m
    ensures Idle(m) && Keeps(old(m.cells), m.cells)
    ensures ok <==> (c != GLOBAL && old(m.cells[c]).parent.Some?)
    ensures !ok ==> m.cells == old(m.cells)
    ensures ok ==> Deleted(old(m.cells), m.cells, c)
  {
    hide Cascades, CascadesTo, Shrinks, Counted, Clean, DeadOwnNothing;
    ghost var s := m.cells;
    KeepsRefl(s);
    Alive(m, c);
    if c == GLOBAL || m.cells[c].parent.None? {
      return false;
    }
    ok := true;
    m.Keep(s, c);
    ghost var s1 := m.cells;
    m.Destroy(c);
    ghost var s2 := m.cells;
    KeptFirst(s, s1, s2, c);
    m.Put(c);
    DeletedStill(s, s2, m.cells, c);
  }

  /** What is left after a container was deleted: it has no name, no parent and no
      children, nothing that can be reached belongs to it, and the container
      that held it has lost one entry for it. Of the registered hosts, that is
      the only one to go. */
  ghost predicate Deleted(s: Store, t: Store, c: Ref)
    requires Shaped(s) && Shaped(t) && c < |s| && s[c].parent.Some?
  {
    && CascadesTo(s, t, HostsAfter(s, c), {c}) && t[c].down && t[c].parent.None? && NoRefs(t[c])
    && Stripped(t[c])
    && Clean(t, GLOBAL, c)
    && Fewer(s, t, c)
  }

  predicate Fewer(s: Store, t: Store, c: Ref)
    requires c < |s| && s[c].parent.Some?
  {
    var p, k := s[c].parent.value, SlotOf(s[c].kind);
    p < |s| && p < |t| && Count(Arr(t[p], k), c) < Count(Arr(s[p], k), c)
  }

  /** A container that its parent lists once is gone from there. */
  lemma DeletedGone(s: Store, t: Store, c: Ref)
    requires Shaped(s) && Shaped(t) && c < |s| && s[c].parent.Some? && Deleted(s, t, c)
    ensures var p, k := s[c].parent.value, SlotOf(s[c].kind);
      p < |s| && p < |t| && (Count(Arr(s[p], k), c) == 1 ==> c !in Arr(t[p], k))
  {
    var p, k := s[c].parent.value, SlotOf(s[c].kind);
    if c in Arr(t[p], k) {
      assert c in multiset(Arr(t[p], k));
    }
  }

  /** That is so for everything but hosts; and for hosts while the registry is
      in order. */
  lemma ListedOnce(s: Store, c: Ref)
    requires Shaped(s) && Tidy(s) && c < |s| && s[c].parent.Some? && (s[c].kind.Host? ==> Registry(s))
    ensures var p, k := s[c].parent.value, SlotOf(s[c].kind); p < |s| && Count(Arr(s[p], k), c) == 1
  {
    assert CellOk(s, c);
    var p, k := s[c].parent.value, SlotOf(s[c].kind);
    assert k.Hosts? ==> p == GLOBAL;
    assert NoDup(Arr(s[p], k));
  }

  /** A host that is listed twice stays listed when it is deleted, although it
      was destroyed; all other hosts stay in their places in any case. */
  lemma DeletedHostStays(s: Store, t: Store, h: Ref)
    requires Shaped(s) && Shaped(t) && h < |s| && s[h].parent.Some? && s[h].kind.Host? && Deleted(s, t, h)
    ensures t[h].down && t[GLOBAL].hosts == Without(s[GLOBAL].hosts, h)
    ensures h in t[GLOBAL].hosts <==> Count(s[GLOBAL].hosts, h) > 1
  {
    assert CellOk(s, h);
    WithoutIn(s[GLOBAL].hosts, h);
  }

  lemma Alive(m: Master, c: Ref)
    requires Idle(m) && Known(m.cells, c)
    ensures m.cells[c].refcount > 0 && Cascades(m.cells, m.cells) && CellOk(m.cells, c)
    ensures m.cells[c].parent.Some? ==> m.cells[c].parent.value < |m.cells|
  {
    assert CountOk(m.cells, m.held, c) && CellOk(m.cells, c);
    CascadesRefl(m.cells);
  }

  /** The container was kept, and then destroyed. */
  lemma KeptFirst(s: Store, s1: Store, s2: Store, c: Ref)
    requires Shaped(s) && Shaped(s2) && c < |s| && s[c].parent.Some? && s[c].parent.value < |s|
    requires Cascades(s, s1) && s1 == s[c := s[c].(refcount := s[c].refcount + 1)] && CascadesTo(s1, s2, HostsAfter(s1, c), {c})
    requires Fewer(s1, s2, c)
    ensures CascadesTo(s, s2, HostsAfter(s, c), {c}) && Fewer(s, s2, c)
  {
    JoinFirst(s, s1, s2, HostsAfter(s, c), {c});
    assert s1[GLOBAL].hosts == s[GLOBAL].hosts;
    hide Shrinks, Clean, Shaped, CascadesTo;
  }

  lemma DeletedStill(s: Store, s2: Store, t: Store, c: Ref)
    requires Shaped(s) && Shaped(s2) && Fields(s) && c < |s| == |s2| && s[c].parent.Some?
    requires CascadesTo(s, s2, HostsAfter(s, c), {c}) && Cascades(s2, t)
    requires s2[c].down && s2[c].parent.None? && NoRefs(s2[c]) && Stripped(s2[c]) && Clean(s2, GLOBAL, c) && Fewer(s, s2, c)
    ensures Shaped(t) && Deleted(s, t, c) && Keeps(s, t) && Fields(t)
  {
    hide Clean, Shrinks;
    JoinCascades(s, s2, t, HostsAfter(s, c), {c});
    CascadeKeeps(s, t, HostsAfter(s, c), {c});
    CascadesAt(s2, t, c);
    CleanShrinks(s2, t, GLOBAL, c);
    NoRefsShrinks(s2[c], t[c]);
    CascadesAt(s2, t, s[c].parent.value);
    hide Cascades, CascadesTo;
  }

  lemma CascadeKeeps(s: Store, t: Store, hosts: seq<Ref>, roots: set<Ref>)
    requires CascadesTo(s, t, hosts, roots) && Fields(s)
    ensures Keeps(s, t) && Fields(t)
  {
    hide Shrinks, Clean, Fields, Registry, Tidy, Moves;
    if DeadOwnNothing(s) {
      CascadeOwners(s, t);
    }
    MovesShrinks(s, t);
    FieldsShrinks(s, t);
    if Registry(s) {
      RegistryShrinks(s, t);
    }
    if Tidy(s) {
      TidyShrinks(s, t);
    }
  }

  /** The list loses its first entry for a host; its reference is now ours. */
  method Unlist(m: Master, h: Ref)
    requires Idle(m) && h in m.cells[GLOBAL].hosts
    modifies m
    ensures m.Valid() && m.held == multiset{h}
    ensures CascadesTo(old(m.cells), m.cells, Without(old(m.cells)[GLOBAL].hosts, h), {h})
    ensures |m.cells| == |old(m.cells)| && h < |m.cells| && m.cells[h].parent.None? && m.cells[h].phase.Live?
  {
    hide Shrinks, Counted, CascadesTo, Cascades;
    ghost var s := m.cells;
    RegisteredLive(m);
    ClearParent(m, h);
    ghost var s1 := m.cells;
    assert s1[GLOBAL].hosts == s[GLOBAL].hosts;
    var i := m.IndexOf(m.cells[GLOBAL].hosts, h);
    WithoutAt(s[GLOBAL].hosts, i);
    m.TakeOut(GLOBAL, Hosts, i);
    Unlisted(s, s1, m.cells, h);
  }

  lemma Unlisted(s: Store, s1: Store, t: Store, h: Ref)
    requires Shrinks(s, s1) && h < |s| && s[h].kind.Host? && s1 == s[h := s[h].(parent := None)]
    requires |t| > 0 && CascadesTo(s1, t, t[GLOBAL].hosts, {h})
    ensures CascadesTo(s, t, t[GLOBAL].hosts, {h})
  {
    ShrinksTrans(s, s1, t);
    ShrinksAt(s, t, h);
    UnlistedHomes(s, s1, t, h);
    UnlistedSpares(s, s1, t, h);
    hide Shrinks, DeadAt, Shaped, HomesKept, Spares;
  }

  lemma UnlistedHomes(s: Store, s1: Store, t: Store, h: Ref)
    requires h < |s| == |t| && s[h].kind.Host? && s1 == s[h := s[h].(parent := None)]
    requires Shaped(t) && t[h].kind.Host? && HomesKept(s1, t)
    ensures HomesKept(s, t)
  {
    forall y | 0 <= y < |s| ensures ParentKept(s, t, y) {
      assert ParentKept(s1, t, y);
    }
    forall p, k: Slot, y | 0 <= p < |s| && !k.Hosts? && y in Arr(t[p], k) ensures HomeKept(s, t, p, k, y) {
      assert HomeKept(s1, t, p, k, y) && Arr(s1[p], k) == Arr(s[p], k);
      assert CellOk(t, p) && ChildOk(t, p, k, y);
    }
  }

  lemma UnlistedSpares(s: Store, s1: Store, t: Store, h: Ref)
    requires h < |s| == |t| && s1 == s[h := s[h].(parent := None)] && Spares(s1, t, {h})
    ensures Spares(s, t, {h})
  {
    forall d | Closed(s, d) && {h} <= d ensures Spared(s, t, d) {
      assert h in d;
      ClosedUpdate(s, h, s1[h], d);
      SparedFrom(s, s1, t, h, d);
    }
  }

  lemma UnlistedName(s: Store, t: Store, h: Ref, name: string)
    requires Registry(s) && Shrinks(s, t) && h in s[GLOBAL].hosts && Named(s, h, name) && h !in t[GLOBAL].hosts
    ensures !NameTaken(t, name)
  {
    ShrinksAt(s, t, GLOBAL);
    forall g <- t[GLOBAL].hosts ensures !Named(t, g, name) {
      SubArray(s[GLOBAL].hosts, t[GLOBAL].hosts, g);
      RegistryShrinks(s, t);
      ShrinksAt(s, t, g);
    }
  }

  method ClearParent(m: Master, h: Ref)
    requires m.Valid() && h < |m.cells|
    modifies m`cells
    ensures m.Valid() && m.cells == old(m.cells)[h := old(m.cells[h]).(parent := None)] && Shrinks(old(m.cells), m.cells)
  {
    ghost var s := m.cells;
    ShrinksRefl(s);
    assert CellOk(s, h);
    ShrinksStep(s, s, h, s[h].(parent := None));
    m.Modify(h, m.cells[h].(parent := None));
  }

  /** Take a host off the list. It lives on while a test has it, or while it is
      listed twice. All others stay on the list. */
  method RemoveHost(m: Master, name: string) returns (found: bool)
    requires Idle(m)
    modifies m
    ensures Idle(m) && Keeps(old(m.cells), m.cells)
    ensures found <==> NameTaken(old(m.cells), name)
    ensures !found ==> m.cells == old(m.cells)
    ensures found ==> var h := HostNamed(old(m.cells), name);
      h.Some? && h.value < |m.cells| && m.cells[h.value].parent.None?
      && CascadesTo(old(m.cells), m.cells, Without(old(m.cells)[GLOBAL].hosts, h.value), {h.value})
      && (h.value in m.cells[GLOBAL].hosts <==> Count(old(m.cells)[GLOBAL].hosts, h.value) > 1)
    ensures Registry(old(m.cells)) ==> !NameTaken(m.cells, name)
  {
    hide Shrinks, Cascades, CascadesTo, Registry, Tidy, Fields, Shaped, Counted, Moves, DeadOwnNothing;
    ghost var s := m.cells;
    KeepsRefl(s);
    RegisteredLive(m);
    var h := FindHost(m, name);
    if h.None? {
      return false;
    }
    found := true;
    Unlist(m, h.value);
    ghost var s1 := m.cells;
    m.Put(h.value);
    RemovedHost(s, s1, m.cells, h.value, name);
  }

  lemma RemovedHost(s: Store, s1: Store, t: Store, h: Ref, name: string)
    requires Shaped(s) && Fields(s) && h in s[GLOBAL].hosts && Named(s, h, name)
    requires CascadesTo(s, s1, Without(s[GLOBAL].hosts, h), {h}) && Cascades(s1, t) && h < |s1| && s1[h].parent.None?
    ensures CascadesTo(s, t, Without(s[GLOBAL].hosts, h), {h}) && Keeps(s, t) && Fields(t)
    ensures h < |t| && t[h].parent.None? && (Registry(s) ==> !NameTaken(t, name))
    ensures h in t[GLOBAL].hosts <==> Count(s[GLOBAL].hosts, h) > 1
  {
    hide Shrinks, Clean, Shaped, Fields;
    var hosts := Without(s[GLOBAL].hosts, h);
    WithoutIn(s[GLOBAL].hosts, h);
    JoinCascades(s, s1, t, hosts, {h});
    CascadesAt(s1, t, h);
    CascadeKeeps(s, t, hosts, {h});
    if Registry(s) {
      OnlyEntry(s, h);
      UnlistedName(s, t, h, name);
    }
  }

  lemma OnlyEntry(s: Store, h: Ref)
    requires Registry(s) && h in s[GLOBAL].hosts
    ensures Count(s[GLOBAL].hosts, h) == 1
  {
  }
}
