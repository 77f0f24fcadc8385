/** The master's object graph: containers that hold each other in arrays, count
    their references, and may be owned by a container elsewhere in the tree.
    A store maps each container's number to its record; number 0 is the global
    context. */
module ContainerStore {
  import opened Wrappers

  datatype Kind = Global | Host | Test | Command | Process

  /** A container being torn down by the release of its last reference is
      Dying; its memory is gone once it is Freed. */
  datatype Phase = Live | Dying | Freed

  type Ref = nat

  const GLOBAL: Ref := 0

  datatype Cell = Cell(
    kind: Kind, phase: Phase, refcount: nat, parent: Option<Ref>, owner: Option<Ref>,
    hosts: seq<Ref>, tests: seq<Ref>, commands: seq<Ref>, processes: seq<Ref>,
    command: Option<Ref>,       // the command that a process runs
    down: bool,                 // destroy has been called for it
    name: Option<string>,
    role: Option<string>, agent: Option<string>, ready: bool, generation: nat,
    uuid: nat)                  // 0 is the null uuid

  type Store = seq<Cell>

  datatype Slot = Hosts | Tests | Commands | Processes

  function Arr(x: Cell, k: Slot): seq<Ref> {
    match k
    case Hosts => x.hosts
    case Tests => x.tests
    case Commands => x.commands
    case Processes => x.processes
  }

  function SetArr(x: Cell, k: Slot, a: seq<Ref>): Cell {
    match k
    case Hosts => x.(hosts := a)
    case Tests => x.(tests := a)
    case Commands => x.(commands := a)
    case Processes => x.(processes := a)
  }

  function SlotKind(k: Slot): Kind {
    match k
    case Hosts => Host
    case Tests => Test
    case Commands => Command
    case Processes => Process
  }

  function SlotOf(kind: Kind): Slot {
    match kind
    case Global => Tests
    case Host => Hosts
    case Test => Tests
    case Command => Commands
    case Process => Processes
  }

  /** The features of a kind of container. */
  predicate MayHold(kind: Kind, k: Slot) {
    match k
    case Hosts => kind.Global? || kind.Test?
    case Tests => kind.Global? || kind.Test?
    case Commands => kind.Global? || kind.Test? || kind.Host?
    case Processes => kind.Host?
  }

  // ------------------------------------------------------------ references

  function Count(a: seq<Ref>, y: Ref): nat { multiset(a)[y] }

  /** How often a container's arrays, and a process's command pointer, refer
      to y. */
  function RefsIn(x: Cell, y: Ref): nat {
    Count(x.hosts, y) + Count(x.tests, y) + Count(x.commands, y) + Count(x.processes, y)
    + if x.command == Some(y) then 1 else 0
  }

  function RefsTo(s: Store, y: Ref): nat {
    if s == [] then 0 else RefsTo(s[..|s| - 1], y) + RefsIn(s[|s| - 1], y)
  }

  lemma {:induction false} RefsToUpdate(s: Store, c: Ref, x: Cell, y: Ref)
    requires c < |s|
    ensures RefsTo(s[c := x], y) == RefsTo(s, y) - RefsIn(s[c], y) + RefsIn(x, y)
  {
    var n := |s| - 1;
    var t := s[c := x];
    if c == n {
      assert t[..n] == s[..n];
    } else {
      assert t[..n] == s[..n][c := x];
      RefsToUpdate(s[..n], c, x, y);
    }
  }

  lemma RefsToAppend(s: Store, x: Cell, y: Ref)
    ensures RefsTo(s + [x], y) == RefsTo(s, y) + RefsIn(x, y)
  {
    assert (s + [x])[..|s|] == s;
  }

  lemma {:induction false} HeldByCell(s: Store, p: Ref, y: Ref)
    requires p < |s|
    ensures RefsIn(s[p], y) <= RefsTo(s, y)
  {
    if p < |s| - 1 {
      HeldByCell(s[..|s| - 1], p, y);
    }
  }

  predicate NoChildren(x: Cell) {
    x.hosts == [] && x.tests == [] && x.commands == [] && x.processes == []
  }

  predicate NoRefs(x: Cell) {
    NoChildren(x) && x.command.None?
  }

  // ---------------------------------------------------------- well-formedness

  predicate CellOk(s: Store, p: Ref)
    requires p < |s|
  {
    var x := s[p];
    && (p == GLOBAL <==> x.kind.Global?)
    && (p == GLOBAL ==> x.phase.Live? && x.parent.None? && !x.down)
    && PhaseOk(x)
    && (x.kind.Host? ==> x.parent.None? || x.parent == Some(GLOBAL))
    && (x.parent.Some? ==> x.parent.value < |s| && p in Arr(s[x.parent.value], SlotOf(x.kind)))
    && (x.owner.Some? ==> x.owner.value < |s|)
    && (x.command.Some? ==> x.kind.Process? && x.command.value < |s| && s[x.command.value].kind.Command?)
    && ArraysOk(s, p)
  }

  /** What dies has left its parent and its owner; what was destroyed has left
      its parent. */
  predicate PhaseOk(x: Cell) {
    && (x.phase.Freed? ==> NoRefs(x) && x.down && x.owner.None?)
    && (x.phase.Dying? ==> x.parent.None? && x.owner.None?)
    && (x.down ==> x.parent.None?)
  }

  predicate ArraysOk(s: Store, p: Ref)
    requires p < |s|
  {
    forall k, y {:trigger ChildOk(s, p, k, y)} :: y in Arr(s[p], k) ==> ChildOk(s, p, k, y)
  }

  predicate ChildOk(s: Store, p: Ref, k: Slot, y: Ref)
    requires p < |s|
  {
    && y < |s| && s[y].kind == SlotKind(k) && MayHold(s[p].kind, k) && (k.Tests? ==> p < y)
    && (!k.Hosts? ==> s[y].parent.None? || s[y].parent == Some(p))
  }

  predicate Shaped(s: Store) {
    |s| > 0 && forall p :: 0 <= p < |s| ==> CellOk(s, p)
  }

  /** Reference counts are exact: array slots, command pointers, and the
      references that running code holds. The global context has one that is
      never released. */
  predicate CountOk(s: Store, held: multiset<Ref>, c: Ref)
    requires c < |s|
  {
    match s[c].phase
    case Live => s[c].refcount > 0 && s[c].refcount == RefsTo(s, c) + held[c] + if c == GLOBAL then 1 else 0
    case Dying => s[c].refcount == 1 && RefsTo(s, c) == 0 && held[c] == 1
    case Freed => RefsTo(s, c) == 0 && held[c] == 0
  }

  predicate Counted(s: Store, held: multiset<Ref>) {
    && (forall c <- held :: c < |s|)
    && (forall c :: 0 <= c < |s| ==> CountOk(s, held, c))
  }

  predicate Inv(s: Store, held: multiset<Ref>) {
    Shaped(s) && Counted(s, held)
  }

  /** Whatever is in an array of an existing container, or is the command of a
      process, has not been freed and is not being torn down. */
  lemma TargetsLive(s: Store, held: multiset<Ref>, p: Ref, y: Ref)
    requires Inv(s, held) && p < |s| && y < |s| && RefsIn(s[p], y) > 0
    ensures s[y].phase.Live? && s[y].refcount >= 1
  {
    HeldByCell(s, p, y);
    assert CountOk(s, held, y);
  }

  /** Nothing leaks: while no code runs, a container other than the global
      context exists only as long as something in the store refers to it. */
  lemma NothingLeaks(s: Store, c: Ref)
    requires Inv(s, multiset{}) && c < |s| && c != GLOBAL
    ensures s[c].phase.Live? <==> RefsTo(s, c) > 0
    ensures s[c].phase.Live? ==> s[c].refcount == RefsTo(s, c)
    ensures !s[c].phase.Dying?
  {
    assert CountOk(s, multiset{}, c);
  }

  // ------------------------------------------------------- reachable, clean

  /** Containers are only ever held by containers of a higher level. */
  function Level(s: Store, c: Ref): nat
    requires c < |s|
  {
    match s[c].kind
    case Global => 3 + |s|
    case Test => 2 + |s| - c
    case Host => 1
    case Command => 0
    case Process => 0
  }

  predicate IsChild(x: Cell, y: Ref) {
    y in x.hosts || y in x.tests || y in x.commands || y in x.processes
  }

  lemma ChildLevel(s: Store, p: Ref, y: Ref)
    requires Shaped(s) && p < |s| && IsChild(s[p], y)
    ensures y < |s| && Level(s, y) < Level(s, p) && RefsIn(s[p], y) > 0 && y != GLOBAL
  {
    assert CellOk(s, p);
    var k := if y in s[p].hosts then Hosts else if y in s[p].tests then Tests
             else if y in s[p].commands then Commands else Processes;
    assert y in Arr(s[p], k) && ChildOk(s, p, k, y);
    assert y in multiset(Arr(s[p], k));
    assert CellOk(s, y);
  }

  /** Nothing below x belongs to o. */
  ghost predicate Clean(s: Store, x: Ref, o: Ref)
    requires Shaped(s) && x < |s|
    decreases Level(s, x), 1
  {
    forall y: Ref :: IsChild(s[x], y) ==> CleanChild(s, x, y, o)
  }

  ghost predicate CleanChild(s: Store, x: Ref, y: Ref, o: Ref)
    requires Shaped(s) && x < |s| && IsChild(s[x], y)
    decreases Level(s, x), 0
  {
    ChildLevel(s, x, y);
    s[y].owner != Some(o) && Clean(s, y, o)
  }

  // ------------------------------------------------ what teardown may change

  /** What still has to be torn down or disowned. */
  function Weight(s: Store): nat {
    if s == [] then 0 else Weight(s[..|s| - 1]) + CellWeight(s[|s| - 1])
  }

  function CellWeight(x: Cell): nat {
    (if x.phase.Live? then 1 else 0) + (if x.owner.Some? then 1 else 0)
  }

  lemma {:induction false} WeightUpdate(s: Store, c: Ref, x: Cell)
    requires c < |s|
    ensures Weight(s[c := x]) == Weight(s) - CellWeight(s[c]) + CellWeight(x)
  {
    var n := |s| - 1;
    if c == n {
      assert s[c := x][..n] == s[..n];
    } else {
      assert s[c := x][..n] == s[..n][c := x];
      WeightUpdate(s[..n], c, x);
    }
  }

  predicate ArraysShrink(x: Cell, y: Cell) {
    && multiset(y.hosts) <= multiset(x.hosts) && multiset(y.tests) <= multiset(x.tests)
    && multiset(y.commands) <= multiset(x.commands) && multiset(y.processes) <= multiset(x.processes)
  }

  /** How teardown may change one container: it only lets go of things. A
      container that is not itself destroyed keeps its identity, and loses its
      owner and its role together. */
  predicate CellShrinks(x: Cell, y: Cell) {
    && y.kind == x.kind && y.generation == x.generation
    && (y.phase == x.phase || y.phase.Freed?)
    && (y.parent == x.parent || y.parent.None?)
    && (y.owner == x.owner || y.owner.None?)
    && ArraysShrink(x, y) && (y.command == x.command || y.command.None?)
    && (x.down ==> y.down)
    && (y.name == x.name || y.name.None?) && (y.role == x.role || y.role.None?) && (y.agent == x.agent || y.agent.None?)
    && y.ready == x.ready && y.uuid == x.uuid
    && (!y.down ==> y.name == x.name && y.agent == x.agent)
    && (!y.down ==> (y.owner == x.owner && y.role == x.role) || (y.owner.None? && (x.kind.Host? ==> y.role.None?)))
  }

  predicate NoDup(a: seq<Ref>) {
    forall y <- a :: multiset(a)[y] == 1
  }

  predicate Owned(x: Cell) { x.kind.Command? || x.kind.Process? }

  /** An owner is only lost if it, or what it owned, was destroyed. Commands and
      processes lose it by being destroyed, and hold nothing then. */
  predicate OwnersKept(s: Store, t: Store)
    requires |s| == |t|
  {
    forall c {:trigger OwnerKept(s, t, c)} :: 0 <= c < |s| ==> OwnerKept(s, t, c)
  }

  predicate OwnerKept(s: Store, t: Store, c: Ref)
    requires c < |s| == |t|
  {
    s[c].owner.Some? && t[c].owner.None? ==>
      if Owned(s[c]) then t[c].down && NoRefs(t[c])
      else t[c].down || (s[c].owner.value < |t| && t[s[c].owner.value].down)
  }

  /** No host that is still registered was destroyed. */
  predicate RegisteredKept(s: Store, t: Store)
    requires |s| == |t| > 0
  {
    NoDup(s[GLOBAL].hosts) ==> forall h <- t[GLOBAL].hosts :: h < |t| ==> t[h].down == s[h].down
  }

  predicate LetsGo(s: Store, t: Store) {
    && |s| == |t| > 0
    && (forall c {:trigger CellShrinks(s[c], t[c])} :: 0 <= c < |s| ==> CellShrinks(s[c], t[c]))
    && Weight(t) <= Weight(s)
    && OwnersKept(s, t)
  }

  predicate Shrinks(s: Store, t: Store) {
    LetsGo(s, t) && RegisteredKept(s, t)
  }

  lemma NoDupSub(a: seq<Ref>, b: seq<Ref>)
    requires multiset(b) <= multiset(a) && NoDup(a)
    ensures NoDup(b)
  {
    forall y <- b ensures multiset(b)[y] == 1 {
      assert y in multiset(b) && y in multiset(a);
    }
  }

  lemma SubArray(a: seq<Ref>, b: seq<Ref>, y: Ref)
    requires multiset(b) <= multiset(a) && y in b
    ensures y in a
  {
    assert y in multiset(b);
    assert y in multiset(a);
  }

  lemma SubLength(a: seq<Ref>, b: seq<Ref>)
    requires multiset(b) <= multiset(a)
    ensures |b| <= |a|
  {
    assert multiset(a) == multiset(b) + (multiset(a) - multiset(b));
    assert |multiset(a)| == |a| && |multiset(b)| == |b|;
  }

  lemma Empties(a: seq<Ref>, b: seq<Ref>)
    requires multiset(b) <= multiset(a) && a == []
    ensures b == []
  {
    SubLength(a, b);
  }

  lemma NoRefsShrinks(x: Cell, y: Cell)
    requires CellShrinks(x, y) && NoRefs(x)
    ensures NoRefs(y)
  {
    Empties(x.hosts, y.hosts);
    Empties(x.tests, y.tests);
    Empties(x.commands, y.commands);
    Empties(x.processes, y.processes);
  }

  lemma LetsGoTrans(s: Store, t: Store, u: Store)
    requires LetsGo(s, t) && LetsGo(t, u)
    ensures LetsGo(s, u)
  {
    forall c | 0 <= c < |s| ensures CellShrinks(s[c], u[c]) {
      assert CellShrinks(s[c], t[c]) && CellShrinks(t[c], u[c]);
    }
    forall c | 0 <= c < |s| ensures OwnerKept(s, u, c) {
      assert CellShrinks(s[c], t[c]) && CellShrinks(t[c], u[c]);
      assert OwnerKept(s, t, c) && OwnerKept(t, u, c);
      if s[c].owner.Some? && t[c].owner.None? {
        if Owned(s[c]) {
          NoRefsShrinks(t[c], u[c]);
        } else if !t[c].down {
          assert CellShrinks(t[s[c].owner.value], u[s[c].owner.value]);
        }
      }
    }
  }

  lemma ShrinksTrans(s: Store, t: Store, u: Store)
    requires Shrinks(s, t) && Shrinks(t, u)
    ensures Shrinks(s, u)
  {
    LetsGoTrans(s, t, u);
    if NoDup(s[GLOBAL].hosts) {
      assert CellShrinks(s[GLOBAL], t[GLOBAL]) && CellShrinks(t[GLOBAL], u[GLOBAL]);
      NoDupSub(s[GLOBAL].hosts, t[GLOBAL].hosts);
      forall h <- u[GLOBAL].hosts | h < |u| ensures u[h].down == s[h].down {
        SubArray(t[GLOBAL].hosts, u[GLOBAL].hosts, h);
      }
    }
  }

  lemma ShrinksRefl(s: Store)
    requires |s| > 0
    ensures Shrinks(s, s)
  {
    forall c | 0 <= c < |s| ensures CellShrinks(s[c], s[c]) {
      CellShrinksRefl(s[c]);
    }
  }

  lemma ShrinksAt(s: Store, t: Store, c: Ref)
    requires Shrinks(s, t) && c < |s|
    ensures |t| == |s| && CellShrinks(s[c], t[c]) && Weight(t) <= Weight(s)
  {
    assert CellShrinks(s[c], t[c]);
  }

  lemma ChildShrinks(x: Cell, z: Cell, y: Ref)
    requires CellShrinks(x, z) && IsChild(z, y)
    ensures IsChild(x, y)
  {
    if y in z.hosts { SubArray(x.hosts, z.hosts, y); }
    if y in z.tests { SubArray(x.tests, z.tests, y); }
    if y in z.commands { SubArray(x.commands, z.commands, y); }
    if y in z.processes { SubArray(x.processes, z.processes, y); }
  }

  /** Teardown never makes anything an owner's again. */
  lemma {:induction false} CleanShrinks(s: Store, t: Store, x: Ref, o: Ref)
    requires Shaped(s) && Shaped(t) && Shrinks(s, t) && x < |s|
    requires Clean(s, x, o)
    ensures Clean(t, x, o)
    decreases Level(s, x)
  {
    assert CellShrinks(s[x], t[x]);
    forall y: Ref | IsChild(t[x], y) ensures CleanChild(t, x, y, o) {
      ChildShrinks(s[x], t[x], y);
      ChildLevel(s, x, y);
      assert CleanChild(s, x, y, o) && CellShrinks(s[y], t[y]);
      CleanShrinks(s, t, y, o);
    }
  }

  // -------------------------------------------------------- elementary steps

  /** One container lets go of things: its shape is still fine if every child
      that calls it parent is still in its arrays. */
  lemma ShapedUpdate(s: Store, c: Ref, x: Cell)
    requires Shaped(s) && c < |s|
    requires x.kind == s[c].kind && ArraysShrink(s[c], x)
    requires x.parent == s[c].parent || x.parent.None?
    requires x.owner == s[c].owner || x.owner.None?
    requires x.command == s[c].command || x.command.None?
    requires c == GLOBAL ==> x.phase.Live? && x.down == s[c].down
    requires PhaseOk(x)
    requires forall q :: 0 <= q < |s| && s[q].parent == Some(c) ==> q in Arr(x, SlotOf(s[q].kind))
    ensures Shaped(s[c := x])
  {
    var t := s[c := x];
    forall p | 0 <= p < |t| ensures CellOk(t, p) {
      assert CellOk(s, p) && ArraysOk(s, p);
      ArraysOkUpdate(s, c, x, p);
    }
  }

  predicate SameRefs(x: Cell, y: Cell) {
    && y.hosts == x.hosts && y.tests == x.tests && y.commands == x.commands && y.processes == x.processes
    && y.command == x.command
  }

  /** One container changes, but its arrays do not. */
  lemma ShapedKeep(s: Store, c: Ref, x: Cell)
    requires Shaped(s) && c < |s|
    requires x.kind == s[c].kind && SameRefs(s[c], x)
    requires x.parent == s[c].parent || x.parent.None?
    requires x.owner == s[c].owner || x.owner.None?
    requires c == GLOBAL ==> x.phase.Live? && x.down == s[c].down
    requires PhaseOk(x)
    ensures Shaped(s[c := x])
  {
    forall q | 0 <= q < |s| && s[q].parent == Some(c) ensures q in Arr(x, SlotOf(s[q].kind)) {
      assert CellOk(s, q);
    }
    ShapedUpdate(s, c, x);
  }

  lemma ArraysOkUpdate(s: Store, c: Ref, x: Cell, p: Ref)
    requires c < |s| && p < |s| && ArraysOk(s, p)
    requires x.kind == s[c].kind && ArraysShrink(s[c], x) && (x.parent == s[c].parent || x.parent.None?)
    ensures ArraysOk(s[c := x], p)
  {
    var t := s[c := x];
    forall k, y: Ref | y in Arr(t[p], k) ensures ChildOk(t, p, k, y) {
      if p == c {
        SubArray(Arr(s[c], k), Arr(x, k), y);
      }
      assert ChildOk(s, p, k, y);
    }
  }

  lemma CountedSame(s: Store, held: multiset<Ref>, c: Ref, x: Cell)
    requires Counted(s, held) && c < |s|
    requires x.refcount == s[c].refcount && x.phase == s[c].phase
    requires forall q: Ref :: RefsIn(x, q) == RefsIn(s[c], q)
    ensures Counted(s[c := x], held)
  {
    var t := s[c := x];
    forall q | 0 <= q < |t| ensures CountOk(t, held, q) {
      assert CountOk(s, held, q);
      RefsToUpdate(s, c, x, q);
    }
  }

  /** A reference moves from a container to the running code. */
  lemma CountedTake(s: Store, held: multiset<Ref>, c: Ref, x: Cell, y: Ref)
    requires Counted(s, held) && c < |s| && y < |s|
    requires x.refcount == s[c].refcount && x.phase == s[c].phase
    requires forall q: Ref :: RefsIn(x, q) + (if q == y then 1 else 0) == RefsIn(s[c], q)
    ensures Counted(s[c := x], held + multiset{y})
  {
    var t := s[c := x];
    HeldByCell(s, c, y);
    hide RefsTo, RefsIn;
    forall q | 0 <= q < |t| ensures CountOk(t, held + multiset{y}, q) {
      RefsToUpdate(s, c, x, q);
      CountMoved(s, t, held, held + multiset{y}, q);
    }
  }

  /** A count stays exact while references only move. */
  lemma CountMoved(s: Store, t: Store, held: multiset<Ref>, now: multiset<Ref>, q: Ref)
    requires q < |s| == |t| && CountOk(s, held, q)
    requires t[q].phase == s[q].phase && t[q].refcount == s[q].refcount
    requires RefsTo(t, q) + now[q] == RefsTo(s, q) + held[q]
    requires RefsTo(t, q) <= RefsTo(s, q) && (RefsTo(s, q) == 0 ==> now[q] == held[q])
    ensures CountOk(t, now, q)
  {
  }

  /** A reference moves from the running code to a container. */
  lemma CountedGive(s: Store, held: multiset<Ref>, c: Ref, x: Cell, y: Ref)
    requires Counted(s, held) && c < |s| && y < |s| && held[y] > 0 && s[y].phase.Live?
    requires x.refcount == s[c].refcount && x.phase == s[c].phase
    requires forall q: Ref :: RefsIn(x, q) == RefsIn(s[c], q) + if q == y then 1 else 0
    ensures Counted(s[c := x], held - multiset{y})
  {
    var t := s[c := x];
    forall q | 0 <= q < |t| ensures CountOk(t, held - multiset{y}, q) {
      assert CountOk(s, held, q);
      RefsToUpdate(s, c, x, q);
    }
  }

  /** The running code takes or drops a reference, or the container passes to
      another phase, without any array changing. */
  lemma CountedHeld(s: Store, held: multiset<Ref>, c: Ref, x: Cell, now: multiset<Ref>)
    requires Counted(s, held) && c < |s|
    requires forall q: Ref :: RefsIn(x, q) == RefsIn(s[c], q)
    requires forall q :: q != c ==> now[q] == held[q]
    requires match x.phase
      case Live => x.refcount > 0 && x.refcount == RefsTo(s, c) + now[c] + if c == GLOBAL then 1 else 0
      case Dying => x.refcount == 1 && RefsTo(s, c) == 0 && now[c] == 1
      case Freed => RefsTo(s, c) == 0 && now[c] == 0
    ensures Counted(s[c := x], now)
  {
    var t := s[c := x];
    forall q | 0 <= q < |t| ensures CountOk(t, now, q) {
      assert CountOk(s, held, q);
      RefsToUpdate(s, c, x, q);
    }
    forall q <- now ensures q < |t| {
      assert q != c ==> now[q] == held[q];
    }
  }

  /** A container's owner is lost for a reason. */
  predicate OwnerLost(s: Store, c: Ref, x: Cell)
    requires c < |s|
  {
    s[c].owner.Some? && x.owner.None? ==>
      !Owned(s[c]) && (x.down || (s[c].owner.value < |s| && s[s[c].owner.value].down))
  }

  /** Letting go of things in one container is a kind of teardown. */
  lemma LetsGoUpdate(s: Store, c: Ref, x: Cell)
    requires c < |s| && CellShrinks(s[c], x) && OwnerLost(s, c, x)
    ensures LetsGo(s, s[c := x])
  {
    var t := s[c := x];
    WeightUpdate(s, c, x);
    assert OwnersKept(s, t) by {
      forall q | 0 <= q < |s| ensures OwnerKept(s, t, q) {
      }
    }
    forall q | 0 <= q < |s| ensures CellShrinks(s[q], t[q]) {
      CellShrinksRefl(s[q]);
    }
  }

  lemma CellShrinksRefl(x: Cell)
    ensures CellShrinks(x, x)
  {
  }

  /** One more container lets go of things. A registered host is not
      destroyed, unless the host list had duplicates to begin with. */
  lemma ShrinksStep(o: Store, s: Store, c: Ref, x: Cell)
    requires Shrinks(o, s) && c < |s| && CellShrinks(s[c], x) && OwnerLost(s, c, x)
    requires x.down != s[c].down ==> c !in x.hosts && (NoDup(o[GLOBAL].hosts) ==> c !in s[GLOBAL].hosts)
    ensures Shrinks(o, s[c := x])
  {
    var t := s[c := x];
    LetsGoUpdate(s, c, x);
    LetsGoTrans(o, s, t);
    if NoDup(o[GLOBAL].hosts) {
      RegisteredStep(o, s, c, x);
    }
  }

  lemma RegisteredStep(o: Store, s: Store, c: Ref, x: Cell)
    requires |o| == |s| > 0 && RegisteredKept(o, s) && NoDup(o[GLOBAL].hosts)
    requires c < |s| && ArraysShrink(s[c], x)
    requires x.down != s[c].down ==> c !in s[GLOBAL].hosts
    ensures RegisteredKept(o, s[c := x])
  {
    var t := s[c := x];
    forall h <- t[GLOBAL].hosts | h < |t| ensures t[h].down == o[h].down {
      if c == GLOBAL {
        SubArray(s[GLOBAL].hosts, x.hosts, h);
      }
      assert h in s[GLOBAL].hosts;
    }
  }

  // --------------------------------------------------------------- creation

  /** A container that nothing refers to yet, except its creator. */
  predicate Newborn(x: Cell) {
    NoRefs(x) && x.phase.Live? && x.refcount == 1 && x.parent.None? && x.owner.None? && !x.kind.Global? && !x.down
  }

  lemma ShapedNew(s: Store, x: Cell)
    requires Shaped(s) && Newborn(x)
    ensures Shaped(s + [x])
  {
    var t := s + [x];
    forall p | 0 <= p < |t| ensures CellOk(t, p) {
      if p < |s| {
        assert t[p] == s[p] && CellOk(s, p);
        forall k, y: Ref | y in Arr(t[p], k) ensures ChildOk(t, p, k, y) {
          assert ChildOk(s, p, k, y);
        }
      }
    }
  }

  lemma {:induction false} NoRefsBeyond(s: Store, i: nat, n: Ref)
    requires Shaped(s) && i <= |s| <= n
    ensures RefsTo(s[..i], n) == 0
  {
    if i > 0 {
      assert s[..i][..i - 1] == s[..i - 1];
      NoRefsBeyond(s, i - 1, n);
      NoRefsOutside(s, i - 1, n);
    }
  }

  lemma NoRefsOutside(s: Store, p: Ref, n: Ref)
    requires Shaped(s) && p < |s| <= n
    ensures RefsIn(s[p], n) == 0
  {
    assert CellOk(s, p);
    forall k ensures n !in Arr(s[p], k) {
      forall y <- Arr(s[p], k) ensures y != n {
        assert ChildOk(s, p, k, y);
      }
    }
    assert n !in Arr(s[p], Hosts) && n !in Arr(s[p], Tests);
    assert n !in Arr(s[p], Commands) && n !in Arr(s[p], Processes);
  }

  lemma CountedNew(s: Store, held: multiset<Ref>, x: Cell)
    requires Inv(s, held) && Newborn(x)
    ensures Counted(s + [x], held + multiset{|s|})
  {
    var t, now := s + [x], held + multiset{|s|};
    forall q | 0 <= q < |t| ensures CountOk(t, now, q) {
      RefsToAppend(s, x, q);
      if q < |s| {
        assert CountOk(s, held, q);
      } else {
        assert s[..|s|] == s;
        NoRefsBeyond(s, |s|, q);
        assert held[q] == 0;
      }
    }
  }

  /** A container gets a new child, or its creator makes something its owner
      or its parent. */
  lemma ShapedGive(s: Store, p: Ref, k: Slot, y: Ref)
    requires Shaped(s) && p < |s| && ChildOk(s, p, k, y) && !s[p].phase.Freed?
    ensures Shaped(s[p := SetArr(s[p], k, Arr(s[p], k) + [y])])
  {
    var t := s[p := SetArr(s[p], k, Arr(s[p], k) + [y])];
    forall q | 0 <= q < |t| ensures CellOk(t, q) {
      assert CellOk(s, q);
      forall j, z: Ref | z in Arr(t[q], j) ensures ChildOk(t, q, j, z) {
        if !(q == p && j == k && z == y) {
          assert z in Arr(s[q], j) && ChildOk(s, q, j, z);
        }
      }
    }
  }

  lemma GiveRefs(x: Cell, k: Slot, y: Ref)
    ensures forall q: Ref :: RefsIn(SetArr(x, k, Arr(x, k) + [y]), q) == RefsIn(x, q) + if q == y then 1 else 0
  {
    forall q: Ref ensures Count(Arr(x, k) + [y], q) == Count(Arr(x, k), q) + if q == y then 1 else 0 {
    }
  }

  /** No other array has it, but for lists of hosts. */
  predicate OnlyIn(s: Store, c: Ref, p: Ref) {
    forall q, k: Slot {:trigger Arr(s[q], k)} :: 0 <= q < |s| && !k.Hosts? && c in Arr(s[q], k) ==> q == p
  }

  /** Anything but the arrays of one container is set. */
  lemma ShapedSet(s: Store, c: Ref, x: Cell)
    requires Shaped(s) && c < |s| && s[c].phase.Live? && x.phase.Live? && x.kind == s[c].kind && (c == GLOBAL ==> x.down == s[c].down)
    requires x.hosts == s[c].hosts && x.tests == s[c].tests && x.commands == s[c].commands && x.processes == s[c].processes
    requires x.parent == s[c].parent
      || (c != GLOBAL && x.parent.Some? && x.parent.value < |s| && x.parent.value != c && c in Arr(s[x.parent.value], SlotOf(x.kind))
          && (x.kind.Host? ==> x.parent.value == GLOBAL) && !x.down && OnlyIn(s, c, x.parent.value))
    requires x.down == s[c].down && (x.owner.Some? ==> x.owner.value < |s|)
    requires x.command.Some? ==> x.kind.Process? && x.command.value < |s| && s[x.command.value].kind.Command?
    ensures Shaped(s[c := x])
  {
    var t := s[c := x];
    forall p | 0 <= p < |t| ensures CellOk(t, p) {
      assert CellOk(s, p) && CellOk(s, c);
      forall k, y: Ref | y in Arr(t[p], k) ensures ChildOk(t, p, k, y) {
        assert ChildOk(s, p, k, y);
      }
    }
  }
}
