/** The registry of hosts in the master: who is registered under which name,
    and which container has claimed which host for which role. */
module HostRegistry {
  import opened Wrappers
  import opened ContainerStore
  import opened Teardown

  /** A host that was not destroyed has a role exactly when it has an owner,
      and is ready only while it has an agent. */
  predicate HostFields(x: Cell) {
    x.kind.Host? && !x.down ==> x.name.Some? && (x.role.Some? <==> x.owner.Some?) && (x.ready ==> x.agent.Some?)
  }

  predicate Fields(s: Store) {
    forall c :: 0 <= c < |s| ==> HostFields(s[c])
  }

  predicate Named(s: Store, h: Ref, name: string) {
    h < |s| && s[h].name == Some(name)
  }

  predicate NameTaken(s: Store, name: string)
    requires |s| > 0
  {
    exists h <- s[GLOBAL].hosts :: Named(s, h, name)
  }

  /** Registered hosts are listed once, exist, and have different names. */
  predicate Registry(s: Store) {
    && |s| > 0
    && NoDup(s[GLOBAL].hosts)
    && Fields(s)
    && (forall h <- s[GLOBAL].hosts :: h < |s| && !s[h].down)
    && (forall h <- s[GLOBAL].hosts, g <- s[GLOBAL].hosts :: h < |s| && g < |s| && s[h].name == s[g].name ==> h == g)
  }

  /** No array but a list of hosts holds anything twice, or anything that calls
      another container its parent. A command that was not destroyed is in the
      container that owns it; a process belongs to the command that it holds. */
  predicate Tidy(s: Store) {
    && (forall p, k: Slot :: 0 <= p < |s| && !k.Hosts? ==> NoDup(Arr(s[p], k)) && Home(s, p, k))
    && (forall c :: 0 <= c < |s| ==> Linked(s[c]))
  }

  predicate Home(s: Store, p: Ref, k: Slot)
    requires p < |s|
  {
    forall y <- Arr(s[p], k) :: y < |s| && s[y].parent == Some(p)
  }

  predicate Linked(x: Cell) {
    && (x.kind.Command? && x.owner.Some? && !x.down ==> x.parent == x.owner)
    && (x.kind.Process? && x.command.Some? ==> x.owner == x.command)
  }

  // ------------------------------------------------------------ over a run

  /** The claim on a host survives until the host or its owner is destroyed. */
  predicate ClaimKept(s: Store, t: Store, c: Ref)
    requires c < |s| <= |t|
  {
    s[c].kind.Host? && s[c].owner.Some? && !t[c].down ==>
      || (t[c].owner == s[c].owner && t[c].role == s[c].role)
      || (s[c].owner.value < |t| && t[s[c].owner.value].down)
  }

  predicate CellMoves(s: Store, t: Store, c: Ref)
    requires c < |s| <= |t|
  {
    && t[c].kind == s[c].kind && t[c].generation >= s[c].generation
    && (s[c].down ==> t[c].down)
    && (s[c].phase.Freed? ==> t[c].phase.Freed?)
    && ClaimKept(s, t, c)
  }

  /** What any number of calls may do to the containers that exist. */
  predicate Moves(s: Store, t: Store) {
    && |s| <= |t|
    && forall c {:trigger CellMoves(s, t, c)} :: 0 <= c < |s| ==> CellMoves(s, t, c)
  }

  lemma MovesTrans(s: Store, t: Store, u: Store)
    requires Shaped(s) && Moves(s, t) && Moves(t, u)
    ensures Moves(s, u)
  {
    forall c | 0 <= c < |s| ensures CellMoves(s, u, c) {
      assert CellMoves(s, t, c) && CellMoves(t, u, c) && CellOk(s, c);
      if s[c].owner.Some? {
        assert CellMoves(t, u, s[c].owner.value);
      }
    }
  }

  /** Another container cannot claim a host until the owner that has it is
      destroyed, however many calls are made meanwhile. */
  lemma ClaimIsExclusive(s: Store, t: Store, h: Ref, o: Ref, p: Ref)
    requires Moves(s, t) && h < |s| && s[h].kind.Host? && s[h].owner == Some(o)
    requires t[h].owner == Some(p) && !t[h].down && p != o
    ensures o < |t| && t[o].down
  {
    assert CellMoves(s, t, h);
  }

  // -------------------------------------------------------------- teardown

  lemma MovesShrinks(s: Store, t: Store)
    requires Shrinks(s, t)
    ensures Moves(s, t)
  {
    forall c | 0 <= c < |s| ensures CellMoves(s, t, c) {
      assert CellShrinks(s[c], t[c]) && OwnerKept(s, t, c);
    }
  }

  lemma FieldsShrinks(s: Store, t: Store)
    requires Fields(s) && Shrinks(s, t)
    ensures Fields(t)
  {
    forall c | 0 <= c < |t| ensures HostFields(t[c]) {
      assert CellShrinks(s[c], t[c]) && HostFields(s[c]);
    }
  }

  lemma RegistryShrinks(s: Store, t: Store)
    requires Registry(s) && Shrinks(s, t)
    ensures Registry(t)
  {
    assert CellShrinks(s[GLOBAL], t[GLOBAL]);
    var a, b := s[GLOBAL].hosts, t[GLOBAL].hosts;
    NoDupSub(a, b);
    FieldsShrinks(s, t);
    forall h <- b ensures h in a && h < |t| && !t[h].down && t[h].name == s[h].name {
      SubArray(a, b, h);
      assert CellShrinks(s[h], t[h]);
    }
  }

  lemma TidyShrinks(s: Store, t: Store)
    requires Tidy(s) && Shrinks(s, t) && HomesKept(s, t)
    ensures Tidy(t)
  {
    forall p, k: Slot | 0 <= p < |t| && !k.Hosts? ensures NoDup(Arr(t[p], k)) && Home(t, p, k) {
      assert CellShrinks(s[p], t[p]) && NoDup(Arr(s[p], k)) && Home(s, p, k);
      NoDupSub(Arr(s[p], k), Arr(t[p], k));
      forall y <- Arr(t[p], k) ensures y < |t| && t[y].parent == Some(p) {
        SubArray(Arr(s[p], k), Arr(t[p], k), y);
        assert HomeKept(s, t, p, k, y);
      }
    }
    forall c | 0 <= c < |t| ensures Linked(t[c]) {
      assert CellShrinks(s[c], t[c]) && Linked(s[c]) && OwnerKept(s, t, c) && ParentKept(s, t, c);
    }
  }

  /** A name that was free stays free. */
  lemma NameFreeShrinks(s: Store, t: Store, name: string)
    requires Registry(s) && Shrinks(s, t) && !NameTaken(s, name)
    ensures !NameTaken(t, name)
  {
    assert CellShrinks(s[GLOBAL], t[GLOBAL]);
    forall h <- t[GLOBAL].hosts ensures !Named(t, h, name) {
      SubArray(s[GLOBAL].hosts, t[GLOBAL].hosts, h);
      assert CellShrinks(s[h], t[h]) && !Named(s, h, name);
    }
  }

  // -------------------------------------------------------------- one call

  lemma NoDupAppend(a: seq<Ref>, y: Ref)
    requires NoDup(a)
    ensures NoDup(a + [y]) <==> y !in a
  {
    if y in a {
      assert y in multiset(a);
      assert y in a + [y] && multiset(a + [y])[y] == multiset(a)[y] + 1;
    } else {
      assert multiset(a)[y] == 0;
      forall z <- a + [y] ensures multiset(a + [y])[z] == 1 {
        assert z != y ==> z in a;
      }
    }
  }

  /** The state after the creation of a container. */
  function Created(s: Store, x: Cell, p: Ref): Store
    requires p < |s|
  {
    var k := SlotOf(x.kind);
    s[p := SetArr(s[p], k, Arr(s[p], k) + [|s|])] + [x]
  }

  lemma FreshNumber(s: Store, p: Ref, k: Slot)
    requires Shaped(s) && p < |s|
    ensures |s| !in Arr(s[p], k)
  {
    assert CellOk(s, p);
    forall y <- Arr(s[p], k) ensures y < |s| {
      assert ChildOk(s, p, k, y);
    }
  }

  lemma CreatedRegistry(s: Store, x: Cell, p: Ref)
    requires Shaped(s) && Registry(s) && p < |s| && HostFields(x) && !x.down
    requires x.kind.Host? ==> p == GLOBAL && x.name.Some? && !NameTaken(s, x.name.value)
    requires !x.kind.Global?
    ensures Registry(Created(s, x, p))
  {
    var t := Created(s, x, p);
    var n := |s|;
    forall q | 0 <= q < |t| ensures HostFields(t[q]) {
      assert q < n ==> HostFields(s[q]);
    }
    assert t[GLOBAL].hosts == if x.kind.Host? then s[GLOBAL].hosts + [n] else s[GLOBAL].hosts;
    FreshNumber(s, GLOBAL, Hosts);
    NoDupAppend(s[GLOBAL].hosts, n);
    forall h <- s[GLOBAL].hosts ensures t[h].name == s[h].name && !t[h].down {
    }
    if x.kind.Host? {
      forall h <- s[GLOBAL].hosts ensures t[h].name != x.name {
        assert !Named(s, h, x.name.value);
      }
    }
  }

  lemma CreatedTidy(s: Store, x: Cell, p: Ref)
    requires Shaped(s) && Tidy(s) && p < |s| && NoChildren(x) && x.parent == Some(p) && Linked(x)
    ensures Tidy(Created(s, x, p))
  {
    hide Shaped, NoDup, Linked;
    var t, k0 := Created(s, x, p), SlotOf(x.kind);
    FreshNumber(s, p, k0);
    NoDupAppendIf(Arr(s[p], k0), |s|);
    NoDupAppendIf([], 0);
    forall q, k: Slot | 0 <= q < |t| && !k.Hosts? ensures NoDup(Arr(t[q], k)) && Home(t, q, k) {
      assert q == |s| ==> Arr(t[q], k) == [];
      assert q == p && k == k0 ==> Arr(t[q], k) == Arr(s[p], k0) + [|s|];
      assert q < |s| && !(q == p && k == k0) ==> Arr(t[q], k) == Arr(s[q], k);
      assert q < |s| ==> NoDup(Arr(s[q], k)) && Home(s, q, k);
    }
    SameLinked(s, t, x);
  }

  predicate SameLink(x: Cell, y: Cell) {
    y.kind == x.kind && y.owner == x.owner && y.parent == x.parent && y.down == x.down && y.command == x.command
  }

  lemma SameLinked(s: Store, t: Store, x: Cell)
    requires |t| == |s| + 1 && t[|s|] == x && Linked(x) && forall c :: 0 <= c < |s| ==> Linked(s[c])
    requires forall c :: 0 <= c < |s| ==> SameLink(s[c], t[c])
    ensures forall c :: 0 <= c < |t| ==> Linked(t[c])
  {
    forall c | 0 <= c < |t| ensures Linked(t[c]) {
      assert c < |s| ==> Linked(s[c]) && SameLink(s[c], t[c]);
    }
  }

  lemma NoDupAppendIf(a: seq<Ref>, y: Ref)
    ensures NoDup([])
    ensures NoDup(a) && y !in a ==> NoDup(a + [y])
  {
    if NoDup(a) {
      NoDupAppend(a, y);
    }
  }

  // ------------------------------------------------------------- claiming

  function Claimed(s: Store, ctx: Ref, role: string, h: Ref): Store
    requires ctx < |s| && h < |s|
  {
    var t := s[h := s[h].(role := Some(role), owner := Some(ctx), refcount := s[h].refcount + 1)];
    t[ctx := t[ctx].(hosts := t[ctx].hosts + [h])]
  }

  /** A claim keeps the registry, except one by the global context on a host
      whose name is registered: that lists the name twice. */
  lemma ClaimedRegistry(s: Store, ctx: Ref, role: string, h: Ref)
    requires Shaped(s) && Registry(s) && ctx < |s| && h < |s| && s[h].kind.Host? && !s[h].down && ctx != h
    ensures Registry(Claimed(s, ctx, role, h)) <==> (ctx != GLOBAL || !NameTaken(s, s[h].name.value))
  {
    var t := Claimed(s, ctx, role, h);
    assert HostFields(s[h]) && CellOk(s, GLOBAL);
    forall q | 0 <= q < |t| ensures HostFields(t[q]) && t[q].name == s[q].name && t[q].down == s[q].down {
      assert HostFields(s[q]);
    }
    hide HostFields, Shaped;
    if ctx != GLOBAL {
      assert t[GLOBAL].hosts == s[GLOBAL].hosts;
    } else if NameTaken(s, s[h].name.value) {
      ListedAgain(s, t, h);
    } else {
      ListedFirst(s, t, h);
    }
  }

  lemma ListedAgain(s: Store, t: Store, h: Ref)
    requires |s| == |t| > 0 && h < |s| && s[h].name.Some? && NameTaken(s, s[h].name.value)
    requires t[GLOBAL].hosts == s[GLOBAL].hosts + [h] && forall q :: 0 <= q < |t| ==> t[q].name == s[q].name
    ensures !Registry(t)
  {
    var g :| g in s[GLOBAL].hosts && Named(s, g, s[h].name.value);
    assert g in t[GLOBAL].hosts && h in t[GLOBAL].hosts;
    if g == h {
      assert h in multiset(s[GLOBAL].hosts);
    } else {
      assert t[g].name == t[h].name;
    }
  }

  lemma ListedFirst(s: Store, t: Store, h: Ref)
    requires Registry(s) && |s| == |t| && h < |s| && s[h].name.Some? && !NameTaken(s, s[h].name.value) && !s[h].down
    requires t[GLOBAL].hosts == s[GLOBAL].hosts + [h] && Fields(t)
    requires forall q :: 0 <= q < |t| ==> t[q].name == s[q].name && t[q].down == s[q].down
    ensures Registry(t)
  {
    forall g <- s[GLOBAL].hosts ensures t[g].name != t[h].name {
      assert !Named(s, g, s[h].name.value);
    }
    NoDupAppend(s[GLOBAL].hosts, h);
    hide Fields, NoDup;
  }

}
