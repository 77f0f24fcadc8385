/** What tearing down containers does to the store, however often it re-enters
    itself: what goes, what loses its owner or its parent, and what stays as it
    is. */
module Teardown {
  import opened Wrappers
  import opened ContainerStore

  // ----------------------------------------------------- steps of a cascade

  lemma RefsInShrinks(x: Cell, y: Cell, q: Ref)
    requires ArraysShrink(x, y) && (y.command == x.command || y.command.None?)
    ensures RefsIn(y, q) <= RefsIn(x, q)
  {
  }

  lemma {:induction false} RefsToShrinks(s: Store, t: Store, q: Ref)
    requires |s| == |t| && forall c :: 0 <= c < |s| ==> CellShrinks(s[c], t[c])
    ensures RefsTo(t, q) <= RefsTo(s, q)
  {
    if s != [] {
      var n := |s| - 1;
      RefsToShrinks(s[..n], t[..n], q);
      assert CellShrinks(s[n], t[n]);
      RefsInShrinks(s[n], t[n], q);
    }
  }

  /** A child has been dealt with: it is not owned by o, and either nothing
      below it is, or it is in no array any more. */
  ghost predicate Done(s: Store, y: Ref, o: Ref)
    requires Shaped(s)
  {
    y < |s| && s[y].owner != Some(o) && (Clean(s, y, o) || RefsTo(s, y) == 0)
  }

  lemma DoneShrinks(s: Store, t: Store, y: Ref, o: Ref)
    requires Shaped(s) && Shaped(t) && Shrinks(s, t) && Done(s, y, o)
    ensures Done(t, y, o)
  {
    assert CellShrinks(s[y], t[y]);
    if Clean(s, y, o) {
      CleanShrinks(s, t, y, o);
    } else {
      RefsToShrinks(s, t, y);
    }
  }

  lemma AllDoneClean(s: Store, x: Ref, o: Ref)
    requires Shaped(s) && x < |s|
    requires forall y: Ref :: IsChild(s[x], y) ==> Done(s, y, o)
    ensures Clean(s, x, o)
  {
    forall y: Ref | IsChild(s[x], y) ensures CleanChild(s, x, y, o) {
      ChildLevel(s, x, y);
      HeldByCell(s, x, y);
      assert Done(s, y, o);
    }
  }

  /** A container without references has no parent. */
  lemma ParentRefers(s: Store, c: Ref)
    requires Shaped(s) && c < |s| && s[c].parent.Some?
    ensures RefsTo(s, c) > 0
  {
    assert CellOk(s, c);
    var p := s[c].parent.value;
    assert c in multiset(Arr(s[p], SlotOf(s[c].kind)));
    HeldByCell(s, p, c);
  }

  /** A host list names hosts only, and only referenced ones. */
  lemma NotRegistered(s: Store, c: Ref)
    requires Shaped(s) && c < |s|
    requires !s[c].kind.Host? || RefsTo(s, c) == 0
    ensures c !in s[GLOBAL].hosts
  {
    if c in s[GLOBAL].hosts {
      assert CellOk(s, GLOBAL) && c in Arr(s[GLOBAL], Hosts) && ChildOk(s, GLOBAL, Hosts, c);
      assert c in multiset(s[GLOBAL].hosts);
      HeldByCell(s, GLOBAL, c);
    }
  }

  lemma NotOwnHost(s: Store, c: Ref)
    requires Shaped(s) && c < |s|
    ensures c !in s[c].hosts
  {
    if c in s[c].hosts {
      assert IsChild(s[c], c);
      ChildLevel(s, c, c);
    }
  }

  /** The container holds the same ones, and is not o's if it was not. */
  predicate SameLinks(x: Cell, y: Cell, o: Ref) {
    && y.kind == x.kind && (y.owner == Some(o) ==> x.owner == Some(o))
    && y.hosts == x.hosts && y.tests == x.tests && y.commands == x.commands && y.processes == x.processes
  }

  lemma {:induction false} CleanSame(s: Store, t: Store, x: Ref, o: Ref)
    requires Shaped(s) && Shaped(t) && x < |s| == |t| && Clean(s, x, o)
    requires forall c {:trigger SameLinks(s[c], t[c], o)} :: 0 <= c < |s| ==> SameLinks(s[c], t[c], o)
    ensures Clean(t, x, o)
    decreases Level(s, x)
  {
    assert SameLinks(s[x], t[x], o);
    forall y: Ref | IsChild(t[x], y) ensures CleanChild(t, x, y, o) {
      ChildLevel(s, x, y);
      assert CleanChild(s, x, y, o) && SameLinks(s[y], t[y], o);
      CleanSame(s, t, y, o);
    }
  }

  // ------------------------------------------------------- whole cascades

  /** Whatever was destroyed on the way from s to t holds nothing, and owns nothing
      that can be reached. */
  ghost predicate NewlyClean(s: Store, t: Store)
    requires Shaped(t) && |s| == |t|
  {
    forall o: Ref :: o < |s| && t[o].down && !s[o].down ==> DeadAt(t, o)
  }

  ghost predicate DeadAt(t: Store, o: Ref)
    requires Shaped(t) && o < |t|
  {
    NoRefs(t[o]) && Clean(t, GLOBAL, o)
  }

  /** A command that its parent owns loses its parent only by being destroyed. */
  predicate ParentKept(s: Store, t: Store, y: Ref)
    requires y < |s| == |t|
  {
    s[y].kind.Command? && s[y].owner.Some? && s[y].parent == s[y].owner && t[y].parent.None? ==> t[y].down
  }

  /** What an array of anything but hosts still holds has not lost its parent, if
      the array held nothing twice. */
  predicate HomeKept(s: Store, t: Store, p: Ref, k: Slot, y: Ref)
    requires p < |s| == |t|
  {
    y < |s| && s[y].parent == Some(p) && NoDup(Arr(s[p], k)) ==> t[y].parent == Some(p)
  }

  ghost predicate HomesKept(s: Store, t: Store)
    requires |s| == |t|
  {
    && (forall y {:trigger ParentKept(s, t, y)} :: 0 <= y < |s| ==> ParentKept(s, t, y))
    && (forall p, k: Slot, y {:trigger HomeKept(s, t, p, k, y)} ::
          0 <= p < |s| && !k.Hosts? && y in Arr(t[p], k) ==> HomeKept(s, t, p, k, y))
  }

  // ------------------------------------------------ what cascades do not touch

  /** Something outside d holds y. */
  predicate HeldOutside(s: Store, d: set<Ref>, y: Ref) {
    exists p :: 0 <= p < |s| && p !in d && RefsIn(s[p], y) > 0
  }

  /** y was not destroyed, does not belong to d as a command or a process, and
      does not depend on d alone. */
  predicate Outside(s: Store, d: set<Ref>, y: Ref)
    requires y < |s|
  {
    && !s[y].down
    && (Owned(s[y]) && s[y].owner.Some? ==> s[y].owner.value !in d)
    && (y != GLOBAL ==> HeldOutside(s, d, y))
  }

  /** d has everything that was destroyed, what its members own, and what is held
      by its members only. */
  predicate Closed(s: Store, d: set<Ref>) {
    forall y {:trigger Outside(s, d, y)} :: 0 <= y < |s| && y !in d ==> Outside(s, d, y)
  }

  /** The container is not destroyed; it may lose its owner and its parent to d,
      and children that are in d. */
  ghost predicate SparedCell(s: Store, x: Cell, y: Ref, d: set<Ref>)
    requires y < |s|
  {
    && x.down == s[y].down && x.phase == s[y].phase && x.command == s[y].command
    && (x.owner == s[y].owner || (s[y].owner.Some? && s[y].owner.value in d))
    && (x.parent == s[y].parent || (s[y].parent.Some? && s[y].parent.value in d) || HostOf(s, d, y))
    && forall k: Slot, z {:trigger Count(Arr(x, k), z)} :: z !in d ==> Count(Arr(x, k), z) == Count(Arr(s[y], k), z)
  }

  predicate HostOf(s: Store, d: set<Ref>, y: Ref) {
    exists p :: 0 <= p < |s| && p in d && y in s[p].hosts
  }

  ghost predicate Spared(s: Store, t: Store, d: set<Ref>)
    requires |s| == |t|
  {
    forall y {:trigger SparedCell(s, t[y], y, d)} :: 0 <= y < |s| && y !in d ==> SparedCell(s, t[y], y, d)
  }

  /** Whatever is closed and has the roots has all that is destroyed. */
  ghost predicate Spares(s: Store, t: Store, roots: set<Ref>)
    requires |s| == |t|
  {
    forall d {:trigger Closed(s, d)} :: Closed(s, d) && roots <= d ==> Spared(s, t, d)
  }

  lemma CountRefs(x: Cell, y: Cell, q: Ref)
    requires y.command == x.command && forall k: Slot {:trigger Arr(y, k)} :: Count(Arr(y, k), q) == Count(Arr(x, k), q)
    ensures RefsIn(y, q) == RefsIn(x, q)
  {
    assert Count(Arr(y, Hosts), q) == Count(Arr(x, Hosts), q) && Count(Arr(y, Tests), q) == Count(Arr(x, Tests), q);
    assert Count(Arr(y, Commands), q) == Count(Arr(x, Commands), q) && Count(Arr(y, Processes), q) == Count(Arr(x, Processes), q);
  }

  lemma StillClosed(s: Store, t: Store, d: set<Ref>)
    requires |s| == |t| && Closed(s, d) && Spared(s, t, d)
    requires forall y :: 0 <= y < |s| ==> CellShrinks(s[y], t[y])
    ensures Closed(t, d)
  {
    forall y | 0 <= y < |t| && y !in d ensures Outside(t, d, y) {
      assert Outside(s, d, y) && SparedCell(s, t[y], y, d);
      if y != GLOBAL {
        var p :| 0 <= p < |s| && p !in d && RefsIn(s[p], y) > 0;
        assert SparedCell(s, t[p], p, d);
        CountRefs(s[p], t[p], y);
      }
    }
  }

  lemma SparedTrans(s: Store, t: Store, u: Store, d: set<Ref>)
    requires |s| == |t| == |u| && Spared(s, t, d) && Spared(t, u, d)
    requires forall y :: 0 <= y < |s| ==> CellShrinks(s[y], t[y])
    ensures Spared(s, u, d)
  {
    forall y | 0 <= y < |s| && y !in d ensures SparedCell(s, u[y], y, d) {
      assert SparedCell(s, t[y], y, d) && SparedCell(t, u[y], y, d);
      if HostOf(t, d, y) {
        var p :| 0 <= p < |t| && p in d && y in t[p].hosts;
        SubArray(s[p].hosts, t[p].hosts, y);
      }
    }
  }

  lemma SparesTrans(s: Store, t: Store, u: Store, roots: set<Ref>)
    requires Shrinks(s, t) && |t| == |u| && Spares(s, t, roots) && Spares(t, u, roots)
    ensures Spares(s, u, roots)
  {
    forall d | Closed(s, d) && roots <= d ensures Spared(s, u, d) {
      StillClosed(s, t, d);
      SparedTrans(s, t, u, d);
    }
  }

  /** Only one container changes, and only if it is in d. */
  lemma SparesUpdate(s: Store, c: Ref, x: Cell, roots: set<Ref>)
    requires c < |s|
    requires SparedSame(s[c], x) || forall d :: Closed(s, d) && roots <= d ==> c in d
    ensures Spares(s, s[c := x], roots)
  {
    var t := s[c := x];
    forall d | Closed(s, d) && roots <= d ensures Spared(s, t, d) {
      forall y | 0 <= y < |s| && y !in d ensures SparedCell(s, t[y], y, d) {
      }
    }
  }

  predicate SparedSame(x: Cell, y: Cell) {
    y.down == x.down && y.phase == x.phase && y.owner == x.owner && y.parent == x.parent && SameRefs(x, y)
  }

  lemma DownIsIn(s: Store, c: Ref, roots: set<Ref>)
    requires c < |s| && s[c].down
    ensures forall d :: Closed(s, d) && roots <= d ==> c in d
  {
    forall d | Closed(s, d) && roots <= d ensures c in d {
      assert c !in d ==> Outside(s, d, c);
    }
  }

  // -------------------------------------------------------------- all of that

  /** What a cascade does: it lets go of things, what it destroys owns nothing
      any more, it destroys nothing that does not depend on the roots or on what
      was destroyed before, and of the registered hosts it leaves these. */
  ghost predicate CascadesTo(s: Store, t: Store, hosts: seq<Ref>, roots: set<Ref>) {
    Shrinks(s, t) && Shaped(t) && t[GLOBAL].hosts == hosts && NewlyClean(s, t) && HomesKept(s, t) && Spares(s, t, roots)
  }

  /** A cascade takes no host off the list. */
  ghost predicate Cascades(s: Store, t: Store) {
    |s| > 0 && CascadesTo(s, t, s[GLOBAL].hosts, {})
  }

  lemma HomesKeptTrans(s: Store, t: Store, u: Store)
    requires Shrinks(s, t) && Shrinks(t, u) && HomesKept(s, t) && HomesKept(t, u)
    ensures HomesKept(s, u)
  {
    forall y | 0 <= y < |s| ensures ParentKept(s, u, y) {
      assert ParentKept(s, t, y) && ParentKept(t, u, y) && OwnerKept(s, t, y);
      assert CellShrinks(s[y], t[y]) && CellShrinks(t[y], u[y]);
    }
    forall p, k: Slot, y | 0 <= p < |s| && !k.Hosts? && y in Arr(u[p], k) ensures HomeKept(s, u, p, k, y) {
      assert CellShrinks(s[p], t[p]) && CellShrinks(t[p], u[p]);
      SubArray(Arr(t[p], k), Arr(u[p], k), y);
      assert HomeKept(s, t, p, k, y) && HomeKept(t, u, p, k, y);
      if NoDup(Arr(s[p], k)) {
        NoDupSub(Arr(s[p], k), Arr(t[p], k));
      }
    }
  }

  lemma DeadStill(s: Store, t: Store, o: Ref)
    requires Shaped(s) && Shaped(t) && Shrinks(s, t) && o < |s| && DeadAt(s, o)
    ensures DeadAt(t, o)
  {
    assert CellShrinks(s[o], t[o]);
    NoRefsShrinks(s[o], t[o]);
    CleanShrinks(s, t, GLOBAL, o);
  }

  lemma CascadesTrans(s: Store, t: Store, u: Store)
    requires Cascades(s, t) && Cascades(t, u)
    ensures Cascades(s, u)
  {
    JoinCascades(s, t, u, t[GLOBAL].hosts, {});
  }

  lemma MoreRoots(s: Store, t: Store, roots: set<Ref>)
    requires |s| == |t| && Spares(s, t, {})
    ensures Spares(s, t, roots)
  {
    forall d | Closed(s, d) && roots <= d ensures Spared(s, t, d) {
      assert {} <= d;
    }
  }

  lemma JoinCascades(s: Store, t: Store, u: Store, hosts: seq<Ref>, roots: set<Ref>)
    requires CascadesTo(s, t, hosts, roots) && Cascades(t, u)
    ensures CascadesTo(s, u, hosts, roots)
  {
    hide DeadAt, Shaped, HomesKept, Spares;
    ShrinksTrans(s, t, u);
    HomesKeptTrans(s, t, u);
    MoreRoots(t, u, roots);
    SparesTrans(s, t, u, roots);
    forall o: Ref | o < |s| && u[o].down && !s[o].down ensures DeadAt(u, o) {
      if t[o].down {
        DeadStill(t, u, o);
      }
    }
    hide Shrinks;
  }

  /** The same, with the roots in the second cascade. */
  lemma JoinFirst(s: Store, t: Store, u: Store, hosts: seq<Ref>, roots: set<Ref>)
    requires Cascades(s, t) && CascadesTo(t, u, hosts, roots)
    ensures CascadesTo(s, u, hosts, roots)
  {
    hide DeadAt, Shaped, HomesKept, Spares;
    ShrinksTrans(s, t, u);
    HomesKeptTrans(s, t, u);
    MoreRoots(s, t, roots);
    SparesTrans(s, t, u, roots);
    forall o: Ref | o < |s| && u[o].down && !s[o].down ensures DeadAt(u, o) {
      if t[o].down {
        DeadStill(t, u, o);
      }
    }
    hide Shrinks;
  }

  /** Nothing is destroyed, loses its parent or leaves an array, and no host
      leaves the list. */
  predicate Quiet(s: Store, t: Store) {
    && |s| == |t| > 0 && t[GLOBAL].hosts == s[GLOBAL].hosts
    && forall o :: 0 <= o < |s| ==> t[o].down == s[o].down && t[o].parent == s[o].parent
  }

  lemma QuietHomes(s: Store, t: Store)
    requires |s| == |t| && forall o :: 0 <= o < |s| ==> t[o].parent == s[o].parent
    ensures HomesKept(s, t)
  {
    forall y | 0 <= y < |s| ensures ParentKept(s, t, y) {
    }
    forall p, k: Slot, y | 0 <= p < |s| && !k.Hosts? && y in Arr(t[p], k) ensures HomeKept(s, t, p, k, y) {
    }
  }

  lemma QuietCascades(s: Store, t: Store)
    requires Shrinks(s, t) && Shaped(t) && Quiet(s, t) && Spares(s, t, {})
    ensures Cascades(s, t)
  {
    QuietHomes(s, t);
    hide HomesKept, Spares, Shrinks, Shaped;
  }

  lemma CascadesRefl(s: Store)
    requires Shaped(s)
    ensures Cascades(s, s)
  {
    ShrinksRefl(s);
    SparesUpdate(s, GLOBAL, s[GLOBAL], {});
    assert s[GLOBAL := s[GLOBAL]] == s;
    QuietCascades(s, s);
  }

  lemma CascadesAt(s: Store, t: Store, c: Ref)
    requires Cascades(s, t) && c < |s|
    ensures |t| == |s| && CellShrinks(s[c], t[c]) && Weight(t) <= Weight(s) && t[GLOBAL].hosts == s[GLOBAL].hosts
  {
    ShrinksAt(s, t, c);
  }

  /** One more container lets go of things, and is not destroyed by that. */
  lemma CascadesStep(o: Store, s: Store, c: Ref, x: Cell)
    requires Cascades(o, s) && c < |s| && CellShrinks(s[c], x) && Shaped(s[c := x]) && OwnerLost(s, c, x)
    requires x.down == s[c].down && x.parent == s[c].parent && (c == GLOBAL ==> x.hosts == s[c].hosts)
    requires SparedSame(s[c], x) || s[c].down || (s[c].owner.Some? && s[c].owner.value < |s| && s[s[c].owner.value].down && x == s[c].(owner := None, role := x.role))
    ensures Cascades(o, s[c := x])
  {
    var t := s[c := x];
    ShrinksRefl(s);
    ShrinksStep(s, s, c, x);
    StepSpares(s, c, x);
    hide Shrinks, CellShrinks, Shaped, CascadesTo, Spares;
    QuietCascades(s, t);
    CascadesTrans(o, s, t);
  }

  lemma StepSpares(s: Store, c: Ref, x: Cell)
    requires c < |s|
    requires SparedSame(s[c], x) || s[c].down || (s[c].owner.Some? && s[c].owner.value < |s| && s[s[c].owner.value].down && x == s[c].(owner := None, role := x.role))
    ensures Spares(s, s[c := x], {})
  {
    if SparedSame(s[c], x) {
      SparesUpdate(s, c, x, {});
    } else if s[c].down {
      DownIsIn(s, c, {});
      SparesUpdate(s, c, x, {});
    } else {
      var o := s[c].owner.value;
      DownIsIn(s, o, {});
      var t := s[c := x];
      forall d | Closed(s, d) ensures Spared(s, t, d) {
        assert {} <= d && o in d;
        forall y | 0 <= y < |s| && y !in d ensures SparedCell(s, t[y], y, d) {
        }
      }
    }
  }

  /** A container has left its parent and counts as destroyed; then what it owns
      is released, and it is dismantled. */
  lemma DestroyCascades(s: Store, s1: Store, t: Store, c: Ref)
    requires Shrinks(s, s1) && Shaped(s1) && c < |s| == |s1| && HomesKept(s, s1) && Spares(s, s1, {c})
    requires forall o: Ref :: o < |s| && o != c && s1[o].down && !s[o].down ==> DeadAt(s1, o)
    requires Cascades(s1, t) && DeadAt(t, c)
    ensures CascadesTo(s, t, s1[GLOBAL].hosts, {c})
  {
    hide DeadAt, Shaped, HomesKept, Spares;
    ShrinksTrans(s, s1, t);
    HomesKeptTrans(s, s1, t);
    MoreRoots(s1, t, {c});
    SparesTrans(s, s1, t, {c});
    forall o: Ref | o < |s| && t[o].down && !s[o].down ensures DeadAt(t, o) {
      if o != c && s1[o].down {
        DeadStill(s1, t, o);
      }
    }
    hide Shrinks;
  }

  /** A list without its first entry for a container. */
  function Without(a: seq<Ref>, c: Ref): seq<Ref> {
    if a == [] then [] else if a[0] == c then a[1..] else [a[0]] + Without(a[1..], c)
  }

  lemma {:induction false} WithoutAt(a: seq<Ref>, i: nat)
    requires i < |a| && a[i] !in a[..i]
    ensures Without(a, a[i]) == a[..i] + a[i + 1..]
  {
    if i > 0 {
      assert a[0] in a[..i] && a[1..][..i - 1] == a[..i][1..];
      WithoutAt(a[1..], i - 1);
      assert a[..i] + a[i + 1..] == [a[0]] + (a[1..][..i - 1] + a[1..][i..]);
    } else {
      assert a[..0] + a[1..] == a[1..];
    }
  }

  lemma {:induction false} WithoutNone(a: seq<Ref>, c: Ref)
    requires c !in a
    ensures Without(a, c) == a
  {
    if a != [] {
      WithoutNone(a[1..], c);
    }
  }

  /** The registered hosts after one array has lost its first entry for c. */
  function HostsWithout(s: Store, p: Ref, k: Slot, c: Ref): seq<Ref>
    requires |s| > 0
  {
    if p == GLOBAL && k.Hosts? then Without(s[GLOBAL].hosts, c) else s[GLOBAL].hosts
  }

  lemma {:induction false} WithoutCount(a: seq<Ref>, c: Ref, y: Ref)
    ensures Count(Without(a, c), y) == Count(a, y) - if y == c && c in a then 1 else 0
  {
    if a != [] {
      assert a == [a[0]] + a[1..];
      if a[0] != c {
        WithoutCount(a[1..], c, y);
      }
    }
  }

  lemma WithoutIn(a: seq<Ref>, c: Ref)
    requires c in a
    ensures c in Without(a, c) <==> Count(a, c) > 1
  {
    WithoutCount(a, c, c);
    var b := Without(a, c);
    assert c in b <==> c in multiset(b);
  }

  /** The registered hosts after a container is destroyed. */
  function HostsAfter(s: Store, c: Ref): seq<Ref>
    requires c < |s|
  {
    if s[c].kind.Host? && s[c].parent.Some? then Without(s[GLOBAL].hosts, c) else s[GLOBAL].hosts
  }

  lemma LastPutCell(x: Cell, y: Cell)
    requires x.phase.Live? && CellShrinks(x.(owner := None, phase := Dying), y) && y.down
    ensures CellShrinks(x, y.(phase := Freed, refcount := 0))
  {
  }

  lemma LastPutOwners(s: Store, s1: Store, s2: Store, s3: Store, c: Ref)
    requires c < |s| == |s2|
    requires s1 == s[c := s[c].(owner := None, phase := Dying)]
    requires OwnersKept(s1, s2) && s2[c].down && NoRefs(s2[c])
    requires s3 == s2[c := s2[c].(phase := Freed, refcount := 0)]
    ensures OwnersKept(s, s3)
  {
    forall q | 0 <= q < |s| ensures OwnerKept(s, s3, q) {
      assert OwnerKept(s1, s2, q);
    }
  }

  /** The last reference was dropped: the container died, was destroyed, and
      is gone. */
  lemma LastPutShrinks(s: Store, s1: Store, s2: Store, s3: Store, c: Ref)
    requires c < |s| && s[c].phase.Live? && c != GLOBAL
    requires s1 == s[c := s[c].(owner := None, phase := Dying)]
    requires Shrinks(s1, s2) && s2[c].down && s2[c].phase.Dying? && NoRefs(s2[c])
    requires s3 == s2[c := s2[c].(phase := Freed, refcount := 0)]
    ensures Shrinks(s, s3)
  {
    WeightUpdate(s, c, s1[c]);
    WeightUpdate(s2, c, s3[c]);
    LastPutOwners(s, s1, s2, s3, c);
    forall q | 0 <= q < |s| ensures CellShrinks(s[q], s3[q]) {
      assert CellShrinks(s1[q], s2[q]);
      if q == c {
        LastPutCell(s[c], s2[c]);
      } else {
        assert s1[q] == s[q] && s3[q] == s2[q];
      }
    }
    assert RegisteredKept(s, s3) by {
      assert s1[GLOBAL] == s[GLOBAL] && s3[GLOBAL] == s2[GLOBAL];
      forall h <- s3[GLOBAL].hosts | NoDup(s[GLOBAL].hosts) && h < |s3| ensures s3[h].down == s[h].down {
        assert s2[h].down == s1[h].down;
      }
    }
  }

  /** A container that nothing refers to depends on nothing outside any set. */
  lemma UnheldIsIn(s: Store, c: Ref)
    requires c < |s| && c != GLOBAL && RefsTo(s, c) == 0
    ensures forall d :: Closed(s, d) ==> c in d
  {
    forall d | Closed(s, d) ensures c in d {
      if c !in d {
        assert Outside(s, d, c);
        var p :| 0 <= p < |s| && p !in d && RefsIn(s[p], c) > 0;
        HeldByCell(s, p, c);
      }
    }
  }

  lemma LastPutHomes(s: Store, s1: Store, s2: Store, s3: Store, c: Ref)
    requires c < |s| == |s2| && s1 == s[c := s[c].(owner := None, phase := Dying)]
    requires HomesKept(s1, s2) && s2[c].down
    requires s3 == s2[c := s2[c].(phase := Freed, refcount := 0)]
    ensures HomesKept(s, s3)
  {
    forall y | 0 <= y < |s| ensures ParentKept(s, s3, y) {
      assert ParentKept(s1, s2, y);
    }
    forall p, k: Slot, y | 0 <= p < |s| && !k.Hosts? && y in Arr(s3[p], k) ensures HomeKept(s, s3, p, k, y) {
      assert HomeKept(s1, s2, p, k, y);
      assert Arr(s1[p], k) == Arr(s[p], k);
    }
  }

  lemma LastPutSpares(s: Store, s1: Store, s2: Store, s3: Store, c: Ref)
    requires c < |s| == |s2| && s1 == s[c := s[c].(owner := None, phase := Dying)] && c != GLOBAL && RefsTo(s, c) == 0
    requires Shrinks(s1, s2) && Spares(s1, s2, {c}) && s3 == s2[c := s2[c].(phase := Freed, refcount := 0)]
    ensures Spares(s, s3, {})
  {
    UnheldIsIn(s, c);
    forall d | Closed(s, d) ensures Spared(s, s3, d) {
      assert c in d;
      InSpares(s, c, s1[c], d);
      ClosedUpdate(s, c, s1[c], d);
      assert {c} <= d;
      SparedFrom(s, s1, s2, c, d);
      forall y | 0 <= y < |s| && y !in d ensures SparedCell(s, s3[y], y, d) {
        assert SparedCell(s, s2[y], y, d);
      }
    }
  }

  lemma InSpares(s: Store, c: Ref, x: Cell, d: set<Ref>)
    requires c < |s| && c in d
    ensures Spared(s, s[c := x], d)
  {
    forall y | 0 <= y < |s| && y !in d ensures SparedCell(s, s[c := x][y], y, d) {
    }
  }

  lemma ClosedUpdate(s: Store, c: Ref, x: Cell, d: set<Ref>)
    requires c < |s| && c in d && Closed(s, d)
    ensures Closed(s[c := x], d)
  {
    var t := s[c := x];
    forall y | 0 <= y < |t| && y !in d ensures Outside(t, d, y) {
      assert Outside(s, d, y);
      if y != GLOBAL {
        var p :| 0 <= p < |s| && p !in d && RefsIn(s[p], y) > 0;
        assert t[p] == s[p];
      }
    }
  }

  /** One container, in d, changed first, without its hosts. */
  lemma SparedFrom(s: Store, s1: Store, t: Store, c: Ref, d: set<Ref>)
    requires c < |s| == |t| == |s1| && s1 == s[c := s1[c]] && c in d && s1[c].hosts == s[c].hosts && Spared(s1, t, d)
    ensures Spared(s, t, d)
  {
    forall y | 0 <= y < |s| && y !in d ensures SparedCell(s, t[y], y, d) {
      assert SparedCell(s1, t[y], y, d) && s1[y] == s[y];
      if HostOf(s1, d, y) {
        var p :| 0 <= p < |s1| && p in d && y in s1[p].hosts;
        assert s1[p].hosts == s[p].hosts;
      }
    }
  }

  lemma LastPutCascades(s: Store, s1: Store, s2: Store, s3: Store, c: Ref)
    requires c < |s| && s[c].phase.Live? && c != GLOBAL && RefsTo(s, c) == 0
    requires s1 == s[c := s[c].(owner := None, phase := Dying)]
    requires CascadesTo(s1, s2, s[GLOBAL].hosts, {c}) && s2[c].down && s2[c].phase.Dying? && NoRefs(s2[c])
    requires s3 == s2[c := s2[c].(phase := Freed, refcount := 0)] && Shaped(s3)
    ensures Cascades(s, s3)
  {
    LastPutShrinks(s, s1, s2, s3, c);
    LastPutHomes(s, s1, s2, s3, c);
    LastPutSpares(s, s1, s2, s3, c);
    CellShrinksRefl(s2[c]);
    ShrinksRefl(s2);
    ShrinksStep(s2, s2, c, s3[c]);
    hide DeadAt, Shaped, HomesKept, Spares;
    forall o: Ref | o < |s| && s3[o].down && !s[o].down ensures DeadAt(s3, o) {
      assert s2[o].down && !s1[o].down;
      DeadStill(s2, s3, o);
    }
    hide Shrinks;
  }

  /** A command or a process lost its owner, which was destroyed, and was
      destroyed itself. */
  lemma DisownedCascades(s: Store, s1: Store, t: Store, y: Ref)
    requires y < |s| && Owned(s[y]) && s[y].owner.Some? && s[y].owner.value < |s| && s[s[y].owner.value].down
    requires s1 == s[y := s[y].(owner := None)] && Cascades(s, s)
    requires CascadesTo(s1, t, s[GLOBAL].hosts, {y}) && t[y].down && NoRefs(t[y])
    ensures Cascades(s, t)
  {
    DisownedShrinks(s, s1, t, y);
    DisownedHomes(s, s1, t, y);
    DisownedSpares(s, s1, t, y);
    hide DeadAt, Shaped, HomesKept, Spares, Shrinks;
    assert forall o: Ref :: o < |s| ==> s1[o].down == s[o].down;
  }

  lemma DisownedShrinks(s: Store, s1: Store, t: Store, y: Ref)
    requires y < |s| && Owned(s[y]) && s1 == s[y := s[y].(owner := None)]
    requires Shrinks(s1, t) && t[y].down && NoRefs(t[y])
    ensures Shrinks(s, t)
  {
    WeightUpdate(s, y, s1[y]);
    forall q | 0 <= q < |s| ensures CellShrinks(s[q], t[q]) && OwnerKept(s, t, q) {
      assert CellShrinks(s1[q], t[q]) && OwnerKept(s1, t, q);
    }
    assert RegisteredKept(s, t) by {
      assert s1[GLOBAL].hosts == s[GLOBAL].hosts;
      forall h <- t[GLOBAL].hosts | NoDup(s[GLOBAL].hosts) && h < |t| ensures t[h].down == s[h].down {
        assert t[h].down == s1[h].down;
      }
    }
  }

  lemma DisownedHomes(s: Store, s1: Store, t: Store, y: Ref)
    requires y < |s| == |t| && s1 == s[y := s[y].(owner := None)] && HomesKept(s1, t) && t[y].down
    ensures HomesKept(s, t)
  {
    forall q | 0 <= q < |s| ensures ParentKept(s, t, q) {
      assert ParentKept(s1, t, q);
    }
    forall p, k: Slot, q | 0 <= p < |s| && !k.Hosts? && q in Arr(t[p], k) ensures HomeKept(s, t, p, k, q) {
      assert HomeKept(s1, t, p, k, q);
      assert Arr(s1[p], k) == Arr(s[p], k);
    }
  }

  lemma DisownedSpares(s: Store, s1: Store, t: Store, y: Ref)
    requires y < |s| == |t| && Owned(s[y]) && s[y].owner.Some? && s[y].owner.value < |s| && s[s[y].owner.value].down
    requires s1 == s[y := s[y].(owner := None)] && Spares(s1, t, {y})
    ensures Spares(s, t, {})
  {
    DownIsIn(s, s[y].owner.value, {});
    forall d | Closed(s, d) ensures Spared(s, t, d) {
      assert {} <= d && s[y].owner.value in d;
      assert y !in d ==> Outside(s, d, y);
      ClosedUpdate(s, y, s1[y], d);
      assert {y} <= d;
      SparedFrom(s, s1, t, y, d);
    }
  }
}
