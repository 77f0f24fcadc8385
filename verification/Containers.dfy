/** The master: containers are created, referenced, and torn down by a cascade
    that re-enters itself. */
module Containers {
  import opened Wrappers
  import opened ContainerStore
  import opened Teardown

  class Master {
    var cells: Store
    /** The references that running code holds, besides those in the store. */
    ghost var held: multiset<Ref>

    ghost predicate Valid()
      reads this
    {
      Inv(cells, held)
    }

    ghost predicate Has(c: Ref)
      reads this
    {
      c < |cells| && held[c] > 0
    }

    /** Nothing but the global context, which is never released. */
    constructor ()
      ensures Valid() && held == multiset{}
      ensures cells == [Cell(Global, Live, 1, None, None, [], [], [], [], None, false, Some("globalcontext"), None, None, false, 0, 0)]
    {
      cells := [Cell(Global, Live, 1, None, None, [], [], [], [], None, false, Some("globalcontext"), None, None, false, 0, 0)];
      held := multiset{};
    }

    /** Another reference, to a container that has not been freed. */
    method Get(c: Ref)
      requires Valid() && c < |cells| && cells[c].phase.Live? && cells[c].refcount > 0
      modifies this
      ensures Valid() && held == old(held) + multiset{c}
      ensures cells == old(cells)[c := old(cells[c]).(refcount := old(cells[c].refcount) + 1)]
    {
      assert CellOk(cells, c);
      var x := cells[c].(refcount := cells[c].refcount + 1);
      ShapedKeep(cells, c, x);
      assert CountOk(cells, held, c);
      CountedHeld(cells, held, c, x, held + multiset{c});
      cells := cells[c := x];
      held := held + multiset{c};
    }

    /** A container changes without its arrays or its reference count changing. */
    method Modify(c: Ref, x: Cell)
      requires Valid() && c < |cells|
      requires x.kind == cells[c].kind && SameRefs(cells[c], x) && x.refcount == cells[c].refcount && x.phase == cells[c].phase
      requires x.parent == cells[c].parent || x.parent.None?
      requires x.owner == cells[c].owner || x.owner.None?
      requires (c == GLOBAL ==> x.down == cells[c].down) && PhaseOk(x)
      modifies this`cells
      ensures Valid() && cells == old(cells)[c := x]
    {
      assert CellOk(cells, c);
      ShapedKeep(cells, c, x);
      CountedSame(cells, held, c, x);
      cells := cells[c := x];
    }

    /** Take entry i out of an array; its reference is now ours. */
    method TakeAt(p: Ref, k: Slot, i: nat) returns (taken: Ref)
      requires Valid() && p < |cells| && i < |Arr(cells[p], k)|
      requires Arr(cells[p], k)[i] < |cells| ==> cells[Arr(cells[p], k)[i]].parent != Some(p)
      modifies this
      ensures Valid() && taken == old(Arr(cells[p], k)[i]) && taken < |cells| && held == old(held) + multiset{taken}
      ensures cells == old(cells)[p := SetArr(old(cells[p]), k, old(Arr(cells[p], k))[..i] + old(Arr(cells[p], k))[i + 1..])]
    {
      var a := Arr(cells[p], k);
      taken := a[i];
      var b := a[..i] + a[i + 1..];
      assert a == a[..i] + [taken] + a[i + 1..];
      assert multiset(a) == multiset(b) + multiset{taken};
      TakeOk(cells, held, p, k, b, taken);
      cells := cells[p := SetArr(cells[p], k, b)];
      held := held + multiset{taken};
    }

    // --------------------------------------------------------- the cascade

    /** Drop a reference. The last one takes the container with it. */
    method Put(c: Ref)
      requires Valid() && Has(c) && cells[c].phase.Live?
      modifies this
      ensures Valid() && held == old(held) - multiset{c} && Cascades(old(cells), cells)
      ensures old(cells[c].refcount) > 1 ==> cells == old(cells)[c := old(cells[c]).(refcount := old(cells[c].refcount) - 1)]
      decreases Weight(cells), 0
    {
      hide Cascades, CascadesTo, Shrinks, Shaped, Counted;
      if cells[c].refcount > 1 {
        PutSpare(c);
        return;
      }
      ghost var s := cells;
      LastReference(c);
      Die(c);
      ghost var s1 := cells;
      Destroy(c);
      ghost var s2 := cells;
      CascadesToAt(s1, s2, HostsAfter(s1, c), {c}, c);
      Vanish(c);
      LastPutCascades(s, s[c := s[c].(owner := None, phase := Dying)], s2, cells, c);
    }

    method PutSpare(c: Ref)
      requires Valid() && Has(c) && cells[c].phase.Live? && cells[c].refcount > 1
      modifies this
      ensures Valid() && held == old(held) - multiset{c} && Cascades(old(cells), cells)
      ensures cells == old(cells)[c := old(cells[c]).(refcount := old(cells[c].refcount) - 1)]
    {
      assert CountOk(cells, held, c) && CellOk(cells, c);
      var x := cells[c].(refcount := cells[c].refcount - 1);
      ShapedKeep(cells, c, x);
      CountedHeld(cells, held, c, x, held - multiset{c});
      CascadesRefl(cells);
      CascadesStep(cells, cells, c, x);
      cells := cells[c := x];
      held := held - multiset{c};
    }

    lemma LastReference(c: Ref)
      requires Valid() && Has(c) && cells[c].phase.Live? && cells[c].refcount <= 1
      ensures c != GLOBAL && RefsTo(cells, c) == 0 && held[c] == 1 && cells[c].refcount == 1 && cells[c].parent.None?
    {
      assert CountOk(cells, held, c);
      if cells[c].parent.Some? {
        ParentRefers(cells, c);
      }
    }

    method Die(c: Ref)
      requires Valid() && Has(c) && cells[c].phase.Live? && c != GLOBAL
      requires RefsTo(cells, c) == 0 && held[c] == 1 && cells[c].refcount == 1 && cells[c].parent.None?
      modifies this`cells
      ensures Valid() && cells == old(cells)[c := old(cells[c]).(owner := None, phase := Dying)]
      ensures Weight(cells) < Weight(old(cells))
    {
      var x := cells[c].(owner := None, phase := Dying);
      ShapedKeep(cells, c, x);
      CountedHeld(cells, held, c, x, held);
      WeightUpdate(cells, c, x);
      cells := cells[c := x];
    }

    method Vanish(c: Ref)
      requires Valid() && Has(c) && cells[c].phase.Dying? && NoRefs(cells[c]) && cells[c].down
      modifies this
      ensures Valid() && held == old(held) - multiset{c}
      ensures cells == old(cells)[c := old(cells[c]).(phase := Freed, refcount := 0)]
    {
      assert CellOk(cells, c) && CountOk(cells, held, c);
      var x := cells[c].(phase := Freed, refcount := 0);
      ShapedKeep(cells, c, x);
      CountedHeld(cells, held, c, x, held - multiset{c});
      cells := cells[c := x];
      held := held - multiset{c};
    }

    /** Tear a container down: it leaves its parent, everything that it owns
        anywhere in the tree is released, and it lets go of its children. The
        caller holds a reference, so it is not freed yet. */
    method Destroy(c: Ref)
      requires Valid() && Has(c) && c != GLOBAL
      requires cells[c].kind.Host? && cells[c].phase.Live? ==> cells[c].parent.Some?
      modifies this
      ensures Valid() && held == old(held) && CascadesTo(old(cells), cells, HostsAfter(old(cells), c), {c})
      ensures |cells| == |old(cells)| && cells[c].kind == old(cells[c].kind)
      ensures cells[c].phase == old(cells[c].phase) && cells[c].down
      ensures cells[c].parent.None? && NoRefs(cells[c]) && Stripped(cells[c])
      ensures Clean(cells, GLOBAL, c)
      ensures old(cells[c].parent).Some? ==>
        var p, k := old(cells[c].parent).value, SlotOf(cells[c].kind);
        p < |cells| && Count(Arr(cells[p], k), c) < Count(Arr(old(cells)[p], k), c)
      decreases Weight(cells), 5
    {
      hide Cascades, CascadesTo, Shrinks, Shaped, Counted, Clean, HomesKept, Spares, NoOwn;
      ghost var s := cells;
      Detach(c);
      ghost var s1 := cells;
      ShrinksAt(s, s1, c);
      ReleaseBoth(c);
      ghost var s2 := cells;
      CascadesAt(s1, s2, c);
      Dismantle(c);
      CascadesTrans(s1, s2, cells);
      ShapedClean(s2, cells, c);
      CascadesAt(s2, cells, c);
      assert DeadAt(cells, c);
      DestroyCascades(s, s1, cells, c);
      DestroyedAt(s, cells, c);
      if s[c].parent.Some? {
        CascadesAt(s1, cells, s[c].parent.value);
      }
    }

    lemma DestroyedAt(s: Store, t: Store, c: Ref)
      requires Valid() && Has(c) && t == cells && c < |s| && CascadesTo(s, t, HostsAfter(s, c), {c})
      ensures |t| == |s| && t[c].kind == s[c].kind && t[c].phase == s[c].phase
    {
      ShrinksAt(s, t, c);
      assert CountOk(cells, held, c);
    }

    lemma ShapedClean(s: Store, t: Store, c: Ref)
      requires Shaped(s) && Cascades(s, t) && Clean(s, GLOBAL, c)
      ensures Shaped(t) && Clean(t, GLOBAL, c)
    {
      CleanShrinks(s, t, GLOBAL, c);
    }

    /** Whatever the container owns, anywhere in the tree or below itself. */
    method ReleaseBoth(c: Ref)
      requires Valid() && Has(c) && cells[c].down
      modifies this
      ensures Valid() && held == old(held) && Cascades(old(cells), cells)
      ensures Clean(cells, GLOBAL, c) && NoOwn(cells, c)
      decreases Weight(cells), 4
    {
      hide Cascades, CascadesTo, Shrinks, Shaped, Counted, Clean, NoOwn;
      ghost var s := cells;
      ReleaseOwned(GLOBAL, c);
      ghost var s1 := cells;
      CascadesAt(s, s1, c);
      ReleaseOwned(c, c);
      CascadesTrans(s, s1, cells);
      ShapedClean(s1, cells, c);
      CascadesAt(s1, cells, c);
      CleanNoOwn(cells, c);
    }

    lemma CleanNoOwn(s: Store, c: Ref)
      requires Shaped(s) && c < |s| && Clean(s, c, c)
      ensures NoOwn(s, c)
    {
      forall y <- s[c].commands ensures y < |s| ==> s[y].owner != Some(c) {
        assert IsChild(s[c], y) && CleanChild(s, c, y, c);
      }
    }

    method Dismantle(c: Ref)
      requires Valid() && Has(c) && cells[c].down && NoOwn(cells, c)
      modifies this
      ensures Valid() && held == old(held) && Cascades(old(cells), cells)
      ensures NoRefs(cells[c]) && Stripped(cells[c])
      decreases Weight(cells), 4
    {
      hide Cascades, CascadesTo, Shrinks, Shaped, Counted, Clean, NoOwn;
      ghost var s := cells;
      DestroyHook(c);
      ghost var s1 := cells;
      CascadesAt(s, s1, c);
      NoOwnStill(s, s1, c);
      DropChildren(c);
      CascadesTrans(s, s1, cells);
      CascadesAt(s1, cells, c);
    }

    /** Leave the parent. */
    method Detach(c: Ref)
      requires Valid() && Has(c) && c != GLOBAL
      requires cells[c].kind.Host? && cells[c].phase.Live? ==> cells[c].parent.Some?
      modifies this
      ensures Valid() && held == old(held) && Shrinks(old(cells), cells) && |cells| == |old(cells)|
      ensures HomesKept(old(cells), cells) && Spares(old(cells), cells, {c})
      ensures cells[GLOBAL].hosts == HostsAfter(old(cells), c)
      ensures forall o: Ref :: o < |cells| && o != c && cells[o].down && !old(cells)[o].down ==> DeadAt(cells, o)
      ensures cells[c].parent.None? && cells[c].down
      ensures old(cells[c].parent).Some? ==>
        var p, k := old(cells[c].parent).value, SlotOf(cells[c].kind);
        p < |cells| && Count(Arr(cells[p], k), c) < Count(Arr(old(cells)[p], k), c)
      decreases Weight(cells), 2
    {
      hide DeadAt, HomesKept, Spares, Shaped, Counted, Shrinks, CellShrinks, Count, HostsAfter;
      ghost var s := cells;
      HostParent(c);
      if cells[c].parent.Some? {
        LeaveParent(c);
      } else {
        Nothing(s, c);
      }
      ghost var s2 := cells;
      MarkDown(s, c);
      assert forall k: Slot {:trigger Arr(cells[c], k)} :: Arr(cells[c], k) == Arr(s2[c], k);
      DetachedHomes(s, Orphan1(s, c), s2, c);
      DetachedSpares(s, Orphan1(s, c), s2, c);
    }

    ghost function Orphan1(s: Store, c: Ref): Store
      requires c < |s|
    {
      s[c := s[c].(parent := None)]
    }

    lemma HostParent(c: Ref)
      requires Valid() && Has(c) && (cells[c].kind.Host? && cells[c].phase.Live? ==> cells[c].parent.Some?)
      ensures cells[c].kind.Host? && cells[c].phase.Live? ==> cells[c].parent == Some(GLOBAL)
      ensures cells[c].parent.Some? ==> cells[c].parent.value < |cells|
    {
      assert CellOk(cells, c);
    }

    /** The first part of that. */
    method LeaveParent(c: Ref)
      requires Valid() && Has(c) && c != GLOBAL && cells[c].parent.Some? && cells[c].parent.value < |cells|
      modifies this
      ensures Valid() && held == old(held) && Shrinks(old(cells), cells) && |cells| == |old(cells)|
      ensures cells[c].parent.None? && cells[c].kind == old(cells[c].kind) && cells[GLOBAL].hosts == HostsAfter(old(cells), c)
      ensures forall o: Ref :: o < |cells| && cells[o].down && !old(cells)[o].down ==> DeadAt(cells, o)
      ensures HomesKept(Orphan1(old(cells), c), cells) && Spares(Orphan1(old(cells), c), cells, {c})
      ensures forall q :: 0 <= q < |cells| ==> CellShrinks(Orphan1(old(cells), c)[q], cells[q])
      ensures var p, k := old(cells[c].parent).value, SlotOf(old(cells[c]).kind);
        p < |cells| && Count(Arr(cells[p], k), c) < Count(Arr(old(cells)[p], k), c)
      decreases Weight(cells), 2, 0
    {
      hide DeadAt, HomesKept, Spares, Counted, CascadesTo, Cascades, Count, HostsWithout, HostsAfter;
      ghost var s := cells;
      var p := cells[c].parent.value;
      InParent(c);
      Leave(c);
      ghost var s1 := cells;
      hide Shaped, CellOk, RefsIn;
      var removed := RemoveChild(c, p);
      LeftList(s, s1, cells, c, p);
      LeftParent(s, s1, cells, c, p);
    }

    lemma InParent(c: Ref)
      requires Valid() && c < |cells| && cells[c].parent.Some?
      ensures var p := cells[c].parent.value; p < |cells| && c in Arr(cells[p], SlotOf(cells[c].kind))
    {
      assert CellOk(cells, c);
    }

    method Leave(c: Ref)
      requires Valid() && c < |cells|
      modifies this`cells
      ensures Valid() && cells == Orphan1(old(cells), c)
      ensures forall q, k: Slot {:trigger Arr(cells[q], k)} :: 0 <= q < |cells| ==> Arr(cells[q], k) == Arr(old(cells)[q], k)
      ensures Weight(cells) <= Weight(old(cells))
    {
      assert CellOk(cells, c);
      WeightUpdate(cells, c, cells[c].(parent := None));
      Modify(c, cells[c].(parent := None));
    }

    lemma LeftParent(s: Store, s1: Store, t: Store, c: Ref, p: Ref)
      requires c < |s| && s1 == Orphan1(s, c) && CascadesTo(s1, t, HostsWithout(s1, p, SlotOf(s1[c].kind), c), {c})
      requires p < |s|
      ensures Shrinks(s, t) && |t| == |s| && t[c].parent.None? && t[c].kind == s[c].kind
      ensures forall q :: 0 <= q < |t| ==> CellShrinks(s1[q], t[q])
    {
      ShrinksRefl(s);
      ShrinksStep(s, s, c, s1[c]);
      ShrinksTrans(s, s1, t);
      assert CellShrinks(s1[c], t[c]);
      hide CellShrinks;
      forall q | 0 <= q < |t| ensures CellShrinks(s1[q], t[q]) {
        ShrinksAt(s1, t, q);
      }
    }

    lemma Nothing(s: Store, c: Ref)
      requires Shaped(s) && c < |s| && s[c].parent.None?
      ensures Orphan1(s, c) == s && Shrinks(s, s) && HomesKept(s, s) && Spares(s, s, {c}) && HostsAfter(s, c) == s[GLOBAL].hosts
      ensures forall q :: 0 <= q < |s| ==> CellShrinks(s[q], s[q])
    {
      CascadesRefl(s);
      MoreRoots(s, s, {c});
      hide CellShrinks;
      forall q | 0 <= q < |s| ensures CellShrinks(s[q], s[q]) {
        CellShrinksRefl(s[q]);
      }
    }

    lemma LeftList(s: Store, s1: Store, t: Store, c: Ref, p: Ref)
      requires Shaped(s) && c < |s| && s[c].parent == Some(p) && s1 == s[c := s[c].(parent := None)]
      requires p < |s| && c != GLOBAL && CascadesTo(s1, t, HostsWithout(s1, p, SlotOf(s[c].kind), c), {c})
      ensures |t| == |s| && t[GLOBAL].hosts == HostsAfter(s, c)
      ensures Shaped(t) && forall o: Ref :: o < |s| && t[o].down && !s[o].down ==> DeadAt(t, o)
      ensures HomesKept(s1, t) && Spares(s1, t, {c})
    {
      assert CellOk(s, c);
      hide DeadAt, HomesKept, Spares;
    }

    /** From here on, the container counts as destroyed. It is not a
        registered host. */
    method MarkDown(ghost s: Store, c: Ref)
      requires Valid() && Has(c) && Shrinks(s, cells) && c != GLOBAL
      requires s[c].kind.Host? && s[c].phase.Live? ==> s[c].parent == Some(GLOBAL)
      requires s[c].parent.Some? ==>
        var p, k := s[c].parent.value, SlotOf(s[c].kind);
        p < |s| && Count(Arr(cells[p], k), c) < Count(Arr(s[p], k), c)
      requires |s| == |cells| && cells[GLOBAL].hosts == HostsAfter(s, c)
      requires cells[c].parent.None?
      requires forall o: Ref :: o < |cells| && cells[o].down && !s[o].down ==> DeadAt(cells, o)
      modifies this`cells
      ensures Valid() && Shrinks(s, cells) && cells[GLOBAL].hosts == HostsAfter(s, c)
      ensures forall o: Ref :: o < |cells| && o != c && cells[o].down && !s[o].down ==> DeadAt(cells, o)
      ensures cells == old(cells)[c := old(cells[c]).(down := true)]
    {
      assert CellShrinks(s[c], cells[c]) && CountOk(cells, held, c) && CellOk(cells, c);
      hide DeadAt;
      NotOwnHost(cells, c);
      if !cells[c].kind.Host? || RefsTo(cells, c) == 0 {
        NotRegistered(cells, c);
      } else if NoDup(s[GLOBAL].hosts) {
      }
      ShrinksStep(s, cells, c, cells[c].(down := true));
      ghost var s1 := cells;
      Modify(c, cells[c].(down := true));
      MarkedClean(s, s1, cells, c);
    }

    lemma MarkedClean(s: Store, s1: Store, t: Store, c: Ref)
      requires Shaped(s1) && Shaped(t) && c < |s1| == |s| && t == s1[c := s1[c].(down := true)]
      requires forall o: Ref :: o < |s1| && s1[o].down && !s[o].down ==> DeadAt(s1, o)
      ensures forall o: Ref :: o < |t| && o != c && t[o].down && !s[o].down ==> DeadAt(t, o)
    {
      hide Clean, Shaped;
      forall o: Ref | o < |t| && o != c && t[o].down && !s[o].down ensures DeadAt(t, o) {
        assert DeadAt(s1, o);
        forall q | 0 <= q < |s1| ensures SameLinks(s1[q], t[q], o) {
        }
        CleanSame(s1, t, GLOBAL, o);
      }
    }

    /** What the kind of container does when it is destroyed. */
    method DestroyHook(c: Ref)
      requires Valid() && Has(c) && cells[c].down
      modifies this
      ensures Valid() && held == old(held) && Cascades(old(cells), cells)
      ensures cells[c].command.None? && (cells[c].kind.Host? ==> cells[c].role.None? && cells[c].agent.None?)
      decreases Weight(cells), 1
    {
      hide Cascades, CascadesTo, Shrinks, Counted;
      ghost var s := cells;
      CascadesRefl(s);
      assert CellOk(cells, c);
      if cells[c].kind.Host? {
        Modify(c, cells[c].(role := None, agent := None));
        CascadesStep(s, s, c, s[c].(role := None, agent := None));
      } else if cells[c].command.Some? {
        var cmd := TakeCommand(c);
        ghost var s1 := cells;
        CascadesAt(s, s1, c);
        Put(cmd);
        CascadesTrans(s, s1, cells);
        CascadesAt(s1, cells, c);
      }
    }

    /** A process gives up its command; the reference is now ours. */
    method TakeCommand(c: Ref) returns (cmd: Ref)
      requires Valid() && c < |cells| && cells[c].command.Some? && cells[c].down
      modifies this
      ensures Valid() && cmd == old(cells[c].command.value) && held == old(held) + multiset{cmd}
      ensures Has(cmd) && cells[cmd].phase.Live?
      ensures cells == old(cells)[c := old(cells[c]).(command := None)] && Cascades(old(cells), cells)
    {
      cmd := cells[c].command.value;
      assert CellOk(cells, c);
      TargetsLive(cells, held, c, cmd);
      hide Cascades, CascadesTo, Shrinks;
      ghost var s := cells;
      var x := cells[c].(command := None);
      CascadesRefl(cells);
      forall q | 0 <= q < |cells| && cells[q].parent == Some(c) ensures q in Arr(x, SlotOf(cells[q].kind)) {
        assert CellOk(cells, q);
      }
      ShapedUpdate(cells, c, x);
      CountedTake(cells, held, c, x, cmd);
      CascadesStep(s, s, c, x);
      cells := cells[c := x];
      held := held + multiset{cmd};
    }

    /** Remove the first entry for c from p's array and drop its reference. */
    method RemoveChild(c: Ref, p: Ref) returns (found: bool)
      requires Valid() && c < |cells| && p < |cells| && cells[c].parent != Some(p) && c != GLOBAL
      modifies this
      ensures Valid() && held == old(held)
      ensures CascadesTo(old(cells), cells, HostsWithout(old(cells), p, SlotOf(old(cells[c].kind)), c), {c})
      ensures p < |cells| && found == (c in Arr(old(cells)[p], SlotOf(old(cells[c].kind))))
      ensures var k := SlotOf(old(cells[c].kind)); found ==> Count(Arr(cells[p], k), c) < Count(Arr(old(cells)[p], k), c)
      decreases Weight(cells), 1
    {
      hide Cascades, CascadesTo, Shrinks, Shaped, Counted, RefsIn, Without, HostsWithout, Count;
      ghost var s := cells;
      CascadesRefl(s);
      var k := SlotOf(cells[c].kind);
      var i := IndexOf(Arr(cells[p], k), c);
      if i == |Arr(cells[p], k)| {
        SameHosts(s, p, k, c);
        return false;
      }
      found := true;
      EntriesLive(p, k);
      WithoutAt(Arr(cells[p], k), i);
      TakeOut(p, k, i);
      ghost var s1 := cells;
      TakenOut(s, s1, p, k, c);
      Put(c);
      Removed(s, s1, cells, p, k, c);
    }

    /** An array has lost its first entry for c. */
    lemma TakenOut(s: Store, t: Store, p: Ref, k: Slot, c: Ref)
      requires p < |s| && |t| > 0 && CascadesTo(s, t, t[GLOBAL].hosts, {c}) && t == s[p := SetArr(s[p], k, Without(Arr(s[p], k), c))]
      ensures |s| == |t| && Weight(t) <= Weight(s) && t[GLOBAL].hosts == HostsWithout(s, p, k, c)
    {
    }

    lemma Removed(s: Store, s1: Store, t: Store, p: Ref, k: Slot, c: Ref)
      requires p < |s| == |s1| && c in Arr(s[p], k)
      requires CascadesTo(s, s1, HostsWithout(s, p, k, c), {c}) && s1 == s[p := SetArr(s[p], k, Without(Arr(s[p], k), c))]
      requires Cascades(s1, t)
      ensures CascadesTo(s, t, HostsWithout(s, p, k, c), {c})
      ensures |t| == |s| && Count(Arr(t[p], k), c) < Count(Arr(s[p], k), c)
    {
      hide Cascades, CascadesTo, Shaped;
      WithoutCount(Arr(s[p], k), c, c);
      assert c in multiset(Arr(s[p], k));
      JoinCascades(s, s1, t, HostsWithout(s, p, k, c), {c});
      CascadesAt(s1, t, p);
    }

    lemma SameHosts(s: Store, p: Ref, k: Slot, c: Ref)
      requires p < |s| && Cascades(s, s) && c !in Arr(s[p], k)
      ensures CascadesTo(s, s, HostsWithout(s, p, k, c), {c})
    {
      WithoutNone(Arr(s[p], k), c);
      MoreRoots(s, s, {c});
    }

    method IndexOf(a: seq<Ref>, c: Ref) returns (i: nat)
      ensures i <= |a| && (i < |a| ==> a[i] == c) && c !in a[..i] && (i == |a| ==> c !in a)
    {
      i := 0;
      while i < |a| && a[i] != c
        invariant i <= |a| && c !in a[..i]
      {
        i := i + 1;
      }
    }

    /** Like TakeAt, as a step of a cascade. */
    method TakeOut(p: Ref, k: Slot, i: nat)
      requires Valid() && p < |cells| && i < |Arr(cells[p], k)|
      requires Arr(cells[p], k)[i] < |cells| ==> cells[Arr(cells[p], k)[i]].parent != Some(p)
      modifies this
      ensures Valid() && held == old(held) + multiset{old(Arr(cells[p], k)[i])}
      ensures CascadesTo(old(cells), cells, cells[GLOBAL].hosts, {old(Arr(cells[p], k)[i])})
      ensures cells == old(cells)[p := SetArr(old(cells[p]), k, old(Arr(cells[p], k))[..i] + old(Arr(cells[p], k))[i + 1..])]
      ensures var c := old(Arr(cells[p], k)[i]); Count(Arr(cells[p], k), c) + 1 == Count(Arr(old(cells)[p], k), c)
    {
      ghost var s := cells;
      ghost var a := Arr(cells[p], k);
      ghost var b := a[..i] + a[i + 1..];
      assert a == a[..i] + [a[i]] + a[i + 1..];
      assert multiset(a) == multiset(b) + multiset{a[i]};
      TakeRefs(s[p], k, b, a[i]);
      ShrinksRefl(s);
      ShrinksStep(s, s, p, SetArr(s[p], k, b));
      var taken := TakeAt(p, k, i);
      hide Shrinks, CascadesTo, Counted, Shaped;
      TakenCascades(s, p, k, b, taken);
    }

    lemma TakenCascades(s: Store, p: Ref, k: Slot, b: seq<Ref>, y: Ref)
      requires p < |s| == |cells| && cells == s[p := SetArr(s[p], k, b)] && Shrinks(s, cells) && Valid()
      requires multiset(Arr(s[p], k)) == multiset(b) + multiset{y}
      ensures CascadesTo(s, cells, cells[GLOBAL].hosts, {y})
    {
      QuietHomes(s, cells);
      TakenSpares(s, p, k, b, y);
      hide HomesKept, Spares, Shrinks, Shaped;
    }

    method DropChildren(c: Ref)
      requires Valid() && Has(c) && cells[c].down && cells[c].command.None? && NoOwn(cells, c)
      modifies this
      ensures Valid() && held == old(held) && Cascades(old(cells), cells)
      ensures NoRefs(cells[c]) && cells[c].name.None?
      decreases Weight(cells), 2
    {
      hide Cascades, CascadesTo, Shrinks, Shaped, Counted;
      ghost var s := cells;
      DropCommands(c);
      ghost var s1 := cells;
      CascadesAt(s, s1, c);
      DropHosts(c);
      ghost var s2 := cells;
      CascadesAt(s1, s2, c);
      CascadesTrans(s, s1, s2);
      Empties(s1[c].commands, s2[c].commands);
      Empties(s1[c].processes, s2[c].processes);
      Rename(s, c);
    }

    method Rename(ghost s: Store, c: Ref)
      requires Valid() && Has(c) && cells[c].down && Cascades(s, cells)
      modifies this`cells
      ensures Valid() && Cascades(s, cells) && cells == old(cells)[c := old(cells[c]).(name := None)]
    {
      hide Cascades, CascadesTo, Shrinks, Counted;
      ghost var s1 := cells;
      CellShrinksRefl(cells[c]);
      assert CellOk(cells, c);
      Modify(c, cells[c].(name := None));
      CascadesStep(s, s1, c, s1[c].(name := None));
    }

    method DropCommands(c: Ref)
      requires Valid() && Has(c) && cells[c].down && NoOwn(cells, c)
      modifies this
      ensures Valid() && held == old(held) && Cascades(old(cells), cells)
      ensures cells[c].commands == cells[c].processes == []
      decreases Weight(cells), 1, 2
    {
      hide Cascades, CascadesTo, Shrinks, Shaped, Counted;
      ghost var s := cells;
      Drain(c, Commands);
      ghost var s1 := cells;
      CascadesAt(s, s1, c);
      DrainCopy(c, Processes);
      CascadesAt(s1, cells, c);
      CascadesTrans(s, s1, cells);
      Empties(s1[c].commands, cells[c].commands);
    }

    method DropHosts(c: Ref)
      requires Valid() && Has(c) && cells[c].down
      modifies this
      ensures Valid() && held == old(held) && Cascades(old(cells), cells)
      ensures cells[c].hosts == cells[c].tests == []
      decreases Weight(cells), 1, 2
    {
      hide Cascades, CascadesTo, Shrinks, Shaped, Counted;
      ghost var s := cells;
      Drain(c, Hosts);
      ghost var s1 := cells;
      CascadesAt(s, s1, c);
      DrainCopy(c, Tests);
      CascadesAt(s1, cells, c);
      CascadesTrans(s, s1, cells);
      Empties(s1[c].hosts, cells[c].hosts);
    }

    /** Empty an array in place, last entry first. */
    method Drain(c: Ref, k: Slot)
      requires Valid() && Has(c) && cells[c].down && (k.Commands? ==> NoOwn(cells, c))
      modifies this
      ensures Valid() && held == old(held) && Cascades(old(cells), cells)
      ensures Arr(cells[c], k) == []
      decreases Weight(cells), 1, 1
    {
      ghost var s := cells;
      CascadesRefl(s);
      while Arr(cells[c], k) != []
        invariant Valid() && held == old(held) && Cascades(s, cells) && (k.Commands? ==> NoOwn(cells, c))
        decreases |Arr(cells[c], k)|
      {
        ghost var s1 := cells;
        assert CellShrinks(s[c], s1[c]);
        DrainLast(c, k);
        CascadesTrans(s, s1, cells);
        if k.Commands? {
          NoOwnStill(s1, cells, c);
        }
      }
    }

    /** The last entry of an array loses its parent and its reference. A host
        also loses the role that it has on behalf of this container. */
    method DrainLast(c: Ref, k: Slot)
      requires Valid() && Has(c) && cells[c].down && Arr(cells[c], k) != [] && (k.Commands? ==> NoOwn(cells, c))
      modifies this
      ensures Valid() && held == old(held) && Cascades(old(cells), cells)
      ensures |Arr(cells[c], k)| < |Arr(old(cells)[c], k)|
      ensures var y := Arr(old(cells)[c], k)[|Arr(old(cells)[c], k)| - 1];
        y < |cells| && cells[y].parent.None? &&
        (cells[y].kind.Host? && old(cells)[y].owner == Some(c) ==>
           cells[y].owner.None? && (!cells[y].down ==> cells[y].role.None?))
      decreases Weight(cells), 1, 0
    {
      hide Cascades, CascadesTo, Shrinks, Shaped, Counted, RefsIn, RefsTo, NoOwn, CellOk, Weight, Count;
      ghost var s := cells;
      var y := Arr(cells[c], k)[|Arr(cells[c], k)| - 1];
      assert y in Arr(s[c], k);
      EntriesLive(c, k);
      TakeLast(c, k);
      ghost var s2 := cells;
      CascadesAt(s, s2, c);
      HeldLive(y, s);
      Put(y);
      CascadesTrans(s, s2, cells);
      CascadesAt(s2, cells, c);
      CascadesAt(s2, cells, y);
      SubLength(Arr(s2[c], k), Arr(cells[c], k));
    }

    lemma NotGlobal(c: Ref)
      requires Valid() && c < |cells| && cells[c].down
      ensures c != GLOBAL
    {
      assert CellOk(cells, c);
    }

    method Orphan(y: Ref, c: Ref)
      requires Valid() && y < |cells| && c < |cells|
      modifies this`cells
      ensures Valid() && cells == old(cells)[y := Orphaned(old(cells[y]), c)]
    {
      assert CellOk(cells, y);
      var x := cells[y].(parent := None);
      if cells[y].kind.Host? && cells[y].owner == Some(c) {
        x := x.(role := None, owner := None);
      }
      Modify(y, x);
    }

    /** Empty an array by taking a copy first: the container forgets all its
        entries before the first of them loses its reference. */
    method DrainCopy(c: Ref, k: Slot)
      requires Valid() && Has(c) && cells[c].down && !k.Commands?
      modifies this
      ensures Valid() && held == old(held) && Cascades(old(cells), cells)
      ensures Arr(cells[c], k) == []
      decreases Weight(cells), 1, 1
    {
      hide Cascades, CascadesTo, Shrinks, Shaped, Counted, CellShrinks, Weight, RefsIn;
      ghost var s, base := cells, held;
      var temp := Arr(cells[c], k);
      TakeAll(c, k);
      CascadesAt(s, cells, c);
      hide *;
      var n := |temp|;
      assert temp[..n] == temp;
      while n > 0
        invariant Valid() && 0 <= n <= |temp| && held == base + multiset(temp[..n]) && Cascades(s, cells)
        invariant |cells| == |s| && Arr(cells[c], k) == []
      {
        n := n - 1;
        MultisetPrefix(temp, n);
        assert temp[n] in temp;
        PutTaken(s, temp[n], c, k);
      }
      assert temp[..0] == [];
    }

    /** An entry that the array has forgotten loses its reference. */
    method PutTaken(ghost s: Store, y: Ref, ghost c: Ref, ghost k: Slot)
      requires Valid() && held[y] > 0 && y < |s| && s[y].phase.Live? && Cascades(s, cells)
      requires c < |cells| == |s| && Arr(cells[c], k) == []
      modifies this
      ensures Valid() && held == old(held) - multiset{y} && Cascades(s, cells)
      ensures |cells| == |s| && Arr(cells[c], k) == []
      decreases Weight(s), 1, 0
    {
      hide Cascades, CascadesTo, Shrinks, Shaped, Counted, RefsIn;
      ghost var s2 := cells;
      HeldLive(y, s);
      CascadesAt(s, s2, c);
      Put(y);
      CascadesTrans(s, s2, cells);
      CascadesAt(s2, cells, c);
      Empties(Arr(s2[c], k), Arr(cells[c], k));
    }

    /** A container that code holds, and that was alive, still is. */
    lemma HeldLive(y: Ref, s: Store)
      requires Valid() && held[y] > 0 && y < |s| && s[y].phase.Live? && Cascades(s, cells)
      ensures Has(y) && cells[y].phase.Live?
    {
      assert CellShrinks(s[y], cells[y]) && CountOk(cells, held, y);
    }

    method TakeAll(c: Ref, k: Slot)
      requires Valid() && Has(c) && cells[c].down && !k.Commands?
      modifies this
      ensures Valid() && held == old(held) + multiset(Arr(old(cells)[c], k)) && Cascades(old(cells), cells)
      ensures Arr(cells[c], k) == []
      ensures forall y <- Arr(old(cells)[c], k) :: y < |old(cells)| && old(cells)[y].phase.Live?
    {
      hide Cascades, CascadesTo, Shaped, Counted, RefsIn, CellOk, Level;
      ghost var s, base := cells, held;
      CascadesRefl(s);
      ghost var a := Arr(cells[c], k);
      EntriesLive(c, k);
      hide *;
      while Arr(cells[c], k) != []
        invariant Valid() && Cascades(s, cells) && c < |cells| == |s| && cells[c].down && Has(c)
        invariant Arr(cells[c], k) <= a
        invariant held == base + multiset(a[|Arr(cells[c], k)|..])
        invariant forall y <- a :: y < |cells| && cells[y].phase.Live?
        decreases |Arr(cells[c], k)|
      {
        MultisetSuffix(a, |Arr(cells[c], k)| - 1);
        TakeNext(s, a, c, k);
      }
    }

    method TakeNext(ghost s: Store, ghost a: seq<Ref>, c: Ref, k: Slot)
      requires Valid() && Has(c) && cells[c].down && Cascades(s, cells) && !k.Commands?
      requires [] < Arr(cells[c], k) <= a && forall y <- a :: y < |cells| && cells[y].phase.Live?
      modifies this
      ensures Valid() && Cascades(s, cells) && |cells| == |old(cells)| && Has(c) && cells[c].down
      ensures var n := |old(Arr(cells[c], k))| - 1; Arr(cells[c], k) == a[..n] && held == old(held) + multiset{a[n]}
      ensures forall y <- a :: cells[y].phase.Live?
    {
      hide Cascades, CascadesTo, Shrinks, Shaped, Counted, CellShrinks;
      ghost var s1 := cells;
      assert a[|Arr(cells[c], k)| - 1] in a;
      TakeLast(c, k);
      CascadesTrans(s, s1, cells);
    }

    lemma EntriesLive(c: Ref, k: Slot)
      requires Valid() && c < |cells|
      ensures forall y <- Arr(cells[c], k) :: y < |cells| && cells[y].phase.Live? && cells[y].refcount > 0
      ensures forall y <- Arr(cells[c], k) :: IsChild(cells[c], y) && Level(cells, y) < Level(cells, c) && y != GLOBAL
    {
      forall y <- Arr(cells[c], k)
        ensures y < |cells| && cells[y].phase.Live? && cells[y].refcount > 0
        ensures IsChild(cells[c], y) && Level(cells, y) < Level(cells, c) && y != GLOBAL
      {
        assert IsChild(cells[c], y);
        ChildLevel(cells, c, y);
        TargetsLive(cells, held, c, y);
      }
    }

    /** The last entry leaves an array, and loses its parent; its reference is now
        ours. */
    method TakeLast(c: Ref, k: Slot)
      requires Valid() && Has(c) && cells[c].down && Arr(cells[c], k) != [] && (k.Commands? ==> NoOwn(cells, c))
      requires var a := Arr(cells[c], k); a[|a| - 1] < |cells| && cells[a[|a| - 1]].phase.Live?
      modifies this
      ensures Valid() && Cascades(old(cells), cells)
      ensures var a := old(Arr(cells[c], k)); Arr(cells[c], k) == a[..|a| - 1] && held == old(held) + multiset{a[|a| - 1]}
      ensures |cells| == |old(cells)| && Has(c) && cells[c].down
      ensures forall q :: 0 <= q < |cells| ==> cells[q].phase == old(cells)[q].phase
      ensures var a := old(Arr(cells[c], k)); var y := a[|a| - 1];
        y < |cells| && cells[y].parent.None? && cells[y].kind == old(cells)[y].kind &&
        (cells[y].kind.Host? && old(cells)[y].owner == Some(c) ==> cells[y].owner.None? && cells[y].role.None?)
    {
      hide Cascades, CascadesTo, RefsIn, RefsTo, Count, NoOwn, Weight, CellShrinks;
      ghost var s := cells;
      var a := Arr(cells[c], k);
      var y := a[|a| - 1];
      EntriesLive(c, k);
      NotGlobal(c);
      assert y in a && CellOk(s, c) && ChildOk(s, c, k, y);
      Orphan(y, c);
      ghost var s1 := cells;
      assert Arr(s1[c], k) == a;
      assert a[..|a| - 1] + a[|a| - 1 + 1..] == a[..|a| - 1];
      var taken := TakeAt(c, k, |a| - 1);
      hide Shaped, Counted;
      TakenLast(s, s1, cells, c, k, y);
    }

    /** Like Get, as a step of a cascade. */
    method Keep(ghost s: Store, c: Ref)
      requires Valid() && c < |cells| && cells[c].phase.Live? && cells[c].refcount > 0 && Cascades(s, cells)
      modifies this
      ensures Valid() && held == old(held) + multiset{c} && Cascades(s, cells)
      ensures cells == old(cells)[c := old(cells[c]).(refcount := old(cells[c].refcount) + 1)]
    {
      hide Cascades, CascadesTo, Shrinks, Counted;
      ghost var s1 := cells;
      CellShrinksRefl(cells[c]);
      Get(c);
      CascadesStep(s, s1, c, s1[c].(refcount := s1[c].refcount + 1));
    }

    method KeepAll(children: seq<Ref>)
      requires Valid() && |cells| > 0 && forall y <- children :: y < |cells| && cells[y].phase.Live? && cells[y].refcount > 0
      modifies this
      ensures Valid() && held == old(held) + multiset(children) && Cascades(old(cells), cells)
    {
      hide Cascades, CascadesTo, Shrinks, Shaped, Counted, CellShrinks;
      ghost var s := cells;
      CascadesRefl(s);
      var i := 0;
      while i < |children|
        invariant Valid() && i <= |children| && held == old(held) + multiset(children[..i])
        invariant Cascades(s, cells) && |cells| == |s|
        invariant forall y <- children :: cells[y].phase.Live? && cells[y].refcount > 0
      {
        assert children[..i + 1] == children[..i] + [children[i]];
        assert children[i] in children;
        Keep(s, children[i]);
        i := i + 1;
      }
      assert children[..i] == children;
    }

    /** A snapshot of all children, each with a reference of its own. */
    method AllChildren(x: Ref) returns (children: seq<Ref>)
      requires Valid() && x < |cells|
      modifies this
      ensures Valid() && held == old(held) + multiset(children) && Cascades(old(cells), cells)
      ensures forall y: Ref :: y in children <==> IsChild(old(cells)[x], y)
      ensures forall y <- children :: y < |old(cells)| && old(cells)[y].phase.Live? && Level(old(cells), y) < Level(old(cells), x) && y != GLOBAL
    {
      hide Cascades, CascadesTo, Shrinks, Shaped, Counted, CellShrinks;
      children := cells[x].hosts + cells[x].tests + cells[x].commands + cells[x].processes;
      ghost var s := cells;
      CascadesRefl(s);
      EntriesLive(x, Hosts);
      EntriesLive(x, Tests);
      EntriesLive(x, Commands);
      EntriesLive(x, Processes);
      KeepAll(children);
    }

    /** Release whatever o owns below x. Releasing a command or a process
        destroys it; the snapshot keeps it from being freed meanwhile. */
    method ReleaseOwned(x: Ref, o: Ref)
      requires Valid() && x < |cells| && o < |cells| && cells[o].down
      modifies this
      ensures Valid() && held == old(held) && Cascades(old(cells), cells)
      ensures Clean(cells, x, o)
      decreases Weight(cells), 2, Level(cells, x), 2
    {
      hide Cascades, CascadesTo, Shrinks, Shaped, Counted, Clean, Done, CellShrinks;
      ghost var s := cells;
      var children := AllChildren(x);
      ghost var s1 := cells;
      ReleaseAll(s, children, x, o);
      ghost var s2 := cells;
      CascadesAt(s, s2, x);
      PutAll(s, children, old(held));
      AllDoneStill(s2, cells, children, o);
      ReleasedClean(s, cells, children, x, o);
    }

    method ReleaseAll(ghost s: Store, children: seq<Ref>, ghost x: Ref, o: Ref)
      requires Valid() && Cascades(s, cells) && x < |s| && o < |s| && s[o].down && multiset(children) <= held
      requires forall y <- children :: y < |s| && s[y].phase.Live? && Level(s, y) < Level(s, x) && y != GLOBAL
      modifies this
      ensures Valid() && held == old(held) && Cascades(s, cells)
      ensures forall j :: 0 <= j < |children| ==> Done(cells, children[j], o)
      decreases Weight(s), 2, Level(s, x), 0
    {
      hide Cascades, CascadesTo, Shrinks, Shaped, Counted, Clean, Done;
      var i := 0;
      while i < |children|
        invariant Valid() && i <= |children| && held == old(held)
        invariant Cascades(s, cells)
        invariant forall j :: 0 <= j < i ==> Done(cells, children[j], o)
      {
        ghost var s1 := cells;
        assert children[i] in children && children[i] in multiset(children);
        HeldLive(children[i], s);
        CascadesAt(s, cells, children[i]);
        CascadesAt(s, cells, o);
        ReleaseChild(children[i], o);
        CascadesTrans(s, s1, cells);
        AllDoneStill(s1, cells, children[..i], o);
        i := i + 1;
      }
    }

    /** Drop the references of a snapshot. */
    method PutAll(ghost s: Store, children: seq<Ref>, ghost base: multiset<Ref>)
      requires Valid() && Cascades(s, cells) && held == base + multiset(children)
      requires forall y <- children :: y < |s| && s[y].phase.Live?
      modifies this
      ensures Valid() && held == base && Cascades(s, cells) && Cascades(old(cells), cells)
      decreases Weight(cells), 1
    {
      hide Cascades, CascadesTo, Shrinks, Counted, CellShrinks;
      ghost var s0 := cells;
      CascadesRefl(s0);
      var i := 0;
      assert children[0..] == children;
      while i < |children|
        invariant Valid() && i <= |children| && held == base + multiset(children[i..])
        invariant Cascades(s, cells) && Cascades(s0, cells)
      {
        ghost var s1 := cells;
        assert children[i..] == [children[i]] + children[i + 1..];
        assert children[i] in children;
        HeldLive(children[i], s);
        CascadesAt(s, s0, children[i]);
        CascadesAt(s0, s1, children[i]);
        Put(children[i]);
        CascadesTrans(s, s1, cells);
        CascadesTrans(s0, s1, cells);
        i := i + 1;
      }
    }

    lemma AllDoneStill(s: Store, t: Store, ys: seq<Ref>, o: Ref)
      requires Shaped(s) && Shaped(t) && Cascades(s, t) && forall j :: 0 <= j < |ys| ==> Done(s, ys[j], o)
      ensures forall j :: 0 <= j < |ys| ==> Done(t, ys[j], o)
    {
      forall j | 0 <= j < |ys| ensures Done(t, ys[j], o) {
        DoneShrinks(s, t, ys[j], o);
      }
    }

    lemma ReleasedClean(s: Store, t: Store, ys: seq<Ref>, x: Ref, o: Ref)
      requires Shaped(s) && Shaped(t) && Cascades(s, t) && x < |s|
      requires forall y: Ref :: y in ys <==> IsChild(s[x], y)
      requires forall j :: 0 <= j < |ys| ==> Done(t, ys[j], o)
      ensures Clean(t, x, o)
    {
      CascadesAt(s, t, x);
      forall y: Ref | IsChild(t[x], y) ensures Done(t, y, o) {
        ChildShrinks(s[x], t[x], y);
        assert y in ys;
      }
      AllDoneClean(t, x, o);
    }

    /** One entry of the snapshot. */
    method ReleaseChild(y: Ref, o: Ref)
      requires Valid() && Has(y) && y != GLOBAL && cells[y].phase.Live? && o < |cells| && cells[o].down
      modifies this
      ensures Valid() && held == old(held) && Cascades(old(cells), cells)
      ensures Done(cells, y, o)
      decreases Weight(cells), 2, Level(cells, y), 3
    {
      hide Cascades, CascadesTo, Shrinks, Shaped, Counted, Clean;
      ghost var s := cells;
      CascadesRefl(s);
      if cells[y].owner == Some(o) {
        Release(y, o);
      }
      ghost var s2 := cells;
      HeldLive(y, s);
      CascadesAt(s, s2, o);
      CascadesAt(s, s2, y);
      if cells[y].refcount > 1 {
        ReleaseOwned(y, o);
        CascadesTrans(s, s2, cells);
        CascadesAt(s2, cells, y);
      } else {
        OnlyHeld(y);
      }
    }

    /** A container loses its owner. What is released then depends on its kind. */
    method Release(y: Ref, o: Ref)
      requires Valid() && Has(y) && y != GLOBAL && cells[y].phase.Live? && o < |cells| && cells[o].down
      requires cells[y].owner == Some(o)
      modifies this
      ensures Valid() && held == old(held) && Cascades(old(cells), cells) && |cells| == |old(cells)|
      ensures cells[y].owner.None? && (Owned(cells[y]) ==> cells[y].down && NoRefs(cells[y]))
      ensures Level(cells, y) == Level(old(cells), y)
      decreases Weight(cells), 2, Level(cells, y), 2
    {
      hide Cascades, CascadesTo, Shrinks, Shaped, Counted, Clean;
      ghost var s := cells;
      CascadesRefl(s);
      Disown(y, o);
      ghost var s1 := cells;
      if cells[y].kind.Command? || cells[y].kind.Process? {
        Destroy(y);
        CascadesToAt(s1, cells, HostsAfter(s1, y), {y}, y);
        DisownedCascades(s, s1, cells, y);
      } else {
        DisownedStep(s, s1, y, o);
      }
      CascadesAt(s, cells, y);
    }

    lemma OnlyHeld(y: Ref)
      requires Valid() && Has(y) && y != GLOBAL && cells[y].phase.Live? && cells[y].refcount <= 1
      ensures RefsTo(cells, y) == 0
    {
      assert CountOk(cells, held, y);
    }

    method Disown(y: Ref, o: Ref)
      requires Valid() && y < |cells| && cells[y].owner == Some(o)
      modifies this`cells
      ensures Valid() && Weight(cells) < Weight(old(cells))
      ensures var x := old(cells)[y];
        cells == old(cells)[y := if x.kind.Host? then x.(owner := None, role := None) else x.(owner := None)]
    {
      assert CellOk(cells, y);
      var x := cells[y].(owner := None);
      if cells[y].kind.Host? {
        x := x.(role := None);
      }
      WeightUpdate(cells, y, x);
      Modify(y, x);
    }

    lemma DisownedStep(s: Store, t: Store, y: Ref, o: Ref)
      requires Cascades(s, s) && Shaped(t) && y < |s| && o < |s| && s[o].down && s[y].owner == Some(o) && !Owned(s[y])
      requires t == s[y := if s[y].kind.Host? then s[y].(owner := None, role := None) else s[y].(owner := None)]
      ensures Cascades(s, t)
    {
      CascadesStep(s, s, y, t[y]);
    }

    // ------------------------------------------------------------ creation

    /** Add y to an array, which gets a reference of its own. */
    method Append(p: Ref, k: Slot, y: Ref)
      requires Valid() && p < |cells| && p != y && ChildOk(cells, p, k, y) && cells[p].phase.Live?
      requires cells[y].phase.Live? && cells[y].refcount > 0
      modifies this
      ensures Valid() && held == old(held)
      ensures cells == old(cells)[y := old(cells[y]).(refcount := old(cells[y].refcount) + 1)]
                                 [p := SetArr(old(cells[p]), k, old(Arr(cells[p], k)) + [y])]
    {
      Get(y);
      var x := SetArr(cells[p], k, Arr(cells[p], k) + [y]);
      assert ChildOk(cells, p, k, y);
      ShapedGive(cells, p, k, y);
      GiveRefs(cells[p], k, y);
      CountedGive(cells, held, p, x, y);
      cells := cells[p := x];
      held := held - multiset{y};
    }

    /** Parent, owner or properties of a live container are set. */
    method Set(c: Ref, x: Cell)
      requires Valid() && c < |cells| && cells[c].phase.Live? && x.phase.Live? && x.kind == cells[c].kind
      requires SameRefs(cells[c], x) && x.refcount == cells[c].refcount
      requires x.down == cells[c].down
      requires x.parent == cells[c].parent
        || (c != GLOBAL && x.parent.Some? && x.parent.value < |cells| && x.parent.value != c && c in Arr(cells[x.parent.value], SlotOf(x.kind))
            && (x.kind.Host? ==> x.parent.value == GLOBAL) && !x.down && OnlyIn(cells, c, x.parent.value))
      requires x.owner.Some? ==> x.owner.value < |cells|
      modifies this`cells
      ensures Valid() && cells == old(cells)[c := x]
    {
      assert CellOk(cells, c);
      ShapedSet(cells, c, x);
      CountedSame(cells, held, c, x);
      cells := cells[c := x];
    }

    /** A new container, which its parent holds. The array takes a second
        reference; then the creator drops its own. */
    method Init(x: Cell, p: Ref) returns (n: Ref)
      requires Valid() && Newborn(x) && p < |cells| && cells[p].phase.Live? && MayHold(cells[p].kind, SlotOf(x.kind))
      requires x.kind.Host? ==> p == GLOBAL
      modifies this
      ensures Valid() && held == old(held) && n == |old(cells)|
      ensures var k := SlotOf(x.kind);
        cells == old(cells)[p := SetArr(old(cells[p]), k, old(Arr(cells[p], k)) + [n])] + [x.(parent := Some(p))]
    {
      hide Shaped, Counted, Shrinks;
      ghost var s := cells;
      n := New(x);
      assert ChildOk(cells, p, SlotOf(x.kind), n);
      NewNumber(s, x);
      Append(p, SlotOf(x.kind), n);
      Set(n, cells[n].(parent := Some(p)));
      Put(n);
      assert cells == s[p := SetArr(s[p], SlotOf(x.kind), Arr(s[p], SlotOf(x.kind)) + [n])] + [x.(parent := Some(p))];
    }

    /** No array has the next number. */
    lemma NewNumber(s: Store, x: Cell)
      requires Shaped(s) && NoRefs(x)
      ensures forall q, k: Slot {:trigger Arr((s + [x])[q], k)} :: 0 <= q <= |s| ==> |s| !in Arr((s + [x])[q], k)
    {
      forall q, k: Slot | 0 <= q <= |s| ensures |s| !in Arr((s + [x])[q], k) {
        if q < |s| {
          assert CellOk(s, q);
          forall y <- Arr(s[q], k) ensures y != |s| {
            assert ChildOk(s, q, k, y);
          }
        }
      }
    }

    method New(x: Cell) returns (n: Ref)
      requires Valid() && Newborn(x)
      modifies this
      ensures Valid() && held == old(held) + multiset{n} && n == |old(cells)| && cells == old(cells) + [x]
    {
      n := |cells|;
      ShapedNew(cells, x);
      CountedNew(cells, held, x);
      cells := cells + [x];
      held := held + multiset{n};
    }

    /** A process holds the command that it runs. */
    method SetCommand(c: Ref, cmd: Ref)
      requires Valid() && c < |cells| && cells[c].phase.Live? && cells[c].kind.Process? && cells[c].command.None?
      requires cmd < |cells| && cells[cmd].phase.Live? && cells[cmd].kind.Command? && held[cmd] > 0
      modifies this
      ensures Valid() && held == old(held) - multiset{cmd}
      ensures cells == old(cells)[c := old(cells[c]).(command := Some(cmd))]
    {
      var x := cells[c].(command := Some(cmd));
      assert CellOk(cells, c);
      ShapedSet(cells, c, x);
      CountedGive(cells, held, c, x, cmd);
      cells := cells[c := x];
      held := held - multiset{cmd};
    }
  }

  /** A container that was destroyed has no name, and a host no role and no
      agent. */
  predicate Stripped(x: Cell) {
    x.name.None? && (x.kind.Host? ==> x.role.None? && x.agent.None?)
  }

  /** No command in a container's array belongs to it any more. */
  predicate NoOwn(s: Store, c: Ref)
    requires c < |s|
  {
    forall y <- s[c].commands :: y < |s| ==> s[y].owner != Some(c)
  }

  lemma NoOwnStill(s: Store, t: Store, c: Ref)
    requires Cascades(s, t) && c < |s| && NoOwn(s, c)
    ensures |t| == |s| && NoOwn(t, c)
  {
    CascadesAt(s, t, c);
    forall y <- t[c].commands ensures y < |t| ==> t[y].owner != Some(c) {
      SubArray(s[c].commands, t[c].commands, y);
      if y < |t| {
        CascadesAt(s, t, y);
      }
    }
  }

  function Orphaned(x: Cell, c: Ref): Cell {
    if x.kind.Host? && x.owner == Some(c) then x.(parent := None, role := None, owner := None) else x.(parent := None)
  }

  lemma CascadesToAt(s: Store, t: Store, hosts: seq<Ref>, roots: set<Ref>, c: Ref)
    requires CascadesTo(s, t, hosts, roots) && c < |s|
    ensures |t| == |s| && CellShrinks(s[c], t[c]) && Weight(t) <= Weight(s)
  {
    ShrinksAt(s, t, c);
  }

  /** An array without one of its entries. */
  lemma TakenSpares(s: Store, p: Ref, k: Slot, b: seq<Ref>, y: Ref)
    requires p < |s| && multiset(Arr(s[p], k)) == multiset(b) + multiset{y}
    ensures Spares(s, s[p := SetArr(s[p], k, b)], {y})
  {
    var t := s[p := SetArr(s[p], k, b)];
    forall d | Closed(s, d) && {y} <= d ensures Spared(s, t, d) {
      assert y in d;
      forall q | 0 <= q < |s| && q !in d ensures SparedCell(s, t[q], q, d) {
        forall j: Slot, z | z !in d ensures Count(Arr(t[q], j), z) == Count(Arr(s[q], j), z) {
        }
      }
    }
  }

  /** The last entry of an array lost its parent and left the array. */
  lemma TakenLast(s: Store, s1: Store, t: Store, c: Ref, k: Slot, y: Ref)
    requires Shaped(s) && Shaped(s1) && Shaped(t) && c < |s| && c != GLOBAL && s[c].down && (k.Commands? ==> NoOwn(s, c))
    requires Arr(s[c], k) != [] && y == Arr(s[c], k)[|Arr(s[c], k)| - 1] && y < |s| && y != c && y != GLOBAL
    requires s1 == s[y := Orphaned(s[y], c)]
    requires t == s1[c := SetArr(s1[c], k, Arr(s[c], k)[..|Arr(s[c], k)| - 1])]
    ensures Cascades(s, t)
  {
    assert y in Arr(s[c], k);
    TakenShrinks(s, s1, t, c, k, y);
    TakenHomes(s, s1, t, c, k, y);
    TakenLastSpares(s, s1, t, c, k, y);
    hide HomesKept, Spares, Shaped, Shrinks, NoOwn;
    assert t[GLOBAL].hosts == s[GLOBAL].hosts;
    forall o: Ref | o < |s| ensures t[o].down == s[o].down {
    }
  }

  lemma TakenShrinks(s: Store, s1: Store, t: Store, c: Ref, k: Slot, y: Ref)
    requires Shaped(s) && c < |s| && s[c].down
    requires Arr(s[c], k) != [] && y == Arr(s[c], k)[|Arr(s[c], k)| - 1] && y < |s| && y != c
    requires s1 == s[y := Orphaned(s[y], c)]
    requires t == s1[c := SetArr(s1[c], k, Arr(s[c], k)[..|Arr(s[c], k)| - 1])]
    ensures Shrinks(s, t)
  {
    var b := Arr(s[c], k)[..|Arr(s[c], k)| - 1];
    TakenCell(s[c], k, b, y);
    OrphanedCell(s[y], c);
    hide CellShrinks, Shrinks, Orphaned, SetArr, Arr;
    ShrinksRefl(s);
    OrphanedStep(s, s1, y, c);
    ShrinksStep(s, s1, c, t[c]);
  }

  lemma TakenCell(x: Cell, k: Slot, b: seq<Ref>, y: Ref)
    requires Arr(x, k) != [] && b == Arr(x, k)[..|Arr(x, k)| - 1] && y == Arr(x, k)[|Arr(x, k)| - 1]
    ensures CellShrinks(x, SetArr(x, k, b)) && SetArr(x, k, b).owner == x.owner && SetArr(x, k, b).down == x.down
  {
    hide ArraysShrink, RefsIn, SetArr, Count;
    assert Arr(x, k) == b + [y];
    TakeRefs(x, k, b, y);
    OneArray(x, k, b);
  }

  lemma OneArray(x: Cell, k: Slot, b: seq<Ref>)
    requires ArraysShrink(x, SetArr(x, k, b))
    ensures CellShrinks(x, SetArr(x, k, b)) && SetArr(x, k, b).owner == x.owner && SetArr(x, k, b).down == x.down
  {
    hide ArraysShrink;
  }

  lemma OrphanedCell(x: Cell, c: Ref)
    ensures CellShrinks(x, Orphaned(x, c)) && Orphaned(x, c).down == x.down
  {
  }

  lemma OrphanedStep(s: Store, s1: Store, y: Ref, c: Ref)
    requires y < |s| && c < |s| && s[c].down && s1 == s[y := Orphaned(s[y], c)] && Shrinks(s, s)
    requires CellShrinks(s[y], s1[y]) && s1[y].down == s[y].down
    ensures Shrinks(s, s1)
  {
    hide Shrinks, CellShrinks;
    ShrinksStep(s, s, y, s1[y]);
  }

  lemma TakenHomes(s: Store, s1: Store, t: Store, c: Ref, k: Slot, y: Ref)
    requires Shaped(s) && c < |s| && y < |s| && y != c && (k.Commands? ==> NoOwn(s, c))
    requires y in Arr(s[c], k) && y == Arr(s[c], k)[|Arr(s[c], k)| - 1]
    requires s1 == s[y := Orphaned(s[y], c)]
    requires t == s1[c := SetArr(s1[c], k, Arr(s[c], k)[..|Arr(s[c], k)| - 1])]
    ensures HomesKept(s, t)
  {
    assert CellOk(s, c) && ChildOk(s, c, k, y);
    hide CellOk, NoDup;
    forall q | 0 <= q < |s| ensures ParentKept(s, t, q) {
      if q == y && s[y].kind.Command? {
        assert k.Commands?;
      }
    }
    forall p, j: Slot, q | 0 <= p < |s| && !j.Hosts? && q in Arr(t[p], j) ensures HomeKept(s, t, p, j, q) {
      if q == y && s[y].parent == Some(p) {
        LeftHome(s, t[c], c, k, y, p, j, t[p]);
      }
    }
  }

  /** The array of its parent has lost it. */
  lemma LeftHome(s: Store, x: Cell, c: Ref, k: Slot, y: Ref, p: Ref, j: Slot, z: Cell)
    requires Shaped(s) && c < |s| && y < |s| && p < |s| && s[y].parent == Some(p)
    requires y in Arr(s[c], k) && y == Arr(s[c], k)[|Arr(s[c], k)| - 1]
    requires Arr(x, k) == Arr(s[c], k)[..|Arr(s[c], k)| - 1] && forall i: Slot :: i != k ==> Arr(x, i) == Arr(s[c], i)
    requires if p == c then z == x else forall i: Slot :: Arr(z, i) == Arr(s[p], i)
    requires !j.Hosts? && y in Arr(z, j)
    ensures !NoDup(Arr(s[p], j))
  {
    var a := Arr(s[c], k);
    assert p == c && j == k ==> y in a[..|a| - 1];
    assert y in Arr(s[p], j);
    assert CellOk(s, c) && ChildOk(s, c, k, y) && CellOk(s, p) && ChildOk(s, p, j, y);
    assert j == k && p == c;
    LastIsOnce(a);
  }

  lemma LastIsOnce(a: seq<Ref>)
    requires a != []
    ensures NoDup(a) ==> a[|a| - 1] !in a[..|a| - 1]
  {
    var b, y := a[..|a| - 1], a[|a| - 1];
    assert a == b + [y] && multiset(a)[y] == multiset(b)[y] + 1;
    assert y in b ==> multiset(b)[y] > 0;
  }

  lemma TakenLastSpares(s: Store, s1: Store, t: Store, c: Ref, k: Slot, y: Ref)
    requires Shaped(s) && c < |s| && y < |s| && y != c && s[c].down
    requires y in Arr(s[c], k) && s1 == s[y := Orphaned(s[y], c)]
    requires |t| == |s| && t == s1[c := t[c]]
    ensures Spares(s, t, {})
  {
    assert CellOk(s, c) && ChildOk(s, c, k, y);
    DownIsIn(s, c, {});
    forall d | Closed(s, d) ensures Spared(s, t, d) {
      assert {} <= d && c in d;
      forall q | 0 <= q < |s| && q !in d ensures SparedCell(s, t[q], q, d) {
        if q == y {
          assert k.Hosts? ==> HostOf(s, d, y);
        }
      }
    }
  }

  /** A container left its parent, which lost it from its array, and counts as
      destroyed. */
  lemma DetachedHomes(s: Store, s1: Store, t: Store, c: Ref)
    requires Shaped(s) && c < |s| == |t| && s1 == s[c := s[c].(parent := None)] && HomesKept(s1, t)
    requires forall q :: 0 <= q < |s| ==> CellShrinks(s1[q], t[q])
    requires s[c].parent.Some? ==>
      var p, k := s[c].parent.value, SlotOf(s[c].kind);
      p < |s| && Count(Arr(t[p], k), c) < Count(Arr(s[p], k), c)
    ensures HomesKept(s, t[c := t[c].(down := true)])
  {
    var u := t[c := t[c].(down := true)];
    hide Shaped, CellShrinks, ParentKept, HomeKept;
    forall y | 0 <= y < |s| ensures ParentKept(s, u, y) {
      assert ParentKept(s1, t, y);
      DetachedParent(s, s1, t, c, y);
    }
    forall p, k: Slot, y | 0 <= p < |s| && !k.Hosts? && y in Arr(u[p], k) ensures HomeKept(s, u, p, k, y) {
      assert y in Arr(t[p], k);
      assert HomeKept(s1, t, p, k, y);
      DetachedHome(s, s1, t, c, p, k, y);
    }
  }

  lemma DetachedParent(s: Store, s1: Store, t: Store, c: Ref, y: Ref)
    requires c < |s| == |t| && s1 == s[c := s[c].(parent := None)] && y < |s| && ParentKept(s1, t, y)
    ensures ParentKept(s, t[c := t[c].(down := true)], y)
  {
  }

  lemma DetachedHome(s: Store, s1: Store, t: Store, c: Ref, p: Ref, k: Slot, y: Ref)
    requires Shaped(s) && c < |s| == |t| && s1 == s[c := s[c].(parent := None)] && p < |s| && CellShrinks(s1[p], t[p])
    requires s[c].parent.Some? ==>
      var q, j := s[c].parent.value, SlotOf(s[c].kind);
      q < |s| && Count(Arr(t[q], j), c) < Count(Arr(s[q], j), c)
    requires y in Arr(t[p], k) && HomeKept(s1, t, p, k, y)
    ensures HomeKept(s, t[c := t[c].(down := true)], p, k, y)
  {
    assert Arr(s1[p], k) == Arr(s[p], k);
    if y == c && s[c].parent == Some(p) {
      OldPlace(s, s1, t, p, k, c);
      assert c in multiset(Arr(t[p], k));
    }
  }

  lemma OldPlace(s: Store, s1: Store, t: Store, p: Ref, k: Slot, c: Ref)
    requires Shaped(s) && p < |s| == |s1| == |t| && c < |s| && Arr(s1[p], k) == Arr(s[p], k) && CellShrinks(s1[p], t[p])
    requires c in Arr(t[p], k)
    ensures k == SlotOf(s[c].kind)
  {
    SubArray(Arr(s1[p], k), Arr(t[p], k), c);
    assert CellOk(s, p) && ChildOk(s, p, k, c);
  }

  lemma DetachedSpares(s: Store, s1: Store, t: Store, c: Ref)
    requires c < |s| == |t| && s1 == s[c := s[c].(parent := None)] && Spares(s1, t, {c})
    ensures Spares(s, t[c := t[c].(down := true)], {c})
  {
    var u := t[c := t[c].(down := true)];
    forall d | Closed(s, d) && {c} <= d ensures Spared(s, u, d) {
      assert c in d;
      ClosedUpdate(s, c, s1[c], d);
      SparedFrom(s, s1, t, c, d);
      forall y | 0 <= y < |s| && y !in d ensures SparedCell(s, u[y], y, d) {
        assert SparedCell(s, t[y], y, d);
      }
    }
  }

  lemma MultisetPrefix(a: seq<Ref>, n: nat)
    requires n < |a|
    ensures multiset(a[..n + 1]) == multiset(a[..n]) + multiset{a[n]}
  {
    assert a[..n + 1] == a[..n] + [a[n]];
  }

  lemma MultisetSuffix(a: seq<Ref>, n: nat)
    requires n < |a|
    ensures multiset(a[n..]) == multiset(a[n + 1..]) + multiset{a[n]}
  {
    assert a[n..] == [a[n]] + a[n + 1..];
  }

  /** What taking one entry y out of an array does to the references. */
  lemma TakeRefs(x: Cell, k: Slot, b: seq<Ref>, y: Ref)
    requires multiset(Arr(x, k)) == multiset(b) + multiset{y}
    ensures ArraysShrink(x, SetArr(x, k, b))
    ensures forall q: Ref :: RefsIn(SetArr(x, k, b), q) + (if q == y then 1 else 0) == RefsIn(x, q)
  {
    assert multiset(b) <= multiset(Arr(x, k));
    forall q: Ref ensures Count(Arr(x, k), q) == Count(b, q) + if q == y then 1 else 0 {
    }
    hide Count;
    match k
    case Hosts =>
    case Tests =>
    case Commands =>
    case Processes =>
  }

  lemma TakeKeepsChildren(s: Store, p: Ref, k: Slot, b: seq<Ref>, y: Ref)
    requires Shaped(s) && p < |s| && y < |s| && s[y].parent != Some(p)
    requires multiset(Arr(s[p], k)) == multiset(b) + multiset{y}
    ensures forall q :: 0 <= q < |s| && s[q].parent == Some(p) ==> q in Arr(SetArr(s[p], k, b), SlotOf(s[q].kind))
  {
    forall q | 0 <= q < |s| && s[q].parent == Some(p) ensures q in Arr(SetArr(s[p], k, b), SlotOf(s[q].kind)) {
      assert CellOk(s, q);
      if SlotOf(s[q].kind) == k {
        assert q in multiset(Arr(s[p], k));
        assert q in multiset(b);
      }
    }
  }

  lemma TakeOk(s: Store, held: multiset<Ref>, p: Ref, k: Slot, b: seq<Ref>, y: Ref)
    requires Inv(s, held) && p < |s| && y in Arr(s[p], k)
    requires y < |s| ==> s[y].parent != Some(p)
    requires multiset(Arr(s[p], k)) == multiset(b) + multiset{y}
    ensures y < |s| && Inv(s[p := SetArr(s[p], k, b)], held + multiset{y})
    ensures RefsIn(s[p], y) > 0
  {
    assert CellOk(s, p) && ChildOk(s, p, k, y);
    assert y in multiset(Arr(s[p], k));
    var x := SetArr(s[p], k, b);
    TakeRefs(s[p], k, b, y);
    TakeKeepsChildren(s, p, k, b, y);
    ShapedUpdate(s, p, x);
    CountedTake(s, held, p, x, y);
  }
}
