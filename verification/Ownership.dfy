/** A container that was destroyed owns nothing that can be reached, however many
    calls are made afterwards. */
module Ownership {
  import opened Wrappers
  import opened ContainerStore
  import opened Teardown
  import opened HostRegistry

  /** A container that was destroyed holds nothing, and nothing that can be reached
      from the global context belongs to it. */
  ghost predicate DeadOwnNothing(s: Store) {
    Shaped(s) && forall o: Ref :: o < |s| && s[o].down ==> DeadAt(s, o)
  }

  lemma CascadeOwners(s: Store, t: Store)
    requires DeadOwnNothing(s) && Shrinks(s, t) && Shaped(t) && NewlyClean(s, t)
    ensures DeadOwnNothing(t)
  {
    assert |s| == |t|;
    hide DeadAt, Shaped, Shrinks;
    forall o: Ref | o < |t| && t[o].down ensures DeadAt(t, o) {
      if o < |s| && s[o].down {
        DeadStill(s, t, o);
      }
    }
  }

  /** One container changes, but holds what it held; a new owner has not been
      destroyed. */
  lemma AssignedOwners(s: Store, c: Ref, x: Cell)
    requires DeadOwnNothing(s) && c < |s| && Shaped(s[c := x]) && x.kind == s[c].kind && SameRefs(s[c], x)
    requires x.down == s[c].down
    requires x.owner == s[c].owner || x.owner.None? || (x.owner.value < |s| && !s[x.owner.value].down)
    ensures DeadOwnNothing(s[c := x])
  {
    var t := s[c := x];
    hide Clean, Shaped;
    forall o: Ref | o < |t| && t[o].down ensures DeadAt(t, o) {
      assert s[o].down && DeadAt(s, o);
      forall q | 0 <= q < |s| ensures SameLinks(s[q], t[q], o) {
      }
      CleanSame(s, t, GLOBAL, o);
    }
  }

  // ------------------------------------------------------------ one more

  lemma {:induction false} CreatedClean(s: Store, x: Cell, p: Ref, c: Ref, o: Ref)
    requires Shaped(s) && p < |s| && Shaped(Created(s, x, p)) && NoChildren(x) && x.owner != Some(o)
    requires c < |s| && Clean(s, c, o)
    ensures Clean(Created(s, x, p), c, o)
    decreases Level(s, c)
  {
    var t := Created(s, x, p);
    forall y: Ref | IsChild(t[c], y) ensures CleanChild(t, c, y, o) {
      ChildLevel(t, c, y);
      if y == |s| {
        assert NoChildren(t[y]) && t[y].owner != Some(o);
        assert Clean(t, y, o);
      } else {
        OldChild(s, x, p, c, y);
        ChildLevel(s, c, y);
        assert CleanChild(s, c, y, o);
        CreatedClean(s, x, p, y, o);
      }
    }
  }

  lemma OldChild(s: Store, x: Cell, p: Ref, c: Ref, y: Ref)
    requires p < |s| && c < |s| && IsChild(Created(s, x, p)[c], y) && y != |s|
    ensures IsChild(s[c], y)
  {
  }

  lemma CreatedOwners(s: Store, x: Cell, p: Ref)
    requires DeadOwnNothing(s) && p < |s| && !s[p].down && Shaped(Created(s, x, p)) && NoChildren(x) && !x.down
    requires x.owner.None? || (x.owner.value < |s| && !s[x.owner.value].down)
    ensures DeadOwnNothing(Created(s, x, p))
  {
    var t := Created(s, x, p);
    hide Clean, Shaped;
    forall o: Ref | o < |t| && t[o].down ensures DeadAt(t, o) {
      assert o < |s| && s[o].down && DeadAt(s, o);
      CreatedClean(s, x, p, GLOBAL, o);
    }
  }

  // ------------------------------------------------------------- claiming

  /** Whatever is not a command, and exists between calls, is held by a
      container that exists as well. */
  lemma Holder(s: Store, y: Ref) returns (p: Ref)
    requires Inv(s, multiset{}) && y < |s| && y != GLOBAL && s[y].phase.Live? && !s[y].kind.Command?
    ensures p < |s| && IsChild(s[p], y) && s[p].phase.Live? && Level(s, y) < Level(s, p)
    ensures !s[p].kind.Command?
  {
    NothingLeaks(s, y);
    p := SomeReference(s, y);
    assert CellOk(s, p) && CountOk(s, multiset{}, p);
    assert s[p].command != Some(y);
    assert IsChild(s[p], y);
    ChildLevel(s, p, y);
    assert s[p].phase.Live?;
  }

  lemma {:induction false} SomeReference(s: Store, y: Ref) returns (p: Ref)
    requires RefsTo(s, y) > 0
    ensures p < |s| && RefsIn(s[p], y) > 0
  {
    if RefsIn(s[|s| - 1], y) > 0 {
      p := |s| - 1;
    } else {
      p := SomeReference(s[..|s| - 1], y);
    }
  }

  /** What the global context says about everything that can be reached holds
      for each container by itself. */
  lemma {:induction false} CleanEverywhere(s: Store, y: Ref, o: Ref)
    requires Inv(s, multiset{}) && Clean(s, GLOBAL, o)
    requires y < |s| && s[y].phase.Live? && !s[y].kind.Command?
    ensures Clean(s, y, o)
    decreases 3 + |s| - Level(s, y)
  {
    if y != GLOBAL {
      var p := Holder(s, y);
      assert Level(s, p) <= 3 + |s|;
      CleanEverywhere(s, p, o);
      assert CleanChild(s, p, y, o);
    }
  }

  lemma {:induction false} ClaimedClean(s: Store, ctx: Ref, role: string, h: Ref, c: Ref, o: Ref)
    requires Shaped(s) && ctx < |s| && h < |s| && ctx != h && Shaped(Claimed(s, ctx, role, h)) && ctx != o
    requires c < |s| && Clean(s, c, o) && Clean(s, h, o)
    ensures Clean(Claimed(s, ctx, role, h), c, o)
    decreases Level(s, c)
  {
    var t := Claimed(s, ctx, role, h);
    forall y: Ref | IsChild(t[c], y) ensures CleanChild(t, c, y, o) {
      ChildLevel(t, c, y);
      assert Level(t, y) == Level(s, y) && Level(t, c) == Level(s, c);
      if IsChild(s[c], y) {
        assert CleanChild(s, c, y, o);
      } else {
        assert y == h;
      }
      ClaimedClean(s, ctx, role, h, y, o);
    }
  }

  lemma ClaimedOwners(s: Store, ctx: Ref, role: string, h: Ref)
    requires ctx < |s| && h < |s| && ctx != h && !s[ctx].down && s[h].phase.Live? && s[h].kind.Host?
    requires Inv(s, multiset{}) && DeadOwnNothing(s) && Shaped(Claimed(s, ctx, role, h))
    ensures DeadOwnNothing(Claimed(s, ctx, role, h))
  {
    var t := Claimed(s, ctx, role, h);
    hide Clean, Shaped, Counted;
    forall o: Ref | o < |t| && t[o].down ensures DeadAt(t, o) {
      assert s[o].down && DeadAt(s, o);
      CleanEverywhere(s, h, o);
      ClaimedClean(s, ctx, role, h, GLOBAL, o);
    }
  }
}
