/** What is deleted with a container: no less and no more than what depends on
    it. */
module Deletion {
  import opened Wrappers
  import opened ContainerStore
  import opened Teardown
  import opened HostRegistry
  import opened Ownership
  import opened Handlers
  import opened MasterRuns

  /** Everything that was destroyed so far. */
  function Gone(s: Store): set<Ref> {
    set y | 0 <= y < |s| && s[y].down
  }

  lemma DestroyedHolds(s: Store, o: Ref)
    requires DeadOwnNothing(s) && o < |s|
    ensures s[o].down ==> NoRefs(s[o]) && Clean(s, GLOBAL, o)
  {
    assert s[o].down ==> DeadAt(s, o);
  }

  lemma InItsOwner(s: Store, y: Ref)
    requires Between(s) && y < |s| && s[y].kind.Command? && !s[y].down && s[y].owner.Some?
    ensures s[y].owner.value < |s| && y in s[s[y].owner.value].commands
  {
    assert CellOk(s, y) && Linked(s[y]);
    assert y in Arr(s[s[y].owner.value], Commands);
  }

  lemma NotOwnedBy(s: Store, y: Ref, o: Ref)
    requires Between(s) && y < |s| && s[y].kind.Process? && !s[y].down && Clean(s, GLOBAL, o)
    ensures s[y].owner != Some(o)
  {
    assert CellOk(s, y) && CountOk(s, multiset{}, y);
    var p := Holder(s, y);
    CleanEverywhere(s, p, o);
    assert CleanChild(s, p, y, o);
  }

  /** Between calls, no command and no process that was not destroyed belongs to a
      container that was. */
  lemma NoneLeftBehind(s: Store, y: Ref)
    requires Between(s) && y < |s| && Owned(s[y]) && !s[y].down && s[y].owner.Some?
    ensures s[y].owner.value < |s| && !s[s[y].owner.value].down
  {
    assert CellOk(s, y);
    var o := s[y].owner.value;
    DestroyedHolds(s, o);
    if s[y].kind.Command? {
      InItsOwner(s, y);
    } else if Clean(s, GLOBAL, o) {
      NotOwnedBy(s, y, o);
    }
  }

  /** Between calls, whatever holds something was not destroyed. */
  lemma HolderIsThere(s: Store, y: Ref) returns (p: Ref)
    requires Between(s) && y < |s| && y != GLOBAL && !s[y].down
    ensures p < |s| && RefsIn(s[p], y) > 0 && !s[p].down
  {
    assert CellOk(s, y) && CountOk(s, multiset{}, y);
    p := SomeReference(s, y);
    DestroyedHolds(s, p);
  }

  /** Between calls, what was destroyed does not exist any more, unless it is a
      host that a test or a second entry of the list still holds. */
  lemma DestroyedIsFreed(s: Store, y: Ref)
    requires Between(s) && y < |s| && s[y].down && !s[y].kind.Host?
    ensures s[y].phase.Freed? && RefsTo(s, y) == 0
  {
    assert CellOk(s, y) && CountOk(s, multiset{}, y);
    forall p | 0 <= p < |s| ensures RefsIn(s[p], y) == 0 {
      NotHeld(s, p, y);
    }
    NoReferences(s, y);
  }

  lemma {:induction false} NoReferences(s: Store, y: Ref)
    requires forall p :: 0 <= p < |s| ==> RefsIn(s[p], y) == 0
    ensures RefsTo(s, y) == 0
  {
    if s != [] {
      NoReferences(s[..|s| - 1], y);
    }
  }

  lemma NotHeld(s: Store, p: Ref, y: Ref)
    requires Between(s) && y < |s| && p < |s| && s[y].down && !s[y].kind.Host?
    ensures RefsIn(s[p], y) == 0
  {
    assert CellOk(s, y);
    forall k: Slot ensures Count(Arr(s[p], k), y) == 0 {
      ParentIs(s, p, k, y);
      assert y in Arr(s[p], k) <==> y in multiset(Arr(s[p], k));
    }
    NotItsCommand(s, p, y);
    assert Count(Arr(s[p], Hosts), y) == Count(Arr(s[p], Tests), y) == 0;
    assert Count(Arr(s[p], Commands), y) == Count(Arr(s[p], Processes), y) == 0;
  }

  lemma ParentIs(s: Store, p: Ref, k: Slot, y: Ref)
    requires Between(s) && y < |s| && p < |s| && !s[y].kind.Host?
    ensures y in Arr(s[p], k) ==> s[y].parent == Some(p)
  {
    assert CellOk(s, p);
    assert y in Arr(s[p], k) ==> ChildOk(s, p, k, y);
    assert !k.Hosts? ==> NoDup(Arr(s[p], k)) && Home(s, p, k);
  }

  lemma NotItsCommand(s: Store, p: Ref, y: Ref)
    requires Between(s) && y < |s| && p < |s| && s[y].down
    ensures s[p].command != Some(y)
  {
    assert CellOk(s, p) && Linked(s[p]);
    DestroyedHolds(s, p);
    if Owned(s[p]) && !s[p].down && s[p].owner.Some? {
      NoneLeftBehind(s, p);
    }
  }

  /** After any teardown, what is gone is closed: with it went what it owned, and
      what only it held. */
  lemma GoneIsClosed(s: Store, t: Store)
    requires Between(t) && Shrinks(s, t) && Shaped(s)
    ensures Closed(s, Gone(t))
  {
    var d := Gone(t);
    forall y | 0 <= y < |s| && y !in d ensures Outside(s, d, y) {
      assert CellShrinks(s[y], t[y]) && OwnerKept(s, t, y);
      if Owned(s[y]) && s[y].owner.Some? {
        NoneLeftBehind(t, y);
      }
      if y != GLOBAL {
        var p := HolderIsThere(t, y);
        assert CellShrinks(s[p], t[p]);
        RefsInShrinks(s[p], t[p], y);
        assert p !in d;
      }
    }
  }

  /** What is gone after a container was deleted is the smallest set that has it
      and what was gone before, what its members own, and what is held by its
      members only; and nothing happened to anything else. */
  lemma DeletedExactly(s: Store, t: Store, c: Ref)
    requires Between(s) && Between(t) && c < |s| && s[c].parent.Some? && Deleted(s, t, c)
    ensures c in Gone(t) && Closed(s, Gone(t)) && Spared(s, t, Gone(t))
    ensures forall d :: Closed(s, d) && c in d ==> Gone(t) <= d
  {
    GoneIsClosed(s, t);
    hide Between;
    assert {c} <= Gone(t);
    forall d | Closed(s, d) && c in d ensures Gone(t) <= d {
      assert {c} <= d;
      forall y | 0 <= y < |s| && y !in d ensures !t[y].down {
        assert Outside(s, d, y) && SparedCell(s, t[y], y, d);
      }
    }
  }

  /** That is so for every deletion in a run. */
  lemma DeletionsOverRun(trace: seq<Store>, calls: seq<Call>, i: nat)
    requires History(trace, calls) && i < |calls| && Shaped(trace[i]) && Deletes(trace[i], calls[i])
    ensures var s, t, c := trace[i], trace[i + 1], calls[i].c;
      && c in Gone(t) && Closed(s, Gone(t)) && Spared(s, t, Gone(t))
      && forall d :: Closed(s, d) && c in d ==> Gone(t) <= d
  {
    assert Between(trace[i]) && Between(trace[i + 1]) && StepOk(trace[i], calls[i], trace[i + 1]);
    hide Between;
    DeletedExactly(trace[i], trace[i + 1], calls[i].c);
  }

  /** So commands and processes go with the container that owns them: they are in no
      array any more, and freed. */
  lemma OwnedGoToo(s: Store, t: Store, c: Ref, y: Ref)
    requires Between(s) && Between(t) && c < |s| && s[c].parent.Some? && Deleted(s, t, c)
    requires y < |s| && Owned(s[y]) && s[y].owner == Some(c)
    ensures y < |t| && t[y].down && t[y].phase.Freed? && NoRefs(t[y]) && RefsTo(t, y) == 0
  {
    GoneIsClosed(s, t);
    assert y !in Gone(t) ==> Outside(s, Gone(t), y);
    assert CellShrinks(s[y], t[y]) && CellOk(t, y);
    DestroyedIsFreed(t, y);
  }
}
