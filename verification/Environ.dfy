/** Environments of containers, and the n-way merge that layers them. */
module Environ {
  import opened Wrappers
  import opened VarArrays

  // ----------------------------------------------------------------- order

  /** The order of strcmp. */
  predicate Less(a: string, b: string) {
    if b == "" then false
    else if a == "" then true
    else a[0] < b[0] || (a[0] == b[0] && Less(a[1..], b[1..]))
  }

  lemma {:induction false} LessTotal(a: string, b: string)
    ensures (Less(a, b) || a == b || Less(b, a)) && !(Less(a, b) && Less(b, a)) && !Less(a, a)
  {
    if a != "" && b != "" && a[0] == b[0] {
      LessTotal(a[1..], b[1..]);
      assert a == [a[0]] + a[1..] && b == [b[0]] + b[1..];
    }
    if a != "" {
      LessTotal(a[1..], a[1..]);
    }
  }

  /** That is: the one is the beginning of the other, or has the smaller character
      where they first differ. */
  lemma {:induction false} LessIff(a: string, b: string)
    ensures Less(a, b) <==> a < b || exists k :: FirstSmaller(a, b, k)
  {
    if a != "" && b != "" {
      LessIff(a[1..], b[1..]);
      assert a == [a[0]] + a[1..] && b == [b[0]] + b[1..];
      assert a < b <==> a[0] == b[0] && a[1..] < b[1..];
      if k: nat :| FirstSmaller(a, b, k) && k > 0 {
        assert a[1..][..k - 1] == a[..k][1..] && b[1..][..k - 1] == b[..k][1..];
        assert a[0] == a[..k][0] && b[0] == b[..k][0];
        assert FirstSmaller(a[1..], b[1..], k - 1);
      }
      if a[0] == b[0] {
        if k: nat :| FirstSmaller(a[1..], b[1..], k) {
          assert a[..k + 1] == [a[0]] + a[1..][..k] && b[..k + 1] == [b[0]] + b[1..][..k];
          assert FirstSmaller(a, b, k + 1);
        }
      }
      if a[0] < b[0] {
        assert a[..0] == b[..0] && FirstSmaller(a, b, 0);
      }
    }
  }

  predicate FirstSmaller(a: string, b: string, k: nat) {
    k < |a| && k < |b| && a[..k] == b[..k] && a[k] < b[k]
  }

  lemma {:induction false} LessTrans(a: string, b: string, c: string)
    requires Less(a, b) && Less(b, c)
    ensures Less(a, c)
  {
    if a != "" && a[0] == b[0] == c[0] {
      LessTrans(a[1..], b[1..], c[1..]);
    }
  }

  /** Names are compared with each other freely; both facts at once. */
  lemma Order()
    ensures forall a, b :: (Less(a, b) || a == b || Less(b, a)) && !(Less(a, b) && Less(b, a))
    ensures forall a, b, c :: Less(a, b) && Less(b, c) ==> Less(a, c)
  {
    forall a, b ensures (Less(a, b) || a == b || Less(b, a)) && !(Less(a, b) && Less(b, a)) {
      LessTotal(a, b);
    }
    forall a, b, c | Less(a, b) && Less(b, c) ensures Less(a, c) {
      LessTrans(a, b, c);
    }
  }

  // ---------------------------------------------------------------- look-up

  predicate Sorted(vars: seq<Var>) {
    forall i, j :: 0 <= i < j < |vars| ==> Less(vars[i].name, vars[j].name)
  }

  /** The first layer that defines a name decides. */
  function Layered(layers: seq<seq<Var>>, name: string): Option<Option<string>> {
    if layers == [] then None
    else if Lookup(layers[0], name).Some? then Lookup(layers[0], name)
    else Layered(layers[1..], name)
  }

  lemma {:induction false} LayeredAppend(a: seq<seq<Var>>, b: seq<seq<Var>>, name: string)
    ensures Layered(a + b, name) == if Layered(a, name).Some? then Layered(a, name) else Layered(b, name)
  {
    if a == [] {
      assert a + b == b;
    } else {
      assert (a + b)[1..] == a[1..] + b;
      LayeredAppend(a[1..], b, name);
    }
  }

  lemma {:induction false} LayeredNone(layers: seq<seq<Var>>, name: string)
    requires forall n :: 0 <= n < |layers| ==> Lookup(layers[n], name).None?
    ensures Layered(layers, name).None?
  {
    if layers != [] {
      LayeredNone(layers[1..], name);
    }
  }

  lemma {:induction false} LayeredFirst(layers: seq<seq<Var>>, name: string, n: nat)
    requires n < |layers| && Lookup(layers[n], name).Some?
    requires forall m :: 0 <= m < n ==> Lookup(layers[m], name).None?
    ensures Layered(layers, name) == Lookup(layers[n], name)
  {
    if n > 0 {
      LayeredFirst(layers[1..], name, n - 1);
    }
  }

  /** Sorted environments that agree on every name are equal. */
  lemma {:induction false} SortedUnique(a: seq<Var>, b: seq<Var>)
    requires Sorted(a) && Sorted(b) && forall name :: Lookup(a, name) == Lookup(b, name)
    ensures a == b
  {
    Order();
    SortedDistinct(a);
    SortedDistinct(b);
    if a == [] || b == [] {
      if a != [] {
        LookupAt(a, 0);
      }
      if b != [] {
        LookupAt(b, 0);
      }
    } else {
      LookupAt(a, 0);
      LookupAt(b, 0);
      LookupNone(a, b[0].name);
      LookupNone(b, a[0].name);
      assert a[0].name == b[0].name;
      forall name ensures Lookup(a[1..], name) == Lookup(b[1..], name) {
        LookupNone(a[1..], a[0].name);
        LookupNone(b[1..], b[0].name);
        if name != a[0].name {
          assert Lookup(a, name) == Lookup(a[1..], name) && Lookup(b, name) == Lookup(b[1..], name);
        }
      }
      SortedUnique(a[1..], b[1..]);
      assert a == [a[0]] + a[1..] && b == [b[0]] + b[1..];
    }
  }

  lemma SortedDistinct(vars: seq<Var>)
    requires Sorted(vars)
    ensures Distinct(vars)
  {
    Order();
  }

  // ---------------------------------------------------------------- the merge

  /** The tapes, and how far each was read: everything read is at most last,
      the rest at least. */
  predicate Tape(vars: seq<Var>, next: nat, last: string) {
    && next <= |vars| && Sorted(vars)
    && (forall i :: 0 <= i < next ==> !Less(last, vars[i].name))
    && (forall i :: next <= i < |vars| ==> !Less(vars[i].name, last))
  }

  /** After the last name itself has been skipped. */
  predicate Skipped(vars: seq<Var>, next: nat, last: string) {
    && next <= |vars| && Sorted(vars)
    && (forall i :: 0 <= i < next ==> !Less(last, vars[i].name))
    && (forall i :: next <= i < |vars| ==> Less(last, vars[i].name))
  }

  /** Skip the variable that was just merged. A smaller name cannot turn up:
      nothing is ever missed. */
  method SkipDups(vars: seq<Var>, next: nat, name: string) returns (after: nat)
    requires Tape(vars, next, name)
    ensures after >= next && Skipped(vars, after, name)
  {
    Order();
    after := next;
    while after < |vars|
      invariant next <= after <= |vars|
      invariant Tape(vars, after, name)
    {
      if Less(vars[after].name, name) {
        // the program would give up here
        assert false;
      }
      if vars[after].name != name {
        break;
      }
      after := after + 1;
    }
  }

  /** How many variables are still to come. */
  function Above(vars: seq<Var>, last: string): nat {
    if vars == [] then 0 else (if Less(last, vars[0].name) then 1 else 0) + Above(vars[1..], last)
  }

  function AllAbove(tapes: seq<seq<Var>>, last: string): nat {
    if tapes == [] then 0 else Above(tapes[0], last) + AllAbove(tapes[1..], last)
  }

  predicate ReadTo(vars: seq<Var>, next: nat, last: Option<string>) {
    Sorted(vars) && if last.None? then next == 0 else Tape(vars, next, last.value)
  }

  predicate ReadPast(vars: seq<Var>, next: nat, last: Option<string>) {
    Sorted(vars) && if last.None? then next == 0 else Skipped(vars, next, last.value)
  }

  /** The best of the first k tapes: the smallest next variable, from the
      first tape that has it. */
  predicate Best(tapes: seq<seq<Var>>, next: seq<nat>, k: nat, best: Option<nat>)
    requires k <= |tapes| == |next|
  {
    match best
    case None => forall n :: 0 <= n < k ==> next[n] >= |tapes[n]|
    case Some(b) =>
      && b < k && next[b] < |tapes[b]|
      && (forall n :: 0 <= n < k && next[n] < |tapes[n]| ==> !Less(tapes[n][next[n]].name, tapes[b][next[b]].name))
      && (forall n :: 0 <= n < b && next[n] < |tapes[n]| ==> Less(tapes[b][next[b]].name, tapes[n][next[n]].name))
  }

  /** One round: skip duplicates on every tape, and pick the next variable. */
  method Round(tapes: seq<seq<Var>>, next: array<nat>, last: Option<string>) returns (best: Option<nat>)
    requires |tapes| == next.Length && forall n :: 0 <= n < |tapes| ==> ReadTo(tapes[n], next[n], last)
    modifies next
    ensures forall n :: 0 <= n < |tapes| ==> ReadPast(tapes[n], next[n], last)
    ensures Best(tapes, next[..], |tapes|, best)
  {
    Order();
    best := None;
    var n: nat := 0;
    while n < |tapes|
      invariant n <= |tapes|
      invariant forall m :: 0 <= m < n ==> ReadPast(tapes[m], next[m], last)
      invariant forall m :: n <= m < |tapes| ==> ReadTo(tapes[m], next[m], last)
      invariant Best(tapes, next[..], n, best)
    {
      if last.Some? {
        ghost var before := next[..];
        var after := SkipDups(tapes[n], next[n], last.value);
        next[n] := after;
        assert forall m :: 0 <= m < n ==> next[..][m] == before[m];
      }
      if next[n] < |tapes[n]| {
        if best.None? || Less(tapes[n][next[n]].name, tapes[best.value][next[best.value]].name) {
          best := Some(n);
        }
      }
      n := n + 1;
    }
  }

  /** What has been merged so far: every name up to last. */
  ghost predicate Merged(tapes: seq<seq<Var>>, result: seq<Var>, last: Option<string>) {
    && Sorted(result)
    && (last.None? ==> result == [])
    && (last.Some? ==> forall v <- result :: !Less(last.value, v.name))
    && (last.Some? ==> forall name :: !Less(last.value, name) ==> Lookup(result, name) == Layered(tapes, name))
  }

  /** Names that a tape with nothing left below v could still define. */
  lemma TapeLookup(vars: seq<Var>, next: nat, last: Option<string>, name: string)
    requires ReadPast(vars, next, last) && (last.Some? ==> Less(last.value, name))
    requires next < |vars| ==> !Less(vars[next].name, name)
    ensures Lookup(vars, name) == if next < |vars| && vars[next].name == name then Some(vars[next].value) else None
  {
    Order();
    SortedDistinct(vars);
    LookupNone(vars, name);
    if next < |vars| && vars[next].name == name {
      LookupAt(vars, next);
    } else {
      forall v <- vars ensures v.name != name {
        var i :| 0 <= i < |vars| && vars[i] == v;
        if i > next {
          assert Less(vars[next].name, vars[i].name);
        }
      }
    }
  }

  /** No tape defines a name between the last one and the next. */
  lemma NothingBetween(tapes: seq<seq<Var>>, next: seq<nat>, last: Option<string>, best: Option<nat>, name: string)
    requires |tapes| == |next| && Best(tapes, next, |tapes|, best)
    requires forall n :: 0 <= n < |tapes| ==> ReadPast(tapes[n], next[n], last)
    requires last.Some? ==> Less(last.value, name)
    requires best.Some? ==> !Less(tapes[best.value][next[best.value]].name, name)
    ensures Layered(tapes, name) ==
      if best.Some? && tapes[best.value][next[best.value]].name == name then Some(tapes[best.value][next[best.value]].value) else None
  {
    Order();
    forall n | 0 <= n < |tapes|
      ensures Lookup(tapes[n], name) == if next[n] < |tapes[n]| && tapes[n][next[n]].name == name then Some(tapes[n][next[n]].value) else None
    {
      TapeLookup(tapes[n], next[n], last, name);
    }
    if best.Some? && tapes[best.value][next[best.value]].name == name {
      LayeredFirst(tapes, name, best.value);
    } else {
      LayeredNone(tapes, name);
    }
  }

  lemma MergedStep(tapes: seq<seq<Var>>, next: seq<nat>, last: Option<string>, b: nat, result: seq<Var>)
    requires |tapes| == |next| && Best(tapes, next, |tapes|, Some(b)) && Merged(tapes, result, last)
    requires forall n :: 0 <= n < |tapes| ==> ReadPast(tapes[n], next[n], last)
    ensures var v := tapes[b][next[b]];
      && (last.Some? ==> Less(last.value, v.name))
      && (forall w <- result :: w.name != v.name)
      && Merged(tapes, result + [v], Some(v.name))
      && forall n :: 0 <= n < |tapes| ==> ReadTo(tapes[n], next[n], Some(v.name))
  {
    Order();
    var v := tapes[b][next[b]];
    forall name | !Less(v.name, name) ensures Lookup(result + [v], name) == Layered(tapes, name) {
      LookupAppend(result, [v], name);
      LookupNone(result, name);
      assert [v][1..] == [];
      if last.None? || Less(last.value, name) {
        NothingBetween(tapes, next, last, Some(b), name);
      }
    }
    forall n | 0 <= n < |tapes| ensures ReadTo(tapes[n], next[n], Some(v.name)) {
      assert ReadPast(tapes[n], next[n], last);
    }
  }

  lemma {:induction false} AboveLess(vars: seq<Var>, last: string, v: string)
    requires Less(last, v)
    ensures Above(vars, v) <= Above(vars, last)
    ensures (exists w <- vars :: w.name == v) ==> Above(vars, v) < Above(vars, last)
  {
    Order();
    if vars != [] {
      AboveLess(vars[1..], last, v);
      assert vars == [vars[0]] + vars[1..];
    }
  }

  lemma {:induction false} AllAboveLess(tapes: seq<seq<Var>>, last: string, v: Var, b: nat)
    requires b < |tapes| && v in tapes[b] && Less(last, v.name)
    ensures AllAbove(tapes, v.name) < AllAbove(tapes, last)
  {
    AboveLess(tapes[0], last, v.name);
    if b > 0 {
      AllAboveLess(tapes[1..], last, v, b - 1);
    } else {
      AllAboveMono(tapes[1..], last, v.name);
    }
  }

  lemma {:induction false} AllAboveMono(tapes: seq<seq<Var>>, last: string, v: string)
    requires Less(last, v)
    ensures AllAbove(tapes, v) <= AllAbove(tapes, last)
  {
    if tapes != [] {
      AboveLess(tapes[0], last, v);
      AllAboveMono(tapes[1..], last, v);
    }
  }

  /** An n-way tape merge. Sorted environments are layered, first one first. */
  method MergeTapes(tapes: seq<seq<Var>>) returns (result: seq<Var>)
    requires forall n :: 0 <= n < |tapes| ==> Sorted(tapes[n])
    ensures Sorted(result) && forall name :: Lookup(result, name) == Layered(tapes, name)
  {
    var next := new nat[|tapes|](i => 0);
    var last: Option<string> := None;
    result := [];
    while true
      invariant Merged(tapes, result, last)
      invariant forall n :: 0 <= n < |tapes| ==> ReadTo(tapes[n], next[n], last)
      decreases last.None?, if last.Some? then AllAbove(tapes, last.value) else 0
    {
      var best := Round(tapes, next, last);
      if best.None? {
        MergedAll(tapes, next[..], last, result);
        break;
      }
      var v := tapes[best.value][next[best.value]];
      MergedStep(tapes, next[..], last, best.value, result);
      SetVarNew(result, v.name, v.value);
      result := SetInPlace(result, v.name, v.value);
      if last.Some? {
        AllAboveLess(tapes, last.value, v, best.value);
      }
      last := Some(v.name);
    }
  }

  lemma MergedAll(tapes: seq<seq<Var>>, next: seq<nat>, last: Option<string>, result: seq<Var>)
    requires |tapes| == |next| && Best(tapes, next, |tapes|, None) && Merged(tapes, result, last)
    requires forall n :: 0 <= n < |tapes| ==> ReadPast(tapes[n], next[n], last)
    ensures forall name :: Lookup(result, name) == Layered(tapes, name)
  {
    Order();
    forall name ensures Lookup(result, name) == Layered(tapes, name) {
      if last.None? || Less(last.value, name) {
        NothingBetween(tapes, next, last, None, name);
        LookupNone(result, name);
      }
    }
  }
}
