/** Environments as the master keeps them, and the environment of a process:
    what its command, its host, and the containers around them define. */
module ProcessEnv {
  import opened Wrappers
  import opened VarArrays
  import opened Environ

  // ---------------------------------------------------------------- sorting

  function Insert(vars: seq<Var>, v: Var): seq<Var> {
    if vars == [] then [v]
    else if Less(v.name, vars[0].name) then [v] + vars
    else [vars[0]] + Insert(vars[1..], v)
  }

  /** What qsort makes of variables with different names. */
  function SortVars(vars: seq<Var>): seq<Var> {
    if vars == [] then [] else Insert(SortVars(vars[1..]), vars[0])
  }

  lemma {:induction false} InsertSorted(vars: seq<Var>, v: Var)
    requires Sorted(vars) && forall w <- vars :: w.name != v.name
    ensures Sorted(Insert(vars, v))
    ensures forall w :: w in Insert(vars, v) <==> w == v || w in vars
  {
    Order();
    if vars != [] {
      assert vars[0] in vars && vars == [vars[0]] + vars[1..];
      if !Less(v.name, vars[0].name) {
        InsertSorted(vars[1..], v);
        var r := Insert(vars[1..], v);
        forall w <- r ensures Less(vars[0].name, w.name) {
        }
        forall j | 0 <= j < |r| ensures Less(vars[0].name, r[j].name) {
          assert r[j] in r;
        }
      }
    }
  }

  lemma {:induction false} InsertLookup(vars: seq<Var>, v: Var, name: string)
    requires forall w <- vars :: w.name != v.name
    ensures Lookup(Insert(vars, v), name) == if name == v.name then Some(v.value) else Lookup(vars, name)
  {
    if vars != [] {
      assert vars[0] in vars && vars == [vars[0]] + vars[1..];
      InsertLookup(vars[1..], v, name);
    }
  }

  lemma {:induction false} SortedVars(vars: seq<Var>)
    requires Distinct(vars)
    ensures Sorted(SortVars(vars))
    ensures forall w :: w in SortVars(vars) <==> w in vars
    ensures forall name :: Lookup(SortVars(vars), name) == Lookup(vars, name)
  {
    if vars != [] {
      var v, rest := vars[0], SortVars(vars[1..]);
      assert vars == [v] + vars[1..];
      SortedVars(vars[1..]);
      InsertSorted(rest, v);
      forall name ensures Lookup(SortVars(vars), name) == Lookup(vars, name) {
        InsertLookup(rest, v, name);
      }
    }
  }

  // ------------------------------------------------------------ environments

  class Env {
    var vars: seq<Var>
    var sorted: bool

    ghost predicate Valid()
      reads this
    {
      Distinct(vars) && (sorted ==> Sorted(vars))
    }

    ghost function Get(name: string): Option<Option<string>>
      reads this
    {
      Lookup(vars, name)
    }

    constructor ()
      ensures Valid() && vars == []
    {
      vars, sorted := [], false;
    }

    method SetEnv(name: string, value: Option<string>)
      requires Valid()
      modifies this
      ensures Valid()
      ensures forall other :: Get(other) == if other == name then Some(value) else old(Get(other))
    {
      SetVarDistinct(vars, name, value);
      forall other ensures Lookup(SetVar(vars, name, value), other) == if other == name then Some(value) else Lookup(vars, other) {
        SetVarLookup(vars, name, value, other);
      }
      vars := SetInPlace(vars, name, value);
      sorted := false;
    }

    /** To unset a variable is to define it as NULL. */
    method UnsetEnv(name: string)
      requires Valid()
      modifies this
      ensures Valid()
      ensures forall other :: Get(other) == if other == name then Some(None) else old(Get(other))
    {
      SetEnv(name, None);
    }

    method GetEnv(name: string) returns (value: Option<string>)
      ensures value == match Get(name) case Some(v) => v case None => None
    {
      var i := 0;
      while i < |vars| && vars[i].name != name
        invariant 0 <= i <= |vars| && Lookup(vars, name) == Lookup(vars[i..], name)
      {
        assert vars[i..][1..] == vars[i + 1..];
        i := i + 1;
      }
      value := if i < |vars| then vars[i].value else None;
    }

    method Sort()
      requires Valid()
      modifies this
      ensures Valid() && Sorted(vars) && sorted
      ensures forall name :: Get(name) == old(Get(name))
    {
      if !sorted {
        SortedVars(vars);
        SortedDistinct(SortVars(vars));
        vars := SortVars(vars);
        sorted := true;
      }
    }
  }

  ghost predicate AllValid(envs: seq<Env>)
    reads envs
  {
    forall e <- envs :: e.Valid()
  }

  ghost function Layers(envs: seq<Env>): seq<seq<Var>>
    reads envs
  {
    seq(|envs|, i requires 0 <= i < |envs| reads envs => envs[i].vars)
  }

  ghost predicate SameLookups(a: seq<Var>, b: seq<Var>) {
    forall name :: Lookup(a, name) == Lookup(b, name)
  }

  lemma {:induction false} LayersSame(a: seq<seq<Var>>, b: seq<seq<Var>>, name: string)
    requires |a| == |b| && forall n :: 0 <= n < |a| ==> SameLookups(a[n], b[n])
    ensures Layered(a, name) == Layered(b, name)
  {
    if a != [] {
      assert SameLookups(a[0], b[0]);
      LayersSame(a[1..], b[1..], name);
    }
  }

  /** Merge environments into an empty one. They are sorted on the way, but
      define what they did. */
  method Merge(result: Env, envs: seq<Env>)
    requires result.Valid() && result.vars == [] && result !in envs && AllValid(envs)
    modifies result, envs
    ensures result.Valid() && AllValid(envs)
    ensures forall e <- envs :: SameLookups(e.vars, old(e.vars))
    ensures forall name :: result.Get(name) == Layered(old(Layers(envs)), name)
  {
    var tapes: seq<seq<Var>> := [];
    var n := 0;
    while n < |envs|
      invariant 0 <= n <= |envs| && AllValid(envs) && |tapes| == n
      invariant forall e <- envs :: SameLookups(e.vars, old(e.vars))
      invariant forall m :: 0 <= m < n ==> Sorted(tapes[m]) && SameLookups(tapes[m], old(envs[m].vars))
    {
      var env := envs[n];
      assert env in envs && SameLookups(env.vars, old(env.vars));
      ghost var before := env.vars;
      env.Sort();
      assert SameLookups(env.vars, old(env.vars)) by {
        forall name ensures Lookup(env.vars, name) == Lookup(old(env.vars), name) {
          assert env.Get(name) == Lookup(before, name);
        }
      }
      tapes := tapes + [envs[n].vars];
      n := n + 1;
    }
    result.vars := MergeTapes(tapes);
    result.sorted := true;
    SortedDistinct(result.vars);
    forall name ensures Layered(tapes, name) == Layered(old(Layers(envs)), name) {
      LayersSame(tapes, old(Layers(envs)), name);
    }
  }

  /** Merge the environments of a container and its ancestors into result,
      which itself goes first. Empty environments are left out. */
  method MergeEnvironment(chain: seq<Env>, result: Env)
    requires result.Valid() && result !in chain && AllValid(chain)
    modifies result, chain
    ensures result.Valid() && AllValid(chain)
    ensures forall e <- chain :: SameLookups(e.vars, old(e.vars))
    ensures forall name :: result.Get(name) == Layered([old(result.vars)] + old(Layers(chain)), name)
  {
    ghost var want := [result.vars] + Layers(chain);
    var envs := Collect(chain, result);
    ghost var layers := Layers(envs);
    if envs != [] {
      var tmp := new Env();
      assert Layers(envs) == layers;
      Merge(tmp, envs);
      assert forall name :: Lookup(tmp.vars, name) == tmp.Get(name) == Layered(layers, name);
      result.vars, result.sorted := tmp.vars, tmp.sorted;
    } else {
      assert layers == [] && result.vars == [];
    }
    forall name ensures result.Get(name) == Layered(want, name) {
      assert Layered(layers, name) == Layered(want, name);
    }
    forall e <- chain ensures e.Valid() && SameLookups(e.vars, old(e.vars)) {
      assert e in envs || e.vars == old(e.vars);
    }
  }

  /** The environments that define anything, result first. */
  method Collect(chain: seq<Env>, result: Env) returns (envs: seq<Env>)
    ensures forall i :: 0 <= i < |envs| ==> envs[i] == result || envs[i] in chain
    ensures forall name :: Layered(Layers(envs), name) == Layered([result.vars] + Layers(chain), name)
    ensures envs == [] ==> result.vars == []
  {
    envs := if result.vars != [] then [result] else [];
    ghost var all := [result.vars];
    AddLayer([], [], result.vars);
    assert all == [] + [result.vars] && Layers(envs) == if result.vars != [] then [] + [result.vars] else [];
    var n := 0;
    while n < |chain|
      invariant 0 <= n <= |chain|
      invariant forall i :: 0 <= i < |envs| ==> envs[i] == result || envs[i] in chain
      invariant all == [result.vars] + Layers(chain)[..n]
      invariant forall name :: Layered(Layers(envs), name) == Layered(all, name)
      invariant envs == [] ==> result.vars == []
    {
      ghost var before := Layers(envs);
      if chain[n].vars != [] {
        envs := envs + [chain[n]];
        assert Layers(envs) == before + [chain[n].vars];
      }
      AddLayer(before, all, chain[n].vars);
      all := all + [chain[n].vars];
      n := n + 1;
    }
    assert Layers(chain)[..n] == Layers(chain);
  }

  /** A layer that defines nothing can be left out. */
  lemma AddLayer(a: seq<seq<Var>>, b: seq<seq<Var>>, v: seq<Var>)
    requires forall name :: Layered(a, name) == Layered(b, name)
    ensures forall name :: Layered(a + [v], name) == Layered(b + [v], name)
    ensures v == [] ==> forall name :: Layered(a, name) == Layered(b + [v], name)
  {
    forall name ensures Layered(a + [v], name) == Layered(b + [v], name) && (v == [] ==> Layered(a, name) == Layered(b + [v], name)) {
      LayeredAppend(a, [v], name);
      LayeredAppend(b, [v], name);
      assert Layered([v], name) == Lookup(v, name) by {
        assert [v][1..] == [];
      }
    }
  }

  /** Merging what was merged already with more layers is the same as merging
      all of them at once. */
  lemma MergeTwice(a: seq<seq<Var>>, merged: seq<Var>, more: seq<seq<Var>>, name: string)
    requires Lookup(merged, name) == Layered(a, name)
    ensures Layered([merged] + more, name) == Layered(a + more, name)
  {
    LayeredAppend(a, more, name);
    LayeredAppend([merged], more, name);
    assert [merged][1..] == [];
  }

  /** The environment of a new process: its own, then that of the command and
      its ancestors, then that of the host and its ancestors. */
  method ApplyContexts(proc: Env, command: seq<Env>, host: seq<Env>)
    requires proc.Valid() && proc !in command && proc !in host && AllValid(command) && AllValid(host)
    modifies proc, command, host
    ensures proc.Valid() && AllValid(command) && AllValid(host)
    ensures forall name :: proc.Get(name) == Layered([old(proc.vars)] + old(Layers(command)) + old(Layers(host)), name)
  {
    MergeEnvironment(command, proc);
    forall e <- host ensures e.Valid() && SameLookups(e.vars, old(e.vars)) {
    }
    ghost var merged, layers := proc.vars, Layers(host);
    MergeEnvironment(host, proc);
    ghost var first := [old(proc.vars)] + old(Layers(command));
    forall name ensures proc.Get(name) == Layered(first + old(Layers(host)), name) {
      MergeTwice(first, merged, layers, name);
      LayersSame(layers, old(Layers(host)), name);
      LayeredAppend(first, layers, name);
      LayeredAppend(first, old(Layers(host)), name);
    }
    forall e <- command ensures e.Valid() {
    }
  }
}