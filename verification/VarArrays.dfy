/** Arrays of named values: the attributes of an XML node, and the variables of
    an environment. */
module VarArrays {
  import opened Wrappers

  datatype Var = Var(name: string, value: Option<string>)

  predicate Distinct(vars: seq<Var>) {
    forall i, j :: 0 <= i < j < |vars| ==> vars[i].name != vars[j].name
  }

  /** What an array says about a name: nothing, or a value that may be NULL. */
  function Lookup(vars: seq<Var>, name: string): Option<Option<string>> {
    if vars == [] then None
    else if vars[0].name == name then Some(vars[0].value)
    else Lookup(vars[1..], name)
  }

  lemma {:induction false} LookupAt(vars: seq<Var>, i: nat)
    requires i < |vars| && Distinct(vars)
    ensures Lookup(vars, vars[i].name) == Some(vars[i].value)
  {
    if i > 0 {
      LookupAt(vars[1..], i - 1);
    }
  }

  lemma {:induction false} LookupNone(vars: seq<Var>, name: string)
    ensures Lookup(vars, name).None? <==> forall v <- vars :: v.name != name
  {
    if vars != [] {
      LookupNone(vars[1..], name);
      assert vars == [vars[0]] + vars[1..];
    }
  }

  lemma {:induction false} LookupAppend(a: seq<Var>, b: seq<Var>, name: string)
    ensures Lookup(a + b, name) == if Lookup(a, name).Some? then Lookup(a, name) else Lookup(b, name)
  {
    if a == [] {
      assert a + b == b;
    } else {
      assert (a + b)[1..] == a[1..] + b;
      LookupAppend(a[1..], b, name);
    }
  }

  /** Setting a name that is there already replaces its value. */
  function SetVar(vars: seq<Var>, name: string, value: Option<string>): seq<Var> {
    if vars == [] then [Var(name, value)]
    else if vars[0].name == name then [Var(name, value)] + vars[1..]
    else [vars[0]] + SetVar(vars[1..], name, value)
  }

  lemma {:induction false} SetVarNew(vars: seq<Var>, name: string, value: Option<string>)
    requires forall v <- vars :: v.name != name
    ensures SetVar(vars, name, value) == vars + [Var(name, value)]
  {
    if vars != [] {
      assert vars[0] in vars && vars == [vars[0]] + vars[1..];
      SetVarNew(vars[1..], name, value);
    }
  }

  lemma {:induction false} SetVarLookup(vars: seq<Var>, name: string, value: Option<string>, other: string)
    ensures Lookup(SetVar(vars, name, value), other) == if other == name then Some(value) else Lookup(vars, other)
  {
    if vars != [] && vars[0].name != name {
      SetVarLookup(vars[1..], name, value, other);
    }
  }

  lemma {:induction false} SetVarDistinct(vars: seq<Var>, name: string, value: Option<string>)
    requires Distinct(vars)
    ensures Distinct(SetVar(vars, name, value))
    ensures forall v <- SetVar(vars, name, value) :: v.name == name || exists w <- vars :: w.name == v.name
  {
    if vars != [] && vars[0].name != name {
      SetVarDistinct(vars[1..], name, value);
      forall v <- SetVar(vars[1..], name, value) ensures v.name != vars[0].name {
        if v.name != name {
          var w :| w in vars[1..] && w.name == v.name;
        }
      }
    }
  }

  method SetInPlace(vars: seq<Var>, name: string, value: Option<string>) returns (r: seq<Var>)
    ensures r == SetVar(vars, name, value)
  {
    var i := 0;
    assert vars[0..] == vars && vars[..0] == [];
    while i < |vars| && vars[i].name != name
      invariant 0 <= i <= |vars|
      invariant SetVar(vars, name, value) == vars[..i] + SetVar(vars[i..], name, value)
    {
      assert vars[i..][1..] == vars[i + 1..];
      assert vars[..i] + ([vars[i]] + SetVar(vars[i + 1..], name, value)) == vars[..i + 1] + SetVar(vars[i + 1..], name, value);
      i := i + 1;
    }
    if i < |vars| {
      assert vars[i..][1..] == vars[i + 1..];
      r := vars[i := Var(name, value)];
      assert r == vars[..i] + ([Var(name, value)] + vars[i + 1..]);
    } else {
      r := vars + [Var(name, value)];
    }
  }
}
