/** Trees of D-Bus objects: what a server publishes about its tree, and the
    tree that a client builds from that. */
module ObjectTree {
  import opened Wrappers

  type Names = seq<string>

  datatype Tree = Tree(name: string, path: string, interfaces: bool, stale: bool, children: seq<Tree>)

  /** The number of the child with this name, or the number of children. */
  function ChildIndex(cs: seq<Tree>, name: string): (k: nat)
    ensures k <= |cs| && (k < |cs| ==> cs[k].name == name) && forall i :: 0 <= i < k ==> cs[i].name != name
  {
    if cs == [] || cs[0].name == name then 0 else ChildIndex(cs[1..], name) + 1
  }

  /** The object that names lead to from t. */
  function Find(t: Tree, p: Names): Option<Tree>
    decreases p
  {
    if p == [] then Some(t)
    else
      var k := ChildIndex(t.children, p[0]);
      if k == |t.children| then None else Find(t.children[k], p[1..])
  }

  /** Siblings have different names, and an object's path is its parent's path,
      a slash, and its name. */
  predicate Tidy(t: Tree) {
    && (forall i, j :: 0 <= i < j < |t.children| ==> t.children[i].name != t.children[j].name)
    && (forall c <- t.children :: c.path == t.path + "/" + c.name && Tidy(c))
  }

  // ------------------------------------------------------- the four changes

  /** Mark everything below t as stale. */
  function MarkStale(t: Tree): Tree {
    t.(children := seq(|t.children|, i requires 0 <= i < |t.children| => MarkStale(t.children[i]).(stale := true)))
  }

  /** Drop what is stale below t, with all that hangs on it. */
  function PurgeStale(t: Tree): Tree
    decreases t, |t.children| + 1
  {
    t.(children := PurgeFrom(t, 0))
  }

  function PurgeFrom(t: Tree, i: nat): seq<Tree>
    requires i <= |t.children|
    decreases t, |t.children| - i
  {
    if i == |t.children| then []
    else if t.children[i].stale then PurgeFrom(t, i + 1)
    else [PurgeStale(t.children[i])] + PurgeFrom(t, i + 1)
  }

  function NewChild(t: Tree, name: string): Tree {
    Tree(name, t.path + "/" + name, false, false, [])
  }

  /** Look up or create the object that p leads to; it is not stale. Objects
      created on the way are not, either; those that were there stay as they
      are. */
  function Refresh(t: Tree, p: Names): (r: Tree)
    ensures r.name == t.name && r.path == t.path && r.interfaces == t.interfaces
    decreases p
  {
    if p == [] then t.(stale := false)
    else
      var k := ChildIndex(t.children, p[0]);
      if k == |t.children| then t.(children := t.children + [Refresh(NewChild(t, p[0]), p[1..])])
      else t.(children := t.children[k := Refresh(t.children[k], p[1..])])
  }

  // -------------------------------------------------------------- publishing

  /** The paths of t and everything below that has interfaces. */
  function Enumerate(t: Tree): seq<string>
    decreases t, |t.children| + 1
  {
    (if t.interfaces then [t.path] else []) + EnumerateFrom(t, 0)
  }

  function EnumerateFrom(t: Tree, i: nat): seq<string>
    requires i <= |t.children|
    decreases t, |t.children| - i
  {
    if i == |t.children| then [] else Enumerate(t.children[i]) + EnumerateFrom(t, i + 1)
  }

  // ------------------------------------------------------------------- paths

  predicate LegalName(n: string) { n != "" && '/' !in n }

  function SkipSlashes(s: string): (r: string)
    ensures |r| <= |s|
  {
    if s != "" && s[0] == '/' then SkipSlashes(s[1..]) else s
  }

  /** What follows the ancestor's path and any slashes, if path is below it. */
  function RelativePath(ancestor: string, path: string): Option<string> {
    if !(ancestor <= path) || (|path| > |ancestor| && path[|ancestor|] != '/') then None
    else Some(SkipSlashes(path[|ancestor|..]))
  }

  function FirstName(s: string): (r: string)
    ensures r <= s
  {
    if s == "" || s[0] == '/' then "" else [s[0]] + FirstName(s[1..])
  }

  /** The names between slashes, as strtok finds them. */
  function Split(s: string): Names
    decreases |s|
  {
    var t := SkipSlashes(s);
    if t == "" then []
    else
      var n := FirstName(t);
      [n] + Split(t[|n|..])
  }

  function Join(p: Names): string {
    if p == [] then "" else "/" + p[0] + Join(p[1..])
  }

  predicate LegalNames(p: Names) { forall n <- p :: LegalName(n) }

  lemma {:induction false} FirstNameOf(n: string, r: string)
    requires '/' !in n && (r == "" || r[0] == '/')
    ensures FirstName(n + r) == n
  {
    if n == "" {
      assert n + r == r;
    } else {
      assert n[0] in n && forall c <- n[1..] :: c in n;
      assert (n + r)[1..] == n[1..] + r;
      FirstNameOf(n[1..], r);
      assert [n[0]] + n[1..] == n;
    }
  }

  /** Splitting undoes joining. */
  lemma {:induction false} SplitJoin(p: Names)
    requires LegalNames(p)
    ensures Split(Join(p)) == p && Split(SkipSlashes(Join(p))) == p
  {
    if p != [] {
      assert p[0] in p && forall m <- p[1..] :: m in p;
      SplitJoin(p[1..]);
      SplitFirst(p[0], Join(p[1..]));
      hide Split, SkipSlashes, LegalName;
      assert [p[0]] + p[1..] == p;
    }
  }

  lemma SplitFirst(n: string, r: string)
    requires LegalName(n) && (r == "" || r[0] == '/')
    ensures SkipSlashes("/" + n + r) == n + r
    ensures Split("/" + n + r) == Split(n + r) == [n] + Split(r)
  {
    var s, t := "/" + n + r, n + r;
    assert n[0] in n && s[1..] == t;
    assert SkipSlashes(t) == t;
    FirstNameOf(n, r);
    assert t[|n|..] == r;
  }

  lemma RelativeJoin(ancestor: string, p: Names)
    requires LegalNames(p)
    ensures RelativePath(ancestor, ancestor + Join(p)).Some?
    ensures Split(RelativePath(ancestor, ancestor + Join(p)).value) == p
  {
    SplitJoin(p);
    assert (ancestor + Join(p))[|ancestor|..] == Join(p);
  }

  // ------------------------------------------------- what the changes amount to

  /** Whether p leads to an object, and if so whether that is stale. */
  function StaleAt(t: Tree, p: Names): Option<bool> {
    match Find(t, p) case None => None case Some(u) => Some(u.stale)
  }

  lemma ChildIndexSame(cs: seq<Tree>, ds: seq<Tree>, name: string)
    requires |cs| == |ds| && forall i :: 0 <= i < |cs| ==> cs[i].name == ds[i].name
    ensures ChildIndex(cs, name) == ChildIndex(ds, name)
  {
  }

  lemma {:induction false} MarkFind(t: Tree, p: Names)
    ensures StaleAt(MarkStale(t), p) == if p == [] then Some(t.stale) else if Find(t, p).Some? then Some(true) else None
    decreases p
  {
    if p != [] {
      ChildIndexSame(t.children, MarkStale(t).children, p[0]);
      var k := ChildIndex(t.children, p[0]);
      if k < |t.children| {
        var c := t.children[k];
        var d := MarkStale(c).(stale := true);
        assert MarkStale(t).children[k] == d;
        assert Find(MarkStale(t), p) == Find(d, p[1..]) && Find(t, p) == Find(c, p[1..]);
        MarkFind(c, p[1..]);
      }
    }
  }

  function RefreshedAt(t: Tree, q: Names, p: Names): Option<bool> {
    if p == q then Some(false)
    else if Find(t, p).Some? then StaleAt(t, p)
    else if p <= q then Some(false)
    else None
  }

  lemma {:induction false} RefreshFind(t: Tree, q: Names, p: Names)
    ensures StaleAt(Refresh(t, q), p) == RefreshedAt(t, q, p)
    decreases q
  {
    if q == [] {
    } else if p != [] {
      var k := ChildIndex(t.children, q[0]);
      assert p == [p[0]] + p[1..] && q == [q[0]] + q[1..];
      if k == |t.children| {
        RefreshFind(NewChild(t, q[0]), q[1..], p[1..]);
        RefreshNew(t, q, p);
      } else {
        RefreshFind(t.children[k], q[1..], p[1..]);
        RefreshOld(t, q, p);
      }
    }
  }

  lemma RefreshNew(t: Tree, q: Names, p: Names)
    requires p != [] && q != [] && p == [p[0]] + p[1..] && q == [q[0]] + q[1..]
    requires ChildIndex(t.children, q[0]) == |t.children|
    requires StaleAt(Refresh(NewChild(t, q[0]), q[1..]), p[1..]) == RefreshedAt(NewChild(t, q[0]), q[1..], p[1..])
    ensures StaleAt(Refresh(t, q), p) == RefreshedAt(t, q, p)
  {
    var c := Refresh(NewChild(t, q[0]), q[1..]);
    var r := Refresh(t, q);
    assert r.children == t.children + [c];
    AppendIndex(t.children, c, p[0]);
    hide Refresh;
    assert p[1..] != [] ==> Find(NewChild(t, q[0]), p[1..]).None?;
    assert p <= q <==> p[0] == q[0] && p[1..] <= q[1..];
    assert p == q <==> p[0] == q[0] && p[1..] == q[1..];
  }

  lemma RefreshOld(t: Tree, q: Names, p: Names)
    requires p != [] && q != [] && p == [p[0]] + p[1..] && q == [q[0]] + q[1..]
    requires ChildIndex(t.children, q[0]) < |t.children|
    requires var c := t.children[ChildIndex(t.children, q[0])];
      StaleAt(Refresh(c, q[1..]), p[1..]) == RefreshedAt(c, q[1..], p[1..])
    ensures StaleAt(Refresh(t, q), p) == RefreshedAt(t, q, p)
  {
    var k := ChildIndex(t.children, q[0]);
    var r := Refresh(t, q);
    assert r.children == t.children[k := Refresh(t.children[k], q[1..])];
    ChildIndexSame(t.children, r.children, p[0]);
    hide Refresh;
    assert p <= q <==> p[0] == q[0] && p[1..] <= q[1..];
    assert p == q <==> p[0] == q[0] && p[1..] == q[1..];
  }

  lemma {:induction false} AppendIndex(cs: seq<Tree>, c: Tree, name: string)
    ensures ChildIndex(cs + [c], name) ==
      if ChildIndex(cs, name) < |cs| then ChildIndex(cs, name) else if c.name == name then |cs| else |cs| + 1
  {
    if cs == [] {
      assert [c][1..] == [];
    } else {
      assert (cs + [c])[1..] == cs[1..] + [c];
      AppendIndex(cs[1..], c, name);
    }
  }

  /** Neither the object nor anything on the way to it is stale. */
  predicate Fresh(t: Tree, p: Names) {
    forall k :: 1 <= k <= |p| ==> StaleAt(t, p[..k]) == Some(false)
  }

  lemma {:induction false} PurgeFind(t: Tree, p: Names)
    requires Tidy(t)
    ensures Find(PurgeStale(t), p).Some? <==> Fresh(t, p)
    decreases p
  {
    if p != [] {
      PurgeIndex(t, 0, p[0]);
      var k := ChildIndex(t.children, p[0]);
      FreshChild(t, p);
      if k < |t.children| {
        assert t.children[k] in t.children;
        PurgeFind(t.children[k], p[1..]);
      }
    }
  }

  lemma FreshChild(t: Tree, p: Names)
    requires p != []
    ensures var k := ChildIndex(t.children, p[0]);
      Fresh(t, p) <==> k < |t.children| && !t.children[k].stale && Fresh(t.children[k], p[1..])
  {
    var k := ChildIndex(t.children, p[0]);
    assert p[..1] == [p[0]];
    forall j | 1 <= j <= |p|
      ensures StaleAt(t, p[..j]) == if k == |t.children| then None else StaleAt(t.children[k], p[1..][..j - 1])
    {
      assert p[..j][1..] == p[1..][..j - 1];
    }
    if k < |t.children| {
      var c := t.children[k];
      if Fresh(t, p) {
        assert StaleAt(t, p[..1]) == Some(false);
        forall j | 1 <= j <= |p[1..]| ensures StaleAt(c, p[1..][..j]) == Some(false) {
          assert StaleAt(t, p[..j + 1]) == StaleAt(c, p[1..][..j]);
        }
      }
      if !c.stale && Fresh(c, p[1..]) {
        forall j | 1 <= j <= |p| ensures StaleAt(t, p[..j]) == Some(false) {
          assert j > 1 ==> StaleAt(c, p[1..][..j - 1]) == Some(false);
          assert j == 1 ==> p[1..][..0] == [];
        }
      }
    } else {
      assert StaleAt(t, p[..1]).None?;
    }
  }

  /** Where a child ends up after the stale ones are gone. */
  lemma {:induction false} PurgeIndex(t: Tree, i: nat, name: string)
    requires i <= |t.children| && (forall i, j :: 0 <= i < j < |t.children| ==> t.children[i].name != t.children[j].name)
    ensures var k := ChildIndex(t.children, name);
      var r := PurgeFrom(t, i);
      var m := ChildIndex(r, name);
      m < |r| <==> i <= k < |t.children| && !t.children[k].stale
    ensures var k := ChildIndex(t.children, name);
      var r := PurgeFrom(t, i);
      var m := ChildIndex(r, name);
      m < |r| ==> r[m] == PurgeStale(t.children[k])
    decreases |t.children| - i
  {
    if i < |t.children| {
      PurgeIndex(t, i + 1, name);
      var r := PurgeFrom(t, i);
      if !t.children[i].stale {
        assert r[1..] == PurgeFrom(t, i + 1);
      }
    }
  }

  // ---------------------------------------------------- what does not change

  /** An object that is there before and after is the same one but for its mark
      and what hangs on it. */
  predicate SameObject(u: Option<Tree>, v: Option<Tree>) {
    u.Some? && v.Some? ==>
      v.value.name == u.value.name && v.value.path == u.value.path && v.value.interfaces == u.value.interfaces
  }

  lemma {:induction false} MarkKeeps(t: Tree, p: Names)
    ensures SameObject(Find(t, p), Find(MarkStale(t), p))
    decreases p
  {
    if p != [] {
      ChildIndexSame(t.children, MarkStale(t).children, p[0]);
      var k := ChildIndex(t.children, p[0]);
      if k < |t.children| {
        var d := MarkStale(t.children[k]).(stale := true);
        assert MarkStale(t).children[k] == d;
        MarkKeeps(t.children[k], p[1..]);
        assert p[1..] != [] ==> Find(d, p[1..]) == Find(MarkStale(t.children[k]), p[1..]);
      }
    }
  }

  lemma {:induction false} RefreshKeeps(t: Tree, q: Names, p: Names)
    ensures SameObject(Find(t, p), Find(Refresh(t, q), p))
    decreases p
  {
    if p != [] && q != [] {
      var r := Refresh(t, q);
      var k, j := ChildIndex(t.children, q[0]), ChildIndex(t.children, p[0]);
      if k < |t.children| {
        assert r.children == t.children[k := Refresh(t.children[k], q[1..])];
        ChildIndexSame(t.children, r.children, p[0]);
        if j == k {
          RefreshKeeps(t.children[k], q[1..], p[1..]);
        }
      } else {
        AppendIndex(t.children, Refresh(NewChild(t, q[0]), q[1..]), p[0]);
      }
    }
  }

  lemma {:induction false} PurgeKeeps(t: Tree, p: Names)
    requires Tidy(t)
    ensures SameObject(Find(t, p), Find(PurgeStale(t), p))
    ensures Find(PurgeStale(t), p).Some? ==> StaleAt(PurgeStale(t), p) == StaleAt(t, p)
    decreases p
  {
    if p != [] {
      PurgeIndex(t, 0, p[0]);
      var k := ChildIndex(t.children, p[0]);
      if k < |t.children| {
        assert t.children[k] in t.children;
        PurgeKeeps(t.children[k], p[1..]);
      }
    }
  }

  // ------------------------------------------------------ any path, any names

  /** A path is below an ancestor if it is its path, or goes on from it with a
      slash. */
  lemma RelativeIff(ancestor: string, path: string)
    ensures RelativePath(ancestor, path).Some?
      <==> path == ancestor || exists r :: path == ancestor + "/" + r
  {
    if ancestor <= path && |path| > |ancestor| && path[|ancestor|] == '/' {
      assert path == ancestor + "/" + path[|ancestor| + 1..];
    }
    if r :| path == ancestor + "/" + r {
      assert path[|ancestor|] == '/' && path[..|ancestor|] == ancestor;
    }
  }

  /** The text without its slashes. */
  function Plain(s: string): string {
    if s == "" then "" else (if s[0] == '/' then "" else [s[0]]) + Plain(s[1..])
  }

  function Concat(p: Names): string {
    if p == [] then "" else p[0] + Concat(p[1..])
  }

  lemma {:induction false} PlainSkip(s: string)
    ensures Plain(SkipSlashes(s)) == Plain(s)
    ensures SkipSlashes(s) != "" ==> SkipSlashes(s)[0] != '/'
  {
    if s != "" && s[0] == '/' {
      PlainSkip(s[1..]);
    }
  }

  lemma {:induction false} PlainFirst(s: string)
    ensures Plain(s) == FirstName(s) + Plain(s[|FirstName(s)|..])
    ensures '/' !in FirstName(s) && (s != "" && s[0] != '/' ==> FirstName(s) != "")
  {
    if s != "" && s[0] != '/' {
      PlainFirst(s[1..]);
      var n := FirstName(s[1..]);
      FirstNameIs(s, n);
      Then([s[0]], n, Plain(s[1..][|n|..]));
    }
  }

  lemma FirstNameIs(s: string, n: string)
    requires s != "" && s[0] != '/' && n == FirstName(s[1..])
    ensures FirstName(s) == [s[0]] + n && s[|FirstName(s)|..] == s[1..][|n|..]
  {
  }

  lemma Then(a: string, b: string, c: string)
    ensures a + b + c == a + (b + c)
  {
  }

  /** However many slashes a path has: splitting it gives the names between them,
      all of them and in order. */
  lemma {:induction false} SplitAny(s: string)
    ensures LegalNames(Split(s)) && Concat(Split(s)) == Plain(s)
    decreases |s|
  {
    var t := SkipSlashes(s);
    PlainSkip(s);
    if t != "" {
      var n := FirstName(t);
      PlainFirst(t);
      SplitAny(t[|n|..]);
      var p := Split(t[|n|..]);
      assert ([n] + p)[1..] == p;
    }
  }

  /** Names end at slashes: what stands before one does not depend on what comes
      after it. */
  lemma {:induction false} SplitAt(a: string, b: string)
    ensures Split(a + "/" + b) == Split(a) + Split(b)
    decreases |a|
  {
    hide *;
    if a == "" {
      SplitNothing();
      assert a + "/" + b == "/" + b;
      SplitSlash(b);
    } else if a[0] == '/' {
      var c := a[1..];
      SplitAt(c, b);
      SplitSlash(c);
      SplitSlash(c + "/" + b);
      assert a == "/" + c;
      Slashes(c, b);
    } else {
      var n, r := NameAndRest(a);
      SplitAt(r, b);
      SplitOff(a, n, r);
      SlashAfter(n, r, b);
      SplitOff(a + "/" + b, n, r + "/" + b);
      Prepended(n, Split(r), Split(b));
    }
  }

  lemma SplitNothing()
    ensures Split("") == []
  {
  }

  lemma Slashes(c: string, b: string)
    ensures "/" + c + "/" + b == "/" + (c + "/" + b)
  {
  }

  lemma SlashAfter(n: string, r: string, b: string)
    ensures n + r + "/" + b == n + (r + "/" + b)
    ensures (r == "" || r[0] == '/') ==> (r + "/" + b)[0] == '/'
  {
  }

  lemma Prepended(n: string, p: Names, q: Names)
    ensures [n] + (p + q) == [n] + p + q
  {
  }

  lemma NameAndRest(a: string) returns (n: string, r: string)
    requires a != "" && a[0] != '/'
    ensures a == n + r && |r| < |a| && n != "" && '/' !in n && (r == "" || r[0] == '/')
  {
    n := FirstName(a);
    r := a[|n|..];
    PlainFirst(a);
    FirstNameEnds(a);
  }

  lemma SplitSlash(s: string)
    ensures Split("/" + s) == Split(s)
  {
    assert ("/" + s)[1..] == s;
  }

  /** Splitting takes off the first name. */
  lemma SplitOff(s: string, n: string, r: string)
    requires s == n + r && n != "" && '/' !in n && (r == "" || r[0] == '/')
    ensures Split(s) == [n] + Split(r)
  {
    FirstNameOf(n, r);
    assert n[0] in n && s[0] == n[0] && SkipSlashes(s) == s && s[|n|..] == r;
  }

  lemma {:induction false} FirstNameEnds(s: string)
    ensures var r := s[|FirstName(s)|..]; r == "" || r[0] == '/'
  {
    if s != "" && s[0] != '/' {
      FirstNameEnds(s[1..]);
      assert s[|FirstName(s)|..] == s[1..][|FirstName(s[1..])|..];
    }
  }
}
