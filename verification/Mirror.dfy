/** A client mirrors a server's objects: it marks what it knows as stale, looks
    up or creates what the server lists, and drops what is still stale. */
module Mirror {
  import opened Wrappers
  import opened ObjectTree

  // ------------------------------------------------------------- the listing

  function Under(n: string, ps: seq<Names>): seq<Names> {
    seq(|ps|, i requires 0 <= i < |ps| => [n] + ps[i])
  }

  /** The listing in terms of names. */
  function Published(t: Tree): seq<Names>
    decreases t, |t.children| + 1
  {
    (if t.interfaces then [[]] else []) + PublishedFrom(t, 0)
  }

  function PublishedFrom(t: Tree, i: nat): seq<Names>
    requires i <= |t.children|
    decreases t, |t.children| - i
  {
    if i == |t.children| then []
    else Under(t.children[i].name, Published(t.children[i])) + PublishedFrom(t, i + 1)
  }

  /** The names of everything below t can be told apart in a path. */
  predicate LegalTree(t: Tree) {
    forall c <- t.children :: LegalName(c.name) && LegalTree(c)
  }

  predicate Paths(s: seq<string>, path: string, ps: seq<Names>) {
    |s| == |ps| && forall i :: 0 <= i < |ps| ==> s[i] == path + Join(ps[i])
  }

  lemma {:induction false} EnumeratePaths(t: Tree)
    requires Tidy(t)
    ensures Paths(Enumerate(t), t.path, Published(t))
    decreases t, |t.children| + 1
  {
    EnumeratePathsFrom(t, 0);
    assert t.path + "" == t.path;
  }

  lemma {:induction false} EnumeratePathsFrom(t: Tree, i: nat)
    requires Tidy(t) && i <= |t.children|
    ensures Paths(EnumerateFrom(t, i), t.path, PublishedFrom(t, i))
    decreases t, |t.children| - i
  {
    if i < |t.children| {
      var c := t.children[i];
      assert c in t.children;
      EnumeratePaths(c);
      EnumeratePathsFrom(t, i + 1);
      var ps, qs := Published(c), Under(c.name, Published(c));
      forall j | 0 <= j < |qs| ensures Enumerate(c)[j] == t.path + Join(qs[j]) {
        assert qs[j][1..] == ps[j];
        assert t.path + "/" + c.name + Join(ps[j]) == t.path + ("/" + c.name + Join(ps[j]));
      }
    }
  }

  lemma UnderIn(n: string, ps: seq<Names>, p: Names)
    ensures p in Under(n, ps) <==> p != [] && p[0] == n && p[1..] in ps
  {
    if p != [] && p[0] == n && p[1..] in ps {
      var i :| 0 <= i < |ps| && ps[i] == p[1..];
      assert Under(n, ps)[i] == p;
    }
    if p in Under(n, ps) {
      var i :| 0 <= i < |ps| && Under(n, ps)[i] == p;
      assert p[1..] == ps[i];
    }
  }

  /** What is listed are the objects with interfaces. */
  lemma {:induction false} PublishedIff(t: Tree, p: Names)
    requires Tidy(t)
    ensures p in Published(t) <==> Find(t, p).Some? && Find(t, p).value.interfaces
    decreases p, |t.children| + 1
  {
    PublishedFromIff(t, 0, p);
    if p != [] {
      assert p !in [[]];
    }
  }

  lemma {:induction false} PublishedFromIff(t: Tree, i: nat, p: Names)
    requires Tidy(t) && i <= |t.children|
    ensures p in PublishedFrom(t, i) <==>
      p != [] && i <= ChildIndex(t.children, p[0]) < |t.children| && Find(t, p).Some? && Find(t, p).value.interfaces
    decreases p, |t.children| - i
  {
    if i < |t.children| {
      var c := t.children[i];
      assert c in t.children;
      PublishedFromIff(t, i + 1, p);
      UnderIn(c.name, Published(c), p);
      if p != [] && p[0] == c.name {
        PublishedIff(c, p[1..]);
        OnlyChildNamed(t, i, p[0]);
      }
      hide Published, Under, Tidy;
    }
  }

  lemma OnlyChildNamed(t: Tree, i: nat, name: string)
    requires Tidy(t) && i < |t.children| && t.children[i].name == name
    ensures ChildIndex(t.children, name) == i
  {
  }

  lemma {:induction false} PublishedLegal(t: Tree, p: Names)
    requires LegalTree(t) && Find(t, p).Some?
    ensures LegalNames(p)
    decreases p
  {
    if p != [] {
      var c := t.children[ChildIndex(t.children, p[0])];
      assert c in t.children;
      PublishedLegal(c, p[1..]);
      assert p == [p[0]] + p[1..];
    }
  }

  // ------------------------------------------------------------- the refresh

  /** One entry of the listing. */
  function RefreshPath(t: Tree, path: string): Tree {
    match RelativePath(t.path, path)
    case Some(rel) => Refresh(t, Split(rel))
    case None => t
  }

  function RefreshPaths(t: Tree, paths: seq<string>): Tree
    decreases |paths|
  {
    if paths == [] then t else RefreshPaths(RefreshPath(t, paths[0]), paths[1..])
  }

  lemma {:induction false} RefreshOneMore(t: Tree, paths: seq<string>, path: string)
    ensures RefreshPaths(t, paths + [path]) == RefreshPath(RefreshPaths(t, paths), path)
    decreases |paths|
  {
    if paths == [] {
      assert [] + [path] == [path];
    } else {
      assert (paths + [path])[1..] == paths[1..] + [path];
      RefreshOneMore(RefreshPath(t, paths[0]), paths[1..], path);
    }
  }

  function RefreshAll(t: Tree, ps: seq<Names>): Tree
    decreases |ps|
  {
    if ps == [] then t else RefreshAll(Refresh(t, ps[0]), ps[1..])
  }

  lemma {:induction false} RefreshPathsAre(t: Tree, paths: seq<string>, ps: seq<Names>)
    requires Paths(paths, t.path, ps) && forall p <- ps :: LegalNames(p)
    ensures RefreshPaths(t, paths) == RefreshAll(t, ps)
    decreases |ps|
  {
    if ps != [] {
      assert ps[0] in ps && forall p <- ps[1..] :: p in ps;
      RelativeJoin(t.path, ps[0]);
      RefreshPathsAre(Refresh(t, ps[0]), paths[1..], ps[1..]);
    }
  }

  /** Some entry is at p or below it. */
  predicate Covered(ps: seq<Names>, p: Names) {
    exists q <- ps :: p <= q
  }

  lemma {:induction false} RefreshAllFind(t: Tree, ps: seq<Names>, p: Names)
    ensures StaleAt(RefreshAll(t, ps), p) ==
      if p in ps then Some(false) else if Find(t, p).Some? then StaleAt(t, p) else if Covered(ps, p) then Some(false) else None
    decreases |ps|
  {
    if ps != [] {
      var t1 := Refresh(t, ps[0]);
      RefreshAllFind(t1, ps[1..], p);
      RefreshFind(t, ps[0], p);
      CoveredFirst(ps, p);
    }
  }

  lemma CoveredFirst(ps: seq<Names>, p: Names)
    requires ps != []
    ensures Covered(ps, p) <==> p <= ps[0] || Covered(ps[1..], p)
    ensures p in ps <==> p == ps[0] || p in ps[1..]
  {
    assert ps == [ps[0]] + ps[1..];
    if Covered(ps, p) {
      var q :| q in ps && p <= q;
      assert q == ps[0] || q in ps[1..];
    }
    if p <= ps[0] {
      assert ps[0] in ps;
    }
    if Covered(ps[1..], p) {
      var q :| q in ps[1..] && p <= q;
      assert q in ps;
    }
  }

  /** The client's tree after it has asked for the listing. */
  function Managed(client: Tree, paths: seq<string>, purge: bool): Tree {
    if purge then PurgeStale(RefreshPaths(MarkStale(client), paths)) else RefreshPaths(client, paths)
  }

  lemma NothingTaken(t: Tree)
    ensures RefreshPaths(t, []) == t
  {
  }

  lemma ManagedIs(client: Tree, paths: seq<string>, purge: bool)
    ensures Managed(client, paths, purge)
      == var t := RefreshPaths(if purge then MarkStale(client) else client, paths); if purge then PurgeStale(t) else t
  {
  }

  // ----------------------------------------------------- tidiness is kept

  lemma {:induction false} MarkTidy(t: Tree)
    requires Tidy(t)
    ensures Tidy(MarkStale(t))
  {
    forall c <- MarkStale(t).children ensures c.path == t.path + "/" + c.name && Tidy(c) {
      var i :| 0 <= i < |t.children| && c == MarkStale(t.children[i]).(stale := true);
      assert t.children[i] in t.children;
      MarkTidy(t.children[i]);
    }
  }

  lemma {:induction false} RefreshTidy(t: Tree, p: Names)
    requires Tidy(t)
    ensures Tidy(Refresh(t, p))
    decreases p
  {
    if p != [] {
      var k := ChildIndex(t.children, p[0]);
      if k == |t.children| {
        RefreshTidy(NewChild(t, p[0]), p[1..]);
      } else {
        assert t.children[k] in t.children;
        RefreshTidy(t.children[k], p[1..]);
      }
    }
  }

  lemma {:induction false} RefreshAllTidy(t: Tree, ps: seq<Names>)
    requires Tidy(t)
    ensures Tidy(RefreshAll(t, ps))
    decreases |ps|
  {
    if ps != [] {
      RefreshTidy(t, ps[0]);
      RefreshAllTidy(Refresh(t, ps[0]), ps[1..]);
    }
  }

  lemma {:induction false} PurgeTidy(t: Tree)
    requires Tidy(t)
    ensures Tidy(PurgeStale(t))
    decreases t, |t.children| + 1
  {
    PurgeTidyFrom(t, 0);
  }

  lemma {:induction false} PurgeTidyFrom(t: Tree, i: nat)
    requires Tidy(t) && i <= |t.children|
    ensures var r := PurgeFrom(t, i);
      && (forall j, k :: 0 <= j < k < |r| ==> r[j].name != r[k].name)
      && (forall c <- r :: c.path == t.path + "/" + c.name && Tidy(c))
      && (forall c <- r :: exists j :: i <= j < |t.children| && t.children[j].name == c.name)
    decreases t, |t.children| - i
  {
    if i < |t.children| {
      PurgeTidyFrom(t, i + 1);
      var c := t.children[i];
      assert c in t.children;
      if !c.stale {
        PurgeTidy(c);
        assert PurgeStale(c).name == c.name && PurgeStale(c).path == c.path;
      }
    }
  }

  /** Whatever the server lists, the client's tree stays tidy: every object's
      path is its parent's path, a slash, and its name. */
  lemma ManagedTidy(client: Tree, server: Tree, purge: bool)
    requires Tidy(client) && Tidy(server) && LegalTree(server) && server.path == client.path
    ensures Tidy(Managed(client, Enumerate(server), purge))
  {
    var t := if purge then MarkStale(client) else client;
    if purge {
      MarkTidy(client);
    }
    ListingIs(t, server);
    RefreshAllTidy(t, Published(server));
    if purge {
      PurgeTidy(RefreshAll(t, Published(server)));
    }
  }

  lemma ListingIs(t: Tree, server: Tree)
    requires Tidy(server) && LegalTree(server) && server.path == t.path
    ensures RefreshPaths(t, Enumerate(server)) == RefreshAll(t, Published(server))
  {
    EnumeratePaths(server);
    forall p <- Published(server) ensures LegalNames(p) {
      PublishedIff(server, p);
      PublishedLegal(server, p);
    }
    RefreshPathsAre(t, Enumerate(server), Published(server));
  }

  // --------------------------------------------------------- what is mirrored

  predicate Listed(t: Tree, p: Names) {
    Find(t, p).Some? && Find(t, p).value.interfaces
  }

  /** An object survives if it is listed, or if it is on the way to a listed
      one and the client did not know it before. */
  ghost predicate Kept(client: Tree, server: Tree, p: Names) {
    Listed(server, p) || (Find(client, p).None? && LeadsToListed(server, p))
  }

  ghost predicate LeadsToListed(server: Tree, p: Names) {
    exists q :: p <= q && Listed(server, q)
  }

  lemma CoveredIff(server: Tree, p: Names)
    requires Tidy(server)
    ensures Covered(Published(server), p) <==> LeadsToListed(server, p)
  {
    if Covered(Published(server), p) {
      var q :| q in Published(server) && p <= q;
      PublishedIff(server, q);
      assert Listed(server, q);
    }
    if LeadsToListed(server, p) {
      var q :| p <= q && Listed(server, q);
      PublishedIff(server, q);
    }
  }

  lemma KeptIs(client: Tree, server: Tree, p: Names)
    requires Tidy(server) && LegalTree(server) && server.path == client.path && p != []
    ensures StaleAt(RefreshPaths(MarkStale(client), Enumerate(server)), p) == Some(false) <==> Kept(client, server, p)
  {
    var t := MarkStale(client);
    ListingIs(t, server);
    RefreshAllFind(t, Published(server), p);
    MarkFind(client, p);
    PublishedIff(server, p);
    CoveredIff(server, p);
  }

  /** What the client ends up with: the objects that are kept, with everything
      above them. */
  lemma MirroredIff(client: Tree, server: Tree, p: Names)
    requires Tidy(client) && Tidy(server) && LegalTree(server) && server.path == client.path
    ensures Find(Managed(client, Enumerate(server), true), p).Some?
      <==> forall k :: 1 <= k <= |p| ==> Kept(client, server, p[..k])
  {
    var t := RefreshPaths(MarkStale(client), Enumerate(server));
    MarkTidy(client);
    ListingIs(MarkStale(client), server);
    RefreshAllTidy(MarkStale(client), Published(server));
    PurgeFind(t, p);
    forall k | 1 <= k <= |p| ensures StaleAt(t, p[..k]) == Some(false) <==> Kept(client, server, p[..k]) {
      KeptIs(client, server, p[..k]);
    }
    assert Fresh(t, p) <==> forall k :: 1 <= k <= |p| ==> Kept(client, server, p[..k]);
  }

  lemma {:induction false} FindPrefix(t: Tree, p: Names, q: Names)
    requires p <= q && Find(t, q).Some?
    ensures Find(t, p).Some?
    decreases p
  {
    if p != [] {
      FindPrefix(t.children[ChildIndex(t.children, p[0])], p[1..], q[1..]);
    }
  }

  /** The mirror holds nothing that the server does not have. */
  lemma NothingExtra(client: Tree, server: Tree, p: Names)
    requires Tidy(client) && Tidy(server) && LegalTree(server) && server.path == client.path
    requires Find(Managed(client, Enumerate(server), true), p).Some?
    ensures Find(server, p).Some?
  {
    MirroredIff(client, server, p);
    if p != [] {
      assert p[..|p|] == p;
      assert Kept(client, server, p);
      if LeadsToListed(server, p) {
        var q :| p <= q && Listed(server, q);
        FindPrefix(server, p, q);
      }
    }
  }

  /** Everything without interfaces has something below it. */
  predicate LeavesListed(t: Tree) {
    forall c <- t.children :: (c.children == [] ==> c.interfaces) && LeavesListed(c)
  }

  /** The client does not know any of the server's objects without
      interfaces. */
  ghost predicate NoneKnownUnlisted(client: Tree, server: Tree) {
    forall p :: p != [] && Find(server, p).Some? && Find(client, p).Some? ==> Listed(server, p)
  }

  ghost predicate SameObjects(t: Tree, u: Tree) {
    forall p :: Find(t, p).Some? <==> Find(u, p).Some?
  }

  /** From every object, names lead down to a listed one. */
  lemma {:induction false} DownToListed(t: Tree) returns (r: Names)
    requires Tidy(t) && LeavesListed(t) && (t.children == [] ==> t.interfaces)
    ensures Listed(t, r)
    decreases t
  {
    if t.interfaces {
      r := [];
    } else {
      var c := t.children[0];
      assert c in t.children;
      var s := DownToListed(c);
      r := [c.name] + s;
      assert r[1..] == s;
    }
  }

  lemma {:induction false} FindThen(t: Tree, p: Names, r: Names)
    requires Find(t, p).Some?
    ensures Find(t, p + r) == Find(Find(t, p).value, r)
    decreases p
  {
    if p == [] {
      assert p + r == r;
    } else {
      assert (p + r)[1..] == p[1..] + r;
      FindThen(t.children[ChildIndex(t.children, p[0])], p[1..], r);
    }
  }

  lemma {:induction false} BelowLeaves(t: Tree, p: Names)
    requires Tidy(t) && LeavesListed(t) && p != [] && Find(t, p).Some?
    ensures var u := Find(t, p).value; Tidy(u) && LeavesListed(u) && (u.children == [] ==> u.interfaces)
    decreases p
  {
    var c := t.children[ChildIndex(t.children, p[0])];
    assert c in t.children;
    if p[1..] != [] {
      BelowLeaves(c, p[1..]);
    }
  }

  lemma LeavesLead(server: Tree, p: Names)
    requires Tidy(server) && LeavesListed(server) && p != [] && Find(server, p).Some?
    ensures LeadsToListed(server, p)
  {
    BelowLeaves(server, p);
    var r := DownToListed(Find(server, p).value);
    FindThen(server, p, r);
    assert p <= p + r && Listed(server, p + r);
  }

  /** If every object leads to a listed one, every leaf is listed. */
  lemma {:induction false} LeadLeaves(top: Tree, at: Names, t: Tree)
    requires Tidy(t) && Find(top, at) == Some(t)
    requires forall p :: p != [] && Find(top, p).Some? ==> LeadsToListed(top, p)
    ensures LeavesListed(t)
    decreases t
  {
    forall c <- t.children ensures (c.children == [] ==> c.interfaces) && LeavesListed(c) {
      var i :| 0 <= i < |t.children| && t.children[i] == c;
      var p := at + [c.name];
      ChildAt(top, at, t, i);
      LeadLeaves(top, p, c);
      if c.children == [] {
        LeadsToLeaf(top, p, c);
      }
    }
  }

  lemma ChildAt(top: Tree, at: Names, t: Tree, i: nat)
    requires Tidy(t) && Find(top, at) == Some(t) && i < |t.children|
    ensures Find(top, at + [t.children[i].name]) == Some(t.children[i])
  {
    FindThen(top, at, [t.children[i].name]);
    assert Find(t.children[i], []) == Some(t.children[i]);
  }

  lemma LeadsToLeaf(top: Tree, p: Names, c: Tree)
    requires Find(top, p) == Some(c) && c.children == [] && LeadsToListed(top, p)
    ensures c.interfaces
  {
    var q :| p <= q && Listed(top, q);
    FindThen(top, p, q[|p|..]);
    assert p + q[|p|..] == q;
    assert Find(c, q[|p|..]).Some? ==> q[|p|..] == [];
  }

  /** The mirror is exact just when every leaf of the server's tree is listed,
      and the client did not know any object that is not. */
  lemma MirrorExact(client: Tree, server: Tree)
    requires Tidy(client) && Tidy(server) && LegalTree(server) && server.path == client.path
    ensures SameObjects(Managed(client, Enumerate(server), true), server)
      <==> LeavesListed(server) && NoneKnownUnlisted(client, server)
  {
    var m := Managed(client, Enumerate(server), true);
    if LeavesListed(server) && NoneKnownUnlisted(client, server) {
      forall p ensures Find(m, p).Some? <==> Find(server, p).Some? {
        if Find(server, p).Some? {
          ExactHas(client, server, p);
        }
        if Find(m, p).Some? {
          NothingExtra(client, server, p);
        }
      }
    }
    if SameObjects(m, server) {
      forall p | p != [] && Find(server, p).Some? ensures Kept(client, server, p) && LeadsToListed(server, p) {
        assert Find(m, p).Some?;
        MirroredIff(client, server, p);
        assert p[..|p|] == p;
        assert Kept(client, server, p);
        assert Listed(server, p) ==> p <= p && LeadsToListed(server, p);
      }
      LeadLeaves(server, [], server);
    }
  }

  lemma ExactHas(client: Tree, server: Tree, p: Names)
    requires Tidy(client) && Tidy(server) && LegalTree(server) && server.path == client.path
    requires LeavesListed(server) && NoneKnownUnlisted(client, server) && Find(server, p).Some?
    ensures Find(Managed(client, Enumerate(server), true), p).Some?
  {
    MirroredIff(client, server, p);
    hide Managed, Enumerate, Tidy, LegalTree, LeavesListed;
    forall k | 1 <= k <= |p| ensures Kept(client, server, p[..k]) {
      FindPrefix(server, p[..k], p);
      LeavesLead(server, p[..k]);
    }
  }

  /** What the client knew and the server does not list is lost with all that
      is below it, even where the server still has it. */
  lemma LostWhenKnown(client: Tree, server: Tree, p: Names)
    requires Tidy(client) && Tidy(server) && LegalTree(server) && server.path == client.path
    requires p != [] && Find(client, p).Some? && !Listed(server, p)
    ensures forall q :: p <= q ==> Find(Managed(client, Enumerate(server), true), q).None?
  {
    forall q | p <= q ensures Find(Managed(client, Enumerate(server), true), q).None? {
      MirroredIff(client, server, q);
      assert q[..|p|] == p;
    }
  }

  lemma KnownTree(server: Tree, a: Tree, b: Tree)
    requires server == Tree("", "/t", true, false, [a]) && a == Tree("a", "/t/a", false, false, [b])
    requires b == Tree("b", "/t/a/b", true, false, [])
    ensures Tidy(server) && LegalTree(server) && LeavesListed(server)
  {
    assert "/t" + "/" + "a" == a.path && "/t/a" + "/" + "b" == b.path;
    assert Tidy(b) && Tidy(a) && LegalName("a") && LegalName("b");
  }

  lemma NothingKnown(client: Tree, server: Tree)
    requires client.children == []
    ensures NoneKnownUnlisted(client, server)
  {
    forall p | p != [] ensures Find(client, p).None? {
    }
  }

  /** An object without interfaces that the client does not know appears on the
      way to what is below it; one that it knows is lost, with all that. */
  lemma KnownIsLost(server: Tree, knew: Tree, empty: Tree)
    requires server == Tree("", "/t", true, false, [Tree("a", "/t/a", false, false, [Tree("b", "/t/a/b", true, false, [])])])
    requires knew == server && empty == Tree("", "/t", true, false, [])
    ensures Tidy(server) && LegalTree(server) && LeavesListed(server)
    ensures SameObjects(Managed(empty, Enumerate(server), true), server)
    ensures forall p: Names :: ["a"] <= p ==> Find(Managed(knew, Enumerate(server), true), p).None?
  {
    var a := server.children[0];
    var b := a.children[0];
    assert a == Tree("a", "/t/a", false, false, [b]) && b == Tree("b", "/t/a/b", true, false, []);
    KnownTree(server, a, b);
    NothingKnown(empty, server);
    assert Find(server, ["a"]) == Find(a, ["a"][1..]) == Some(a);
    assert Tidy(empty) && !Listed(server, ["a"]);
    hide *;
    MirrorExact(empty, server);
    LostWhenKnown(knew, server, ["a"]);
  }

  /** Without purging, the client keeps what it had, and adds what leads to a
      listed object; no mark changes but that of listed objects. */
  lemma UnpurgedIff(client: Tree, server: Tree, p: Names)
    requires Tidy(server) && LegalTree(server) && server.path == client.path
    ensures var m := Managed(client, Enumerate(server), false);
      && (Find(m, p).Some? <==> Find(client, p).Some? || LeadsToListed(server, p))
      && (Find(m, p).Some? ==>
           (Find(m, p).value.stale <==> !Listed(server, p) && Find(client, p).Some? && Find(client, p).value.stale))
  {
    ListingIs(client, server);
    RefreshAllFind(client, Published(server), p);
    PublishedIff(server, p);
    CoveredIff(server, p);
    assert Listed(server, p) ==> p <= p;
  }

  lemma {:induction false} RefreshAllKeeps(t: Tree, ps: seq<Names>, p: Names)
    ensures SameObject(Find(t, p), Find(RefreshAll(t, ps), p))
    decreases |ps|
  {
    if ps != [] {
      RefreshKeeps(t, ps[0], p);
      RefreshFind(t, ps[0], p);
      RefreshAllKeeps(Refresh(t, ps[0]), ps[1..], p);
    }
  }

  /** An object that the client knew and still has is the same one. */
  lemma ManagedKeeps(client: Tree, server: Tree, purge: bool, p: Names)
    requires Tidy(client) && Tidy(server) && LegalTree(server) && server.path == client.path
    ensures SameObject(Find(client, p), Find(Managed(client, Enumerate(server), purge), p))
  {
    var t := if purge then MarkStale(client) else client;
    if purge {
      MarkKeeps(client, p);
      MarkFind(client, p);
      MarkTidy(client);
    }
    ListingIs(t, server);
    RefreshAllTidy(t, Published(server));
    RefreshAllKeeps(t, Published(server), p);
    RefreshAllFind(t, Published(server), p);
    if purge {
      PurgeKeeps(RefreshAll(t, Published(server)), p);
    }
  }
}
