/** D-Bus objects in memory, on the server and on the client. Each object's view
    is the tree that hangs on it. */
module MirrorObjects {
  import opened Wrappers
  import T = ObjectTree
  import M = Mirror

  class Object {
    const name: string
    const path: string
    var interfaces: bool
    var stale: bool
    var children: seq<Object>
    ghost var view: T.Tree
    ghost var repr: set<Object>

    ghost predicate Valid()
      reads this, repr
      decreases repr
    {
      && this in repr
      && view == T.Tree(name, path, interfaces, stale, view.children)
      && |view.children| == |children|
      && (forall i :: 0 <= i < |children| ==> Holds(children[i], view.children[i]))
      && (forall i, j :: 0 <= i < j < |children| ==> children[i].repr !! children[j].repr)
    }

    ghost predicate Holds(c: Object, v: T.Tree)
      reads this, repr
      decreases repr, 0
    {
      && this in repr && c in repr && c in c.repr && c.repr <= repr && this !in c.repr && c.Valid()
      && c.view == v && v == T.Tree(c.name, c.path, c.interfaces, c.stale, v.children)
    }

    constructor (name: string, path: string)
      ensures Valid() && repr == {this} && view == T.Tree(name, path, false, false, []) && fresh(this)
      ensures this.name == name && this.path == path
    {
      this.name, this.path, interfaces, stale, children := name, path, false, false, [];
      view, repr := T.Tree(name, path, false, false, []), {this};
    }

    method MarkStale()
      requires Valid()
      modifies repr
      ensures Valid() && repr == old(repr) && view == T.MarkStale(old(view))
      decreases repr, 0
    {
      var i := 0;
      while i < |children|
        invariant 0 <= i <= |children| == |old(children)|
        invariant repr == old(repr) && view == old(view) && children == old(children) && interfaces == old(interfaces) && stale == old(stale)
        invariant forall j :: 0 <= j < |children| ==> children[j].repr == old(children[j].repr)
        invariant forall j :: 0 <= j < i ==> Holds(children[j], T.MarkStale(view.children[j]).(stale := true))
        invariant forall j :: i <= j < |children| ==> Holds(children[j], view.children[j])
      {
        children[i].Stale();
        i := i + 1;
      }
      view := T.MarkStale(view);
    }

    method Stale()
      requires Valid()
      modifies repr
      ensures Valid() && repr == old(repr) && view == T.MarkStale(old(view)).(stale := true)
      decreases repr, 1
    {
      stale := true;
      view := view.(stale := true);
      if children != [] {
        MarkStale();
      }
    }

    /** What the fields of the children say is what the view says. */
    lemma ChildFields()
      requires Valid()
      ensures forall i :: 0 <= i < |children| ==> children[i].name == view.children[i].name && children[i].stale == view.children[i].stale
    {
      forall i | 0 <= i < |children| ensures children[i].name == view.children[i].name && children[i].stale == view.children[i].stale {
        assert Holds(children[i], view.children[i]);
      }
    }

    /** Unlink the children that are stale; a child that stays is purged
        below. */
    method PurgeStale()
      requires Valid()
      modifies repr
      ensures Valid() && repr == old(repr) && view == T.PurgeStale(old(view))
      decreases repr
    {
      hide T.PurgeFrom;
      ghost var v := view;
      ghost var n := 0;
      var i := 0;
      PurgeEnds(v);
      while i < |children|
        invariant Valid() && repr == old(repr) && view == v.(children := view.children)
        invariant 0 <= i <= |children| && 0 <= n <= |v.children| && view.children[i..] == v.children[n..]
        invariant T.PurgeFrom(v, 0) == view.children[..i] + T.PurgeFrom(v, n)
        decreases |children| - i
      {
        ghost var before := view.children;
        ChildFields();
        PurgeNext(v, n, before, i);
        if children[i].stale {
          Unlink(i);
        } else {
          PurgeChild(i);
          i := i + 1;
        }
        n := n + 1;
      }
      assert view.children[..i] == view.children;
    }

    lemma PurgeEnds(v: T.Tree)
      ensures T.PurgeFrom(v, |v.children|) == []
      ensures T.PurgeStale(v) == v.(children := T.PurgeFrom(v, 0))
    {
    }

    /** One step of the purge, on the view. */
    lemma PurgeNext(v: T.Tree, n: nat, cs: seq<T.Tree>, i: nat)
      requires i < |cs| && n <= |v.children| && cs[i..] == v.children[n..]
      requires T.PurgeFrom(v, 0) == cs[..i] + T.PurgeFrom(v, n)
      ensures n < |v.children| && v.children[n] == cs[i]
      ensures if cs[i].stale
        then var ds := cs[..i] + cs[i + 1..]; ds[i..] == v.children[n + 1..] && T.PurgeFrom(v, 0) == ds[..i] + T.PurgeFrom(v, n + 1)
        else var ds := cs[i := T.PurgeStale(cs[i])]; ds[i + 1..] == v.children[n + 1..] && T.PurgeFrom(v, 0) == ds[..i + 1] + T.PurgeFrom(v, n + 1)
    {
      assert cs[i..][0] == v.children[n..][0] && cs[i..][1..] == v.children[n..][1..];
      assert cs[i..][1..] == cs[i + 1..] && v.children[n..][1..] == v.children[n + 1..];
      if cs[i].stale {
        var ds := cs[..i] + cs[i + 1..];
        assert ds[..i] == cs[..i] && ds[i..] == cs[i + 1..];
      } else {
        var d := T.PurgeStale(cs[i]);
        var ds := cs[i := d];
        assert ds[..i + 1] == cs[..i] + [d] && ds[i + 1..] == cs[i + 1..];
        assert cs[..i] + ([d] + T.PurgeFrom(v, n + 1)) == cs[..i] + [d] + T.PurgeFrom(v, n + 1);
      }
    }

    method Unlink(i: nat)
      requires Valid() && i < |children|
      modifies this
      ensures Valid() && repr == old(repr) && children == old(children[..i] + children[i + 1..])
      ensures view == old(view).(children := old(view).children[..i] + old(view).children[i + 1..])
    {
      ghost var v, cs := view, children;
      children := children[..i] + children[i + 1..];
      view := v.(children := v.children[..i] + v.children[i + 1..]);
      forall j | 0 <= j < |children| ensures Holds(children[j], view.children[j]) {
        var k := if j < i then j else j + 1;
        assert children[j] == cs[k] && view.children[j] == v.children[k];
      }
    }

    method PurgeChild(i: nat)
      requires Valid() && i < |children|
      modifies repr
      ensures Valid() && repr == old(repr) && children == old(children)
      ensures view == old(view).(children := old(view).children[i := T.PurgeStale(old(view).children[i])])
      decreases repr, 0
    {
      var c := children[i];
      assert Holds(c, view.children[i]);
      if c.children != [] {
        c.PurgeStale();
      } else {
        assert c.Valid() && |c.view.children| == |c.children|;
        assert c.view.children == [];
        PurgeEnds(c.view);
      }
      view := view.(children := view.children[i := c.view]);
      forall j | 0 <= j < |children| ensures Holds(children[j], view.children[j]) && children[j].repr == old(children[j].repr) {
        assert old(Holds(children[j], view.children[j]));
        assert j != i ==> old(children[j].repr) !! old(c.repr);
      }
    }

    /** The number of the child with this name. */
    method GetChild(name: string) returns (k: nat)
      requires Valid()
      ensures k == T.ChildIndex(view.children, name)
    {
      k := 0;
      ChildFields();
      assert view.children[0..] == view.children;
      while k < |children| && children[k].name != name
        invariant k <= |children|
        invariant T.ChildIndex(view.children, name) == k + T.ChildIndex(view.children[k..], name)
      {
        assert view.children[k..][1..] == view.children[k + 1..];
        k := k + 1;
      }
      assert k < |children| ==> view.children[k..][0] == view.children[k];
    }

    /** Walk down the names, creating what is not there; the object at the end
        is not stale. */
    method Create(p: T.Names)
      requires Valid()
      modifies repr
      ensures Valid() && repr >= old(repr) && fresh(repr - old(repr)) && view == T.Refresh(old(view), p)
      decreases |p|
    {
      if p == [] {
        stale := false;
        view := view.(stale := false);
        return;
      }
      var k := GetChild(p[0]);
      if k == |children| {
        NewChild(p[0]);
      }
      CreateBelow(k, p);
    }

    method NewChild(name: string)
      requires Valid()
      modifies this
      ensures Valid() && repr >= old(repr) && fresh(repr - old(repr))
      ensures view == old(view).(children := old(view).children + [T.NewChild(old(view), name)])
    {
      var c := new Object(name, path + "/" + name);
      children := children + [c];
      view := view.(children := view.children + [c.view]);
      repr := repr + {c};
    }

    method CreateBelow(k: nat, p: T.Names)
      requires Valid() && k < |children| && p != []
      modifies repr
      ensures Valid() && repr >= old(repr) && fresh(repr - old(repr))
      ensures view == old(view).(children := old(view).children[k := T.Refresh(old(view).children[k], p[1..])])
      decreases |p|, 0
    {
      var c := children[k];
      assert Holds(c, view.children[k]);
      c.Create(p[1..]);
      view := view.(children := view.children[k := c.view]);
      repr := repr + c.repr;
      forall j | 0 <= j < |children| ensures Holds(children[j], view.children[j]) && (j != k ==> children[j].repr == old(children[j].repr)) {
        assert old(Holds(children[j], view.children[j]));
        assert j != k ==> old(children[j].repr) !! old(c.repr);
      }
    }

    // ------------------------------------------------------------- publishing

    /** The paths of this object and everything below it that has
        interfaces. */
    method Enumerate() returns (paths: seq<string>)
      requires Valid()
      ensures paths == T.Enumerate(view)
      decreases repr
    {
      paths := if interfaces then [path] else [];
      var i := 0;
      while i < |children|
        invariant 0 <= i <= |children|
        invariant T.Enumerate(view) == paths + T.EnumerateFrom(view, i)
      {
        assert Holds(children[i], view.children[i]);
        var below := children[i].Enumerate();
        paths := paths + below;
        i := i + 1;
      }
    }

    // ---------------------------------------------------------------- mirroring

    /** One entry of the listing; it names nothing if it is not below this
        object. */
    method TakeOver(entry: string) returns (ok: bool)
      requires Valid()
      modifies repr
      ensures Valid() && repr >= old(repr) && fresh(repr - old(repr))
      ensures ok == T.RelativePath(path, entry).Some? && view == M.RefreshPath(old(view), entry)
      ensures !ok ==> view == old(view)
    {
      var relative := T.RelativePath(path, entry);
      ok := relative.Some?;
      if ok {
        Create(T.Split(relative.value));
      }
    }

    /** Take over the server's listing. The program comes to grief at the first
        path that is not below this object; taken is how far it gets. */
    method GetManagedObjects(paths: seq<string>, purge: bool) returns (taken: nat)
      requires Valid()
      modifies repr
      ensures Valid() && taken <= |paths| && forall i :: 0 <= i < taken ==> T.RelativePath(path, paths[i]).Some?
      ensures taken < |paths| ==>
        && T.RelativePath(path, paths[taken]).None?
        && view == M.RefreshPaths(if purge then T.MarkStale(old(view)) else old(view), paths[..taken])
      ensures taken == |paths| ==> view == M.Managed(old(view), paths, purge)
    {
      hide T.RelativePath, T.MarkStale, T.PurgeStale, T.Refresh, M.RefreshPath, M.RefreshPaths, M.Managed;
      if purge {
        MarkStale();
      }
      ghost var v := view;
      M.NothingTaken(v);
      taken := 0;
      while taken < |paths|
        invariant 0 <= taken <= |paths|
        invariant Valid() && repr >= old(repr) && fresh(repr - old(repr))
        invariant view == M.RefreshPaths(v, paths[..taken])
        invariant forall i :: 0 <= i < taken ==> T.RelativePath(path, paths[i]).Some?
      {
        M.RefreshOneMore(v, paths[..taken], paths[taken]);
        assert paths[..taken + 1] == paths[..taken] + [paths[taken]];
        var ok := TakeOver(paths[taken]);
        if !ok {
          return;
        }
        taken := taken + 1;
      }
      assert paths[..taken] == paths;
      M.ManagedIs(old(view), paths, purge);
      if purge {
        PurgeStale();
      }
    }

    /** The client asks a server for its objects. The mirror is exact just when
        every leaf of the server's tree has interfaces and the client knew no
        object of it that has none. */
    method RefreshChildren(server: Object)
      requires Valid() && server.Valid() && repr !! server.repr
      requires T.Tidy(view) && T.Tidy(server.view) && M.LegalTree(server.view) && server.path == path
      modifies repr
      ensures Valid() && T.Tidy(view) && server.Valid() && server.view == old(server.view)
      ensures M.SameObjects(view, server.view) <==> M.LeavesListed(server.view) && M.NoneKnownUnlisted(old(view), server.view)
      ensures forall p :: T.Find(view, p).Some? ==> T.Find(server.view, p).Some?
    {
      hide T.Tidy, M.LegalTree, M.SameObjects, M.LeavesListed, M.NoneKnownUnlisted, M.Managed, T.Enumerate, T.Find;
      var paths := server.Enumerate();
      Mirrored(view, server.view);
      ListingBelow(server.view);
      var taken := GetManagedObjects(paths, true);
    }

    lemma Mirrored(client: T.Tree, server: T.Tree)
      requires T.Tidy(client) && T.Tidy(server) && M.LegalTree(server) && server.path == client.path
      ensures var m := M.Managed(client, T.Enumerate(server), true);
        && T.Tidy(m)
        && (M.SameObjects(m, server) <==> M.LeavesListed(server) && M.NoneKnownUnlisted(client, server))
        && (forall p :: T.Find(m, p).Some? ==> T.Find(server, p).Some?)
    {
      M.ManagedTidy(client, server, true);
      M.MirrorExact(client, server);
      forall p | T.Find(M.Managed(client, T.Enumerate(server), true), p).Some? ensures T.Find(server, p).Some? {
        M.NothingExtra(client, server, p);
      }
    }

    lemma ListingBelow(server: T.Tree)
      requires T.Tidy(server) && M.LegalTree(server) && server.path == path
      ensures var s := T.Enumerate(server); forall i :: 0 <= i < |s| ==> T.RelativePath(path, s[i]).Some?
    {
      M.EnumeratePaths(server);
      var s := T.Enumerate(server);
      forall i | 0 <= i < |s| ensures T.RelativePath(path, s[i]).Some? {
        var p := M.Published(server)[i];
        M.PublishedIff(server, p);
        M.PublishedLegal(server, p);
        T.RelativeJoin(path, p);
      }
    }
  }
}
