/** Walking an XML tree without a stack: from a node, its siblings and its
    parent alone tell which node comes next. A node is named by the numbers of
    the children that lead to it from the root. */
module Traversal {
  import opened Wrappers
  import opened XmlTree

  type Path = seq<nat>

  function Sub(t: Node, p: Path): Option<Node>
    decreases p
  {
    if p == [] then Some(t)
    else if p[0] >= |t.children| then None
    else Sub(t.children[p[0]], p[1..])
  }

  predicate IsNode(root: Node, p: Path) { Sub(root, p).Some? }

  lemma {:induction false} SubThen(t: Node, p: Path, q: Path)
    requires IsNode(t, p)
    ensures Sub(t, p + q) == Sub(Sub(t, p).value, q)
    decreases p
  {
    if p == [] {
      assert p + q == q;
    } else {
      assert (p + q)[1..] == p[1..] + q;
      SubThen(t.children[p[0]], p[1..], q);
    }
  }

  /** The number of p's children. */
  function Width(root: Node, p: Path): nat
    requires IsNode(root, p)
  {
    |Sub(root, p).value.children|
  }

  lemma ChildIs(root: Node, p: Path, i: nat)
    requires IsNode(root, p)
    ensures IsNode(root, p + [i]) <==> i < Width(root, p)
    ensures i < Width(root, p) ==> Sub(root, p + [i]) == Some(Sub(root, p).value.children[i])
  {
    SubThen(root, p, [i]);
    assert [i][1..] == [];
  }

  function Parent(p: Path): Path
    requires p != []
  {
    p[..|p| - 1]
  }

  /** The next sibling, if there is one. */
  function Sibling(root: Node, p: Path): Option<Path>
    requires IsNode(root, p)
  {
    if p == [] then None
    else
      var s := Parent(p) + [p[|p| - 1] + 1];
      if IsNode(root, s) then Some(s) else None
  }

  /** The leftmost leaf below a node. */
  function Leftmost(t: Node): Path
    decreases t
  {
    if t.children == [] then [] else [0] + Leftmost(t.children[0])
  }

  function Descend(root: Node, p: Path): Path
    requires IsNode(root, p)
  {
    p + Leftmost(Sub(root, p).value)
  }

  /** What comes after cur in a walk below top. */
  function Next(root: Node, top: Path, cur: Option<Path>): Option<Path>
    requires IsNode(root, top) && (cur.Some? ==> IsNode(root, cur.value))
  {
    match cur
    case None => Some(Descend(root, top))
    case Some(c) =>
      if Sibling(root, c).Some? then Some(Descend(root, Sibling(root, c).value))
      else if c == top || c == [] || Parent(c) == top then None
      else Some(Parent(c))
  }

  /** Move right, or else up; then down to the left. */
  method GetNext(root: Node, top: Path, cur: Option<Path>) returns (next: Option<Path>)
    requires IsNode(root, top) && (cur.Some? ==> IsNode(root, cur.value))
    ensures next == Next(root, top, cur)
  {
    var c := top;
    if cur.Some? {
      c := cur.value;
      if Sibling(root, c).None? {
        if c == top || c == [] || Parent(c) == top {
          return None;
        }
        return Some(Parent(c));
      }
      c := Sibling(root, c).value;
    }
    ghost var start := c;
    assert c + Leftmost(Sub(root, c).value) == Descend(root, start);
    while Width(root, c) > 0
      invariant IsNode(root, c)
      invariant c + Leftmost(Sub(root, c).value) == Descend(root, start)
      decreases Sub(root, c).value
    {
      ChildIs(root, c, 0);
      var t := Sub(root, c).value;
      assert c + ([0] + Leftmost(t.children[0])) == c + [0] + Leftmost(t.children[0]);
      c := c + [0];
    }
    assert c + [] == c;
    next := Some(c);
  }

  // ------------------------------------------------------ recursive post-order

  /** t, which is at p, and everything below it, children before parents. */
  function PostOrder(t: Node, p: Path): seq<Path>
    decreases t, |t.children| + 1
  {
    Below(t, p, 0) + [p]
  }

  /** Everything below t's children from i on, and those children. */
  function Below(t: Node, p: Path, i: nat): seq<Path>
    requires i <= |t.children|
    decreases t, |t.children| - i
  {
    if i == |t.children| then [] else PostOrder(t.children[i], p + [i]) + Below(t, p, i + 1)
  }

  /** Each node of the sequence is followed by the one that comes next. */
  predicate Linked(root: Node, top: Path, s: seq<Path>)
    requires IsNode(root, top)
  {
    && (forall k :: 0 <= k < |s| ==> IsNode(root, s[k]))
    && (forall k :: 0 <= k < |s| - 1 ==> Next(root, top, Some(s[k])) == Some(s[k + 1]))
  }

  lemma LinkedJoin(root: Node, top: Path, a: seq<Path>, b: seq<Path>)
    requires IsNode(root, top) && Linked(root, top, a) && Linked(root, top, b)
    requires a != [] && b != [] ==> Next(root, top, Some(a[|a| - 1])) == Some(b[0])
    ensures Linked(root, top, a + b)
  {
  }

  lemma {:induction false} PostOrderLinked(root: Node, top: Path, t: Node, p: Path)
    requires IsNode(root, top) && Sub(root, p) == Some(t) && top < p
    ensures var s := PostOrder(t, p); Linked(root, top, s) && s[0] == Descend(root, p) && s[|s| - 1] == p
    decreases t, |t.children| + 1
  {
    if t.children == [] {
      assert Below(t, p, 0) + [p] == [p];
      assert p + [] == p;
    } else {
      BelowLinked(root, top, t, p, 0);
      var b := Below(t, p, 0);
      var last := p + [|t.children| - 1];
      LastChild(root, p, t);
      assert Parent(last) == p && p != top;
      LinkedJoin(root, top, b, [p]);
      ChildIs(root, p, 0);
      assert Descend(root, p) == Descend(root, p + [0]) by {
        assert p + ([0] + Leftmost(t.children[0])) == p + [0] + Leftmost(t.children[0]);
      }
    }
  }

  lemma LastChild(root: Node, p: Path, t: Node)
    requires Sub(root, p) == Some(t) && t.children != []
    ensures var last := p + [|t.children| - 1]; IsNode(root, last) && Sibling(root, last).None?
  {
    var n := |t.children|;
    ChildIs(root, p, n - 1);
    ChildIs(root, p, n);
    assert Parent(p + [n - 1]) == p;
  }

  lemma {:induction false} BelowLinked(root: Node, top: Path, t: Node, p: Path, i: nat)
    requires IsNode(root, top) && Sub(root, p) == Some(t) && top <= p && i <= |t.children|
    ensures var s := Below(t, p, i);
      && Linked(root, top, s)
      && (i < |t.children| ==> s != [] && IsNode(root, p + [i]) && s[0] == Descend(root, p + [i]) && s[|s| - 1] == p + [|t.children| - 1])
    decreases t, |t.children| - i
  {
    if i < |t.children| {
      ChildIs(root, p, i);
      var a, b := PostOrder(t.children[i], p + [i]), Below(t, p, i + 1);
      PostOrderLinked(root, top, t.children[i], p + [i]);
      BelowLinked(root, top, t, p, i + 1);
      if i + 1 < |t.children| {
        ChildIs(root, p, i + 1);
        assert Parent(p + [i]) == p;
        assert Sibling(root, p + [i]) == Some(p + [i + 1]);
      } else {
        assert a + b == a;
      }
      LinkedJoin(root, top, a, b);
    }
  }

  /** For a top that has a child, the walk visits exactly what is strictly
      below it, in recursive post-order, and ends there. */
  lemma WalkOrder(root: Node, top: Path)
    requires IsNode(root, top) && Width(root, top) > 0
    ensures var s := Below(Sub(root, top).value, top, 0);
      && s != [] && Linked(root, top, s)
      && Next(root, top, None) == Some(s[0])
      && Next(root, top, Some(s[|s| - 1])) == None
  {
    hide Linked, Below;
    var t := Sub(root, top).value;
    BelowLinked(root, top, t, top, 0);
    LastChild(root, top, t);
    var last := top + [|t.children| - 1];
    assert Parent(last) == top;
    ChildIs(root, top, 0);
    assert top + ([0] + Leftmost(t.children[0])) == top + [0] + Leftmost(t.children[0]);
  }

  /** A top without children is visited itself, and the walk then leaves it for
      its next sibling, if there is one. */
  lemma LeafWalk(root: Node, top: Path)
    requires IsNode(root, top) && Width(root, top) == 0
    ensures Next(root, top, None) == Some(top)
    ensures Next(root, top, Some(top)) == if Sibling(root, top).Some? then Some(Descend(root, Sibling(root, top).value)) else None
  {
    assert top + [] == top;
  }

  // -------------------------------------------------- each node, exactly once

  lemma {:induction false} PostOrderIff(t: Node, p: Path, q: Path)
    ensures q in PostOrder(t, p) <==> p <= q && IsNode(t, q[|p|..])
    decreases t, |t.children| + 1
  {
    BelowIff(t, p, 0, q);
    if p <= q {
      assert q == p + q[|p|..];
      assert q[|p|..] == [] <==> q == p;
    }
  }

  lemma {:induction false} BelowIff(t: Node, p: Path, i: nat, q: Path)
    requires i <= |t.children|
    ensures q in Below(t, p, i) <==> p < q && i <= q[|p|] < |t.children| && IsNode(t, q[|p|..])
    decreases t, |t.children| - i
  {
    if i < |t.children| {
      PostOrderIff(t.children[i], p + [i], q);
      BelowIff(t, p, i + 1, q);
      if p < q {
        var r := q[|p|..];
        assert q == p + r && r[0] == q[|p|];
        assert p + [i] <= q <==> r[0] == i;
        assert r[1..] == q[|p| + 1..];
      }
    }
  }

  predicate AllDifferent(s: seq<Path>) {
    forall i, j :: 0 <= i < j < |s| ==> s[i] != s[j]
  }

  lemma {:induction false} PostOrderOnce(t: Node, p: Path)
    ensures AllDifferent(PostOrder(t, p))
    decreases t, |t.children| + 1
  {
    BelowOnce(t, p, 0);
    BelowIff(t, p, 0, p);
  }

  lemma {:induction false} BelowOnce(t: Node, p: Path, i: nat)
    requires i <= |t.children|
    ensures AllDifferent(Below(t, p, i))
    decreases t, |t.children| - i
  {
    if i < |t.children| {
      var a, b := PostOrder(t.children[i], p + [i]), Below(t, p, i + 1);
      PostOrderOnce(t.children[i], p + [i]);
      BelowOnce(t, p, i + 1);
      forall q <- a ensures q !in b {
        PostOrderIff(t.children[i], p + [i], q);
        BelowIff(t, p, i + 1, q);
      }
      DifferentJoin(a, b);
    }
  }

  lemma DifferentJoin(a: seq<Path>, b: seq<Path>)
    requires AllDifferent(a) && AllDifferent(b) && forall q <- a :: q !in b
    ensures AllDifferent(a + b)
  {
    var s := a + b;
    forall i, j | 0 <= i < j < |s| ensures s[i] != s[j] {
      if i < |a| <= j {
        assert s[i] in a && s[j] == b[j - |a|];
      }
    }
  }

  lemma WalkSet(root: Node, top: Path)
    requires IsNode(root, top)
    ensures var all := Below(Sub(root, top).value, top, 0);
      AllDifferent(all) && forall q :: q in all <==> top < q && IsNode(root, q)
  {
    var t := Sub(root, top).value;
    var all := Below(t, top, 0);
    BelowOnce(t, top, 0);
    forall q ensures q in all <==> top < q && IsNode(root, q) {
      BelowIff(t, top, 0, q);
      if top < q {
        assert q == top + q[|top|..];
        SubThen(root, top, q[|top|..]);
      }
    }
  }

  /** Walk all the way, and collect the nodes. */
  method Walk(root: Node, top: Path) returns (s: seq<Path>)
    requires IsNode(root, top) && Width(root, top) > 0
    ensures AllDifferent(s) && forall q :: q in s <==> top < q && IsNode(root, q)
    ensures InOrder(s)
    ensures s == Below(Sub(root, top).value, top, 0)
  {
    hide Below, AllDifferent, InOrder, Next;
    ghost var all := Below(Sub(root, top).value, top, 0);
    WalkOrder(root, top);
    WalkSet(root, top);
    WalkInOrder(root, top);
    s := [];
    var cur := GetNext(root, top, None);
    while cur.Some?
      invariant |s| <= |all| && s == all[..|s|]
      invariant cur == if |s| < |all| then Some(all[|s|]) else None
      decreases |all| - |s|
    {
      s := s + [cur.value];
      cur := GetNext(root, top, cur);
    }
    assert s == all;
  }

  /** A walk that is to cover the first of two leaves goes on to the second. */
  lemma LeafWalkLeaves(root: Node, leaf: Node)
    requires leaf.children == [] && root.children == [leaf, leaf]
    ensures IsNode(root, [0]) && IsNode(root, [1])
    ensures Next(root, [0], None) == Some([0]) && Next(root, [0], Some([0])) == Some([1])
  {
    assert [0][1..] == [] && [1][1..] == [];
    assert Sub(root, [0]) == Some(leaf) && Sub(root, [1]) == Some(leaf);
    assert Parent([0]) + [1] == [1];
    LeafWalk(root, [0]);
    assert [1] + [] == [1];
  }

  // ------------------------------------------------------------- the order

  /** a comes before b: it is below b, or to the left of it. */
  predicate Earlier(a: Path, b: Path) {
    b < a || exists k :: 0 <= k < |a| && LeftAt(a, b, k)
  }

  predicate LeftAt(a: Path, b: Path, k: nat) {
    k < |a| && k < |b| && a[..k] == b[..k] && a[k] < b[k]
  }

  predicate InOrder(s: seq<Path>) {
    forall i, j :: 0 <= i < j < |s| ==> Earlier(s[i], s[j])
  }

  lemma JoinInOrder(a: seq<Path>, b: seq<Path>)
    requires InOrder(a) && InOrder(b) && forall p <- a, q <- b :: Earlier(p, q)
    ensures InOrder(a + b)
  {
    var s := a + b;
    forall i, j | 0 <= i < j < |s| ensures Earlier(s[i], s[j]) {
      if i < |a| <= j {
        assert s[i] in a && s[j] == b[j - |a|] && s[j] in b;
      }
    }
  }

  lemma {:induction false} PostOrderInOrder(t: Node, p: Path)
    ensures InOrder(PostOrder(t, p))
    decreases t, |t.children| + 1
  {
    BelowInOrder(t, p, 0);
    forall q <- Below(t, p, 0) ensures Earlier(q, p) {
      BelowIff(t, p, 0, q);
    }
    JoinInOrder(Below(t, p, 0), [p]);
  }

  lemma {:induction false} BelowInOrder(t: Node, p: Path, i: nat)
    requires i <= |t.children|
    ensures InOrder(Below(t, p, i))
    decreases t, |t.children| - i
  {
    if i < |t.children| {
      var a, b := PostOrder(t.children[i], p + [i]), Below(t, p, i + 1);
      PostOrderInOrder(t.children[i], p + [i]);
      BelowInOrder(t, p, i + 1);
      forall q <- a, r <- b ensures Earlier(q, r) {
        PostOrderIff(t.children[i], p + [i], q);
        BelowIff(t, p, i + 1, r);
        assert q[..|p|] == p && r[..|p|] == p && q[|p|] == (p + [i])[|p|];
        assert LeftAt(q, r, |p|);
      }
      JoinInOrder(a, b);
    }
  }

  /** A walk takes children before their parents, and siblings from left to
      right. */
  lemma WalkInOrder(root: Node, top: Path)
    requires IsNode(root, top)
    ensures InOrder(Below(Sub(root, top).value, top, 0))
  {
    BelowInOrder(Sub(root, top).value, top, 0);
  }
}
