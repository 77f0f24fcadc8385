/** Comments: where one ends, and that the reader takes no notice of it. */
module XmlComments {
  import opened Wrappers
  import opened XmlText
  import opened XmlTree
  import opened XmlParser

  const END := "-->"

  /** The end of a comment is somewhere in s. */
  predicate HasEnd(s: string) {
    exists i :: 0 <= i <= |s| - 3 && EndsAt(s, i)
  }

  predicate EndsAt(s: string, i: nat)
    requires i + 3 <= |s|
  {
    s[i..i + 3] == END
  }

  function Hyphens(n: nat): string {
    if n == 0 then "" else "-" + Hyphens(n - 1)
  }

  lemma {:induction false} HyphensAre(n: nat)
    ensures |Hyphens(n)| == n && forall c <- Hyphens(n) :: c == '-'
  {
    if n > 0 {
      HyphensAre(n - 1);
    }
  }

  lemma OneMoreHyphen(n: nat, s: string)
    requires s != "" && s[0] == '-'
    ensures Hyphens(n + 1) + s[1..] == Hyphens(n) + s
  {
    HyphensAre(n);
    HyphensAre(n + 1);
    var a, b := Hyphens(n + 1) + s[1..], Hyphens(n) + s;
    forall i | 0 <= i < |a| ensures a[i] == b[i] {
      assert i < n ==> Hyphens(n)[i] in Hyphens(n);
      assert i < n + 1 ==> Hyphens(n + 1)[i] in Hyphens(n + 1);
    }
  }

  lemma EndHere(n: nat, s: string)
    requires s != "" && s[0] == '>' && n >= 2
    ensures HasEnd(Hyphens(n) + s)
  {
    HyphensAre(n);
    var a := Hyphens(n) + s;
    assert Hyphens(n)[n - 2] in Hyphens(n) && Hyphens(n)[n - 1] in Hyphens(n);
    assert EndsAt(a, n - 2);
  }

  lemma EndLater(a: string, b: string)
    ensures HasEnd(b) ==> HasEnd(a + b)
  {
    if HasEnd(b) {
      var i :| 0 <= i <= |b| - 3 && EndsAt(b, i);
      assert (a + b)[|a| + i..|a| + i + 3] == b[i..i + 3];
      assert EndsAt(a + b, |a| + i);
    }
  }

  lemma EndSkips(n: nat, r: string)
    ensures SkipComment(END + r, n) == Some(r)
  {
    var s := END + r;
    assert s[1..] == "->" + r && s[1..][1..] == ">" + r && s[1..][1..][1..] == r;
    assert SkipComment(s[1..][1..], n + 2) == Some(r);
    assert SkipComment(s[1..], n + 1) == Some(r);
  }

  /** After so many hyphens, the comment goes on to the first end. */
  lemma {:induction false} SkipTo(n: nat, u: string, r: string)
    requires !HasEnd(Hyphens(n) + u + "--")
    ensures SkipComment(u + END + r, n) == Some(r)
    decreases |u|
  {
    var s := u + END + r;
    if u == "" {
      EndSkips(n, r);
      assert s == END + r;
    } else {
      assert s[1..] == u[1..] + END + r && s[0] == u[0];
      assert Hyphens(n) + u + "--" == Hyphens(n) + (u + "--");
      assert (u + "--")[1..] == u[1..] + "--";
      if u[0] == '-' {
        OneMoreHyphen(n, u + "--");
        assert Hyphens(n + 1) + u[1..] + "--" == Hyphens(n + 1) + (u[1..] + "--");
        SkipTo(n + 1, u[1..], r);
      } else {
        if u[0] == '>' && n >= 2 {
          EndHere(n, u + "--");
        }
        EndLater(Hyphens(n) + [u[0]], u[1..] + "--");
        assert Hyphens(n) + (u + "--") == Hyphens(n) + [u[0]] + (u[1..] + "--");
        assert Hyphens(0) + u[1..] + "--" == u[1..] + "--";
        SkipTo(0, u[1..], r);
      }
    }
  }

  /** Without an end, the comment never ends. */
  lemma {:induction false} SkipNever(n: nat, s: string)
    requires !HasEnd(Hyphens(n) + s)
    ensures SkipComment(s, n) == None
    decreases |s|
  {
    if s != "" {
      if s[0] == '-' {
        OneMoreHyphen(n, s);
        SkipNever(n + 1, s[1..]);
      } else {
        if s[0] == '>' && n >= 2 {
          EndHere(n, s);
        }
        EndLater(Hyphens(n) + [s[0]], s[1..]);
        assert Hyphens(n) + s == Hyphens(n) + [s[0]] + s[1..];
        assert Hyphens(0) + s[1..] == s[1..];
        SkipNever(0, s[1..]);
      }
    }
  }

  // ------------------------------------------------------------- in a text

  /** What can be between the two ends of a comment. */
  type Comment = u: string | !HasEnd(u + "--") witness ""

  lemma NoteStart(t: string)
    ensures ContentToken("<!--" + t) == match SkipComment(t, 0) case Some(r) => ContentToken(r) case None => Bad()
  {
    var s := "<!--" + t;
    SpacePrefix("", s);
    assert "" + s == s && s[0..] == s && s[4..] == t;
  }

  /** The reader takes no notice of a comment. */
  lemma CommentToken(u: Comment, r: string)
    ensures ContentToken("<!--" + u + END + r) == ContentToken(r)
  {
    assert Hyphens(0) + u + "--" == u + "--";
    SkipTo(0, u, r);
    NoteStart(u + END + r);
    assert "<!--" + u + END + r == "<!--" + (u + END + r);
  }

  /** A comment that does not end is an error. */
  lemma OpenComment(s: string)
    requires !HasEnd(s)
    ensures ContentToken("<!--" + s) == Bad()
  {
    assert Hyphens(0) + s == s;
    SkipNever(0, s);
    NoteStart(s);
  }

  // ------------------------------------------------------ in a whole document

  function GapText(cs: seq<Comment>): string {
    if cs == [] then "" else "<!--" + cs[0] + END + GapText(cs[1..])
  }

  lemma GapStarts(cs: seq<Comment>, r: string)
    requires cs != []
    ensures GapText(cs) + r != "" && (GapText(cs) + r)[0] == '<'
  {
  }

  lemma {:induction false} GapToken(cs: seq<Comment>, r: string)
    ensures ContentToken(GapText(cs) + r) == ContentToken(r)
  {
    if cs == [] {
      assert GapText(cs) + r == r;
    } else {
      hide ContentToken, HasEnd;
      GapToken(cs[1..], r);
      CommentToken(cs[0], GapText(cs[1..]) + r);
      GapJoin("<!--" + cs[0] + END, GapText(cs[1..]), r);
    }
  }

  lemma GapJoin(a: string, b: string, c: string)
    ensures a + b + c == a + (b + c)
  {
  }

  lemma GapSkip(cs: seq<Comment>, r: string, cur: Node)
    ensures Content(GapText(cs) + r, cur) == Content(r, cur)
  {
    GapToken(cs, r);
    hide ContentToken, GapText;
  }

  /** Comments for every place between the tags: which element it is, by its way
      from the root, and after how many tags of its own. */
  type Notes = (seq<nat>, nat) -> seq<Comment>

  /** What is printed, with comments between the tags. */
  function Noted(n: Node, indent: nat, path: seq<nat>, notes: Notes): string
    decreases n, |n.children| + 1
  {
    match n.name
    case None => GapText(notes(path, 0)) + Escape(Layout(n)) + NotedFrom(n, 0, indent, path, notes)
    case Some(name) =>
      if n.cdata.None? && n.children == [] then Spaces(indent) + Open(n) + "/>\n"
      else Spaces(indent) + Open(n) + ">" + GapText(notes(path, 0)) + Escape(Layout(n))
           + NotedFrom(n, 0, indent + 2, path, notes) + Close(n, indent)
  }

  function NotedFrom(n: Node, i: nat, indent: nat, path: seq<nat>, notes: Notes): string
    requires i <= |n.children|
    decreases n, |n.children| - i
  {
    GapText(notes(path, i + 1))
    + if i == |n.children| then ""
      else Noted(n.children[i], indent, path + [i], notes) + NotedFrom(n, i + 1, indent, path, notes)
  }

  function PrintNoted(root: Node, notes: Notes): string {
    Declaration() + Noted(root, 0, [], notes)
  }

  const NO_NOTES: Notes := (path, i) => []

  lemma {:induction false} WithoutNotes(n: Node, indent: nat, path: seq<nat>)
    ensures Noted(n, indent, path, NO_NOTES) == Output(n, indent)
    decreases n, |n.children| + 1
  {
    WithoutNotesFrom(n, 0, indent, path);
    WithoutNotesFrom(n, 0, indent + 2, path);
    hide Layout, Escape, NotedFrom, OutputFrom;
    if n.name.None? {
      assert "" + Escape(Layout(n)) == Escape(Layout(n));
    } else {
      assert Spaces(indent) + Open(n) + ">" + "" == Spaces(indent) + Open(n) + ">";
    }
  }

  lemma {:induction false} WithoutNotesFrom(n: Node, i: nat, indent: nat, path: seq<nat>)
    requires i <= |n.children|
    ensures NotedFrom(n, i, indent, path, NO_NOTES) == OutputFrom(n, i, indent)
    decreases n, |n.children| - i
  {
    if i < |n.children| {
      WithoutNotes(n.children[i], indent, path + [i]);
      WithoutNotesFrom(n, i + 1, indent, path);
      var o := Output(n.children[i], indent) + OutputFrom(n, i + 1, indent);
      assert "" + o == o;
    }
  }
}
