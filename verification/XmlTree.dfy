/** XML trees, what the writer prints for them, and the form that they take
    once they have been printed and read back. */
module XmlTree {
  import opened Wrappers
  import opened VarArrays
  import opened CNumbers
  import opened XmlText

  /** The root of a document has no name. */
  datatype Node = Node(name: Option<string>, attrs: seq<Var>, cdata: Option<string>, children: seq<Node>)

  // --------------------------------------------------------------- printing

  function AttrText(a: Var): string {
    match a.value
    case Some(v) => " " + a.name + "=\"" + v + "\""
    case None => " " + a.name
  }

  function AttrsText(attrs: seq<Var>): string {
    if attrs == [] then "" else AttrText(attrs[0]) + AttrsText(attrs[1..])
  }

  /** The start tag of an element, without its closing angle. */
  function Open(n: Node): string
    requires n.name.Some?
  {
    "<" + n.name.value + AttrsText(n.attrs)
  }

  predicate Multiline(n: Node) {
    n.name.None? || (n.cdata.Some? && '\n' in n.cdata.value)
  }

  /** The end tag goes on a line of its own. */
  predicate Lined(n: Node) { Multiline(n) || n.children != [] }

  /** The line end that the writer adds to text. */
  function LineEnd(n: Node): string {
    if Multiline(n) && n.cdata.Some? && n.cdata.value != "" && n.cdata.value[|n.cdata.value| - 1] != '\n' then "\n" else ""
  }

  /** The text of a node as the writer lays it out, before it is escaped. */
  function Layout(n: Node): string {
    (if n.cdata.Some? then (if '\n' in n.cdata.value then "\n" else "") + n.cdata.value + LineEnd(n) else "")
    + (if n.children != [] && !Multiline(n) then "\n" else "")
  }

  function Output(n: Node, indent: nat): string
    decreases n, |n.children| + 1
  {
    match n.name
    case None => Escape(Layout(n)) + OutputFrom(n, 0, indent)
    case Some(name) =>
      if n.cdata.None? && n.children == [] then Spaces(indent) + Open(n) + "/>\n"
      else Spaces(indent) + Open(n) + ">" + Escape(Layout(n)) + OutputFrom(n, 0, indent + 2) + Close(n, indent)
  }

  function Close(n: Node, indent: nat): string
    requires n.name.Some?
  {
    (if Lined(n) then Spaces(indent) else "") + "</" + n.name.value + ">\n"
  }

  /** The children of n, from number i on. */
  function OutputFrom(n: Node, i: nat, indent: nat): string
    requires i <= |n.children|
    decreases n, |n.children| - i
  {
    if i == |n.children| then "" else Output(n.children[i], indent) + OutputFrom(n, i + 1, indent)
  }

  function Declaration(): string {
    "<?" + "xml" + (" version=\"1.0\"" + " encoding=\"utf8\"") + ("?>" + "\n")
  }

  function Print(root: Node): string {
    Declaration() + Output(root, 0)
  }

  // ------------------------------------------------------------ legal trees

  predicate NameStart(c: char) { 'a' <= c <= 'z' || 'A' <= c <= 'Z' || c == '_' || c == '!' }

  predicate NameChar(c: char) {
    'a' <= c <= 'z' || 'A' <= c <= 'Z' || '0' <= c <= '9' || c == '_' || c == '!' || c == ':' || c == '-'
  }

  predicate Name(s: string) {
    s != "" && NameStart(s[0]) && forall c <- s :: NameChar(c)
  }

  /** Names are made of letters, digits and some signs. */
  lemma Names()
    ensures Name("a:B-9_!") && Name("_") && Name("!DOCTYPE")
    ensures !Name("") && !Name("1a") && !Name("-a") && !Name(":a") && !Name("a b") && !Name("a.b")
  {
    assert ' ' in "a b" && '.' in "a.b";
  }

  /** Text for which the writer's escape table is defined. */
  predicate Ascii(s: string) {
    forall c <- s :: 0 < c as int < 128
  }

  predicate LegalAttr(a: Var) {
    Name(a.name) && (a.value.Some? ==> forall c <- a.value.value :: c != '"' && 0 < c as int < 256)
  }

  predicate LegalText(n: Node) {
    n.cdata.Some? ==> Ascii(n.cdata.value)
  }

  /** Elements have names that do not begin with an exclamation mark, or the
      reader would take the tag for a declaration. */
  predicate LegalElement(n: Node) {
    && n.name.Some? && Name(n.name.value) && n.name.value[0] != '!'
    && Distinct(n.attrs) && (forall a <- n.attrs :: LegalAttr(a))
    && LegalText(n) && forall c <- n.children :: LegalElement(c)
  }

  predicate LegalRoot(n: Node) {
    n.name.None? && n.attrs == [] && LegalText(n) && forall c <- n.children :: LegalElement(c)
  }

  // ------------------------------------------------------------ normal form

  /** An attribute with an empty value comes back without one. */
  function NormAttr(a: Var): Var {
    if a.value == Some("") then a.(value := None) else a
  }

  function NormAttrs(attrs: seq<Var>): seq<Var> {
    seq(|attrs|, i requires 0 <= i < |attrs| => NormAttr(attrs[i]))
  }

  /** White space alone is lost. Other text loses the empty lines around it,
      and gains a line end if it has several lines or stands before children. */
  function NormText(c: string, lined: bool): Option<string> {
    if AllSpace(c) then None
    else Some(Trim(if lined && c[|c| - 1] != '\n' then c + "\n" else c))
  }

  function NormCdata(n: Node): Option<string> {
    if n.cdata.None? then None else NormText(n.cdata.value, Lined(n))
  }

  function Norm(n: Node): Node {
    Node(n.name, NormAttrs(n.attrs), NormCdata(n), seq(|n.children|, i requires 0 <= i < |n.children| => Norm(n.children[i])))
  }

  // ------------------------------------------------- normalising is idempotent

  lemma {:induction false} LastLineOnce(a: string)
    ensures LastLine(LastLine(a)) == LastLine(a)
  {
    if a != "" && !IsNewline(a[|a| - 1]) {
      var b := a[..|a| - 1];
      LastLineOnce(b);
      var l := LastLine(b) + [a[|a| - 1]];
      assert l[..|l| - 1] == LastLine(b);
    }
  }

  lemma {:induction false} FirstLineOnce(z: string)
    ensures FirstLine(FirstLine(z)) == FirstLine(z)
    ensures FirstLine(FirstLine(z) + "\n") == if z != "" && HasNewline(z) then FirstLine(z) else FirstLine(z) + "\n"
  {
    if z != "" && !IsNewline(z[0]) {
      FirstLineOnce(z[1..]);
      var f := FirstLine(z[1..]);
      assert ([z[0]] + f)[1..] == f;
      assert ([z[0]] + f + "\n")[1..] == f + "\n";
    } else if z != "" {
      assert FirstLine(z) + "\n" == [z[0], '\n'];
    } else {
      assert "\n"[1..] == "";
    }
  }

  predicate HasNewline(z: string) {
    exists c <- z :: IsNewline(c)
  }

  lemma LinesBlank(a: string, z: string)
    requires (forall c <- a :: IsBlank(c)) && (forall c <- z :: IsBlank(c))
    ensures (forall c <- LastLine(a) :: IsBlank(c)) && (forall c <- FirstLine(z) :: IsBlank(c))
    ensures !HasNewline(LastLine(a))
  {
    LastLineBound(a);
    FirstLineBound(z);
    LastLineNone(a);
  }

  lemma {:induction false} LastLineNone(a: string)
    ensures !HasNewline(LastLine(a))
  {
    if a != "" && !IsNewline(a[|a| - 1]) {
      LastLineNone(a[..|a| - 1]);
    }
  }

  /** Text that is not all white space has a character that is not blank. */
  lemma NotAllSpace(c: string)
    requires !AllSpace(c)
    ensures exists x <- c :: !IsBlank(x)
  {
    var x :| x in c && !IsSpace(x);
    assert !IsBlank(x);
  }

  /** The text without its white space. */
  function Dense(s: string): string {
    if s == "" then "" else (if IsSpace(s[0]) then "" else [s[0]]) + Dense(s[1..])
  }

  lemma {:induction false} DenseAppend(a: string, b: string)
    ensures Dense(a + b) == Dense(a) + Dense(b)
  {
    if a == "" {
      assert a + b == b;
    } else {
      assert (a + b)[1..] == a[1..] + b;
      DenseAppend(a[1..], b);
    }
  }

  lemma {:induction false} DenseBlank(a: string)
    requires forall c <- a :: IsBlank(c)
    ensures Dense(a) == ""
  {
    if a != "" {
      assert a[0] in a;
      DenseBlank(a[1..]);
    }
  }

  lemma DenseParts(a: string, m: string, z: string)
    requires (forall c <- a :: IsBlank(c)) && (forall c <- z :: IsBlank(c))
    ensures Dense(a + m + z) == Dense(m)
  {
    DenseAppend(a + m, z);
    DenseAppend(a, m);
    DenseBlank(a);
    DenseBlank(z);
  }

  /** Trimming takes away white space only. */
  lemma TrimTakesSpace(y: string)
    ensures Dense(Trim(y)) == Dense(y)
  {
    if forall c <- y :: IsBlank(c) {
      TrimIsPart(y);
      DenseBlank(y);
      DenseBlank(Trim(y));
    } else {
      hide Trim;
      var a, m, z := SplitText(y);
      TrimParts(a, m, z);
      LinesBlank(a, z);
      DenseParts(a, m, z);
      DenseParts(LastLine(a), m, FirstLine(z));
    }
  }

  lemma TrimIsPart(y: string)
    ensures forall c <- Trim(y) :: c in y
  {
    TrimTailBound(y, |y|, |y|);
    var t := y[..TrimTail(y, |y|, |y|)];
    TrimHeadBound(t, 0, 0);
    var u := t[TrimHead(t, 0, 0)..];
    assert Trim(y) == u;
    assert forall c <- u :: c in t;
  }

  lemma TrimKeepsText(y: string)
    requires !AllSpace(y)
    ensures !AllSpace(Trim(y))
    ensures Trim(Trim(y)) == Trim(y)
    ensures y[|y| - 1] == '\n' ==> Trim(Trim(y) + "\n") == Trim(y)
    ensures forall x <- Trim(y) :: x in y
  {
    hide Trim;
    NotAllSpace(y);
    var a, m, z := SplitText(y);
    TrimParts(a, m, z);
    LastLineBound(a);
    FirstLineBound(z);
    var l, f := LastLine(a), FirstLine(z);
    MiddleText(a, m, z, l, f);
    TrimTwice(a, m, z);
    if y[|y| - 1] == '\n' {
      TrailingNewline(a + m, z);
      assert l + m + f + "\n" == l + m + (f + "\n");
    }
  }

  lemma MiddleText(a: string, m: string, z: string, l: string, f: string)
    requires Parts(a, m, z) && !AllSpace(a + m + z) && f <= z && |l| <= |a| && l == a[|a| - |l|..]
    ensures !AllSpace(l + m + f) && forall x <- l + m + f :: x in a + m + z
  {
    var x :| x in a + m + z && !IsSpace(x);
    assert x in m;
    assert x in l + m + f;
  }

  lemma TrimTwice(a: string, m: string, z: string)
    requires Parts(a, m, z)
    ensures var l, f := LastLine(a), FirstLine(z);
      Trim(l + m + f) == l + m + f && (z != "" && HasNewline(z) ==> Trim(l + m + (f + "\n")) == l + m + f)
  {
    var l, f := LastLine(a), FirstLine(z);
    LinesBlank(a, z);
    LastLineOnce(a);
    FirstLineOnce(z);
    TrimParts(l, m, f);
    TrimParts(l, m, f + "\n");
  }

  lemma TrailingNewline(p: string, z: string)
    requires p != "" && !IsBlank(p[|p| - 1]) && (p + z)[|p + z| - 1] == '\n'
    ensures z != "" && HasNewline(z)
  {
    LastChar(p, z);
    assert z[|z| - 1] in z;
  }

  lemma LastChar(p: string, z: string)
    requires p != ""
    ensures (p + z)[|p + z| - 1] == if z == "" then p[|p| - 1] else z[|z| - 1]
  {
  }

  lemma NormTextOnce(c: string, lined: bool, again: bool)
    requires '\n' in c ==> lined
    requires again ==> lined || (NormText(c, lined).Some? && '\n' in NormText(c, lined).value)
    ensures NormText(c, lined).Some? ==> NormText(NormText(c, lined).value, again) == NormText(c, lined)
  {
    if !AllSpace(c) {
      var y := if lined && c[|c| - 1] != '\n' then c + "\n" else c;
      assert !AllSpace(y) by {
        var x :| x in c && !IsSpace(x);
        assert x in y;
      }
      TrimKeepsText(y);
    }
  }

  /** Printing and reading back once reaches the normal form. */
  lemma {:induction false} NormOnce(n: Node)
    ensures Norm(Norm(n)) == Norm(n)
    decreases n
  {
    var t := Norm(n);
    forall i | 0 <= i < |n.children| ensures Norm(t.children[i]) == t.children[i] {
      NormOnce(n.children[i]);
    }
    assert Norm(t).children == t.children;
    assert NormAttrs(t.attrs) == t.attrs;
    if n.cdata.Some? {
      NormTextOnce(n.cdata.value, Lined(n), Lined(t));
    }
  }

  // --------------------------------------------------------------- an example

  /** What a document looks like: two spaces for each level, text in place, empty
      elements closed at once, and text of several lines on lines of its own. */
  lemma Example(b: Node, c: Node, d: Node, a: Node)
    requires b == Node(Some("b"), [], Some("t<u"), []) && c == Node(Some("c"), [Var("y", None)], None, [])
    requires d == Node(Some("d"), [], Some("v\nw"), []) && a == Node(Some("a"), [Var("x", Some("1"))], None, [b, c])
    ensures Output(a, 0) == "<a x=\"1\">\n" + "  <b>t&lt;u</b>\n" + "  <c y/>\n" + "</a>\n"
    ensures Output(d, 2) == "  <d>\nv\nw\n  </d>\n"
  {
    ExampleB(b);
    ExampleC(c);
    ExampleD(d);
    ExampleA(a);
    assert OutputFrom(a, 2, 2) == "";
    assert OutputFrom(a, 1, 2) == Output(c, 2) + "";
    assert OutputFrom(a, 0, 2) == Output(b, 2) + (Output(c, 2) + "");
    hide *;
    OutputIs(a, 0);
    ExampleJoin("<a x=\"1\"", "  <b>t&lt;u</b>\n", "  <c y/>\n", "</a>\n");
    assert "" + "<a x=\"1\"" + ">" + "\n" == "<a x=\"1\">\n";
  }

  lemma ExampleJoin(o: string, b: string, c: string, e: string)
    ensures "" + o + ">" + "\n" + (b + (c + "")) + e == "" + o + ">" + "\n" + b + c + e
  {
    assert c + "" == c;
  }

  lemma ExampleA(a: Node)
    requires a.name == Some("a") && a.attrs == [Var("x", Some("1"))] && a.cdata.None? && a.children != []
    ensures Spaces(0) == "" && Open(a) == "<a x=\"1\"" && Escape(Layout(a)) == "\n" && Close(a, 0) == "</a>\n"
  {
    assert a.attrs[1..] == [];
    assert " " + "x" == " x" && " x" + "=\"" == " x=\"" && " x=\"" + "1" == " x=\"1" && " x=\"1" + "\"" == " x=\"1\"";
    assert AttrText(a.attrs[0]) == " x=\"1\"";
    assert AttrsText(a.attrs[1..]) == "" && AttrsText(a.attrs) == " x=\"1\"" + "";
    assert Open(a) == "<" + "a" + " x=\"1\"";
    assert Layout(a) == "" + "\n" && "\n"[1..] == "";
    assert Close(a, 0) == "" + "</" + "a" + ">\n";
  }

  lemma OutputIs(n: Node, indent: nat)
    requires n.name.Some? && n.children != []
    ensures Output(n, indent) == Spaces(indent) + Open(n) + ">" + Escape(Layout(n)) + OutputFrom(n, 0, indent + 2) + Close(n, indent)
  {
  }

  lemma ExampleB(b: Node)
    requires b == Node(Some("b"), [], Some("t<u"), [])
    ensures Output(b, 2) == "  <b>t&lt;u</b>\n"
  {
    ExampleEntity();
    assert Layout(b) == "t<u" + "" + "" && Layout(b) == "t<u";
    assert Spaces(2) == "  " && Open(b) == "<" + "b" + "" && Open(b) == "<b" && Close(b, 2) == "</" + "b" + ">\n" && Close(b, 2) == "</b>\n";
    OutputText(b, 2);
    hide *;
    assert "  " + "<b" == "  <b" && "  <b" + ">" == "  <b>";
    assert "  <b>" + "t&lt;u" == "  <b>t&lt;u" && "  <b>t&lt;u" + "</b>\n" == "  <b>t&lt;u</b>\n";
  }

  lemma OutputText(n: Node, indent: nat)
    requires n.name.Some? && n.cdata.Some? && n.children == []
    ensures Output(n, indent) == Spaces(indent) + Open(n) + ">" + Escape(Layout(n)) + Close(n, indent)
  {
    hide Escape, Layout, Close, Open, Spaces;
    assert OutputFrom(n, 0, indent + 2) == "";
  }

  lemma ExampleEntity()
    ensures Escape("t<u") == "t&lt;u"
  {
    assert "t<u"[1..] == "<u" && "<u"[1..] == "u" && "u"[1..] == "";
    assert Escape("u") == "u" + "" && Escape("<u") == "&lt;" + Escape("u") && Escape("t<u") == "t" + Escape("<u");
  }

  lemma ExampleC(c: Node)
    requires c == Node(Some("c"), [Var("y", None)], None, [])
    ensures Output(c, 2) == "  <c y/>\n"
  {
    assert c.attrs[1..] == [] && AttrsText(c.attrs) == " " + "y" + "";
    assert Spaces(2) == "  ";
  }

  lemma ExampleD(d: Node)
    requires d == Node(Some("d"), [], Some("v\nw"), [])
    ensures Output(d, 2) == "  <d>\nv\nw\n  </d>\n"
  {
    ExampleLayout(d);
    ExampleEscape();
    ExampleOpen(d);
    OutputText(d, 2);
    hide *;
    ExampleLines();
  }

  lemma ExampleOpen(d: Node)
    requires d.name == Some("d") && d.attrs == []
    ensures Spaces(2) == "  " && Open(d) == "<d"
  {
    assert Open(d) == "<" + "d" + "";
  }

  lemma ExampleLines()
    ensures "  " + "<d" + ">" + "\nv\nw\n" + "  </d>\n" == "  <d>\nv\nw\n  </d>\n"
  {
    assert "  " + "<d" == "  <d" && "  <d" + ">" == "  <d>" && "  <d>" + "\nv\nw\n" == "  <d>\nv\nw\n";
  }

  lemma ExampleLayout(d: Node)
    requires d == Node(Some("d"), [], Some("v\nw"), [])
    ensures Layout(d) == "\nv\nw\n" && Close(d, 2) == "  </d>\n"
  {
    var t := "v\nw";
    assert t[1] == '\n' && Multiline(d);
    assert Layout(d) == "\n" + t + "\n" + "";
    assert Close(d, 2) == Spaces(2) + "</" + "d" + ">\n" && Spaces(2) == "  ";
  }

  lemma ExampleEscape()
    ensures Escape("\nv\nw\n") == "\nv\nw\n"
  {
    assert "\nv\nw\n"[1..] == "v\nw\n" && "v\nw\n"[1..] == "\nw\n" && "\nw\n"[1..] == "w\n" && "w\n"[1..] == "\n" && "\n"[1..] == "";
    assert Escape("\n") == "\n" + "" && Escape("w\n") == "w" + "\n" && Escape("\nw\n") == "\n" + "w\n";
  }
}
