/** What is printed can be read back: the reader finds the normal form of the
    tree that the writer printed. */
module XmlRoundTrip {
  import opened Wrappers
  import opened VarArrays
  import opened CNumbers
  import opened XmlText
  import opened XmlTree
  import opened XmlParser
  import opened XmlComments

  /** The end of the input, or a tag. */
  predicate AtTag(r: string) { r == "" || r[0] == '<' }

  // ------------------------------------------------------------------- text

  lemma {:induction false} EntityNameAll(name: string, r: string)
    requires forall c <- name :: c != ';' && !IsSpace(c)
    ensures EntityName(name + ";" + r) == Some((name, r))
  {
    var s := name + ";" + r;
    if name == "" {
      assert s[1..] == r;
    } else {
      assert name[0] in name && forall c <- name[1..] :: c in name;
      assert s[1..] == name[1..] + ";" + r;
      EntityNameAll(name[1..], r);
      assert [name[0]] + name[1..] == name;
    }
  }

  /** The three entities that the writer uses. */
  lemma EntityOf(name: string, c: char, r: string)
    requires (name == "lt" && c == '<') || (name == "gt" && c == '>') || (name == "amp" && c == '&')
    ensures Entity(name + ";" + r) == Some((c, r))
  {
    EntityNameAll(name, r);
    assert Lower(name) == name;
  }

  /** One escaped character is read as that character. */
  lemma TextChar(c: char, t: string)
    ensures Text(EscapeChar(c) + t) == match Text(t) case None => None case Some(x) => Some(([c] + x.0, x.1))
  {
    var s := EscapeChar(c) + t;
    if c == '<' {
      assert s[1..] == "lt" + ";" + t;
      EntityOf("lt", '<', t);
    } else if c == '>' {
      assert s[1..] == "gt" + ";" + t;
      EntityOf("gt", '>', t);
    } else if c == '&' {
      assert s[1..] == "amp" + ";" + t;
      EntityOf("amp", '&', t);
    } else {
      assert s[1..] == t;
    }
  }

  lemma {:induction false} TextEscape(x: string, r: string)
    requires AtTag(r)
    ensures Text(Escape(x) + r) == Some((x, r))
  {
    if x == "" {
      assert Escape(x) + r == r;
    } else {
      TextEscape(x[1..], r);
      TextChar(x[0], Escape(x[1..]) + r);
      assert Escape(x) + r == EscapeChar(x[0]) + (Escape(x[1..]) + r);
      assert [x[0]] + x[1..] == x;
    }
  }

  lemma {:induction false} NoNul(s: string)
    requires forall c <- s :: c as int != 0
    ensures CString(s) == s
  {
    if s != "" {
      assert s[0] in s && forall c <- s[1..] :: c in s;
      NoNul(s[1..]);
    }
  }

  /** Escaped text is read as one token. */
  lemma TextToken(x: string, r: string)
    requires Ascii(x) && !AllSpace(x) && AtTag(r)
    ensures ContentToken(Escape(x) + r) == Lexed(CData(Trim(x)), r)
  {
    hide ContentToken, Trim, Text, Escape, CString;
    var w := Space(x);
    var y := x[|w|..];
    assert x == w + y;
    assert y != "";
    EscapeAppend(w, y);
    EscapeSpace(w);
    var t := Escape(y) + r;
    assert Escape(x) + r == w + t;
    EscapeFirst(y, r);
    SpacePrefix(w, t);
    TextEscape(y, r);
    TextOnly(Escape(x) + r, w, t);
    TrimKeepsText(x);
    NoNul(Trim(x));
  }

  lemma EscapeFirst(y: string, r: string)
    requires y != "" && !IsSpace(y[0])
    ensures Escape(y) + r != "" && (Escape(y) + r)[0] != '<' && !IsSpace((Escape(y) + r)[0])
  {
  }

  lemma TextOnly(s: string, w: string, t: string)
    requires Space(s) == w && s == w + t && t != "" && t[0] != '<' && Text(t).Some?
    ensures ContentToken(s) == Lexed(CData(CString(Trim(w + Text(t).value.0))), Text(t).value.1)
  {
    assert s[|w|..] == t;
  }

  lemma BlankToken(w: string, r: string)
    requires AllSpace(w) && AtTag(r)
    ensures ContentToken(w + r) == ContentToken(r)
  {
    hide TagStart, Text, Trim, CString;
    SpacePrefix(w, r);
    SpacePrefix("", r);
    assert (w + r)[|w|..] == r && "" + r == r;
  }

  function TextInto(cur: Node, x: string): Node {
    if AllSpace(x) then cur else cur.(cdata := Some(Trim(x)))
  }

  lemma TextStep(x: string, r: string, cur: Node)
    requires Ascii(x) && AtTag(r)
    ensures Content(Escape(x) + r, cur) == Content(r, TextInto(cur, x))
  {
    hide ContentToken, Escape, Trim, Content;
    if AllSpace(x) {
      EscapeSpace(x);
      BlankStep(x, r, cur);
    } else {
      TextToken(x, r);
      CDataStep(Escape(x) + r, cur);
    }
  }

  lemma CDataStep(s: string, cur: Node)
    requires ContentToken(s).token.CData?
    ensures Content(s, cur) == Content(ContentToken(s).rest, cur.(cdata := Some(ContentToken(s).token.cdata)))
  {
    hide ContentToken;
  }

  lemma SameToken(s: string, t: string, cur: Node)
    requires ContentToken(s) == ContentToken(t)
    ensures Content(s, cur) == Content(t, cur)
  {
    hide ContentToken;
  }

  lemma BlankStep(w: string, r: string, cur: Node)
    requires AllSpace(w) && AtTag(r)
    ensures Content(w + r, cur) == Content(r, cur)
  {
    hide Content, ContentToken;
    BlankToken(w, r);
    SameToken(w + r, r, cur);
  }

  // ------------------------------------------------------------------- tags

  lemma NameToken(w: string, name: string, r: string)
    requires AllSpace(w) && Name(name) && (r == "" || !NameChar(r[0]))
    ensures TagToken(w + name + r) == Lexed(Identifier(name), r)
  {
    var t := name + r;
    assert w + name + r == w + t;
    SpacePrefix(w, t);
    assert t[1..] == name[1..] + r;
    assert forall c <- name[1..] :: c in name;
    NameRunAll(name[1..], r);
    assert [t[0]] + name[1..] == name;
    assert t[|name|..] == r;
    NameAt(w, t);
  }

  lemma NameAt(w: string, t: string)
    requires Space(w + t) == w && t != "" && NameStart(t[0])
    ensures var id := [t[0]] + NameRun(t[1..]); TagToken(w + t) == Lexed(Identifier(id), t[|id|..])
  {
    hide NameRun;
    assert (w + t)[|w|..] == t;
  }

  /** Both kinds of quotes end at the next one of their kind. */
  lemma QuotedToken(quote: char, v: string, r: string)
    requires (quote == '\'' || quote == '"') && quote !in v
    ensures TagToken([quote] + v + [quote] + r) == Lexed(QuotedString(v), r)
  {
    var s := [quote] + v + [quote] + r;
    assert s[1..] == v + [quote] + r;
    QuotedUpTo(v, quote, r);
    assert s[|v| + 2..] == r;
    QuoteStart(s);
  }

  lemma QuoteStart(s: string)
    requires s != "" && (s[0] == '\'' || s[0] == '"')
    ensures TagToken(s) == match Quoted(s[1..], s[0]) case Some(q) => Lexed(QuotedString(q), s[|q| + 2..]) case None => Bad()
  {
    hide Quoted, TagToken, NameRun;
    NoSpaceFirst(s);
  }

  lemma NoSpaceFirst(s: string)
    requires s != "" && !IsSpace(s[0])
    ensures TagToken(s) == TagTokenAt(s)
  {
    hide TagTokenAt;
    SpacePrefix("", s);
    assert "" + s == s && s[0..] == s;
  }

  /** The end of a tag: the token and what follows it. */
  predicate TagEnd(e: string, token: Token, r: string) {
    match token
    case RightAngle => e == ">" + r
    case RightAngleSlash => e == "/>" + r
    case RightAngleQ => e == "?>" + r
    case _ => false
  }

  lemma EndToken(e: string, token: Token, r: string)
    requires TagEnd(e, token, r)
    ensures TagToken(e) == Lexed(token, r)
  {
    SpacePrefix("", e);
    assert "" + e == e && e[0..] == e;
    assert e[1..] == r || e[2..] == r;
  }

  /** One printed attribute. */
  lemma AttrStep(a: Var, r: string, acc: seq<Var>)
    requires LegalAttr(a) && (forall b <- acc :: b.name != a.name)
    requires r != "" && !NameChar(r[0]) && !TagToken(r).token.Equals? && !TagToken(r).token.NoToken?
    ensures Attributes(TagToken(AttrText(a) + r), acc) == Attributes(TagToken(r), acc + [NormAttr(a)])
  {
    hide TagToken, Attributes, AttrText, SetVar;
    SetVarNew(acc, a.name, NormAttr(a).value);
    match a.value
    case None =>
      assert AttrText(a) == " " + a.name by { AttrIs(a); }
      NameToken(" ", a.name, r);
      AttrNone(" " + a.name + r, acc);
    case Some(v) =>
      var q := "\"" + v + "\"" + r;
      AttrIs(a);
      assert AttrText(a) + r == " " + a.name + ("=" + q);
      NameToken(" ", a.name, "=" + q);
      EqualsToken(q);
      QuotedToken('"', v, r);
      AttrSome(" " + a.name + ("=" + q), acc);
  }

  lemma AttrIs(a: Var)
    ensures AttrText(a) == " " + a.name + (if a.value.Some? then "=\"" + a.value.value + "\"" else "")
  {
  }

  lemma EqualsToken(q: string)
    ensures TagToken("=" + q) == Lexed(Equals, q)
  {
    SpacePrefix("", "=" + q);
    assert "" + ("=" + q) == "=" + q && ("=" + q)[1..] == q && ("=" + q)[0..] == "=" + q;
  }

  lemma AttrNone(s: string, acc: seq<Var>)
    requires TagToken(s).token.Identifier?
    requires var l := TagToken(TagToken(s).rest); !l.token.Equals? && !l.token.NoToken?
    ensures Attributes(TagToken(s), acc)
      == Attributes(TagToken(TagToken(s).rest), SetVar(acc, TagToken(s).token.id, None))
  {
    hide TagToken, SetVar;
  }

  lemma AttrSome(s: string, acc: seq<Var>)
    requires TagToken(s).token.Identifier? && TagToken(TagToken(s).rest).token.Equals?
    requires TagToken(TagToken(TagToken(s).rest).rest).token.QuotedString?
    ensures var v := TagToken(TagToken(TagToken(s).rest).rest);
      Attributes(TagToken(s), acc) == Attributes(TagToken(v.rest), SetVar(acc, TagToken(s).token.id, Value(v.token.text)))
  {
    hide TagToken, SetVar;
  }

  /** After an attribute comes another one, or the end of the tag. */
  lemma AttrsStart(attrs: seq<Var>, e: string, token: Token, r: string)
    requires (forall a <- attrs :: LegalAttr(a)) && TagEnd(e, token, r)
    ensures var s := AttrsText(attrs) + e;
      s != "" && !NameChar(s[0]) && !TagToken(s).token.Equals? && !TagToken(s).token.NoToken?
  {
    if attrs == [] {
      assert AttrsText(attrs) + e == e;
      EndToken(e, token, r);
    } else {
      hide *;
      var a := attrs[0];
      assert a in attrs;
      LegalName(a);
      AfterNameStart(attrs, e, token, r);
      NameToken(" ", a.name, AfterName(attrs, e));
    }
  }

  lemma LegalName(a: Var)
    requires LegalAttr(a)
    ensures Name(a.name) && AllSpace(" ")
  {
  }

  /** What follows the name of the first attribute. */
  function AfterName(attrs: seq<Var>, e: string): string
    requires attrs != []
  {
    (if attrs[0].value.Some? then "=\"" + attrs[0].value.value + "\"" else "") + (AttrsText(attrs[1..]) + e)
  }

  lemma AfterNameStart(attrs: seq<Var>, e: string, token: Token, r: string)
    requires attrs != [] && TagEnd(e, token, r)
    ensures AttrsText(attrs) + e == " " + attrs[0].name + AfterName(attrs, e)
    ensures (AttrsText(attrs) + e)[0] == ' ' && !NameChar(' ')
    ensures AfterName(attrs, e) != "" && !NameChar(AfterName(attrs, e)[0])
  {
    RestStart(attrs[1..], e);
    AttrsUnfold(attrs);
    var v := if attrs[0].value.Some? then "=\"" + attrs[0].value.value + "\"" else "";
    var t := AttrsText(attrs[1..]);
    Join(" " + attrs[0].name, v, t, e);
  }

  lemma AttrsUnfold(attrs: seq<Var>)
    requires attrs != []
    ensures var v := if attrs[0].value.Some? then "=\"" + attrs[0].value.value + "\"" else "";
      AttrsText(attrs) == " " + attrs[0].name + v + AttrsText(attrs[1..])
  {
  }

  lemma RestStart(attrs: seq<Var>, e: string)
    requires e != ""
    ensures AttrsText(attrs) + e != "" && ((AttrsText(attrs) + e)[0] == ' ' || (AttrsText(attrs) + e)[0] == e[0])
  {
    if attrs == [] {
      assert AttrsText(attrs) + e == e;
    } else {
      AttrIs(attrs[0]);
    }
  }

  lemma {:induction false} AttrsStep(attrs: seq<Var>, acc: seq<Var>, e: string, token: Token, r: string)
    requires (forall a <- attrs :: LegalAttr(a)) && Distinct(attrs) && TagEnd(e, token, r)
    requires Apart(attrs, acc)
    ensures Attributes(TagToken(AttrsText(attrs) + e), acc) == Tag(token, acc + NormAttrs(attrs), r)
  {
    hide TagToken, Attributes, AttrText, LegalAttr, NameChar;
    if attrs == [] {
      assert AttrsText(attrs) + e == e;
      EndToken(e, token, r);
      EndAttributes(e, acc);
      assert acc + NormAttrs([]) == acc;
    } else {
      var a, rest := attrs[0], attrs[1..];
      RestApart(attrs, acc);
      AttrsStart(rest, e, token, r);
      assert AttrsText(attrs) + e == AttrText(a) + (AttrsText(rest) + e);
      AttrStep(a, AttrsText(rest) + e, acc);
      AttrsStep(rest, acc + [NormAttr(a)], e, token, r);
      NormFirst(attrs);
      assert acc + [NormAttr(a)] + NormAttrs(rest) == acc + ([NormAttr(a)] + NormAttrs(rest));
    }
  }

  lemma NormFirst(attrs: seq<Var>)
    requires attrs != []
    ensures [NormAttr(attrs[0])] + NormAttrs(attrs[1..]) == NormAttrs(attrs)
  {
  }

  predicate Apart(attrs: seq<Var>, acc: seq<Var>) {
    forall a <- attrs, b <- acc :: a.name != b.name
  }

  lemma NoneApart(attrs: seq<Var>)
    ensures Apart(attrs, [])
  {
  }

  lemma RestApart(attrs: seq<Var>, acc: seq<Var>)
    requires (forall a <- attrs :: LegalAttr(a)) && Distinct(attrs) && Apart(attrs, acc) && attrs != []
    ensures LegalAttr(attrs[0]) && forall b <- acc :: b.name != attrs[0].name
    ensures (forall a <- attrs[1..] :: LegalAttr(a)) && Distinct(attrs[1..]) && Apart(attrs[1..], acc + [NormAttr(attrs[0])])
  {
    assert attrs[0] in attrs;
    forall b <- attrs[1..] ensures b in attrs && b.name != attrs[0].name {
      var i :| 0 <= i < |attrs[1..]| && attrs[1..][i] == b;
      assert attrs[i + 1] == b;
    }
  }

  lemma EndAttributes(s: string, acc: seq<Var>)
    requires TagToken(s).token in {RightAngle, RightAngleQ, RightAngleSlash}
    ensures Attributes(TagToken(s), acc) == Tag(TagToken(s).token, acc, TagToken(s).rest)
  {
  }

  /** A whole tag, from its name on. */
  lemma TagStep(name: string, attrs: seq<Var>, e: string, token: Token, r: string)
    requires Name(name) && (forall a <- attrs :: LegalAttr(a)) && Distinct(attrs) && TagEnd(e, token, r)
    ensures TagToken(name + AttrsText(attrs) + e) == Lexed(Identifier(name), AttrsText(attrs) + e)
    ensures TagAttributes(AttrsText(attrs) + e) == Tag(token, NormAttrs(attrs), r)
  {
    hide *;
    AttrsStart(attrs, e, token, r);
    NoneApart(attrs);
    AttrsStep(attrs, [], e, token, r);
    var t := AttrsText(attrs) + e;
    TagAttributesIs(t);
    NoBlanks();
    NameToken("", name, t);
    Join("", name, AttrsText(attrs), e);
    assert "" + name == name;
    assert [] + NormAttrs(attrs) == NormAttrs(attrs);
  }

  lemma Join(a: string, b: string, c: string, d: string)
    ensures a + b + c + d == a + b + (c + d)
    ensures a + b + c + d == a + (b + (c + d))
  {
  }

  lemma NoBlanks()
    ensures AllSpace("")
  {
  }

  lemma TagAttributesIs(s: string)
    ensures TagAttributes(s) == Attributes(TagToken(s), [])
  {
  }

  // ------------------------------------------------------- text of a node

  predicate Newlines(p: string) {
    forall c <- p :: c == '\n'
  }

  lemma {:induction false} LastLineAfter(p: string, a: string)
    requires Newlines(p)
    ensures LastLine(p + a) == LastLine(a)
  {
    if a == "" {
      assert p + a == p;
      assert p != "" ==> p[|p| - 1] in p;
    } else {
      assert (p + a)[..|p + a| - 1] == p + a[..|a| - 1];
      LastLineAfter(p, a[..|a| - 1]);
    }
  }

  lemma {:induction false} FirstLineBefore(z: string, q: string)
    requires HasNewline(z)
    ensures FirstLine(z + q) == FirstLine(z)
  {
    assert (z + q)[1..] == z[1..] + q;
    if !IsNewline(z[0]) {
      assert z == [z[0]] + z[1..];
      FirstLineBefore(z[1..], q);
    }
  }

  /** Line ends before text, and spaces after its last line, are trimmed. */
  lemma TrimAround(p: string, y: string, k: nat)
    requires Newlines(p) && !AllSpace(y) && (k == 0 || y[|y| - 1] == '\n')
    ensures !AllSpace(p + y + Spaces(k)) && Trim(p + y + Spaces(k)) == Trim(y)
  {
    hide Trim, AllSpace;
    NotAllSpace(y);
    var a, m, z := SplitText(y);
    TrimParts(a, m, z);
    LastLineAfter(p, a);
    var q := Spaces(k);
    if k > 0 {
      TrailingNewline(a + m, z);
      FirstLineBefore(z, q);
    } else {
      assert z + q == z;
    }
    PartsAround(p, a, m, z, k);
    TrimParts(p + a, m, z + q);
    assert p + y + q == p + a + m + (z + q);
    StillText(p, y, q);
  }

  lemma StillText(p: string, y: string, q: string)
    requires !AllSpace(y)
    ensures !AllSpace(p + y + q)
  {
    var x :| x in y && !IsSpace(x);
    assert x in p + y + q;
  }

  lemma PartsAround(p: string, a: string, m: string, z: string, k: nat)
    requires Parts(a, m, z) && Newlines(p)
    ensures Parts(p + a, m, z + Spaces(k))
  {
  }

  lemma LayoutIs(n: Node) returns (p: string, y: string)
    requires n.cdata.Some? && !AllSpace(n.cdata.value)
    ensures Layout(n) == p + y && Newlines(p) && !AllSpace(y)
    ensures y == var c := n.cdata.value; if Lined(n) && c[|c| - 1] != '\n' then c + "\n" else c
  {
    var c := n.cdata.value;
    p := if '\n' in c then "\n" else "";
    var q := if Lined(n) && c[|c| - 1] != '\n' then "\n" else "";
    y := c + q;
    StillText("", c, q);
    assert "" + c + q == y;
    LayoutEnds(n, q);
    assert p + c + q == p + y;
  }

  lemma LayoutEnds(n: Node, q: string)
    requires n.cdata.Some? && n.cdata.value != "" && q == if Lined(n) && n.cdata.value[|n.cdata.value| - 1] != '\n' then "\n" else ""
    ensures Layout(n) == (if '\n' in n.cdata.value then "\n" else "") + n.cdata.value + q
  {
    assert n.cdata.value[|n.cdata.value| - 1] in n.cdata.value;
    if Multiline(n) {
      assert LineEnd(n) == q;
    } else {
      assert LineEnd(n) == "";
    }
  }

  lemma LayoutBlank(n: Node, k: nat)
    requires n.cdata.None? || AllSpace(n.cdata.value)
    ensures AllSpace(Layout(n) + Spaces(k))
  {
    var c := if n.cdata.Some? then n.cdata.value else "";
    assert forall x <- Layout(n) :: x in c || x == '\n';
  }

  /** The text that the reader finds is the normal form of what was printed. */
  lemma TextOfNode(n: Node, d: string, k: nat, cur: Node)
    requires Newlines(d) && (k == 0 || Lined(n)) && cur.cdata.None?
    ensures TextInto(cur, d + Layout(n) + Spaces(k)) == cur.(cdata := NormCdata(n))
  {
    hide Trim, Layout;
    if n.cdata.Some? && !AllSpace(n.cdata.value) {
      var p, y := LayoutIs(n);
      TrimAround(d + p, y, k);
      assert d + p + y == d + (p + y);
    } else {
      LayoutBlank(n, k);
      assert AllSpace(d + Layout(n) + Spaces(k)) by {
        assert d + Layout(n) + Spaces(k) == d + (Layout(n) + Spaces(k));
      }
    }
  }

  lemma AsciiLayout(n: Node, d: string, k: nat)
    requires Newlines(d) && LegalText(n)
    ensures Ascii(d + Layout(n) + Spaces(k))
  {
    var c := if n.cdata.Some? then n.cdata.value else "";
    assert forall x <- Layout(n) :: x in c || x == '\n';
  }

  // ------------------------------------------------------------ whole nodes

  /** A node's children from i on start with spaces and then a tag or a comment,
      and so does what follows them. */
  lemma Leading(n: Node, i: nat, ind: nat, j: nat, r: string, path: seq<nat>, notes: Notes) returns (k: nat, t: string)
    requires i <= |n.children| && (forall c <- n.children :: LegalElement(c)) && AtTag(r)
    ensures NotedFrom(n, i, ind, path, notes) + Spaces(j) + r == Spaces(k) + t && AtTag(t)
    ensures k == 0 || k == j || n.children != []
  {
    var g := notes(path, i + 1);
    NotedStep(n, i, ind, path, notes);
    if g != [] {
      k, t := 0, NotedFrom(n, i, ind, path, notes) + Spaces(j) + r;
      assert NotedFrom(n, i, ind, path, notes) != "";
      GapStarts(g, "");
      assert t[0] == GapText(g)[0];
      assert Spaces(0) + t == t;
    } else if i == |n.children| {
      k, t := j, r;
      assert NotedFrom(n, i, ind, path, notes) + Spaces(j) + r == Spaces(j) + r;
    } else {
      var c := n.children[i];
      assert c in n.children && LegalElement(c);
      assert c.name.Some?;
      hide *;
      var o := NotedSplit(c, ind, path + [i], notes);
      var rest := NotedFrom(n, i + 1, ind, path, notes);
      k, t := ind, o + rest + Spaces(j) + r;
      assert NotedFrom(n, i, ind, path, notes) == Spaces(k) + o + rest;
      Regroup(Spaces(k), o, rest, Spaces(j), r);
      StartsTag(t);
    }
  }

  lemma Regroup(a: string, b: string, c: string, d: string, e: string)
    ensures a + b + c + d + e == a + (b + c + d + e)
    ensures a + b + c + d + e == a + b + (c + d + e)
    ensures b != "" ==> b + c + d + e != "" && (b + c + d + e)[0] == b[0]
  {
  }

  lemma StartsTag(t: string)
    requires t != "" && t[0] == '<'
    ensures AtTag(t)
  {
  }

  /** The comments before child i, and then the rest. */
  lemma NotedStep(n: Node, i: nat, ind: nat, path: seq<nat>, notes: Notes)
    requires i <= |n.children|
    ensures NotedFrom(n, i, ind, path, notes) == GapText(notes(path, i + 1)) + NotedRest(n, i, ind, path, notes)
    ensures notes(path, i + 1) == [] ==> NotedFrom(n, i, ind, path, notes) == NotedRest(n, i, ind, path, notes)
  {
    hide Noted;
  }

  function NotedRest(n: Node, i: nat, ind: nat, path: seq<nat>, notes: Notes): string
    requires i <= |n.children|
  {
    if i == |n.children| then "" else Noted(n.children[i], ind, path + [i], notes) + NotedFrom(n, i + 1, ind, path, notes)
  }

  lemma NotedSplit(n: Node, ind: nat, path: seq<nat>, notes: Notes) returns (o: string)
    requires n.name.Some?
    ensures Noted(n, ind, path, notes) == Spaces(ind) + o && o != "" && o[0] == '<'
  {
    o := Noted(n, ind, path, notes)[ind..];
  }

  /** The content of a node, up to its end tag or the end of the input. */
  lemma {:induction false} BodyStep(n: Node, d: string, ind: nat, j: nat, r: string, cur: Node, path: seq<nat>, notes: Notes)
    requires LegalText(n) && (forall c <- n.children :: LegalElement(c)) && AtTag(r) && Newlines(d)
    requires cur.cdata.None? && cur.children == []
    requires (j == 0 || Lined(n))
    ensures Content(d + Escape(Layout(n)) + NotedFrom(n, 0, ind, path, notes) + Spaces(j) + r, cur)
         == Content(r, cur.(cdata := NormCdata(n), children := Norm(n).children))
    decreases n, |n.children| + 1
  {
    hide Content, Layout, NotedFrom, Escape, NormCdata, AtTag, Newlines;
    var k, t := Leading(n, 0, ind, j, r, path, notes);
    var x := d + Layout(n) + Spaces(k);
    EscapeParts(d, Layout(n), k);
    AsciiLayout(n, d, k);
    Regroup(d, Escape(Layout(n)), NotedFrom(n, 0, ind, path, notes), Spaces(j), r);
    Join(d, Escape(Layout(n)), Spaces(k), t);
    TextStep(x, t, cur);
    TextOfNode(n, d, k, cur);
    var cur1 := cur.(cdata := NormCdata(n));
    BlankStep(Spaces(k), t, cur1);
    ChildrenStep(n, 0, ind, j, r, cur1, path, notes);
    assert [] + Norm(n).children[0..] == Norm(n).children;
  }

  /** The same, with comments before the text. */
  lemma {:induction false} NotedBody(n: Node, d: string, ind: nat, j: nat, r: string, cur: Node, path: seq<nat>, notes: Notes)
    requires LegalText(n) && (forall c <- n.children :: LegalElement(c)) && AtTag(r) && Newlines(d)
    requires cur.cdata.None? && cur.children == []
    requires (j == 0 || Lined(n))
    ensures Content(d + GapText(notes(path, 0)) + Escape(Layout(n)) + NotedFrom(n, 0, ind, path, notes) + Spaces(j) + r, cur)
         == Content(r, cur.(cdata := NormCdata(n), children := Norm(n).children))
    decreases n, |n.children| + 2
  {
    hide Content, Layout, NotedFrom, Escape, NormCdata, AtTag, GapText, Norm;
    var g := notes(path, 0);
    var body := Escape(Layout(n)) + NotedFrom(n, 0, ind, path, notes) + Spaces(j) + r;
    if g == [] {
      assert GapText(g) == "" by {
        NoGap();
      }
      BodyStep(n, d, ind, j, r, cur, path, notes);
      assert d + "" == d;
    } else {
      GapStarts(g, body);
      StartsTag(GapText(g) + body);
      NewlinesAreSpace(d);
      BlankStep(d, GapText(g) + body, cur);
      GapSkip(g, body, cur);
      BodyStep(n, "", ind, j, r, cur, path, notes);
      assert "" + Escape(Layout(n)) == Escape(Layout(n));
      BodyJoin(d, GapText(g), Escape(Layout(n)), NotedFrom(n, 0, ind, path, notes), Spaces(j), r);
    }
  }

  lemma NoGap()
    ensures GapText([]) == ""
  {
  }

  lemma NewlinesAreSpace(d: string)
    requires Newlines(d)
    ensures AllSpace(d)
  {
  }

  lemma BodyJoin(a: string, b: string, c: string, d: string, e: string, f: string)
    ensures a + b + c + d + e + f == a + (b + (c + d + e + f))
  {
  }

  lemma EscapeParts(d: string, l: string, k: nat)
    requires Newlines(d)
    ensures Escape(d + l + Spaces(k)) == d + Escape(l) + Spaces(k)
  {
    EscapeAppend(d + l, Spaces(k));
    EscapeAppend(d, l);
    EscapeSpace(d);
    EscapeSpace(Spaces(k));
  }

  lemma {:induction false} ChildrenStep(n: Node, i: nat, ind: nat, j: nat, r: string, cur: Node, path: seq<nat>, notes: Notes)
    requires i <= |n.children| && (forall c <- n.children :: LegalElement(c)) && AtTag(r)
    ensures Content(NotedFrom(n, i, ind, path, notes) + Spaces(j) + r, cur)
         == Content(r, cur.(children := cur.children + Norm(n).children[i..]))
    decreases n, |n.children| - i
  {
    hide Content, NotedFrom, Noted, AtTag, GapText;
    var g := GapText(notes(path, i + 1));
    var rest := NotedRest(n, i, ind, path, notes) + Spaces(j) + r;
    NotedStep(n, i, ind, path, notes);
    GapSkip(notes(path, i + 1), rest, cur);
    assert NotedFrom(n, i, ind, path, notes) + Spaces(j) + r == g + rest;
    if i == |n.children| {
      assert rest == Spaces(j) + r;
      BlankStep(Spaces(j), r, cur);
      assert cur.children + Norm(n).children[i..] == cur.children;
    } else {
      var c := n.children[i];
      assert c in n.children && LegalElement(c);
      var after := NotedFrom(n, i + 1, ind, path, notes) + Spaces(j) + r;
      assert rest == Noted(c, ind, path + [i], notes) + after;
      ElementStep(c, ind, after, cur, path + [i], notes);
      var cur1 := cur.(children := cur.children + [Norm(c)]);
      var k, t := Leading(n, i + 1, ind, j, r, path, notes);
      NewlineSkip(after, k, t, cur1);
      ChildrenStep(n, i + 1, ind, j, r, cur1, path, notes);
      assert cur.children + [Norm(c)] + Norm(n).children[i + 1..] == cur.children + Norm(n).children[i..];
    }
  }

  lemma NewlineSkip(s: string, k: nat, t: string, cur: Node)
    requires s == Spaces(k) + t && AtTag(t)
    ensures Content("\n" + s, cur) == Content(s, cur)
  {
    hide Content, AtTag;
    BlankStep(Spaces(k), t, cur);
    BlankStep("\n" + Spaces(k), t, cur);
    assert "\n" + Spaces(k) + t == "\n" + s;
  }

  /** A printed element, with any comments in it, is read as a child in normal
      form, and leaves the line end after it. */
  lemma {:induction false} ElementStep(n: Node, ind: nat, r: string, cur: Node, path: seq<nat>, notes: Notes)
    requires LegalElement(n)
    ensures Content(Noted(n, ind, path, notes) + r, cur) == Content("\n" + r, cur.(children := cur.children + [Norm(n)]))
    decreases n, |n.children| + 3
  {
    hide Content, Layout, NotedFrom, Escape, TagToken, AttrsText, Child, End, Norm, NormAttrs, NormCdata, AtTag, GapText;
    var name := n.name.value;
    if n.cdata.None? && n.children == [] {
      TagStep(name, n.attrs, "/>" + ("\n" + r), RightAngleSlash, "\n" + r);
      OpenStep(Spaces(ind), name, AttrsText(n.attrs), "/>" + ("\n" + r), cur);
      EmptyChild(name + AttrsText(n.attrs) + ("/>" + ("\n" + r)), cur);
      assert Noted(n, ind, path, notes) + r == Spaces(ind) + "<" + name + AttrsText(n.attrs) + ("/>" + ("\n" + r));
      NormEmpty(n);
    } else {
      var j := if Lined(n) then ind else 0;
      var end := "</" + name + ">\n" + r;
      var body := GapText(notes(path, 0)) + Escape(Layout(n)) + NotedFrom(n, 0, ind + 2, path, notes) + Spaces(j) + end;
      TagStep(name, n.attrs, ">" + body, RightAngle, body);
      OpenStep(Spaces(ind), name, AttrsText(n.attrs), ">" + body, cur);
      var child := Node(n.name, NormAttrs(n.attrs), None, []);
      StartsTag(end);
      assert body == "" + GapText(notes(path, 0)) + Escape(Layout(n)) + NotedFrom(n, 0, ind + 2, path, notes) + Spaces(j) + end;
      NotedBody(n, "", ind + 2, j, end, child, path, notes);
      var full := child.(cdata := NormCdata(n), children := Norm(n).children);
      EndStep(name, r, full);
      NormIs(n);
      FullChild(name + AttrsText(n.attrs) + (">" + body), cur, full, "\n" + r);
      NotedFull(n, ind, j, body, r, path, notes);
    }
  }

  lemma NormEmpty(n: Node)
    requires n.cdata.None? && n.children == []
    ensures Norm(n) == Node(n.name, NormAttrs(n.attrs), None, [])
  {
  }

  lemma NormIs(n: Node)
    ensures Norm(n).name == n.name && Norm(n).attrs == NormAttrs(n.attrs) && Norm(n).cdata == NormCdata(n)
  {
  }

  lemma NotedFull(n: Node, ind: nat, j: nat, body: string, r: string, path: seq<nat>, notes: Notes)
    requires n.name.Some? && !(n.cdata.None? && n.children == []) && j == if Lined(n) then ind else 0
    requires body == GapText(notes(path, 0)) + Escape(Layout(n)) + NotedFrom(n, 0, ind + 2, path, notes) + Spaces(j) + ("</" + n.name.value + ">\n" + r)
    ensures Noted(n, ind, path, notes) + r == Spaces(ind) + "<" + n.name.value + AttrsText(n.attrs) + (">" + body)
  {
    hide Layout, Escape, NotedFrom, AttrsText, GapText;
    var a, g, e, f, c := Spaces(ind) + Open(n), GapText(notes(path, 0)), Escape(Layout(n)), NotedFrom(n, 0, ind + 2, path, notes), Close(n, ind);
    assert c == Spaces(j) + ("</" + n.name.value + ">\n");
    assert Noted(n, ind, path, notes) == a + ">" + g + e + f + c;
    NotedJoin(a, g, e, f, Spaces(j), "</" + n.name.value + ">\n", r);
    assert a == Spaces(ind) + "<" + n.name.value + AttrsText(n.attrs);
  }

  lemma NotedJoin(a: string, g: string, e: string, f: string, w: string, c: string, r: string)
    ensures a + ">" + g + e + f + (w + c) + r == a + (">" + (g + e + f + w + (c + r)))
  {
    assert g + e + f + w + (c + r) == g + e + f + (w + c) + r;
  }

  /** The reader finds the start of an element. */
  lemma OpenStep(w: string, name: string, attrs: string, e: string, cur: Node)
    requires AllSpace(w) && Name(name) && name[0] != '!'
    ensures Content(w + "<" + name + attrs + e, cur) == Child(name + attrs + e, cur)
  {
    hide Content, Child;
    var t := name + attrs + e;
    assert w + "<" + name + attrs + e == w + ("<" + t);
    BlankStep(w, "<" + t, cur);
    assert t != "" && t[0] == name[0] && ("<" + t)[1..] == t;
    SpacePrefix("", "<" + t);
    assert "" + ("<" + t) == "<" + t && ("<" + t)[0..] == "<" + t;
    OpenToken("<" + t, t, cur);
  }

  lemma OpenToken(s: string, t: string, cur: Node)
    requires ContentToken(s) == Lexed(LeftAngle, t)
    ensures Content(s, cur) == Child(t, cur)
  {
    hide ContentToken, Child;
  }

  lemma EmptyChild(s: string, cur: Node)
    requires TagToken(s).token.Identifier? && TagAttributes(TagToken(s).rest).token.RightAngleSlash?
    ensures var tag := TagAttributes(TagToken(s).rest);
      Child(s, cur) == Content(tag.rest, cur.(children := cur.children + [Node(Some(TagToken(s).token.id), tag.attrs, None, [])]))
  {
    hide TagToken, TagAttributes, Content;
  }

  lemma FullChild(s: string, cur: Node, full: Node, r: string)
    requires TagToken(s).token.Identifier? && TagAttributes(TagToken(s).rest).token.RightAngle?
    requires var tag := TagAttributes(TagToken(s).rest);
      Content(tag.rest, Node(Some(TagToken(s).token.id), tag.attrs, None, [])) == Some((full, r))
    ensures Child(s, cur) == Content(r, cur.(children := cur.children + [full]))
  {
    hide TagToken, TagAttributes, Content;
  }

  lemma EndStep(name: string, r: string, cur: Node)
    requires Name(name) && cur.name == Some(name)
    ensures Content("</" + name + ">\n" + r, cur) == Some((cur, "\n" + r))
  {
    hide TagToken, Name;
    var s, t := "</" + name + ">\n" + r, name + (">\n" + r);
    SlashStart(t);
    assert s == "</" + t;
    NoBlanks();
    assert "" + name + (">\n" + r) == t;
    NameToken("", name, ">\n" + r);
    assert ">" + ("\n" + r) == ">\n" + r;
    EndToken(">\n" + r, RightAngle, "\n" + r);
    hide NameChar, ContentToken;
  }

  lemma SlashStart(t: string)
    ensures ContentToken("</" + t) == Lexed(LeftAngleSlash, t)
  {
    var s := "</" + t;
    SpacePrefix("", s);
    assert "" + s == s && s[0..] == s && s[2..] == t;
  }

  // -------------------------------------------------------------- documents

  /** The XML declaration is read and dropped. */
  lemma DeclarationStep(s: string, cur: Node)
    ensures Content(Declaration() + s, cur) == Content("\n" + s, cur)
  {
    hide *;
    var attrs := DeclarationAttrs();
    var e := "?>" + ("\n" + s);
    TagStep("xml", attrs, e, RightAngleQ, "\n" + s);
    var t := "xml" + AttrsText(attrs) + e;
    DeclarationText(s);
    PiStart(t);
    PiToken("<?" + t, t, cur);
  }

  function DeclarationAttrs(): (attrs: seq<Var>)
    ensures Distinct(attrs) && forall a <- attrs :: LegalAttr(a)
    ensures Name("xml") && forall r :: TagEnd("?>" + r, RightAngleQ, r)
  {
    [Var("version", Some("1.0")), Var("encoding", Some("utf8"))]
  }

  lemma DeclarationText(s: string)
    ensures Declaration() + s == "<?" + ("xml" + AttrsText(DeclarationAttrs()) + ("?>" + ("\n" + s)))
  {
    DeclarationLiteral();
    hide *;
    DeclarationJoin("<?", "xml", AttrsText(DeclarationAttrs()), "?>", "\n", s);
  }

  lemma DeclarationLiteral()
    ensures Declaration() == "<?" + "xml" + AttrsText(DeclarationAttrs()) + ("?>" + "\n")
  {
    var a, b := Var("version", Some("1.0")), Var("encoding", Some("utf8"));
    AttrsTextOfTwo(a, b);
    VersionText();
    EncodingText();
    hide AttrText, AttrsText;
  }

  lemma VersionText()
    ensures AttrText(Var("version", Some("1.0"))) == " version=\"1.0\""
  {
    assert " " + "version" == " version" && " version" + "=\"" == " version=\"" && " version=\"" + "1.0" == " version=\"1.0";
  }

  lemma EncodingText()
    ensures AttrText(Var("encoding", Some("utf8"))) == " encoding=\"utf8\""
  {
    assert " " + "encoding" == " encoding" && " encoding" + "=\"" == " encoding=\"" && " encoding=\"" + "utf8" == " encoding=\"utf8";
  }

  lemma AttrsTextOfTwo(a: Var, b: Var)
    ensures AttrsText([a, b]) == AttrText(a) + AttrText(b)
  {
    assert [a, b][1..] == [b] && [b][1..] == [];
    assert AttrsText([b]) == AttrText(b);
  }

  lemma DeclarationJoin(a: string, b: string, c: string, d: string, e: string, s: string)
    ensures a + b + c + (d + e) + s == a + (b + c + (d + (e + s)))
  {
  }

  lemma PiStart(t: string)
    ensures ContentToken("<?" + t) == Lexed(LeftAngleQ, t)
  {
    var d := "<?" + t;
    SpacePrefix("", d);
    assert "" + d == d && d[0..] == d && d[2..] == t;
  }

  lemma PiToken(s: string, t: string, cur: Node)
    requires ContentToken(s) == Lexed(LeftAngleQ, t)
    requires TagToken(t).token.Identifier? && TagAttributes(TagToken(t).rest).token.RightAngleQ?
    ensures Content(s, cur) == Content(TagAttributes(TagToken(t).rest).rest, cur)
  {
    hide ContentToken, TagToken, TagAttributes;
  }

  /** Reading a printed document, with any comments between its tags, gives the
      normal form of its tree. */
  lemma NotedReadsBack(root: Node, notes: Notes)
    requires LegalRoot(root)
    ensures Parse(PrintNoted(root, notes)) == Some(Norm(root))
  {
    hide Content, Layout, NotedFrom, Escape, Norm, NormCdata, GapText;
    var cur := Node(None, [], None, []);
    var body := GapText(notes([], 0)) + Escape(Layout(root)) + NotedFrom(root, 0, 0, [], notes);
    assert PrintNoted(root, notes) == Declaration() + body;
    DeclarationStep(body, cur);
    assert "\n" + body == "\n" + GapText(notes([], 0)) + Escape(Layout(root)) + NotedFrom(root, 0, 0, [], notes) + Spaces(0) + "";
    NotedBody(root, "\n", 0, 0, "", cur, [], notes);
    NormIs(root);
    assert NormAttrs(root.attrs) == [];
    EndOfInput(Norm(root));
  }

  /** Reading a printed document gives the normal form of its tree. */
  lemma ReadsBack(root: Node)
    requires LegalRoot(root)
    ensures Parse(Print(root)) == Some(Norm(root))
  {
    NotedReadsBack(root, NO_NOTES);
    WithoutNotes(root, 0, []);
  }

  lemma EndOfInput(cur: Node)
    requires cur.name.None?
    ensures Content("", cur) == Some((cur, ""))
  {
    assert ContentToken("") == Lexed(EndOfDocument, "");
  }

  /** What a tree must be like to survive being printed and read: no empty
      attribute values; text that is not all white space, has no empty lines
      around it, and ends in a line end if it is long or before children. */
  predicate Normal(n: Node) {
    && (forall a <- n.attrs :: a.value != Some(""))
    && (n.cdata.Some? ==>
         && !AllSpace(n.cdata.value) && Trim(n.cdata.value) == n.cdata.value
         && (Lined(n) ==> IsNewline(n.cdata.value[|n.cdata.value| - 1])))
    && forall c <- n.children :: Normal(c)
  }

  lemma {:induction false} NormalIff(n: Node)
    ensures Normal(n) <==> Norm(n) == n
    decreases n
  {
    forall i | 0 <= i < |n.children| ensures Normal(n.children[i]) <==> Norm(n.children[i]) == n.children[i] {
      NormalIff(n.children[i]);
    }
    if n.cdata.Some? {
      NormalText(n.cdata.value, Lined(n));
    }
    hide NormCdata, NormText, Trim, Lined;
    NormParts(n);
    assert (forall c <- n.children :: Normal(c)) <==> (forall i :: 0 <= i < |n.children| ==> Normal(n.children[i]));
    assert (forall a <- n.attrs :: a.value != Some("")) <==> (forall i :: 0 <= i < |n.attrs| ==> n.attrs[i].value != Some(""));
  }

  lemma NormParts(n: Node)
    ensures Norm(n) == n <==>
      (&& (forall i :: 0 <= i < |n.attrs| ==> n.attrs[i].value != Some(""))
       && NormCdata(n) == n.cdata
       && (forall i :: 0 <= i < |n.children| ==> Norm(n.children[i]) == n.children[i]))
  {
    hide NormCdata;
    var t := Norm(n);
    assert t.attrs == n.attrs <==> forall i :: 0 <= i < |n.attrs| ==> t.attrs[i] == n.attrs[i];
    assert t.children == n.children <==> forall i :: 0 <= i < |n.children| ==> t.children[i] == n.children[i];
  }

  lemma NormalText(c: string, lined: bool)
    requires '\n' in c ==> lined
    ensures NormText(c, lined) == Some(c) <==> !AllSpace(c) && Trim(c) == c && (lined ==> IsNewline(c[|c| - 1]))
  {
    hide Trim;
    if !AllSpace(c) && lined && c[|c| - 1] != '\n' {
      TrimAdded(c);
    }
  }

  lemma TrimAdded(c: string)
    requires !AllSpace(c) && c[|c| - 1] != '\n'
    ensures Trim(c + "\n") == c <==> Trim(c) == c && IsNewline(c[|c| - 1])
  {
    hide *;
    NotAllSpace(c);
    var a, m, z := SplitText(c);
    TrimParts(a, m, z);
    MorePart(a, m, z);
    TrimParts(a, m, z + "\n");
    assert a + m + (z + "\n") == c + "\n";
    LineEnds(a, m, z);
  }

  lemma MorePart(a: string, m: string, z: string)
    requires Parts(a, m, z)
    ensures Parts(a, m, z + "\n")
  {
  }

  lemma LineEnds(a: string, m: string, z: string)
    requires Parts(a, m, z) && (a + m + z)[|a + m + z| - 1] != '\n'
    ensures LastLine(a) + m + FirstLine(z + "\n") == a + m + z
      <==> LastLine(a) + m + FirstLine(z) == a + m + z && IsNewline((a + m + z)[|a + m + z| - 1])
  {
    var l, f, c := LastLine(a), FirstLine(z), a + m + z;
    FirstLineOnce(z);
    LastLineBound(a);
    FirstLineBound(z);
    assert c[|c| - 1] == if z == "" then m[|m| - 1] else z[|z| - 1];
    if z != "" && HasNewline(z) {
      FirstLineEnd(z);
      FirstLineAdded(z);
      if l + m + f == c {
        assert |l| + |f| == |a| + |z|;
        assert f == z;
      }
    } else {
      FirstLineNone(z);
      var d := l + m + (z + "\n");
      assert d[|d| - 1] == '\n';
      assert z != "" ==> z[|z| - 1] in z;
    }
  }

  lemma {:induction false} FirstLineEnd(z: string)
    requires HasNewline(z)
    ensures FirstLine(z) != "" && IsNewline(FirstLine(z)[|FirstLine(z)| - 1])
  {
    if !IsNewline(z[0]) {
      assert z == [z[0]] + z[1..];
      FirstLineEnd(z[1..]);
    }
  }

  lemma FirstLineAdded(z: string)
    requires HasNewline(z)
    ensures FirstLine(z + "\n") == FirstLine(z)
  {
    FirstLineBefore(z, "\n");
  }

  lemma {:induction false} FirstLineNone(z: string)
    requires !HasNewline(z)
    ensures FirstLine(z + "\n") == z + "\n"
  {
    if z != "" {
      assert z[0] in z && forall c <- z[1..] :: c in z;
      assert (z + "\n")[1..] == z[1..] + "\n";
      FirstLineNone(z[1..]);
      assert z == [z[0]] + z[1..];
    }
  }

  /** Exactly the trees in normal form survive. */
  lemma RoundTrip(root: Node)
    requires LegalRoot(root)
    ensures Parse(Print(root)) == Some(root) <==> Normal(root)
  {
    ReadsBack(root);
    NormalIff(root);
  }

  lemma {:induction false} NormLegal(n: Node)
    ensures LegalElement(n) ==> LegalElement(Norm(n))
    ensures LegalRoot(n) ==> LegalRoot(Norm(n))
    decreases n
  {
    forall c <- Norm(n).children ensures (forall d <- n.children :: LegalElement(d)) ==> LegalElement(c) {
      var i :| 0 <= i < |n.children| && Norm(n).children[i] == c;
      assert n.children[i] in n.children;
      NormLegal(n.children[i]);
    }
    if n.cdata.Some? && Ascii(n.cdata.value) {
      NormAscii(n.cdata.value, Lined(n));
    }
    NormLegalAttrs(n.attrs);
    NormIs(n);
  }

  lemma NormLegalAttrs(attrs: seq<Var>)
    ensures Distinct(attrs) ==> Distinct(NormAttrs(attrs))
    ensures (forall a <- attrs :: LegalAttr(a)) ==> forall a <- NormAttrs(attrs) :: LegalAttr(a)
  {
    forall b <- NormAttrs(attrs) ensures (forall a <- attrs :: LegalAttr(a)) ==> LegalAttr(b) {
      var i :| 0 <= i < |attrs| && b == NormAttr(attrs[i]);
      assert attrs[i] in attrs;
    }
  }

  lemma NormAscii(c: string, lined: bool)
    requires Ascii(c)
    ensures NormText(c, lined).Some? ==> Ascii(NormText(c, lined).value)
  {
    if !AllSpace(c) {
      hide Trim, AllSpace;
      var q := if lined && c[|c| - 1] != '\n' then "\n" else "";
      StillText("", c, q);
      assert "" + c + q == c + q;
      TrimKeepsText(c + q);
      assert q == "" ==> c + q == c;
    }
  }

  /** Printing and reading a document reaches a fixed point: doing it again
      changes nothing. */
  lemma SecondPass(root: Node)
    requires LegalRoot(root)
    ensures Parse(Print(root)).Some?
    ensures var once := Parse(Print(root)).value; Normal(once) && Parse(Print(once)) == Some(once)
  {
    ReadsBack(root);
    NormOnce(root);
    NormLegal(root);
    NormalIff(Norm(root));
    RoundTrip(Norm(root));
  }

  /** Different documents in normal form are printed differently. */
  lemma PrintInjective(t: Node, u: Node)
    requires LegalRoot(t) && LegalRoot(u) && Normal(t) && Normal(u) && Print(t) == Print(u)
    ensures t == u
  {
    RoundTrip(t);
    RoundTrip(u);
  }

  /** An attribute with an empty value comes back without one, and text that is
      only white space does not come back at all. */
  lemma EmptyIsLost(root: Node, back: Node)
    requires root == Node(None, [], None, [Node(Some("e"), [Var("a", Some(""))], Some(" "), [])])
    requires back == Node(None, [], None, [Node(Some("e"), [Var("a", None)], None, [])])
    ensures LegalRoot(root) && Parse(Print(root)) == Some(back)
  {
    var e := root.children[0];
    assert Distinct(e.attrs) && LegalAttr(e.attrs[0]);
    assert LegalElement(e);
    ReadsBack(root);
    assert NormAttrs(e.attrs) == [Var("a", None)];
    assert AllSpace(" ") && Norm(e) == back.children[0];
    assert Norm(root).children == [Norm(e)] && NormAttrs([]) == [];
    assert Norm(root) == back;
  }
}
