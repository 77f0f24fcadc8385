/** Shell-style quoting of list items, and the way back. */
module Quoting {
  import opened Wrappers

  predicate IsQuote(c: char) { c == '"' || c == '\'' }

  /** Quotes are only put where separators or quotes make them necessary. */
  predicate NeedsQuotes(s: string, sepa: string) {
    exists c <- s :: c in sepa || IsQuote(c)
  }

  function Escape(s: string): string {
    if s == "" then ""
    else (if IsQuote(s[0]) || s[0] == '\\' then ['\\', s[0]] else [s[0]]) + Escape(s[1..])
  }

  function Quote(s: string, sepa: string): string {
    if NeedsQuotes(s, sepa) then "\"" + Escape(s) + "\"" else s
  }

  method QuoteString(s: string, sepa: string) returns (q: string)
    ensures q == Quote(s, sepa)
  {
    if !NeedsQuotes(s, sepa) {
      return s;
    }
    q := "\"";
    var i: nat := 0;
    assert s[0..] == s;
    while i < |s|
      invariant i <= |s|
      invariant "\"" + Escape(s) == q + Escape(s[i..])
    {
      var c := s[i];
      assert s[i..][1..] == s[i + 1..];
      var piece := if IsQuote(c) || c == '\\' then ['\\', c] else [c];
      assert q + (piece + Escape(s[i + 1..])) == q + piece + Escape(s[i + 1..]);
      q := q + piece;
      i := i + 1;
    }
    assert q + "" == q;
    q := q + "\"";
  }

  // --------------------------------------------------------------- unquoting

  function SkipSeparators(s: string, sepa: string): (r: string)
    ensures |r| <= |s|
  {
    if s != "" && s[0] in sepa then SkipSeparators(s[1..], sepa) else s
  }

  /** The text up to a closing double quote, and what follows; a backslash
      takes the next character as it is. */
  function InDouble(s: string): (r: Option<(string, string)>)
    ensures r.Some? ==> |r.value.1| < |s|
    decreases |s|
  {
    if s == "" then None
    else if s[0] == '"' then Some(("", s[1..]))
    else if s[0] == '\\' then
      if |s| == 1 then None
      else (match InDouble(s[2..]) case None => None case Some(x) => Some(([s[1]] + x.0, x.1)))
    else match InDouble(s[1..]) case None => None case Some(x) => Some(([s[0]] + x.0, x.1))
  }

  /** The same for single quotes, where a backslash is nothing special. */
  function InSingle(s: string): (r: Option<(string, string)>)
    ensures r.Some? ==> |r.value.1| < |s|
  {
    if s == "" then None
    else if s[0] == '\'' then Some(("", s[1..]))
    else match InSingle(s[1..]) case None => None case Some(x) => Some(([s[0]] + x.0, x.1))
  }

  /** One item: its text, and what follows the separator that ends it. None if
      a quote is not closed. */
  function Item(s: string, sepa: string, text: string): (r: Option<(string, string)>)
    ensures r.Some? ==> |r.value.1| <= |s| && (s != "" ==> |r.value.1| < |s|)
    decreases |s|
  {
    if s == "" then Some((text, ""))
    else if s[0] in sepa then Some((text, s[1..]))
    else if s[0] == '"' then
      (match InDouble(s[1..]) case None => None case Some(x) => Item(x.1, sepa, text + x.0))
    else if s[0] == '\'' then
      (match InSingle(s[1..]) case None => None case Some(x) => Item(x.1, sepa, text + x.0))
    else Item(s[1..], sepa, text + [s[0]])
  }

  /** The next item and the rest. An item without a single character is none:
      its buffer was never allocated. */
  function Unquote(s: string, sepa: string): (r: (Option<string>, string))
    ensures r.0.Some? ==> |r.1| < |s|
  {
    match Item(SkipSeparators(s, sepa), sepa, "")
    case None => (None, s)
    case Some(x) => (if x.0 == "" then None else Some(x.0), x.1)
  }

  /** Items until there is none. */
  function UnquoteAll(s: string, sepa: string): seq<string>
    decreases |s|
  {
    var u := Unquote(s, sepa);
    if u.0.None? then [] else [u.0.value] + UnquoteAll(u.1, sepa)
  }

  method UnquoteString(s: string, sepa: string) returns (item: Option<string>, rest: string)
    ensures (item, rest) == Unquote(s, sepa)
  {
    var src := SkipSeparators(s, sepa);
    var text := "";
    ghost var start := src;
    while src != ""
      invariant Item(start, sepa, "") == Item(src, sepa, text)
      decreases |src|
    {
      var cc := src[0];
      src := src[1..];
      if cc in sepa {
        return if text == "" then None else Some(text), src;
      } else if cc == '"' || cc == '\'' {
        var quoted := if cc == '"' then InDouble(src) else InSingle(src);
        if quoted.None? {
          return None, s;
        }
        text, src := text + quoted.value.0, quoted.value.1;
      } else {
        text := text + [cc];
      }
    }
    return if text == "" then None else Some(text), "";
  }

  // -------------------------------------------------------------- there and back

  function Join(items: seq<string>, c: char, sepa: string): string {
    if items == [] then ""
    else if |items| == 1 then Quote(items[0], sepa)
    else Quote(items[0], sepa) + [c] + Join(items[1..], c, sepa)
  }

  function NonEmpty(items: seq<string>): seq<string> {
    if items == [] then []
    else (if items[0] == "" then [] else [items[0]]) + NonEmpty(items[1..])
  }

  predicate Separators(sepa: string) {
    forall c <- sepa :: !IsQuote(c)
  }

  lemma {:induction false} InDoubleEscape(s: string, r: string)
    ensures InDouble(Escape(s) + "\"" + r) == Some((s, r))
  {
    var q := Escape(s) + "\"" + r;
    if s == "" {
      assert q[1..] == r;
    } else {
      InDoubleEscape(s[1..], r);
      var rest := Escape(s[1..]) + "\"" + r;
      assert [s[0]] + s[1..] == s;
      if IsQuote(s[0]) || s[0] == '\\' {
        assert q == ['\\', s[0]] + rest && q[2..] == rest;
      } else {
        assert q == [s[0]] + rest && q[1..] == rest;
      }
    }
  }

  lemma {:induction false} ItemPlain(s: string, r: string, sepa: string, text: string)
    requires !NeedsQuotes(s, sepa) && (r == "" || r[0] in sepa)
    ensures Item(s + r, sepa, text) == Some((text + s, if r == "" then "" else r[1..]))
  {
    if s == "" {
      assert s + r == r && text + s == text;
    } else {
      assert s[0] in s && forall c <- s[1..] :: c in s;
      assert (s + r)[1..] == s[1..] + r;
      ItemPlain(s[1..], r, sepa, text + [s[0]]);
      assert text + [s[0]] + s[1..] == text + s;
    }
  }

  lemma ItemDouble(s: string, sepa: string, text: string)
    requires s != "" && s[0] == '"' && Separators(sepa) && InDouble(s[1..]).Some?
    ensures var x := InDouble(s[1..]).value; Item(s, sepa, text) == Item(x.1, sepa, text + x.0)
  {
    hide InDouble;
  }

  /** A quoted item is read as the item, and leaves what follows its
      separator. */
  lemma ItemQuote(s: string, r: string, sepa: string)
    requires Separators(sepa) && (r == "" || r[0] in sepa)
    ensures Item(Quote(s, sepa) + r, sepa, "") == Some((s, if r == "" then "" else r[1..]))
  {
    if NeedsQuotes(s, sepa) {
      ItemQuoted(s, r, sepa);
    } else {
      ItemPlain(s, r, sepa, "");
      assert "" + s == s;
    }
  }

  lemma ItemQuoted(s: string, r: string, sepa: string)
    requires Separators(sepa) && (r == "" || r[0] in sepa)
    ensures Item("\"" + Escape(s) + "\"" + r, sepa, "") == Some((s, if r == "" then "" else r[1..]))
  {
    var e := Escape(s);
    var q := "\"" + e + "\"" + r;
    InDoubleEscape(s, r);
    hide *;
    assert q[1..] == e + "\"" + r && q != "" && q[0] == '"';
    ItemDouble(q, sepa, "");
    ItemEnd(r, sepa, s);
    assert "" + s == s;
  }

  lemma ItemEnd(r: string, sepa: string, text: string)
    requires r == "" || r[0] in sepa
    ensures Item(r, sepa, text) == Some((text, if r == "" then "" else r[1..]))
  {
  }

  lemma UnquoteQuote(s: string, r: string, sepa: string)
    requires Separators(sepa) && s != "" && (r == "" || r[0] in sepa)
    ensures Unquote(Quote(s, sepa) + r, sepa) == (Some(s), if r == "" then "" else r[1..])
  {
    var q := Quote(s, sepa) + r;
    assert q[0] !in sepa by {
      if !NeedsQuotes(s, sepa) {
        assert s[0] in s;
      }
    }
    ItemQuote(s, r, sepa);
  }

  /** Reading back a joined list gives its items, without the empty ones. */
  lemma {:induction false} UnquoteJoin(items: seq<string>, c: char, sepa: string)
    requires Separators(sepa) && c in sepa
    ensures UnquoteAll(Join(items, c, sepa), sepa) == NonEmpty(items)
  {
    if items != [] {
      var x, rest := items[0], items[1..];
      var r := if |items| == 1 then "" else [c] + Join(rest, c, sepa);
      UnquoteJoin(rest, c, sepa);
      assert Join(items, c, sepa) == Quote(x, sepa) + r;
      assert r != "" ==> r[1..] == Join(rest, c, sepa);
      if x == "" {
        assert !NeedsQuotes(x, sepa) && Quote(x, sepa) + r == r;
        if r != "" {
          SkipFirst(c, Join(rest, c, sepa), sepa);
        }
        assert NonEmpty(items) == NonEmpty(rest);
      } else {
        UnquoteQuote(x, r, sepa);
        assert |items| == 1 ==> rest == [] && Join(rest, c, sepa) == "";
      }
    }
  }

  lemma SkipFirst(c: char, s: string, sepa: string)
    requires c in sepa
    ensures UnquoteAll([c] + s, sepa) == UnquoteAll(s, sepa)
  {
    assert ([c] + s)[1..] == s;
    var a, b := Unquote([c] + s, sepa), Unquote(s, sepa);
    assert a.0 == b.0 && (a.0.Some? ==> a.1 == b.1);
  }

  lemma {:induction false} NonEmptyIff(items: seq<string>)
    ensures NonEmpty(items) == items <==> forall x <- items :: x != ""
    ensures |NonEmpty(items)| <= |items|
  {
    if items != [] {
      NonEmptyIff(items[1..]);
      assert items[0] in items && forall x <- items[1..] :: x in items;
      assert forall x <- items :: x == items[0] || x in items[1..];
      var r := NonEmpty(items[1..]);
      if items[0] != "" {
        assert ([items[0]] + r)[1..] == r;
        assert items == [items[0]] + items[1..];
      } else {
        assert |NonEmpty(items)| < |items|;
      }
    }
  }

  /** A list survives exactly if it has no empty item. */
  lemma RoundTrip(items: seq<string>, c: char, sepa: string)
    requires Separators(sepa) && c in sepa
    ensures UnquoteAll(Join(items, c, sepa), sepa) == items <==> forall x <- items :: x != ""
  {
    UnquoteJoin(items, c, sepa);
    NonEmptyIff(items);
  }

  /** An empty item between two others is lost. */
  lemma EmptyItemIsLost(items: seq<string>)
    requires items == ["a", "", "b"]
    ensures UnquoteAll(Join(items, ' ', " "), " ") == ["a", "b"]
  {
    UnquoteJoin(items, ' ', " ");
    assert items[1..] == ["", "b"] && items[1..][1..] == ["b"] && ["b"][1..] == [];
    assert NonEmpty(["b"]) == ["b"];
  }

  // ------------------------------------------------- whatever way it is quoted

  /** An item may be put together from pieces: plain text, text in double quotes,
      where any character can have a backslash before it, and text in single
      quotes. */
  datatype Piece = Plain(text: string) | Double(chars: seq<Char>) | Single(text: string)

  datatype Char = Char(c: char, escaped: bool)

  predicate LegalPiece(p: Piece, sepa: string) {
    match p
    case Plain(t) => !NeedsQuotes(t, sepa)
    case Double(cs) => forall x <- cs :: x.escaped || (x.c != '"' && x.c != '\\')
    case Single(t) => '\'' !in t
  }

  function WrittenChars(cs: seq<Char>): string {
    if cs == [] then "" else (if cs[0].escaped then ['\\', cs[0].c] else [cs[0].c]) + WrittenChars(cs[1..])
  }

  function Chars(cs: seq<Char>): string {
    if cs == [] then "" else [cs[0].c] + Chars(cs[1..])
  }

  function WrittenPiece(p: Piece): string {
    match p
    case Plain(t) => t
    case Double(cs) => "\"" + WrittenChars(cs) + "\""
    case Single(t) => "'" + t + "'"
  }

  function MeantPiece(p: Piece): string {
    match p
    case Plain(t) => t
    case Double(cs) => Chars(cs)
    case Single(t) => t
  }

  function Written(ps: seq<Piece>): string {
    if ps == [] then "" else WrittenPiece(ps[0]) + Written(ps[1..])
  }

  function Meant(ps: seq<Piece>): string {
    if ps == [] then "" else MeantPiece(ps[0]) + Meant(ps[1..])
  }

  lemma {:induction false} InDoubleChars(cs: seq<Char>, r: string)
    requires forall x <- cs :: x.escaped || (x.c != '"' && x.c != '\\')
    ensures InDouble(WrittenChars(cs) + "\"" + r) == Some((Chars(cs), r))
  {
    var q := WrittenChars(cs) + "\"" + r;
    if cs == [] {
      assert q[1..] == r;
    } else {
      assert cs[0] in cs && forall x <- cs[1..] :: x in cs;
      InDoubleChars(cs[1..], r);
      var rest := WrittenChars(cs[1..]) + "\"" + r;
      if cs[0].escaped {
        assert q == ['\\', cs[0].c] + rest && q[2..] == rest;
      } else {
        assert q == [cs[0].c] + rest && q[1..] == rest;
      }
    }
  }

  lemma {:induction false} InSingleText(t: string, r: string)
    requires '\'' !in t
    ensures InSingle(t + "'" + r) == Some((t, r))
  {
    var q := t + "'" + r;
    if t == "" {
      assert q[1..] == r;
    } else {
      assert t[0] in t && q[1..] == t[1..] + "'" + r;
      InSingleText(t[1..], r);
      assert [t[0]] + t[1..] == t;
    }
  }

  lemma {:induction false} PlainStep(t: string, r: string, sepa: string, text: string)
    requires !NeedsQuotes(t, sepa)
    ensures Item(t + r, sepa, text) == Item(r, sepa, text + t)
  {
    if t == "" {
      assert t + r == r && text + t == text;
    } else {
      assert t[0] in t && forall c <- t[1..] :: c in t;
      assert (t + r)[1..] == t[1..] + r;
      PlainStep(t[1..], r, sepa, text + [t[0]]);
      assert text + [t[0]] + t[1..] == text + t;
    }
  }

  lemma SingleStep(t: string, r: string, sepa: string, text: string)
    requires '\'' !in t && Separators(sepa)
    ensures Item("'" + t + "'" + r, sepa, text) == Item(r, sepa, text + t)
  {
    var q := "'" + t + "'" + r;
    assert q[1..] == t + "'" + r;
    InSingleText(t, r);
    hide InSingle;
  }

  lemma DoubleStep(cs: seq<Char>, r: string, sepa: string, text: string)
    requires LegalPiece(Double(cs), sepa) && Separators(sepa)
    ensures Item("\"" + WrittenChars(cs) + "\"" + r, sepa, text) == Item(r, sepa, text + Chars(cs))
  {
    var q := "\"" + WrittenChars(cs) + "\"" + r;
    assert q[1..] == WrittenChars(cs) + "\"" + r;
    InDoubleChars(cs, r);
    ItemDouble(q, sepa, text);
  }

  lemma PieceStep(p: Piece, r: string, sepa: string, text: string)
    requires LegalPiece(p, sepa) && Separators(sepa)
    ensures Item(WrittenPiece(p) + r, sepa, text) == Item(r, sepa, text + MeantPiece(p))
  {
    match p
    case Plain(t) => PlainStep(t, r, sepa, text);
    case Double(cs) => DoubleStep(cs, r, sepa, text);
    case Single(t) => SingleStep(t, r, sepa, text);
  }

  lemma {:induction false} ItemPieces(ps: seq<Piece>, r: string, sepa: string, text: string)
    requires Separators(sepa) && forall p <- ps :: LegalPiece(p, sepa)
    ensures Item(Written(ps) + r, sepa, text) == Item(r, sepa, text + Meant(ps))
    decreases |ps|
  {
    hide Item, LegalPiece, WrittenPiece, MeantPiece, Separators;
    if ps == [] {
      assert Written(ps) + r == r && text + Meant(ps) == text;
    } else {
      var p, w, m := ps[0], Written(ps[1..]), Meant(ps[1..]);
      assert p in ps && forall q <- ps[1..] :: q in ps;
      PieceStep(p, w + r, sepa, text);
      ItemPieces(ps[1..], r, sepa, text + MeantPiece(p));
      Then(WrittenPiece(p), w, r);
      Then(text, MeantPiece(p), m);
    }
  }

  lemma Then(a: string, b: string, c: string)
    ensures a + b + c == a + (b + c)
  {
  }

  lemma {:induction false} SeparatorsSkipped(w: string, s: string, sepa: string)
    requires (forall c <- w :: c in sepa) && (s == "" || s[0] !in sepa)
    ensures SkipSeparators(w + s, sepa) == s
  {
    if w == "" {
      assert w + s == s;
    } else {
      assert w[0] in w && forall c <- w[1..] :: c in w;
      assert (w + s)[1..] == w[1..] + s;
      SeparatorsSkipped(w[1..], s, sepa);
    }
  }

  lemma {:induction false} PiecesStart(ps: seq<Piece>, sepa: string)
    requires Separators(sepa) && forall p <- ps :: LegalPiece(p, sepa)
    ensures Written(ps) != "" ==> Written(ps)[0] !in sepa
    ensures Meant(ps) != "" ==> Written(ps) != ""
  {
    if ps != [] {
      assert ps[0] in ps && forall p <- ps[1..] :: p in ps;
      PiecesStart(ps[1..], sepa);
      if ps[0].Plain? && ps[0].text != "" {
        assert ps[0].text[0] in ps[0].text;
      }
    }
  }

  /** However it is quoted, and after any separators: the next item is what its
      pieces mean together. */
  lemma UnquotePieces(w: string, ps: seq<Piece>, r: string, sepa: string)
    requires Separators(sepa) && (forall c <- w :: c in sepa) && (forall p <- ps :: LegalPiece(p, sepa))
    requires Meant(ps) != "" && (r == "" || r[0] in sepa)
    ensures Unquote(w + (Written(ps) + r), sepa) == (Some(Meant(ps)), if r == "" then "" else r[1..])
  {
    PiecesStart(ps, sepa);
    SeparatorsSkipped(w, Written(ps) + r, sepa);
    ItemPieces(ps, r, sepa, "");
    ItemEnd(r, sepa, Meant(ps));
    assert "" + Meant(ps) == Meant(ps);
    hide Item, SkipSeparators;
  }

  /** A quote that is not closed is no item, and nothing is taken. */
  lemma OpenQuote(ps: seq<Piece>, t: string, sepa: string)
    requires Separators(sepa) && (forall p <- ps :: LegalPiece(p, sepa)) && '\'' !in t
    ensures Unquote(Written(ps) + ("'" + t), sepa) == (None, Written(ps) + ("'" + t))
  {
    var s := "'" + t;
    PiecesStart(ps, sepa);
    SeparatorsSkipped("", Written(ps) + s, sepa);
    assert "" + (Written(ps) + s) == Written(ps) + s;
    ItemPieces(ps, s, sepa, "");
    assert s[1..] == t;
    NeverClosed(t);
    hide SkipSeparators;
  }

  lemma {:induction false} NeverClosed(t: string)
    requires '\'' !in t
    ensures InSingle(t) == None
  {
    if t != "" {
      assert t[0] in t;
      NeverClosed(t[1..]);
    }
  }

  /** Quotes are only used where they have to be, and then they are double. */
  lemma QuotedWhenNeeded(s: string, sepa: string)
    ensures Quote(s, sepa) == s <==> forall c <- s :: c !in sepa && c != '"' && c != '\''
    ensures Quote(s, sepa) != s ==> Quote(s, sepa)[0] == '"' && Quote(s, sepa)[|Quote(s, sepa)| - 1] == '"'
  {
    if NeedsQuotes(s, sepa) {
      EscapeLonger(s);
    }
  }

  lemma {:induction false} EscapeLonger(s: string)
    ensures |Escape(s)| >= |s|
  {
    if s != "" {
      EscapeLonger(s[1..]);
    }
  }
}
