/** What the reader takes besides what the writer prints, and some of what it
    refuses. */
module XmlSyntax {
  import opened Wrappers
  import opened VarArrays
  import opened CNumbers
  import opened XmlText
  import opened XmlTree
  import opened XmlParser
  import opened XmlComments
  import opened XmlRoundTrip

  // ----------------------------------------------------------------- in a tag

  /** White space between the tokens of a tag means nothing. */
  lemma SpaceInTag(w: string, s: string)
    requires AllSpace(w)
    ensures TagToken(w + s) == TagToken(s)
  {
    hide TagTokenAt;
    var v := Space(s);
    var t := s[|v|..];
    assert s == v + t;
    Then(w, v, t);
    SpacePrefix(w + v, t);
    assert (w + v + t)[|w + v|..] == t;
  }

  /** A quoted string that does not end is an error. */
  lemma OpenQuote(quote: char, v: string)
    requires (quote == '\'' || quote == '"') && quote !in v
    ensures TagToken([quote] + v) == Bad()
  {
    var s := [quote] + v;
    assert s[1..] == v;
    NoQuote(v, quote);
    QuoteStart(s);
  }

  /** An attribute with white space and quotes of any kind. */
  lemma FreeAttribute(a: string, name: string, b: string, c: string, quote: char, v: string, r: string, acc: seq<Var>)
    requires AllSpace(a) && AllSpace(b) && AllSpace(c) && Name(name) && (quote == '\'' || quote == '"') && quote !in v
    ensures Attributes(TagToken(a + name + (b + ("=" + (c + ([quote] + v + [quote] + r))))), acc)
      == Attributes(TagToken(r), SetVar(acc, name, Value(v)))
  {
    var q := [quote] + v + [quote] + r;
    var e := b + ("=" + (c + q));
    hide TagToken, Attributes, SetVar, NameChar;
    QuotedToken(quote, v, r);
    SpaceInTag(c, q);
    EqualsToken(c + q);
    SpaceInTag(b, "=" + (c + q));
    NotInName(b, "=" + (c + q));
    NameToken(a, name, e);
    AttrSome(a + name + e, acc);
  }

  lemma NotInName(b: string, e: string)
    requires AllSpace(b) && e != "" && e[0] == '='
    ensures b + e != "" && !NameChar((b + e)[0])
  {
    assert b != "" ==> b[0] in b;
  }

  // --------------------------------------------------------------- entities

  /** The entities with names, in upper or lower case. */
  lemma NamedEntity(name: string, r: string)
    requires Lower(name) == "lt" || Lower(name) == "gt" || Lower(name) == "amp"
    ensures Entity(name + ";" + r)
      == Some((if Lower(name) == "lt" then '<' else if Lower(name) == "gt" then '>' else '&', r))
  {
    assert |name| == |Lower(name)|;
    forall i | 0 <= i < |name| ensures name[i] != ';' && !IsSpace(name[i]) {
      assert Lower(name)[i] != ';' && !IsSpace(Lower(name)[i]);
    }
    EntityNameAll(name, r);
  }

  /** A character by its number, in decimal. A number that does not fit 64 bits is
      the largest one; then it is cut to a byte. More than 126 digits do not fit
      the reader's buffer. */
  lemma NumericEntity(n: nat, r: string)
    ensures Entity("#" + Decimal(n) + ";" + r)
      == if |Decimal(n)| > 126 then None else Some((((if n < ULONG then n else ULONG - 1) % 256) as char, r))
  {
    var d := Decimal(n);
    assert forall c <- "#" + d :: c == '#' || '0' <= c <= '9';
    EntityNameAll("#" + d, r);
    assert ("#" + d)[1..] == d;
    StrtoulDecimal(n);
    assert SignedDecimal(n) == d;
    assert Lower("#" + d)[0] == '#';
    hide Strtoul, Decimal, SignedDecimal, EntityName;
  }

  /** Any other entity is an error, and so is one that does not end. */
  lemma NoEntity(name: string, r: string)
    requires (forall c <- name :: c != ';' && !IsSpace(c)) && (name == "" || name[0] != '#')
    requires Lower(name) != "lt" && Lower(name) != "gt" && Lower(name) != "amp"
    ensures Entity(name + ";" + r) == None && Text("&" + (name + ";" + r)) == None && Entity(name) == None
  {
    EntityNameAll(name, r);
    NeverNamed(name);
    assert ("&" + (name + ";" + r))[1..] == name + ";" + r;
  }

  lemma {:induction false} NeverNamed(name: string)
    requires forall c <- name :: c != ';'
    ensures EntityName(name) == None
  {
    if name != "" {
      assert name[0] in name && forall c <- name[1..] :: c in name;
      NeverNamed(name[1..]);
    }
  }

  // ---------------------------------------------------- declarations and others

  datatype Word = Ident(name: string) | Quote(text: string, quote: char)

  predicate LegalWord(w: Word) {
    match w
    case Ident(name) => Name(name)
    case Quote(text, quote) => (quote == '\'' || quote == '"') && quote !in text
  }

  function WordsText(ws: seq<Word>): string {
    if ws == [] then ""
    else " " + WordText(ws[0]) + WordsText(ws[1..])
  }

  function WordText(w: Word): string {
    match w
    case Ident(name) => name
    case Quote(text, quote) => [quote] + text + [quote]
  }

  function WordToken(w: Word): Token {
    match w
    case Ident(name) => Identifier(name)
    case Quote(text, _) => QuotedString(text)
  }

  lemma {:induction false} DoctypeWords(ws: seq<Word>, r: string)
    requires forall w <- ws :: LegalWord(w)
    ensures Doctype(WordsText(ws) + ">" + r) == Some(r)
    ensures var s := WordsText(ws) + ">" + r; !NameChar(s[0])
  {
    var s := WordsText(ws) + ">" + r;
    if ws == [] {
      assert s == ">" + r;
      EndToken(s, RightAngle, r);
      hide TagToken;
    } else {
      var rest := WordsText(ws[1..]) + ">" + r;
      assert ws[0] in ws && forall w <- ws[1..] :: w in ws;
      DoctypeWords(ws[1..], r);
      OneWord(ws, r, rest);
      DoctypeStep(s);
    }
  }

  lemma OneWord(ws: seq<Word>, r: string, rest: string)
    requires ws != [] && LegalWord(ws[0]) && rest == WordsText(ws[1..]) + ">" + r && !NameChar(rest[0])
    ensures var s := WordsText(ws) + ">" + r; s[0] == ' ' && TagToken(s) == Lexed(WordToken(ws[0]), rest)
  {
    hide TagToken, NameChar, LegalWord, WordText;
    assert WordsText(ws) + ">" + r == " " + (WordText(ws[0]) + rest);
    TokenOfWord(ws[0], rest);
    OneBlank();
    SpaceInTag(" ", WordText(ws[0]) + rest);
  }

  lemma TokenOfWord(w: Word, rest: string)
    requires LegalWord(w) && rest != "" && !NameChar(rest[0])
    ensures TagToken(WordText(w) + rest) == Lexed(WordToken(w), rest)
  {
    hide TagToken, NameChar;
    NoBlanks();
    match w
    case Ident(name) =>
      assert "" + name == name;
      NameToken("", name, rest);
    case Quote(text, quote) =>
      QuotedToken(quote, text, rest);
  }

  lemma OneBlank()
    ensures AllSpace(" ")
  {
  }

  lemma DoctypeStep(s: string)
    requires TagToken(s).token.Identifier? || TagToken(s).token.QuotedString?
    ensures Doctype(s) == Doctype(TagToken(s).rest)
  {
    hide TagToken;
  }

  /** A document type declaration is skipped. */
  lemma DoctypeSkipped(ws: seq<Word>, r: string, cur: Node)
    requires forall w <- ws :: LegalWord(w)
    ensures Content("<!" + ("DOCTYPE" + (WordsText(ws) + ">" + r)), cur) == Content(r, cur)
  {
    hide LegalWord, WordsText, Content, Doctype, NameChar;
    DoctypeWords(ws, r);
    var rest := WordsText(ws) + ">" + r;
    DoctypeName(rest);
    DoctypeContent("<!" + ("DOCTYPE" + rest), "DOCTYPE" + rest, rest, r, cur);
  }

  lemma DoctypeName(rest: string)
    requires rest != "" && !NameChar(rest[0])
    ensures TagToken("DOCTYPE" + rest) == Lexed(Identifier("DOCTYPE"), rest)
    ensures ContentToken("<!" + ("DOCTYPE" + rest)) == Lexed(LeftAngleExclam, "DOCTYPE" + rest)
  {
    DoctypeIsName();
    hide *;
    NamedDeclaration("DOCTYPE", rest);
  }

  lemma DoctypeIsName()
    ensures Name("DOCTYPE")
  {
  }

  lemma NamedDeclaration(name: string, rest: string)
    requires Name(name) && rest != "" && !NameChar(rest[0])
    ensures TagToken(name + rest) == Lexed(Identifier(name), rest)
    ensures ContentToken("<!" + (name + rest)) == Lexed(LeftAngleExclam, name + rest)
  {
    NoBlanks();
    assert name[0] != '-';
    hide *;
    assert "" + name + rest == name + rest;
    NameToken("", name, rest);
    ExclamToken(name + rest);
  }

  lemma DoctypeContent(s: string, t: string, rest: string, r: string, cur: Node)
    requires ContentToken(s) == Lexed(LeftAngleExclam, t)
    requires TagToken(t) == Lexed(Identifier("DOCTYPE"), rest) && Doctype(rest) == Some(r)
    ensures Content(s, cur) == Content(r, cur)
  {
    hide TagToken, ContentToken, Doctype;
  }

  lemma ExclamToken(t: string)
    requires t != "" && t[0] != '-'
    ensures ContentToken("<!" + t) == Lexed(LeftAngleExclam, t)
  {
    hide *;
    var s := "<!" + t;
    assert s[0] == '<' && s[1] == '!' && s[2] == t[0] && s[2..] == t;
    AtAngle(s);
    ExclamStart(s);
  }

  lemma ExclamStart(s: string)
    requires |s| > 2 && s[0] == '<' && s[1] == '!' && s[2] != '-'
    ensures TagStart(s) == Lexed(LeftAngleExclam, s[2..])
  {
    hide SkipComment, ContentToken;
  }

  lemma AtAngle(s: string)
    requires s != "" && s[0] == '<'
    ensures ContentToken(s) == TagStart(s)
  {
    hide TagStart, Text;
    SpacePrefix("", s);
    assert "" + s == s && s[0..] == s;
  }

  /** So is a processing instruction. */
  lemma InstructionSkipped(name: string, attrs: seq<Var>, r: string, cur: Node)
    requires Name(name) && Distinct(attrs) && forall a <- attrs :: LegalAttr(a)
    ensures Content("<?" + (name + AttrsText(attrs) + ("?>" + r)), cur) == Content(r, cur)
  {
    var t := name + AttrsText(attrs) + ("?>" + r);
    TagStep(name, attrs, "?>" + r, RightAngleQ, r);
    PiStart(t);
    hide *;
    PiToken("<?" + t, t, cur);
  }

  /** A start tag and an end tag with nothing between them are an empty
      element. */
  lemma EmptyPair(name: string, attrs: seq<Var>, r: string, cur: Node)
    requires Name(name) && name[0] != '!' && Distinct(attrs) && forall a <- attrs :: LegalAttr(a)
    ensures Content("" + "<" + name + AttrsText(attrs) + (">" + ("</" + name + ">\n" + r)), cur)
      == Content("\n" + r, cur.(children := cur.children + [Node(Some(name), NormAttrs(attrs), None, [])]))
  {
    var end := "</" + name + ">\n" + r;
    var child := Node(Some(name), NormAttrs(attrs), None, []);
    TagStep(name, attrs, ">" + end, RightAngle, end);
    NoBlanks();
    OpenStep("", name, AttrsText(attrs), ">" + end, cur);
    EndStep(name, r, child);
    hide *;
    FullChild(name + AttrsText(attrs) + (">" + end), cur, child, "\n" + r);
  }

  /** A comment in the middle of a text: only what comes after it stays. */
  lemma CommentInText(x: string, u: Comment, y: string, r: string, cur: Node)
    requires Ascii(x) && Ascii(y) && !AllSpace(y) && AtTag(r)
    ensures Content(Escape(x) + ("<!--" + u + END + (Escape(y) + r)), cur) == Content(r, cur.(cdata := Some(Trim(y))))
  {
    hide Content, ContentToken, Escape, Trim;
    var s := "<!--" + u + END + (Escape(y) + r);
    assert AtTag(s);
    TextStep(x, s, cur);
    CommentToken(u, Escape(y) + r);
    SameToken(s, Escape(y) + r, TextInto(cur, x));
    TextStep(y, r, TextInto(cur, x));
  }

  // ------------------------------------------------------------------ refused

  /** The end tag of another element is an error. */
  lemma WrongEnd(name: string, r: string, cur: Node)
    requires Name(name) && cur.name != Some(name)
    ensures Content("</" + (name + (">" + r)), cur) == None
  {
    var t := name + (">" + r);
    SlashStart(t);
    NoBlanks();
    assert "" + name + (">" + r) == t;
    NameToken("", name, ">" + r);
    EndToken(">" + r, RightAngle, r);
    hide *;
    EndMismatch("</" + t, t, name, ">" + r, cur);
  }

  lemma EndMismatch(s: string, t: string, name: string, rest: string, cur: Node)
    requires ContentToken(s) == Lexed(LeftAngleSlash, t) && TagToken(t) == Lexed(Identifier(name), rest) && cur.name != Some(name)
    ensures Content(s, cur) == None
  {
    hide ContentToken, TagToken;
  }

  /** A tag must end as it began: an element not with a question mark, and an
      instruction with nothing else. */
  lemma WrongTagEnd(name: string, attrs: seq<Var>, r: string, cur: Node)
    requires Name(name) && name[0] != '!' && Distinct(attrs) && forall a <- attrs :: LegalAttr(a)
    ensures Content("" + "<" + name + AttrsText(attrs) + ("?>" + r), cur) == None
    ensures Content("<?" + (name + AttrsText(attrs) + (">" + r)), cur) == None
    ensures Content("<?" + (name + AttrsText(attrs) + ("/>" + r)), cur) == None
  {
    NoBlanks();
    Ends(r);
    hide *;
    TagStep(name, attrs, "?>" + r, RightAngleQ, r);
    OpenStep("", name, AttrsText(attrs), "?>" + r, cur);
    NoChild(name + AttrsText(attrs) + ("?>" + r), cur);
    WrongInstruction(name, attrs, ">" + r, RightAngle, r, cur);
    WrongInstruction(name, attrs, "/>" + r, RightAngleSlash, r, cur);
  }

  lemma Ends(r: string)
    ensures TagEnd("?>" + r, RightAngleQ, r) && TagEnd(">" + r, RightAngle, r) && TagEnd("/>" + r, RightAngleSlash, r)
  {
  }

  lemma WrongInstruction(name: string, attrs: seq<Var>, e: string, token: Token, r: string, cur: Node)
    requires Name(name) && Distinct(attrs) && (forall a <- attrs :: LegalAttr(a)) && TagEnd(e, token, r) && !token.RightAngleQ?
    ensures Content("<?" + (name + AttrsText(attrs) + e), cur) == None
  {
    hide *;
    var t := name + AttrsText(attrs) + e;
    TagStep(name, attrs, e, token, r);
    PiStart(t);
    NoInstruction("<?" + t, t, cur);
  }

  lemma NoChild(s: string, cur: Node)
    requires TagToken(s).token.Identifier? && TagAttributes(TagToken(s).rest).token.RightAngleQ?
    ensures Child(s, cur) == None
  {
    hide TagToken, TagAttributes, Content;
  }

  lemma NoInstruction(s: string, t: string, cur: Node)
    requires ContentToken(s) == Lexed(LeftAngleQ, t)
    requires TagToken(t).token.Identifier? && !TagAttributes(TagToken(t).rest).token.RightAngleQ?
    ensures Content(s, cur) == None
  {
    hide ContentToken, TagToken, TagAttributes;
  }

  /** So is the end of the input within an element. */
  lemma Unfinished(w: string, cur: Node)
    requires AllSpace(w) && cur.name.Some?
    ensures Content(w, cur) == None
  {
    assert w + "" == w;
    BlankToken(w, "");
    assert ContentToken("") == Lexed(EndOfDocument, "");
    hide ContentToken;
  }
}
