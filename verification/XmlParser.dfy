/** What the XML reader makes of its input: tokens, and the tree that they
    spell out. Every function takes the rest of the input and says what is
    left of it. */
module XmlParser {
  import opened Wrappers
  import opened VarArrays
  import opened CNumbers
  import opened XmlText
  import opened XmlTree

  datatype Token =
    | NoToken
    | EndOfDocument
    | LeftAngle | RightAngle
    | LeftAngleQ | RightAngleQ
    | LeftAngleSlash | RightAngleSlash
    | LeftAngleExclam
    | Identifier(id: string) | Equals | QuotedString(text: string)
    | CData(cdata: string)

  datatype Lexed = Lexed(token: Token, rest: string)

  function Bad(): Lexed { Lexed(NoToken, "") }

  // --------------------------------------------------------------- in a tag

  /** The longest run of name characters. */
  function NameRun(s: string): (r: string)
    ensures r <= s
  {
    if s != "" && NameChar(s[0]) then [s[0]] + NameRun(s[1..]) else ""
  }

  lemma {:induction false} NameRunAll(s: string, r: string)
    requires (forall c <- s :: NameChar(c)) && (r == "" || !NameChar(r[0]))
    ensures NameRun(s + r) == s
  {
    if s == "" {
      assert s + r == r;
    } else {
      assert s[0] in s;
      assert (s + r)[1..] == s[1..] + r;
      NameRunAll(s[1..], r);
    }
  }

  /** What precedes the closing quote, if there is one. */
  function Quoted(s: string, quote: char): (r: Option<string>)
    ensures r.Some? ==> r.value < s && s[|r.value|] == quote
  {
    if s == "" then None
    else if s[0] == quote then Some("")
    else match Quoted(s[1..], quote)
      case Some(t) => Some([s[0]] + t)
      case None => None
  }

  lemma {:induction false} QuotedUpTo(v: string, quote: char, r: string)
    requires quote !in v
    ensures Quoted(v + [quote] + r, quote) == Some(v)
  {
    var s := v + [quote] + r;
    if v != "" {
      assert s[1..] == v[1..] + [quote] + r;
      assert s[0] == v[0] && v[0] in v;
      QuotedUpTo(v[1..], quote, r);
      assert [v[0]] + v[1..] == v;
    }
  }

  lemma {:induction false} NoQuote(s: string, quote: char)
    requires quote !in s
    ensures Quoted(s, quote).None?
  {
    if s != "" {
      assert s[0] in s;
      NoQuote(s[1..], quote);
    }
  }

  function TagToken(s: string): (r: Lexed)
    ensures |r.rest| <= |s| && (!r.token.NoToken? ==> |r.rest| < |s|)
  {
    TagTokenAt(s[|Space(s)|..])
  }

  /** The same, once white space has been skipped. */
  function TagTokenAt(t: string): (r: Lexed)
    ensures |r.rest| <= |t| && (!r.token.NoToken? ==> |r.rest| < |t|)
  {
    if t == "" then Bad()
    else if t[0] == '?' then if 1 < |t| && t[1] == '>' then Lexed(RightAngleQ, t[2..]) else Bad()
    else if t[0] == '>' then Lexed(RightAngle, t[1..])
    else if t[0] == '/' then if 1 < |t| && t[1] == '>' then Lexed(RightAngleSlash, t[2..]) else Bad()
    else if t[0] == '=' then Lexed(Equals, t[1..])
    else if NameStart(t[0]) then
      var id := [t[0]] + NameRun(t[1..]);
      Lexed(Identifier(id), t[|id|..])
    else if t[0] == '\'' || t[0] == '"' then
      match Quoted(t[1..], t[0])
      case Some(q) => Lexed(QuotedString(q), t[|q| + 2..])
      case None => Bad()
    else Bad()
  }

  // -------------------------------------------------------- between the tags

  /** What follows the end of a comment, of which hyphens have just been
      read. */
  function SkipComment(s: string, hyphens: nat): (r: Option<string>)
    ensures r.Some? ==> |r.value| < |s|
  {
    if s == "" then None
    else if s[0] == '-' then SkipComment(s[1..], hyphens + 1)
    else if s[0] == '>' && hyphens >= 2 then Some(s[1..])
    else SkipComment(s[1..], 0)
  }

  /** The character that an entity stands for. Numbers are cut to 8 bits. */
  function Expand(entity: string): Option<char> {
    if Lower(entity) == "lt" then Some('<')
    else if Lower(entity) == "gt" then Some('>')
    else if Lower(entity) == "amp" then Some('&')
    else if entity != "" && entity[0] == '#' then
      match CNumbers.Strtoul(entity[1..])
      case Some(n) => Some((n % 256) as char)
      case None => None
    else None
  }

  /** The name of an entity up to its semicolon, without white space. */
  function EntityName(s: string): (r: Option<(string, string)>)
    ensures r.Some? ==> |r.value.1| < |s|
  {
    if s == "" then None
    else if s[0] == ';' then Some(("", s[1..]))
    else match EntityName(s[1..])
      case None => None
      case Some(e) => Some((if IsSpace(s[0]) then e.0 else [s[0]] + e.0, e.1))
  }

  /** An entity, after its ampersand: the character and what is left. The
      reader's buffer holds 127 characters. */
  function Entity(s: string): (r: Option<(char, string)>)
    ensures r.Some? ==> |r.value.1| < |s|
  {
    match EntityName(s)
    case None => None
    case Some(e) =>
      if e.0 == "" || |e.0| > 127 then None
      else match Expand(e.0)
        case None => None
        case Some(c) => Some((c, e.1))
  }

  /** Text up to the next tag or the end, with its entities expanded. */
  function Text(s: string): (r: Option<(string, string)>)
    ensures r.Some? ==> |r.value.1| <= |s|
    ensures r.Some? && s != "" && s[0] != '<' ==> |r.value.1| < |s|
    decreases |s|
  {
    if s == "" || s[0] == '<' then Some(("", s))
    else if s[0] == '&' then
      match Entity(s[1..])
      case None => None
      case Some(e) =>
        (match Text(e.1)
         case None => None
         case Some(t) => Some(([e.0] + t.0, t.1)))
    else match Text(s[1..])
      case None => None
      case Some(t) => Some(([s[0]] + t.0, t.1))
  }

  /** A string ends at its first NUL. */
  function CString(s: string): string {
    if s == "" || s[0] as int == 0 then "" else [s[0]] + CString(s[1..])
  }

  /** The next token between tags. */
  function ContentToken(s: string): (r: Lexed)
    ensures |r.rest| <= |s|
    ensures !r.token.NoToken? && !r.token.EndOfDocument? ==> |r.rest| < |s|
    decreases |s|, 1
  {
    var w := Space(s);
    var t := s[|w|..];
    if t == "" then Lexed(EndOfDocument, "")
    else if t[0] == '<' then TagStart(t)
    else match Text(t)
      case Some(x) => Lexed(CData(CString(Trim(w + x.0))), x.1)
      case None => Bad()
  }

  /** The token at an opening angle. A comment is skipped. */
  function TagStart(t: string): (r: Lexed)
    requires t != "" && t[0] == '<'
    ensures |r.rest| <= |t|
    ensures !r.token.NoToken? && !r.token.EndOfDocument? ==> |r.rest| < |t|
    decreases |t|, 0
  {
    if |t| == 1 then Lexed(LeftAngle, "")
    else if t[1] == '/' then Lexed(LeftAngleSlash, t[2..])
    else if t[1] == '?' then Lexed(LeftAngleQ, t[2..])
    else if t[1] == '!' then
      if |t| == 2 || t[2] != '-' then Lexed(LeftAngleExclam, t[2..])
      else if |t| == 3 || t[3] != '-' then Bad()
      else match SkipComment(t[4..], 0)
        case Some(r) => ContentToken(r)
        case None => Bad()
    else Lexed(LeftAngle, t[1..])
  }

  // ------------------------------------------------------------------ trees

  /** An empty quoted string is no string at all. */
  function Value(text: string): Option<string> {
    if text == "" then None else Some(text)
  }

  datatype Tag = Tag(token: Token, attrs: seq<Var>, rest: string)

  /** The attributes of a tag up to its end, which is the token given back. */
  function Attributes(l: Lexed, attrs: seq<Var>): (r: Tag)
    ensures |r.rest| <= |l.rest|
    decreases |l.rest|, if l.token.NoToken? then 0 else 1
  {
    match l.token
    case RightAngle => Tag(l.token, attrs, l.rest)
    case RightAngleQ => Tag(l.token, attrs, l.rest)
    case RightAngleSlash => Tag(l.token, attrs, l.rest)
    case Identifier(name) =>
      var next := TagToken(l.rest);
      if next.token.Equals? then
        var value := TagToken(next.rest);
        if value.token.QuotedString?
        then
          var after := TagToken(value.rest);
          Attributes(after, SetVar(attrs, name, Value(value.token.text)))
        else Tag(NoToken, attrs, "")
      else Attributes(next, SetVar(attrs, name, None))
    case _ => Tag(NoToken, attrs, "")
  }

  function TagAttributes(s: string): (r: Tag)
    ensures |r.rest| <= |s|
  {
    Attributes(TagToken(s), [])
  }

  /** A document type declaration up to its end. */
  function Doctype(s: string): (r: Option<string>)
    ensures r.Some? ==> |r.value| < |s|
    decreases |s|
  {
    var l := TagToken(s);
    if l.token.RightAngle? then Some(l.rest)
    else if l.token.Identifier? || l.token.QuotedString? then Doctype(l.rest)
    else None
  }

  /** The content of cur, up to its end tag or, for the root, to the end of
      the input. None stands for every error. */
  function Content(s: string, cur: Node): (r: Option<(Node, string)>)
    ensures r.Some? ==> |r.value.1| <= |s|
    decreases |s|
  {
    var l := ContentToken(s);
    match l.token
    case CData(text) => Content(l.rest, cur.(cdata := Some(text)))
    case LeftAngle => Child(l.rest, cur)
    case LeftAngleSlash => End(l.rest, cur)
    case LeftAngleExclam =>
      var id := TagToken(l.rest);
      if id.token != Identifier("DOCTYPE") then None
      else (match Doctype(id.rest) case Some(r) => Content(r, cur) case None => None)
    case LeftAngleQ =>
      var id := TagToken(l.rest);
      if !id.token.Identifier? then None
      else
        var tag := TagAttributes(id.rest);
        if tag.token.RightAngleQ? then Content(tag.rest, cur) else None
    case EndOfDocument => if cur.name.None? then Some((cur, l.rest)) else None
    case _ => None
  }

  /** A child element of cur, after its opening angle, and then the rest of
      the content of cur. */
  function Child(s: string, cur: Node): (r: Option<(Node, string)>)
    ensures r.Some? ==> |r.value.1| <= |s|
    decreases |s|
  {
    var id := TagToken(s);
    if !id.token.Identifier? then None
    else
      var tag := TagAttributes(id.rest);
      var child := Node(Some(id.token.id), tag.attrs, None, []);
      if tag.token.RightAngle? then
        match Content(tag.rest, child)
        case Some(c) => Content(c.1, cur.(children := cur.children + [c.0]))
        case None => None
      else if tag.token.RightAngleSlash? then Content(tag.rest, cur.(children := cur.children + [child]))
      else None
  }

  /** The end tag of cur. */
  function End(s: string, cur: Node): (r: Option<(Node, string)>)
    ensures r.Some? ==> |r.value.1| <= |s|
  {
    var id := TagToken(s);
    if !id.token.Identifier? then None
    else
      var close := TagToken(id.rest);
      if close.token.RightAngle? && cur.name == Some(id.token.id) then Some((cur, close.rest)) else None
  }

  function Parse(s: string): Option<Node> {
    match Content(s, Node(None, [], None, []))
    case Some(c) => Some(c.0)
    case None => None
  }
}
