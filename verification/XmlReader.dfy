/** The XML reader: takes its input character by character, and puts one back
    where it looked too far. */
module XmlReader {
  import opened Wrappers
  import opened VarArrays
  import opened CNumbers
  import opened XmlText
  import opened XmlTree
  import opened XmlParser

  datatype State = Initial | InTag | Error

  class Reader {
    const input: string
    var pos: nat
    var state: State

    predicate Valid()
      reads this
    {
      pos <= |input|
    }

    /** The rest of the input. */
    ghost function Rest(): string
      reads this
      requires Valid()
    {
      input[pos..]
    }

    constructor (input: string)
      ensures Valid() && this.input == input && Rest() == input && state == Initial
    {
      this.input, pos, state := input, 0, Initial;
    }

    // --------------------------------------------------------- characters

    method GetC() returns (cc: Option<char>)
      requires Valid()
      modifies this`pos
      ensures Valid()
      ensures cc.None? ==> pos == old(pos) == |input|
      ensures cc.Some? ==> pos == old(pos) + 1 && input[old(pos)] == cc.value
    {
      if pos == |input| {
        return None;
      }
      cc := Some(input[pos]);
      pos := pos + 1;
    }

    lemma Slice(i: nat)
      requires i < |input|
      ensures input[i..] != "" && input[i..][0] == input[i] && input[i..][1..] == input[i + 1..]
    {
    }

    method UngetC()
      requires Valid() && pos > 0
      modifies this`pos
      ensures Valid() && pos == old(pos) - 1
    {
      pos := pos - 1;
    }

    method SkipSpace() returns (w: string)
      requires Valid()
      modifies this`pos
      ensures Valid() && w == Space(old(Rest())) && Rest() == old(Rest())[|w|..]
    {
      w := "";
      ghost var p := pos;
      var cc := GetC();
      while cc.Some?
        invariant Valid() && pos == p + |w| + if cc.Some? then 1 else 0
        invariant if cc.Some? then input[pos - 1] == cc.value else pos == |input|
        invariant w == input[p..p + |w|] && AllSpace(w)
        decreases |input| - pos, cc.Some?
      {
        if !IsSpace(cc.value) {
          UngetC();
          break;
        }
        w := w + [cc.value];
        cc := GetC();
      }
      SpaceEnds(p, |w|);
    }

    lemma SpaceEnds(p: nat, n: nat)
      requires p + n <= |input| && AllSpace(input[p..p + n]) && (p + n < |input| ==> !IsSpace(input[p + n]))
      ensures Space(input[p..]) == input[p..p + n] && input[p..][n..] == input[p + n..]
    {
      assert input[p..] == input[p..p + n] + input[p + n..];
      SpacePrefix(input[p..p + n], input[p + n..]);
    }

    /** Called when the first hyphen of a comment has been read. */
    method DiscardComment() returns (ok: bool)
      requires Valid()
      modifies this
      ensures Valid()
      ensures var s := old(Rest());
        ok <==> s != "" && s[0] == '-' && SkipComment(s[1..], 0).Some?
      ensures ok ==> Some(Rest()) == SkipComment(old(Rest())[1..], 0) && state == Initial
      ensures !ok ==> state == Error
    {
      var cc := GetC();
      if cc != Some('-') {
        state := Error;
        return false;
      }
      ghost var p := pos;
      Slice(p - 1);
      var hyphens: nat := 0;
      cc := GetC();
      while cc.Some?
        invariant Valid() && (if cc.Some? then pos > 0 && input[pos - 1] == cc.value else pos == |input|)
        invariant SkipComment(input[p..], 0) == if cc.Some? then SkipComment(input[pos - 1..], hyphens) else None
        decreases |input| - pos, cc.Some?
      {
        Slice(pos - 1);
        if cc.value == '-' {
          hyphens := hyphens + 1;
        } else {
          if cc.value == '>' && hyphens >= 2 {
            state := Initial;
            return true;
          }
          hyphens := 0;
        }
        cc := GetC();
      }
      state := Error;
      ok := false;
    }

    /** Called when the ampersand has been read. */
    method ExpandEntity() returns (c: Option<char>)
      requires Valid()
      modifies this
      ensures Valid()
      ensures c.Some? ==> Entity(old(Rest())) == Some((c.value, Rest())) && state == old(state)
      ensures c.None? ==> Entity(old(Rest())).None? && state == Error
    {
      var entity := "";
      ghost var p := pos;
      var cc := GetC();
      NamedStep("", ' ', EntityName(input[p..]));
      while cc != Some(';')
        invariant Valid() && state == old(state) && pos >= p
        invariant if cc.Some? then pos > p && input[pos - 1] == cc.value else pos == |input|
        invariant EntityName(input[p..]) == Named(entity, if cc.Some? then EntityName(input[pos - 1..]) else None)
        decreases |input| - pos, cc.Some?
      {
        if cc.None? {
          state := Error;
          return None;
        }
        Slice(pos - 1);
        NamedStep(entity, cc.value, EntityName(input[pos..]));
        if !IsSpace(cc.value) {
          entity := entity + [cc.value];
        }
        cc := GetC();
      }
      Slice(pos - 1);
      assert entity + "" == entity;
      if entity == "" || |entity| > 127 {
        state := Error;
        return None;
      }
      c := Expand(entity);
      if c.None? {
        state := Error;
      }
    }

    // ------------------------------------------------------------- tokens

    /** Text up to the next tag, of which the first character has been read.
        The white space before it is in res. */
    method GetText(first: char, w: string) returns (res: Option<string>)
      requires Valid() && pos > 0 && input[pos - 1] == first && first != '<'
      modifies this
      ensures Valid()
      ensures res.Some? ==> state == old(state) && pos >= old(pos) - 1
      ensures var s := input[old(pos) - 1..];
        if res.Some? then Text(s).Some? && res.value == w + Text(s).value.0 && Rest() == Text(s).value.1
        else Text(s).None? && state == Error
    {
      hide Text, Entity;
      ghost var p := pos - 1;
      var text := w;
      var cc := Some(first);
      NamedStep(w, ' ', Text(input[p..]));
      while cc.Some?
        invariant Valid() && state == old(state) && pos > p
        invariant if cc.Some? then pos > p && input[pos - 1] == cc.value else pos == |input|
        invariant Named(w, Text(input[p..])) == Named(text, Text(input[if cc.Some? then pos - 1 else pos..]))
        decreases |input| - pos, cc.Some?
      {
        TextAt(pos - 1);
        if cc.value == '<' {
          UngetC();
          break;
        } else if cc.value == '&' {
          var c := ExpandEntity();
          if c.None? {
            return None;
          }
          NamedStep(text, c.value, Text(Rest()));
          text := text + [c.value];
        } else {
          NamedStep(text, cc.value, Text(input[pos..]));
          text := text + [cc.value];
        }
        cc := GetC();
      }
      TextAt(pos);
      assert text + "" == text;
      res := Some(text);
    }

    lemma TextAt(i: nat)
      requires i <= |input|
      ensures Text(input[i..]) ==
        if i == |input| || input[i] == '<' then Some(("", input[i..]))
        else if input[i] == '&' then
          (match Entity(input[i + 1..])
           case None => None
           case Some(e) => match Text(e.1) case None => None case Some(t) => Some(([e.0] + t.0, t.1)))
        else match Text(input[i + 1..]) case None => None case Some(t) => Some(([input[i]] + t.0, t.1))
    {
      hide Entity;
    }

    /** The next token between tags. */
    method GetTokenInitial() returns (token: Token)
      requires Valid() && state == Initial
      modifies this
      ensures Valid()
      ensures token == ContentToken(old(Rest())).token
      ensures if token.NoToken? then state == Error else Rest() == ContentToken(old(Rest())).rest
      ensures token.EndOfDocument? || token.CData? ==> state == Initial
      ensures !token.NoToken? && !token.EndOfDocument? && !token.CData? ==> state == InTag && OpensTag(token)
    {
      hide ContentToken, TagStart, Text, Trim, CString;
      ghost var p := pos;
      while true
        invariant Valid() && state == Initial
        invariant ContentToken(input[p..]) == ContentToken(input[pos..])
        decreases |input| - pos
      {
        ghost var q := pos;
        var w := SkipSpace();
        ContentAt(q, w);
        var cc := GetC();
        if cc.None? {
          return EndOfDocument;
        }
        if cc.value != '<' {
          var text := GetText(cc.value, w);
          if text.None? {
            return NoToken;
          }
          var trimmed := TrimEmptyLines(text.value);
          return CData(CString(trimmed));
        }
        var again := false;
        token, again := GetTagStart();
        if !again {
          return;
        }
      }
    }

    lemma ContentAt(p: nat, w: string)
      requires p + |w| <= |input| && Space(input[p..]) == w
      ensures var t := input[p + |w|..];
        ContentToken(input[p..]) ==
          if t == "" then Lexed(EndOfDocument, "")
          else if t[0] == '<' then TagStart(t)
          else match Text(t)
            case Some(x) => Lexed(CData(CString(Trim(w + x.0))), x.1)
            case None => Bad()
    {
      hide TagStart, Text, Trim, CString;
      assert input[p..][|w|..] == input[p + |w|..];
    }

    /** The opening angle has been read. After a comment, look again. */
    method GetTagStart() returns (token: Token, again: bool)
      requires Valid() && state == Initial && pos > 0 && input[pos - 1] == '<'
      modifies this
      ensures Valid()
      ensures var l := TagStart(input[old(pos) - 1..]);
        if again then state == Initial && ContentToken(Rest()) == l && pos > old(pos)
        else token == l.token && (if token.NoToken? then state == Error else OpensTag(token) && state == InTag && Rest() == l.rest)
    {
      hide ContentToken, SkipComment;
      again := false;
      token := LeftAngle;
      ghost var p := pos - 1;
      assert input[p..][1..] == input[pos..];
      state := InTag;
      var cc := GetC();
      if cc.None? {
        return;
      }
      assert input[p..][2..] == input[pos..];
      if cc.value == '/' {
        token := LeftAngleSlash;
      } else if cc.value == '?' {
        token := LeftAngleQ;
      } else if cc.value == '!' {
        token := LeftAngleExclam;
        cc := GetC();
        if cc != Some('-') {
          if cc.Some? {
            UngetC();
          }
          return;
        }
        assert pos < |input| ==> input[p..][4..] == input[pos..][1..];
        again := DiscardComment();
        if !again {
          token := NoToken;
        }
      } else {
        UngetC();
      }
    }

    /** The next token inside a tag. */
    method GetTokenTag() returns (token: Token)
      requires Valid() && state == InTag
      modifies this
      ensures Valid()
      ensures token == TagToken(old(Rest())).token
      ensures if token.NoToken? then state == Error else Rest() == TagToken(old(Rest())).rest
      ensures state == StateAfter(token)
    {
      ghost var p := pos;
      var w := SkipSpace();
      ghost var t := Rest();
      assert t == input[p..][|w|..];
      token := GetTagChar();
    }

    /** The same, once white space has been skipped. */
    method GetTagChar() returns (token: Token)
      requires Valid() && state == InTag
      modifies this
      ensures Valid()
      ensures token == TagTokenAt(old(Rest())).token
      ensures if token.NoToken? then state == Error else Rest() == TagTokenAt(old(Rest())).rest
      ensures state == StateAfter(token)
    {
      hide NameRun, Quoted;
      ghost var p := pos;
      var cc := GetC();
      if cc.None? {
        state := Error;
        return NoToken;
      }
      Slice(p);
      if cc.value == '>' {
        state := Initial;
        return RightAngle;
      } else if cc.value == '=' {
        return Equals;
      } else if NameStart(cc.value) {
        var name := GetName(cc.value);
        return Identifier(name);
      } else if cc.value == '\'' || cc.value == '"' {
        var q := GetQuoted(cc.value);
        return if q.Some? then QuotedString(q.value) else NoToken;
      } else if cc.value == '?' || cc.value == '/' {
        var next := GetC();
        if next == Some('>') {
          assert input[p..][2..] == input[pos..];
          state := Initial;
          return if cc.value == '?' then RightAngleQ else RightAngleSlash;
        }
      }
      state := Error;
      token := NoToken;
    }

    method GetName(first: char) returns (name: string)
      requires Valid() && pos > 0 && input[pos - 1] == first
      modifies this`pos
      ensures Valid()
      ensures name == [first] + NameRun(old(Rest())) && Rest() == input[old(pos) - 1..][|name|..]
    {
      name := [first];
      ghost var p := pos;
      var cc := GetC();
      while cc.Some?
        invariant Valid() && |name| > 0 && pos == p + |name| - 1 + if cc.Some? then 1 else 0
        invariant if cc.Some? then input[pos - 1] == cc.value else pos == |input|
        invariant name == [first] + input[p..p + |name| - 1] && forall c <- input[p..p + |name| - 1] :: NameChar(c)
        decreases |input| - pos, cc.Some?
      {
        if !NameChar(cc.value) {
          UngetC();
          break;
        }
        assert input[p..p + |name|] == input[p..p + |name| - 1] + [cc.value];
        name := name + [cc.value];
        cc := GetC();
      }
      var n := |name| - 1;
      assert input[p..] == input[p..p + n] + input[p + n..];
      NameRunAll(input[p..p + n], input[p + n..]);
      assert input[p - 1..][|name|..] == input[p + n..];
    }

    /** A quoted string, after its opening quote. */
    method GetQuoted(quote: char) returns (q: Option<string>)
      requires Valid()
      modifies this
      ensures Valid()
      ensures q == Quoted(old(Rest()), quote)
      ensures if q.Some? then state == old(state) && Rest() == old(Rest())[|q.value| + 1..] else state == Error
    {
      var text := "";
      ghost var p := pos;
      var cc := GetC();
      while cc != Some(quote)
        invariant Valid() && state == old(state) && pos == p + |text| + if cc.Some? then 1 else 0
        invariant if cc.Some? then input[pos - 1] == cc.value else pos == |input|
        invariant text == input[p..p + |text|] && quote !in text
        decreases |input| - pos, cc.Some?
      {
        if cc.None? {
          NoQuote(input[p..], quote);
          state := Error;
          return None;
        }
        text := text + [cc.value];
        cc := GetC();
      }
      assert input[p..] == text + [quote] + input[pos..];
      QuotedUpTo(text, quote, input[pos..]);
      q := Some(text);
    }

    /** The state decides which kind of token comes next. */
    method GetToken() returns (token: Token)
      requires Valid()
      modifies this
      ensures Valid()
      ensures old(state) == Error ==> token == NoToken && state == Error
      ensures old(state) == Initial ==>
        var l := ContentToken(old(Rest())); token == l.token && (if token.NoToken? then state == Error else Rest() == l.rest)
      ensures old(state) == InTag ==>
        var l := TagToken(old(Rest())); token == l.token && (if token.NoToken? then state == Error else Rest() == l.rest)
      ensures !token.NoToken? ==> state == StateAfter(token)
    {
      match state
      case Error => token := NoToken;
      case Initial => token := GetTokenInitial();
      case InTag => token := GetTokenTag();
    }

    // --------------------------------------------------------------- tags

    method GetIdentifier() returns (id: Option<string>)
      requires Valid() && state == InTag
      modifies this
      ensures Valid()
      ensures var l := TagToken(old(Rest()));
        if id.Some? then l == Lexed(Identifier(id.value), Rest()) && state == InTag else !l.token.Identifier?
    {
      var token := GetToken();
      id := if token.Identifier? then Some(token.id) else None;
    }

    method GetTagAttributes() returns (token: Token, attrs: seq<Var>)
      requires Valid() && state == InTag
      modifies this
      ensures Valid()
      ensures var tag := TagAttributes(old(Rest()));
        token == tag.token && (!token.NoToken? ==> tag == Tag(token, attrs, Rest()) && state == Initial)
    {
      hide TagToken, SetVar;
      attrs := [];
      token := GetToken();
      ghost var s := old(Rest());
      while !(token.RightAngle? || token.RightAngleQ? || token.RightAngleSlash?)
        invariant Valid() && state == StateAfter(token)
        invariant Attributes(TagToken(s), []) == Attributes(if token.NoToken? then Bad() else Lexed(token, Rest()), attrs)
        decreases if token.NoToken? then 0 else |Rest()| + 1
      {
        if !token.Identifier? {
          return NoToken, attrs;
        }
        var name := token.id;
        token := GetToken();
        if !token.Equals? {
          attrs := SetInPlace(attrs, name, None);
          continue;
        }
        token := GetToken();
        if !token.QuotedString? {
          return NoToken, attrs;
        }
        attrs := SetInPlace(attrs, name, Value(token.text));
        token := GetToken();
      }
    }

    method GetDoctype() returns (ok: bool)
      requires Valid() && state == InTag
      modifies this
      ensures Valid()
      ensures ok <==> Doctype(old(Rest())).Some?
      ensures ok ==> Some(Rest()) == Doctype(old(Rest())) && state == Initial
    {
      hide TagToken;
      ghost var s := Rest();
      while true
        invariant Valid() && state == InTag && Doctype(s) == Doctype(Rest())
        decreases |Rest()|
      {
        var token := GetToken();
        if token.RightAngle? {
          return true;
        }
        if !token.Identifier? && !token.QuotedString? {
          return false;
        }
      }
    }

    // ----------------------------------------------------------- elements

    /** The content of the node cur, up to its end. */
    method ProcessElementNested(node: Node) returns (r: Option<Node>)
      requires Valid() && state == Initial
      modifies this
      ensures Valid()
      ensures var c := Content(old(Rest()), node);
        if r.Some? then c == Some((r.value, Rest())) && state == Initial else c.None?
      decreases |Rest()|, 1
    {
      hide ContentToken, TagToken, Content;
      var cur := node;
      while true
        invariant Valid() && state == Initial && |Rest()| <= old(|Rest()|)
        invariant Content(old(Rest()), node) == Content(Rest(), cur)
        decreases |Rest()|
      {
        ghost var s := Rest();
        ContentIs(s, cur);
        var token := GetToken();
        match token {
          case CData(text) =>
            cur := cur.(cdata := Some(text));
          case LeftAngle =>
            var child := ProcessChild(cur);
            if child.None? {
              return None;
            }
            cur := cur.(children := cur.children + [child.value]);
          case LeftAngleSlash =>
            var ok := ProcessEnd(cur);
            return if ok then Some(cur) else None;
          case LeftAngleExclam =>
            var id := GetIdentifier();
            if id != Some("DOCTYPE") {
              return None;
            }
            var ok := GetDoctype();
            if !ok {
              return None;
            }
          case LeftAngleQ =>
            var ok := ProcessPi();
            if !ok {
              return None;
            }
          case EndOfDocument =>
            return if cur.name.None? then Some(cur) else None;
          case _ =>
            return None;
        }
      }
    }

    /** A child element, after its opening angle. */
    method ProcessChild(ghost cur: Node) returns (child: Option<Node>)
      requires Valid() && state == InTag
      modifies this
      ensures Valid()
      ensures child.Some? ==> state == Initial && |Rest()| <= old(|Rest()|)
      ensures child.Some? ==> Child(old(Rest()), cur) == Content(Rest(), cur.(children := cur.children + [child.value]))
      ensures child.None? ==> Child(old(Rest()), cur).None?
      decreases |Rest()|, 0
    {
      hide TagToken, TagAttributes, Content;
      ghost var s := Rest();
      var name := GetIdentifier();
      if name.None? {
        return None;
      }
      var token, attrs := GetTagAttributes();
      if token.RightAngle? {
        child := ProcessElementNested(Node(name, attrs, None, []));
      } else if token.RightAngleSlash? {
        child := Some(Node(name, attrs, None, []));
      } else {
        child := None;
      }
    }

    /** The end tag of cur. */
    method ProcessEnd(cur: Node) returns (ok: bool)
      requires Valid() && state == InTag
      modifies this
      ensures Valid()
      ensures if ok then End(old(Rest()), cur) == Some((cur, Rest())) && state == Initial else End(old(Rest()), cur).None?
    {
      hide TagToken;
      var id := GetIdentifier();
      if id.None? {
        return false;
      }
      var token := GetToken();
      ok := token.RightAngle? && cur.name == id;
    }

    /** A processing instruction is read and dropped. */
    method ProcessPi() returns (ok: bool)
      requires Valid() && state == InTag
      modifies this
      ensures Valid()
      ensures var id := TagToken(old(Rest()));
        ok <==> id.token.Identifier? && TagAttributes(id.rest).token.RightAngleQ?
      ensures ok ==> Rest() == TagAttributes(TagToken(old(Rest())).rest).rest && state == Initial
    {
      hide TagToken, TagAttributes;
      var id := GetIdentifier();
      if id.None? {
        return false;
      }
      var token, attrs := GetTagAttributes();
      ok := token.RightAngleQ?;
    }

    lemma ContentIs(s: string, cur: Node)
      ensures Content(s, cur) ==
        var l := ContentToken(s);
        match l.token
        case CData(text) => Content(l.rest, cur.(cdata := Some(text)))
        case LeftAngle => Child(l.rest, cur)
        case LeftAngleSlash => End(l.rest, cur)
        case LeftAngleExclam =>
          var id := TagToken(l.rest);
          if id.token != Identifier("DOCTYPE") then None
          else (match Doctype(id.rest) case Some(r) => Content(r, cur) case None => None)
        case LeftAngleQ =>
          var id := TagToken(l.rest);
          if !id.token.Identifier? then None
          else
            var tag := TagAttributes(id.rest);
            if tag.token.RightAngleQ? then Content(tag.rest, cur) else None
        case EndOfDocument => if cur.name.None? then Some((cur, l.rest)) else None
        case _ => None
    {
      hide ContentToken, TagToken, TagAttributes, Doctype, Child, End;
    }

    method ProcessDocument() returns (root: Option<Node>)
      requires Valid() && state == Initial && pos == 0
      modifies this
      ensures root == Parse(input)
    {
      assert Rest() == input;
      root := ProcessElementNested(Node(None, [], None, []));
    }
  }

  predicate OpensTag(token: Token) {
    token.LeftAngle? || token.LeftAngleSlash? || token.LeftAngleQ? || token.LeftAngleExclam?
  }

  function StateAfter(token: Token): State {
    match token
    case NoToken => Error
    case EndOfDocument => Initial
    case CData(_) => Initial
    case RightAngle => Initial
    case RightAngleQ => Initial
    case RightAngleSlash => Initial
    case _ => InTag
  }

  /** A name is longer by what was read of it before. */
  function Named(read: string, e: Option<(string, string)>): Option<(string, string)> {
    match e
    case Some(x) => Some((read + x.0, x.1))
    case None => None
  }

  lemma NamedStep(read: string, c: char, e: Option<(string, string)>)
    ensures Named(read, if e.None? then None else Some(([c] + e.value.0, e.value.1))) == Named(read + [c], e)
    ensures Named("", e) == e
  {
    if e.Some? {
      Then(read, [c], e.value.0);
      assert "" + e.value.0 == e.value.0;
    }
  }
}
