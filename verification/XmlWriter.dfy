/** The XML writer: prints a tree piece by piece to its output. */
module XmlWriter {
  import opened Wrappers
  import opened VarArrays
  import opened XmlText
  import opened XmlTree

  class Writer {
    var out: string

    constructor ()
      ensures out == ""
    {
      out := "";
    }

    method Printf(s: string)
      modifies this
      ensures out == old(out) + s
    {
      out := out + s;
    }

    method DocumentOutput(root: Node)
      modifies this
      ensures out == old(out) + Print(root)
    {
      Printf(Declaration());
      NodeOutput(root, 0);
    }

    method NodeOutput(node: Node, indent: nat)
      modifies this
      ensures out == old(out) + Output(node, indent)
      decreases node, 2
    {
      hide Escape, OutputFrom, Layout, AttrsText, Open;
      ghost var o := out;
      if node.name.None? {
        var newline := ContentOutput(node, indent);
        return;
      }
      StartTag(node, indent);
      if node.cdata.None? && node.children == [] {
        Printf("/>\n");
        Last3(o, Spaces(indent), Open(node), "/>\n");
        return;
      }
      Printf(">");
      var newline := ContentOutput(node, indent + 2);
      if newline {
        Printf(Spaces(indent));
      }
      Printf("</" + node.name.value + ">\n");
      OutputParts(node, indent, o, out);
    }

    /** Text and children; says whether they ended the line. */
    method ContentOutput(node: Node, indent: nat) returns (newline: bool)
      modifies this
      ensures newline == Lined(node)
      ensures out == old(out) + (Escape(Layout(node)) + OutputFrom(node, 0, indent))
      decreases node, 1
    {
      hide Escape, OutputFrom, Layout;
      ghost var o := out;
      newline := node.name.None?;
      if node.cdata.Some? {
        newline := CdataOutput(node, newline);
      }
      if node.children != [] {
        if !newline {
          Printf("\n");
        }
        newline := true;
      }
      EscapedLayout(node);
      assert out == o + Escape(Layout(node));
      Children(node, indent);
    }

    method StartTag(node: Node, indent: nat)
      requires node.name.Some?
      modifies this
      ensures out == old(out) + (Spaces(indent) + Open(node))
    {
      hide AttrsText;
      ghost var o := out;
      Printf(Spaces(indent) + "<" + node.name.value);
      assert out + AttrsText(node.attrs) == o + (Spaces(indent) + Open(node));
      var i := 0;
      assert node.attrs[0..] == node.attrs;
      while i < |node.attrs|
        invariant i <= |node.attrs|
        invariant out + AttrsText(node.attrs[i..]) == o + (Spaces(indent) + Open(node))
      {
        var attr := node.attrs[i];
        ghost var before := out;
        if attr.value.Some? {
          Printf(" " + attr.name + "=\"" + attr.value.value + "\"");
        } else {
          Printf(" " + attr.name);
        }
        AttrsFirst(node.attrs, i);
        Then(before, AttrText(attr), AttrsText(node.attrs[i + 1..]));
        i := i + 1;
      }
      AttrsNone(node.attrs);
    }

    /** The text of a node; says whether it ended the line. */
    method CdataOutput(node: Node, newline0: bool) returns (newline: bool)
      requires node.cdata.Some? && newline0 == node.name.None?
      modifies this
      ensures newline == Multiline(node)
      ensures out == old(out) + ((if '\n' in node.cdata.value then "\n" else "") + Escape(node.cdata.value) + LineEnd(node))
    {
      hide Escape;
      var cdata := node.cdata.value;
      newline := newline0;
      if '\n' in cdata {
        Printf("\n");
        newline := true;
      }
      var text := EscapeEntities(cdata);
      Printf(text);
      if newline && cdata != "" && cdata[|cdata| - 1] != '\n' {
        Printf("\n");
      }
    }

    method Children(node: Node, indent: nat)
      modifies this
      ensures out == old(out) + OutputFrom(node, 0, indent)
      decreases node, 0
    {
      hide Output;
      ghost var o := out;
      var i := 0;
      while i < |node.children|
        invariant i <= |node.children|
        invariant out + OutputFrom(node, i, indent) == o + OutputFrom(node, 0, indent)
      {
        ghost var before := out;
        NodeOutput(node.children[i], indent);
        assert out + OutputFrom(node, i + 1, indent) == before + OutputFrom(node, i, indent);
        i := i + 1;
      }
    }

    /** Escape the three special characters, in a buffer that is sized in a
        first pass. The text needs no copy if there are none. */
    method EscapeEntities(cdata: string) returns (text: string)
      ensures text == Escape(cdata)
    {
      var expand := CountExpansion(cdata);
      if expand == 0 {
        return cdata;
      }
      var copy := new char[expand + |cdata| + 1];
      var n: nat := 0;
      var pos: nat := 0;
      while pos < |cdata|
        invariant pos <= |cdata| && n <= copy.Length
        invariant copy[..n] == Escape(cdata[..pos])
      {
        EscapeNext(cdata, pos);
        EscapeGrows(cdata, pos + 1);
        n := CopyInto(copy, n, EscapeChar(cdata[pos]));
        pos := pos + 1;
      }
      assert cdata[..pos] == cdata;
      text := copy[..n];
    }

    /** How much room the replacements take; none if there are none. */
    method CountExpansion(cdata: string) returns (expand: nat)
      ensures |Escape(cdata)| <= |cdata| + expand
      ensures expand == 0 ==> Escape(cdata) == cdata
    {
      expand := 0;
      var pos: nat := 0;
      while pos < |cdata|
        invariant pos <= |cdata|
        invariant |Escape(cdata[..pos])| <= pos + expand
        invariant expand == 0 ==> Escape(cdata[..pos]) == cdata[..pos]
      {
        EscapeNext(cdata, pos);
        assert cdata[..pos + 1] == cdata[..pos] + [cdata[pos]];
        if |EscapeChar(cdata[pos])| > 1 {
          expand := expand + |EscapeChar(cdata[pos])|;
        }
        pos := pos + 1;
      }
      assert cdata[..pos] == cdata;
    }

    method CopyInto(copy: array<char>, n: nat, replace: string) returns (end: nat)
      requires n + |replace| <= copy.Length
      modifies copy
      ensures end == n + |replace| && copy[..end] == old(copy[..n]) + replace
    {
      var k: nat := 0;
      while k < |replace|
        invariant k <= |replace|
        invariant copy[..n + k] == old(copy[..n]) + replace[..k]
      {
        copy[n + k] := replace[k];
        k := k + 1;
        assert copy[..n + k] == copy[..n + k - 1] + [replace[k - 1]];
      }
      end := n + |replace|;
    }
  }

  lemma Last3(o: string, a: string, b: string, c: string)
    ensures o + (a + b) + c == o + (a + b + c)
  {
  }

  lemma AttrsNone(attrs: seq<Var>)
    ensures AttrsText(attrs[|attrs|..]) == ""
  {
  }

  lemma AttrsFirst(attrs: seq<Var>, i: nat)
    requires i < |attrs|
    ensures AttrsText(attrs[i..]) == AttrText(attrs[i]) + AttrsText(attrs[i + 1..])
  {
    assert attrs[i..][1..] == attrs[i + 1..];
  }

  lemma EscapedLayout(n: Node)
    ensures Escape(Layout(n)) ==
      (if n.cdata.Some? then (if '\n' in n.cdata.value then "\n" else "") + Escape(n.cdata.value) + LineEnd(n) else "")
      + (if n.children != [] && !Multiline(n) then "\n" else "")
  {
    var sep := if n.children != [] && !Multiline(n) then "\n" else "";
    EscapeSpace(sep);
    if n.cdata.Some? {
      var p, c, e := if '\n' in n.cdata.value then "\n" else "", n.cdata.value, LineEnd(n);
      EscapeSpace(p);
      EscapeSpace(e);
      EscapeAppend(p, c);
      EscapeAppend(p + c, e);
      EscapeAppend(p + c + e, sep);
    } else {
      EscapeAppend("", sep);
    }
  }

  lemma OutputParts(n: Node, indent: nat, o: string, out: string)
    requires n.name.Some? && !(n.cdata.None? && n.children == [])
    requires out == o + (Spaces(indent) + Open(n)) + ">" + (Escape(Layout(n)) + OutputFrom(n, 0, indent + 2))
      + (if Lined(n) then Spaces(indent) else "") + ("</" + n.name.value + ">\n")
    ensures out == o + Output(n, indent)
  {
    hide Escape, Layout, OutputFrom, Open;
  }

  lemma EscapeNext(s: string, pos: nat)
    requires pos < |s|
    ensures Escape(s[..pos + 1]) == Escape(s[..pos]) + EscapeChar(s[pos])
  {
    assert s[..pos + 1] == s[..pos] + [s[pos]];
    EscapeAppend(s[..pos], [s[pos]]);
    assert Escape([s[pos]]) == EscapeChar(s[pos]) + Escape("");
  }

  lemma EscapeGrows(s: string, pos: nat)
    requires pos <= |s|
    ensures |Escape(s[..pos])| <= |Escape(s)|
  {
    assert s == s[..pos] + s[pos..];
    EscapeAppend(s[..pos], s[pos..]);
  }
}
