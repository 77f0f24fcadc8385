/** Which variants that conform to a schema type survive when they are written
    as an XML document and read from its text. */
module SchemaText {
  import opened Wrappers
  import opened VarArrays
  import opened CNumbers
  import opened XmlText
  import opened XmlTree
  import opened XmlParser
  import opened Schema
  import X = XmlRoundTrip
  import S = SchemaRoundTrip

  function Document(n: Node): Node {
    Node(None, [], None, [n])
  }

  /** Convert a variant, print the document, parse the text, and convert the
      element in it. */
  function Back(v: Variant, t: Type, name: string): Option<Variant> {
    match Deserialize(v, t, Leaf(name))
    case None => None
    case Some(n) => Read(Print(Document(n)), t)
  }

  function Read(text: string, t: Type): Option<Variant> {
    match Parse(text)
    case None => None
    case Some(root) => if root.children == [] then None else Serialize(root.children[0], t)
  }

  lemma ReadPrinted(n: Node, t: Type)
    requires LegalElement(n)
    ensures Read(Print(Document(n)), t) == Serialize(Norm(n), t)
  {
    assert LegalRoot(Document(n));
    X.ReadsBack(Document(n));
    hide Norm, Serialize, Print, Parse;
    NormDocument(n);
  }

  lemma NormDocument(n: Node)
    ensures Norm(Document(n)) == Document(Norm(n))
  {
    assert NormAttrs([]) == [];
    assert Norm(Document(n)).children == [Norm(n)];
  }

  // ------------------------------------------------------- what text can hold

  /** Text that is not white space only, with no empty lines around it, and with
      a line end after several lines. */
  predicate TextKept(s: string) {
    !AllSpace(s) && Trim(s) == s && ('\n' in s ==> IsNewline(s[|s| - 1]))
  }

  /** A number of an enumeration passes through 32 bits, and what is left of its
      printed text stands for the same number. */
  predicate EnumKept(kind: Kind, m: IntMap, value: int) {
    var u := value % UINT;
    var s := NormText(EnumText(u, m), '\n' in EnumText(u, m));
    && (Wide(kind) ==> 0 <= value < UINT)
    && s.Some? && ParseEnum(s.value, m).Some? && Cut(kind, ParseEnum(s.value, m).value) == Cut(kind, u)
  }

  /** What survives in a text: strings that are their own trimmed form, except
      for object paths outside arrays; the kinds of unions if they are not
      empty; and the rest as in an XML tree. */
  predicate Kept(v: Variant, t: Type)
    requires Conforms(v, t)
    decreases t, 1
  {
    match t
    case ScalarType(kind, bitmap, enums) =>
      if kind.Flag? then v.value == 0
      else if bitmap.Some? then BitsKept(kind, bitmap.value, v.value)
      else if enums.Some? then EnumKept(kind, enums.value, v.value)
      else v.Text? ==> kind.Str? && TextKept(v.text)
    case UnionType(d, cases) =>
      var kind := v.members[0].text;
      && kind != ""
      && (|v.members| == 2 ==>
           (var ty := cases[FindType(cases, kind)].ty;
            && (Leaves(v.members[1], ty, d).None? || Leaves(v.members[1], ty, d) == Some(kind))
            && Kept(v.members[1], ty)))
    case ArrayType(element, _) =>
      if element.ScalarType? then forall x <- v.items :: ItemKept(x, v.kind)
      else forall x <- v.dicts :: Kept(x, element)
    case DictType(_, _) => forall e <- v.entries :: EntryKept(e, t)
    case _ => true
  }

  predicate ItemKept(x: Variant, kind: Kind) {
    ItemKind(kind) && (x.Text? ==> TextKept(x.text))
  }

  predicate EntryKept(e: Entry, t: Type)
    requires t.DictType? && EntryConforms(e, t)
    decreases t, 0
  {
    Kept(e.datum, t.children[FindType(t.children, e.key)].ty)
  }

  // ---------------------------------------------------------------- scalars

  lemma TextComesBack(s: string)
    ensures NormText(s, '\n' in s) == Some(s) <==> TextKept(s)
  {
    X.NormalText(s, '\n' in s);
  }

  /** Printed numbers have no white space. */
  lemma SolidText(s: string)
    requires s != "" && forall c <- s :: !IsSpace(c)
    ensures NormText(s, '\n' in s) == Some(s)
  {
    assert s[0] in s && s[|s| - 1] in s;
    assert '\n' !in s;
    assert forall c <- s :: !IsBlank(c);
    TrimSolid(s);
  }

  lemma TrimSolid(s: string)
    requires s != "" && forall c <- s :: !IsBlank(c)
    ensures Trim(s) == s
  {
    assert s[0] in s && s[|s| - 1] in s;
    assert s[..|s|] == s && s[0..] == s;
  }

  lemma SolidNumber(v: Variant, kind: Kind)
    requires NumValue(v, kind)
    ensures Sprint(v).Some? && Sprint(v).value != "" && forall c <- Sprint(v).value :: !IsSpace(c)
    ensures PrintItem(v).Some? ==> PrintItem(v).value != "" && forall c <- PrintItem(v).value :: !IsSpace(c)
  {
    if kind.Byte? {
      SolidFs(6);
    }
  }

  lemma {:induction false} SolidFs(n: nat)
    ensures forall c <- Fs(n) :: c == 'f'
  {
    if n > 0 {
      SolidFs(n - 1);
    }
  }

  /** The text of an element without children, after printing and reading. */
  lemma NormLeaf(n: Node)
    requires n.name.Some? && n.children == []
    ensures Norm(n).name == n.name && Norm(n).children == []
    ensures Norm(n).cdata == if n.cdata.None? then None else NormText(n.cdata.value, '\n' in n.cdata.value)
  {
  }

  /** Children without text and attributes stay as they are. */
  lemma {:induction false} NormBitNodes(u: nat, m: IntMap, b: nat)
    requires b <= 32
    ensures forall c <- BitNodes(u, m, b) :: Norm(c) == c
    decreases 32 - b
  {
    if b < 32 {
      NormBitNodes(u, m, b + 1);
      if FormatMapped(b, m).Some? {
        NormBlank(FormatMapped(b, m).value);
      }
    }
  }

  lemma NormBlank(name: string)
    ensures Norm(Leaf(name)) == Leaf(name)
  {
    assert NormAttrs([]) == [];
    assert Norm(Leaf(name)).children == [];
  }

  lemma NormKeeps(n: Node)
    requires forall c <- n.children :: Norm(c) == c
    ensures Norm(n).children == n.children && Norm(n).name == n.name
  {
    assert |Norm(n).children| == |n.children|;
    assert forall i :: 0 <= i < |n.children| ==> n.children[i] in n.children;
  }

  lemma EnumBack(v: Variant, kind: Kind, m: IntMap, node: Node)
    requires NumValue(v, kind) && node.name.Some? && node.children == []
    ensures var n := DeserializeScalar(v, kind, None, Some(m), node);
      n.Some? && (SerializeScalar(Norm(n.value), kind, None, Some(m)) == Some(v) <==> EnumKept(kind, m, v.value))
  {
    var n := DeserializeScalar(v, kind, None, Some(m), node).value;
    var s := EnumText(v.value % UINT, m);
    NormLeaf(n);
    hide NormText, ParseEnum, Norm, Cut, FormatMapped, Decimal;
    assert n.cdata == Some(s);
    var t := NormText(s, '\n' in s);
    if t.Some? && ParseEnum(t.value, m).Some? {
      ParsedUint(t.value, m);
      S.CutUintIff(kind, v.value, ParseEnum(t.value, m).value);
    }
  }

  lemma ParsedUint(s: string, m: IntMap)
    requires ParseEnum(s, m).Some?
    ensures ParseEnum(s, m).value < UINT
  {
  }

  lemma BitmapBack(v: Variant, kind: Kind, m: IntMap, enums: Option<IntMap>, node: Node)
    requires NumValue(v, kind) && node.children == []
    ensures var n := DeserializeScalar(v, kind, Some(m), enums, node);
      n.Some? && (SerializeScalar(Norm(n.value), kind, Some(m), enums) == Some(v) <==> BitsKept(kind, m, v.value))
  {
    S.BitmapRoundTrip(v, kind, m, enums, node);
    hide BitsKept, Bits, Norm, BitNodes, Cut;
    var n := DeserializeScalar(v, kind, Some(m), enums, node).value;
    NormBitNodes(v.value % ULONG, m, 0);
    assert n.children == BitNodes(v.value % ULONG, m, 0);
    NormKeeps(n);
  }

  lemma PlainBack(v: Variant, kind: Kind, node: Node)
    requires !kind.Flag? && ScalarValue(v, kind) && node.name.Some? && node.children == []
    ensures var n := DeserializeScalar(v, kind, None, None, node);
      n.Some? && (SerializeScalar(Norm(n.value), kind, None, None) == Some(v) <==> (v.Text? ==> kind.Str? && TextKept(v.text)))
  {
    S.PlainRoundTrip(v, kind);
    var n, s := DeserializeScalar(v, kind, None, None, node).value, Sprint(v).value;
    NormLeaf(n);
    TextComesBack(s);
    if v.Num? {
      SolidNumber(v, kind);
      SolidText(s);
      hide Norm, NormText, TextKept, Sprint, ParseScalar;
    } else {
      hide Norm, NormText, TextKept;
    }
  }

  lemma ScalarBack(v: Variant, kind: Kind, bitmap: Option<IntMap>, enums: Option<IntMap>, node: Node)
    requires Conforms(v, ScalarType(kind, bitmap, enums)) && node.name.Some? && node.children == []
    ensures var n := DeserializeScalar(v, kind, bitmap, enums, node);
      n.Some? && (SerializeScalar(Norm(n.value), kind, bitmap, enums) == Some(v) <==> Kept(v, ScalarType(kind, bitmap, enums)))
  {
    if !kind.Flag? {
      if bitmap.Some? {
        BitmapBack(v, kind, bitmap.value, enums, node);
      } else if enums.Some? {
        EnumBack(v, kind, enums.value, node);
      } else {
        PlainBack(v, kind, node);
      }
    }
    hide BitsKept, EnumKept, TextKept, Norm, SerializeScalar, DeserializeScalar;
    if kind.Flag? {
      FlagBack(v, bitmap, enums, node);
    }
  }

  lemma FlagBack(v: Variant, bitmap: Option<IntMap>, enums: Option<IntMap>, node: Node)
    requires NumValue(v, Byte)
    ensures DeserializeScalar(v, Flag, bitmap, enums, node).Some?
    ensures forall n :: SerializeScalar(n, Flag, bitmap, enums) == Some(v) <==> v.value == 0
  {
  }

  // ----------------------------------------------------------------- arrays

  function NormAll(cs: seq<Node>): seq<Node> {
    seq(|cs|, i requires 0 <= i < |cs| => Norm(cs[i]))
  }

  lemma NormAllFirst(c: Node, cs: seq<Node>)
    ensures NormAll([c] + cs) == [Norm(c)] + NormAll(cs)
  {
    assert forall i :: 0 <= i < |cs| ==> ([c] + cs)[i + 1] == cs[i];
  }

  lemma ItemBack(x: Variant, kind: Kind, name: string)
    requires ScalarValue(x, kind) && !kind.Flag?
    ensures PrintItem(x).Some? ==>
      (var c := Norm(Leaf(name).(cdata := PrintItem(x)));
       (c.cdata.Some? && ParseItem(kind, c.cdata.value) == Some(x)) <==> ItemKept(x, kind))
    ensures PrintItem(x).None? ==> !ItemKept(x, kind)
  {
    S.ItemRoundTrip(x, kind);
    if PrintItem(x).Some? {
      var s := PrintItem(x).value;
      NormLeaf(Leaf(name).(cdata := Some(s)));
      TextComesBack(s);
      if x.Num? {
        SolidNumber(x, kind);
        SolidText(s);
        hide Norm, NormText, TextKept, ParseItem, PrintItem;
      } else {
        hide Norm, NormText, TextKept;
      }
    }
  }

  lemma {:induction false} ItemsBack(items: seq<Variant>, kind: Kind, name: string)
    requires !kind.Flag? && forall x <- items :: ScalarValue(x, kind)
    ensures var cs := ItemNodes(items, name);
      (cs.Some? && ParseItems(NormAll(cs.value), kind) == Some(items)) <==> forall x <- items :: ItemKept(x, kind)
  {
    if items != [] {
      assert items[0] in items && forall x <- items[1..] :: x in items;
      ItemBack(items[0], kind, name);
      ItemsBack(items[1..], kind, name);
      hide *;
      ItemsKeptFirst(items, kind);
      if PrintItem(items[0]).Some? && ItemNodes(items[1..], name).Some? {
        ItemsJoin(items, kind, name);
      } else {
        NoItemNodes(items, name);
      }
    }
  }

  lemma ItemsKeptFirst(items: seq<Variant>, kind: Kind)
    requires items != []
    ensures (forall x <- items :: ItemKept(x, kind)) <==> ItemKept(items[0], kind) && forall x <- items[1..] :: ItemKept(x, kind)
  {
    hide ItemKept;
    assert items == [items[0]] + items[1..];
  }

  lemma NoItemNodes(items: seq<Variant>, name: string)
    requires items != [] && (PrintItem(items[0]).None? || ItemNodes(items[1..], name).None?)
    ensures ItemNodes(items, name).None?
  {
  }

  lemma ItemsJoin(items: seq<Variant>, kind: Kind, name: string)
    requires items != [] && PrintItem(items[0]).Some? && ItemNodes(items[1..], name).Some?
    ensures ItemNodes(items, name).Some?
    ensures var c, rest := Norm(Leaf(name).(cdata := PrintItem(items[0]))), NormAll(ItemNodes(items[1..], name).value);
      ParseItems(NormAll(ItemNodes(items, name).value), kind) == Some(items)
      <==> c.cdata.Some? && ParseItem(kind, c.cdata.value) == Some(items[0]) && ParseItems(rest, kind) == Some(items[1..])
  {
    var c, rest := Leaf(name).(cdata := PrintItem(items[0])), ItemNodes(items[1..], name).value;
    hide Norm, PrintItem, ParseItem;
    NormAllFirst(c, rest);
    assert ([Norm(c)] + NormAll(rest))[1..] == NormAll(rest);
    if Norm(c).cdata.Some? {
      S.ParsedFirst(ParseItem(kind, Norm(c).cdata.value), ParseItems(NormAll(rest), kind), items);
    }
  }

  // ------------------------------------------------------------- everything

  lemma {:induction false} NormLookup(attrs: seq<Var>, name: string)
    ensures Lookup(NormAttrs(attrs), name)
      == match Lookup(attrs, name) case Some(Some(s)) => Some(if s == "" then None else Some(s)) case other => other
  {
    if attrs != [] {
      assert NormAttrs(attrs)[1..] == NormAttrs(attrs[1..]);
      NormLookup(attrs[1..], name);
    }
  }

  /** The outcome of the way through a text. */
  ghost predicate ComesBack(v: Variant, t: Type, n: Option<Node>)
    requires Conforms(v, t)
  {
    (n.Some? && Serialize(Norm(n.value), t) == Some(v)) <==> Kept(v, t)
  }

  lemma {:induction false} BackFrom(v: Variant, t: Type, node: Node)
    requires Conforms(v, t) && node.name.Some? && node.children == []
    ensures ComesBack(v, t, Deserialize(v, t, node))
    decreases t, 1, 0
  {
    match t
    case VoidType =>
    case ScalarType(kind, bitmap, enums) =>
      ScalarBack(v, kind, bitmap, enums, node);
      hide DeserializeScalar, SerializeScalar, Norm, Kept;
    case UnionType(_, _) => UnionBack(v, t, node);
    case ArrayType(element, name) =>
      if element.ScalarType? {
        ArrayBack(v, t, node);
      } else {
        var added := DictsBack(v.dicts, t, node);
        if added.Some? {
          assert [] + added.value == added.value;
          NormChildren(node.(children := added.value));
          hide Norm;
        }
      }
    case DictType(_, _) =>
      var added := EntriesBack(v.entries, t, node);
      if added.Some? {
        assert [] + added.value == added.value;
        NormChildren(node.(children := added.value));
        hide Norm;
      }
  }

  lemma ArrayBack(v: Variant, t: Type, node: Node)
    requires Conforms(v, t) && t.ArrayType? && t.element.ScalarType? && node.children == []
    ensures ComesBack(v, t, Deserialize(v, t, node))
  {
    ItemsBack(v.items, v.kind, t.elementName);
    hide ItemNodes, ParseItems, ItemKept;
    var cs := ItemNodes(v.items, t.elementName);
    if cs.Some? {
      assert [] + cs.value == cs.value;
      NormChildren(node.(children := cs.value));
      hide Norm;
    }
  }

  lemma NormChildren(n: Node)
    ensures Norm(n).name == n.name && Norm(n).attrs == NormAttrs(n.attrs) && Norm(n).children == NormAll(n.children)
  {
  }

  lemma UnionBack(v: Variant, t: Type, node: Node)
    requires Conforms(v, t) && t.UnionType? && node.name.Some? && node.children == []
    ensures ComesBack(v, t, Deserialize(v, t, node))
    decreases t, 0, 0
  {
    var d, kind := t.discriminant, v.members[0].text;
    var ct := t.cases[FindType(t.cases, kind)].ty;
    var tagged := node.(attrs := SetVar(node.attrs, d, Some(kind)));
    SetVarLookup(node.attrs, d, Some(kind), d);
    if |v.members| == 2 {
      S.RoundTripInto(v.members[1], ct, tagged);
      BackFrom(v.members[1], ct, tagged);
      var n := Deserialize(v.members[1], ct, tagged);
      if n.Some? {
        hide Serialize, Kept, Norm, Deserialize;
        UnionJoin(v, t, n.value);
      }
    } else {
      TagBack(tagged, d);
      assert v.members == [v.members[0]];
    }
  }

  lemma UnionJoin(v: Variant, t: Type, n: Node)
    requires Conforms(v, t) && t.UnionType? && |v.members| == 2
    requires var k := FindType(t.cases, v.members[0].text);
      ComesBack(v.members[1], t.cases[k].ty, Some(n))
    requires var ct := t.cases[FindType(t.cases, v.members[0].text)].ty;
      Lookup(n.attrs, t.discriminant)
      == Some(if Leaves(v.members[1], ct, t.discriminant).Some? then Leaves(v.members[1], ct, t.discriminant) else Some(v.members[0].text))
    ensures ComesBack(v, t, Some(n))
  {
    TagBack(n, t.discriminant);
    assert v.members == [v.members[0], v.members[1]];
    hide Norm, Leaves;
  }

  lemma TagBack(n: Node, d: string)
    ensures Lookup(Norm(n).attrs, d)
      == match Lookup(n.attrs, d) case Some(Some(s)) => Some(if s == "" then None else Some(s)) case other => other
  {
    NormLookup(n.attrs, d);
    NormChildren(n);
  }

  predicate AllKept(ds: seq<Variant>, t: Type)
    requires forall x <- ds :: Conforms(x, t)
  {
    forall x <- ds :: Kept(x, t)
  }

  lemma KeptFirst(ds: seq<Variant>, t: Type)
    requires ds != [] && forall x <- ds :: Conforms(x, t)
    ensures AllKept(ds, t) <==> Kept(ds[0], t) && AllKept(ds[1..], t)
  {
    hide Kept, Conforms;
    assert ds == [ds[0]] + ds[1..];
  }

  /** The children made for dicts, and what they come back as. */
  ghost predicate DictsComeBack(ds: seq<Variant>, t: Type, node: Node, added: Option<seq<Node>>)
    requires t.ArrayType? && forall x <- ds :: Conforms(x, t.element)
  {
    match added
    case None => DeserializeDicts(ds, t, node).None? && !AllKept(ds, t.element)
    case Some(cs) =>
      && DeserializeDicts(ds, t, node) == Some(node.(children := node.children + cs))
      && (SerializeDicts(NormAll(cs), t) == Some(ds) <==> AllKept(ds, t.element))
  }

  lemma {:induction false} DictsBack(ds: seq<Variant>, t: Type, node: Node) returns (added: Option<seq<Node>>)
    requires t.ArrayType? && !t.element.ScalarType? && forall x <- ds :: Conforms(x, t.element)
    ensures DictsComeBack(ds, t, node, added)
    decreases t, 0, |ds|
  {
    if ds == [] {
      assert node.children + [] == node.children;
      return Some([]);
    }
    assert ds[0] in ds && forall x <- ds[1..] :: x in ds;
    BackFrom(ds[0], t.element, Leaf(t.elementName));
    var c := Deserialize(ds[0], t.element, Leaf(t.elementName));
    if c.None? {
      KeptFirst(ds, t.element);
      return None;
    }
    var rest := DictsBack(ds[1..], t, node.(children := node.children + [c.value]));
    hide *;
    added := DictsJoin(ds, t, node, c.value, rest);
  }

  lemma DictsJoin(ds: seq<Variant>, t: Type, node: Node, c: Node, rest: Option<seq<Node>>) returns (added: Option<seq<Node>>)
    requires t.ArrayType? && ds != [] && (forall x <- ds :: Conforms(x, t.element)) && Conforms(ds[0], t.element)
    requires Deserialize(ds[0], t.element, Leaf(t.elementName)) == Some(c) && ComesBack(ds[0], t.element, Some(c))
    requires DictsComeBack(ds[1..], t, node.(children := node.children + [c]), rest)
    ensures DictsComeBack(ds, t, node, added)
  {
    hide Conforms, Kept, Deserialize, Serialize, AllKept, Norm;
    KeptFirst(ds, t.element);
    if rest.None? {
      return None;
    }
    added := Some([c] + rest.value);
    assert node.children + [c] + rest.value == node.children + added.value;
    NormAllFirst(c, rest.value);
    assert ([Norm(c)] + NormAll(rest.value))[1..] == NormAll(rest.value);
    S.ParsedFirst(Serialize(Norm(c), t.element), SerializeDicts(NormAll(rest.value), t), ds);
  }

  predicate AllEntriesKept(es: seq<Entry>, t: Type)
    requires t.DictType? && forall e <- es :: EntryConforms(e, t)
  {
    forall e <- es :: EntryKept(e, t)
  }

  lemma EntriesKeptFirst(es: seq<Entry>, t: Type)
    requires t.DictType? && es != [] && forall e <- es :: EntryConforms(e, t)
    ensures EntryConforms(es[0], t) && forall e <- es[1..] :: EntryConforms(e, t)
    ensures AllEntriesKept(es, t)
      <==> Kept(es[0].datum, t.children[FindType(t.children, es[0].key)].ty) && AllEntriesKept(es[1..], t)
  {
    hide Kept, Conforms;
    assert es == [es[0]] + es[1..];
    assert es[0] in es && forall e <- es[1..] :: e in es;
    assert EntryKept(es[0], t) <==> Kept(es[0].datum, t.children[FindType(t.children, es[0].key)].ty);
  }

  /** The children made for the entries of a dict, and what they come back as. */
  ghost predicate EntriesComeBack(es: seq<Entry>, t: Type, node: Node, added: Option<seq<Node>>)
    requires t.DictType? && forall e <- es :: EntryConforms(e, t)
  {
    match added
    case None => DeserializeEntries(es, t, node).None? && !AllEntriesKept(es, t)
    case Some(cs) =>
      && DeserializeEntries(es, t, node) == Some(node.(children := node.children + cs))
      && (SerializeEntries(NormAll(cs), t) == Some(es) <==> AllEntriesKept(es, t))
  }

  lemma {:induction false} EntriesBack(es: seq<Entry>, t: Type, node: Node) returns (added: Option<seq<Node>>)
    requires t.DictType? && forall e <- es :: EntryConforms(e, t)
    ensures EntriesComeBack(es, t, node, added)
    decreases t, 0, |es|
  {
    if es == [] {
      assert node.children + [] == node.children;
      return Some([]);
    }
    EntriesKeptFirst(es, t);
    var ty := t.children[FindType(t.children, es[0].key)].ty;
    assert Conforms(es[0].datum, ty);
    BackFrom(es[0].datum, ty, Leaf(es[0].key));
    S.RoundTripInto(es[0].datum, ty, Leaf(es[0].key));
    S.DeserializeFirst(es, t, node);
    var c := Deserialize(es[0].datum, ty, Leaf(es[0].key));
    if c.None? {
      return None;
    }
    var rest := EntriesBack(es[1..], t, node.(children := node.children + [c.value]));
    hide *;
    added := EntriesJoin(es, t, node, c.value, rest);
  }

  lemma EntriesJoin(es: seq<Entry>, t: Type, node: Node, c: Node, rest: Option<seq<Node>>) returns (added: Option<seq<Node>>)
    requires t.DictType? && es != [] && (forall e <- es :: EntryConforms(e, t)) && EntryConforms(es[0], t)
    requires var ty := t.children[FindType(t.children, es[0].key)].ty;
      && Deserialize(es[0].datum, ty, Leaf(es[0].key)) == Some(c) && c.name == Some(es[0].key)
      && ComesBack(es[0].datum, ty, Some(c))
    requires EntriesComeBack(es[1..], t, node.(children := node.children + [c]), rest)
    ensures EntriesComeBack(es, t, node, added)
  {
    EntriesKeptFirst(es, t);
    S.DeserializeFirst(es, t, node);
    hide Conforms, EntryConforms, Kept, Deserialize, Serialize, FindType, AllEntriesKept, SerializeEntries, DeserializeEntries, Norm;
    if rest.None? {
      return None;
    }
    added := Some([c] + rest.value);
    assert node.children + [c] + rest.value == node.children + added.value;
    NormAllFirst(c, rest.value);
    NormChildren(c);
    S.SerializeFirst(Norm(c), NormAll(rest.value), t, es[0].key);
    S.EntryParsed(es[0].key, Serialize(Norm(c), t.children[FindType(t.children, es[0].key)].ty), SerializeEntries(NormAll(rest.value), t), es);
  }

  // ----------------------------------------------------- what makes XML legal

  predicate ElementName(s: string) { Name(s) && s[0] != '!' }

  predicate QuotableText(s: string) {
    forall c <- s :: c != '"' && 0 < c as int < 256
  }

  /** The names and texts that a conforming variant puts into XML are such as the
      writer takes and the reader knows. */
  predicate Writable(v: Variant, t: Type)
    requires Conforms(v, t)
    decreases t, 1
  {
    match t
    case ScalarType(kind, bitmap, enums) =>
      && (bitmap.Some? ==> forall m <- bitmap.value :: ElementName(m.name))
      && (enums.Some? ==> forall m <- enums.value :: Ascii(m.name))
      && (v.Text? ==> Ascii(v.text))
    case UnionType(d, cases) =>
      var kind := v.members[0].text;
      && Name(d) && QuotableText(kind)
      && (|v.members| == 2 ==> Writable(v.members[1], cases[FindType(cases, kind)].ty))
    case ArrayType(element, name) =>
      && ElementName(name)
      && if element.ScalarType? then forall x <- v.items :: x.Text? ==> Ascii(x.text)
         else forall x <- v.dicts :: Writable(x, element)
    case DictType(_, _) => forall e <- v.entries :: EntryWritable(e, t)
    case _ => true
  }

  predicate EntryWritable(e: Entry, t: Type)
    requires t.DictType? && EntryConforms(e, t)
    decreases t, 0
  {
    ElementName(e.key) && Writable(e.datum, t.children[FindType(t.children, e.key)].ty)
  }

  lemma LegalLeaf(name: string)
    requires ElementName(name)
    ensures LegalElement(Leaf(name))
  {
  }

  lemma {:induction false} LegalBitNodes(u: nat, m: IntMap, b: nat)
    requires b <= 32 && forall x <- m :: ElementName(x.name)
    ensures forall c <- BitNodes(u, m, b) :: LegalElement(c)
    decreases 32 - b
  {
    if b < 32 {
      LegalBitNodes(u, m, b + 1);
      if FormatMapped(b, m).Some? {
        OneOfTheNames(b, m);
        LegalLeaf(FormatMapped(b, m).value);
      }
    }
  }

  lemma {:induction false} OneOfTheNames(u: nat, m: IntMap)
    requires FormatMapped(u, m).Some?
    ensures exists x <- m :: x.name == FormatMapped(u, m).value
  {
    if m[0].value == u {
      assert m[0] in m;
    } else {
      OneOfTheNames(u, m[1..]);
      assert forall x <- m[1..] :: x in m;
    }
  }

  lemma AsciiNumber(v: Variant, kind: Kind)
    requires NumValue(v, kind)
    ensures Sprint(v).Some? ==> Ascii(Sprint(v).value)
    ensures PrintItem(v).Some? ==> Ascii(PrintItem(v).value)
  {
    if kind.Byte? {
      SolidFs(6);
      AsciiHex(v.value % 0x100);
    }
  }

  lemma AsciiHex(b: nat)
    requires b < 256
    ensures Ascii([DigitChar(b / 16), DigitChar(b % 16)])
  {
  }

  lemma LegalScalar(v: Variant, t: Type, node: Node)
    requires t.ScalarType? && Conforms(v, t) && Writable(v, t)
    requires LegalElement(node) && node.children == []
    ensures Deserialize(v, t, node).Some? ==> LegalElement(Deserialize(v, t, node).value)
  {
    var kind := t.kind;
    if !kind.Flag? {
      if t.bitmap.Some? {
        LegalBitNodes(v.value % ULONG, t.bitmap.value, 0);
        hide BitNodes;
      } else if t.enums.Some? {
        if FormatMapped(v.value % UINT, t.enums.value).Some? {
          OneOfTheNames(v.value % UINT, t.enums.value);
        }
        hide FormatMapped, Decimal;
      } else if v.Num? {
        AsciiNumber(v, kind);
        hide Sprint;
      }
    }
  }

  lemma {:induction false} LegalItems(items: seq<Variant>, kind: Kind, name: string)
    requires ElementName(name) && forall x <- items :: ScalarValue(x, kind) && (x.Text? ==> Ascii(x.text))
    ensures ItemNodes(items, name).Some? ==> forall c <- ItemNodes(items, name).value :: LegalElement(c)
  {
    if items != [] {
      assert items[0] in items && forall x <- items[1..] :: x in items;
      LegalItems(items[1..], kind, name);
      LegalLeaf(name);
      if items[0].Num? {
        AsciiNumber(items[0], items[0].kind);
      }
    }
  }

  lemma LegalTag(node: Node, d: string, kind: string)
    requires LegalElement(node) && Name(d) && QuotableText(kind)
    ensures LegalElement(node.(attrs := SetVar(node.attrs, d, Some(kind))))
  {
    SetVarDistinct(node.attrs, d, Some(kind));
    LegalSet(node.attrs, Var(d, Some(kind)));
  }

  lemma {:induction false} LegalSet(attrs: seq<Var>, a: Var)
    requires LegalAttr(a) && forall b <- attrs :: LegalAttr(b)
    ensures forall b <- SetVar(attrs, a.name, a.value) :: LegalAttr(b)
  {
    if attrs != [] && attrs[0].name != a.name {
      LegalSet(attrs[1..], a);
    }
  }

  lemma {:induction false} LegalXml(v: Variant, t: Type, node: Node)
    requires Conforms(v, t) && Writable(v, t) && LegalElement(node) && node.children == []
    ensures Deserialize(v, t, node).Some? ==> LegalElement(Deserialize(v, t, node).value)
    decreases t, 1, 0
  {
    match t
    case VoidType =>
    case ScalarType(_, _, _) => LegalScalar(v, t, node);
    case UnionType(d, cases) =>
      var kind := v.members[0].text;
      LegalTag(node, d, kind);
      if |v.members| == 2 {
        LegalXml(v.members[1], cases[FindType(cases, kind)].ty, node.(attrs := SetVar(node.attrs, d, Some(kind))));
      }
    case ArrayType(element, name) =>
      if element.ScalarType? {
        LegalItems(v.items, v.kind, name);
      } else {
        LegalDicts(v.dicts, t, node);
      }
    case DictType(_, _) => LegalEntries(v.entries, t, node);
  }

  lemma MoreChildren(n: Node, c: Node)
    requires LegalElement(n) && LegalElement(c)
    ensures LegalElement(n.(children := n.children + [c]))
  {
  }

  lemma {:induction false} LegalDicts(ds: seq<Variant>, t: Type, node: Node)
    requires t.ArrayType? && ElementName(t.elementName) && LegalElement(node)
    requires forall x <- ds :: Conforms(x, t.element) && Writable(x, t.element)
    ensures DeserializeDicts(ds, t, node).Some? ==> LegalElement(DeserializeDicts(ds, t, node).value)
    decreases t, 0, |ds|
  {
    if ds != [] {
      assert ds[0] in ds && forall x <- ds[1..] :: x in ds;
      LegalLeaf(t.elementName);
      LegalXml(ds[0], t.element, Leaf(t.elementName));
      var c := Deserialize(ds[0], t.element, Leaf(t.elementName));
      if c.Some? {
        MoreChildren(node, c.value);
        LegalDicts(ds[1..], t, node.(children := node.children + [c.value]));
      }
    }
  }

  lemma {:induction false} LegalEntries(es: seq<Entry>, t: Type, node: Node)
    requires t.DictType? && LegalElement(node)
    requires forall e <- es :: EntryConforms(e, t) && EntryWritable(e, t)
    ensures DeserializeEntries(es, t, node).Some? ==> LegalElement(DeserializeEntries(es, t, node).value)
    decreases t, 0, |es|
  {
    if es != [] {
      assert es[0] in es && forall e <- es[1..] :: e in es;
      var e, ty := es[0], t.children[FindType(t.children, es[0].key)].ty;
      assert EntryConforms(e, t) && EntryWritable(e, t);
      LegalLeaf(e.key);
      LegalXml(e.datum, ty, Leaf(e.key));
      S.DeserializeFirst(es, t, node);
      var c := Deserialize(e.datum, ty, Leaf(e.key));
      if c.Some? {
        MoreChildren(node, c.value);
        LegalEntries(es[1..], t, node.(children := node.children + [c.value]));
      }
    }
  }

  /** A conforming variant of legal names and texts survives the way through the
      text of a document exactly if all of it is what text can hold. */
  lemma RoundTrip(v: Variant, t: Type, name: string)
    requires Conforms(v, t) && Writable(v, t) && ElementName(name)
    ensures Back(v, t, name) == Some(v) <==> Kept(v, t)
  {
    BackFrom(v, t, Leaf(name));
    LegalLeaf(name);
    LegalXml(v, t, Leaf(name));
    var n := Deserialize(v, t, Leaf(name));
    hide Kept, Deserialize, Serialize, Read, Writable, LegalElement;
    if n.Some? {
      ReadPrinted(n.value, t);
    }
  }

  /** Two such variants that all of a text can hold are the same if their texts
      are. */
  lemma TextIsExact(v: Variant, w: Variant, t: Type, name: string)
    requires Conforms(v, t) && Writable(v, t) && Kept(v, t) && Conforms(w, t) && Writable(w, t) && Kept(w, t) && ElementName(name)
    requires var n, m := Deserialize(v, t, Leaf(name)), Deserialize(w, t, Leaf(name));
      n.Some? && m.Some? ==> Print(Document(n.value)) == Print(Document(m.value))
    ensures v == w
  {
    RoundTrip(v, t, name);
    RoundTrip(w, t, name);
    hide Kept, Deserialize, Serialize, Writable, Print, Read;
  }

  /** An empty string survives in a tree, but not in the text that is printed for
      it. */
  lemma EmptyText(v: Variant, t: Type)
    requires v == Text(Str, "") && t == ScalarType(Str, None, None)
    ensures Conforms(v, t) && Deserialize(v, t, Leaf("x")).Some? && Serialize(Deserialize(v, t, Leaf("x")).value, t) == Some(v)
    ensures Back(v, t, "x") != Some(v)
  {
    RoundTrip(v, t, "x");
    assert AllSpace("");
    hide Back;
  }
}
