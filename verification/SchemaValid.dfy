/** What validation means: how many children a group may have, that what is valid
    can be converted, and that conversion passes over what a type does not
    know. */
module SchemaValid {
  import opened Wrappers
  import opened VarArrays
  import opened CNumbers
  import opened XmlTree
  import opened Schema
  import opened SchemaXml
  import S = SchemaRoundTrip

  // ------------------------------------------------------------------ groups

  predicate SomeInGroup(cs: seq<Node>, ts: seq<Named>, id: nat) {
    exists i :: 0 <= i < |cs| && InGroup(ts, cs[i], id)
  }

  predicate TwoInGroup(cs: seq<Node>, ts: seq<Named>, id: nat) {
    exists i, j :: 0 <= i < j < |cs| && InGroup(ts, cs[i], id) && InGroup(ts, cs[j], id)
  }

  lemma {:induction false} CountSome(cs: seq<Node>, ts: seq<Named>, id: nat)
    ensures GroupCount(cs, ts, id) > 0 <==> SomeInGroup(cs, ts, id)
  {
    hide InGroup;
    if cs != [] {
      var n := |cs| - 1;
      CountSome(cs[..n], ts, id);
      SomeMore(cs, ts, id);
    }
  }

  lemma SomeMore(cs: seq<Node>, ts: seq<Named>, id: nat)
    requires cs != []
    ensures var n := |cs| - 1; SomeInGroup(cs, ts, id) <==> SomeInGroup(cs[..n], ts, id) || InGroup(ts, cs[n], id)
  {
    hide InGroup;
    var n := |cs| - 1;
    if i :| 0 <= i < |cs| && InGroup(ts, cs[i], id) {
      assert i < n ==> cs[..n][i] == cs[i];
    }
    if i :| 0 <= i < n && InGroup(ts, cs[..n][i], id) {
      assert InGroup(ts, cs[i], id);
    }
  }

  lemma {:induction false} CountTwo(cs: seq<Node>, ts: seq<Named>, id: nat)
    ensures GroupCount(cs, ts, id) > 1 <==> TwoInGroup(cs, ts, id)
  {
    hide InGroup;
    if cs != [] {
      var n := |cs| - 1;
      CountSome(cs[..n], ts, id);
      CountTwo(cs[..n], ts, id);
      TwoMore(cs, ts, id);
    }
  }

  lemma TwoMore(cs: seq<Node>, ts: seq<Named>, id: nat)
    requires cs != []
    ensures var n := |cs| - 1;
      TwoInGroup(cs, ts, id) <==> TwoInGroup(cs[..n], ts, id) || (SomeInGroup(cs[..n], ts, id) && InGroup(ts, cs[n], id))
  {
    hide InGroup;
    var n := |cs| - 1;
    var b := cs[..n];
    assert forall i :: 0 <= i < n ==> b[i] == cs[i];
    if i, j :| 0 <= i < j < |cs| && InGroup(ts, cs[i], id) && InGroup(ts, cs[j], id) {
      assert InGroup(ts, b[i], id);
      assert j < n ==> InGroup(ts, b[j], id);
    }
    if i, j :| 0 <= i < j < n && InGroup(ts, b[i], id) && InGroup(ts, b[j], id) {
      assert InGroup(ts, cs[i], id) && InGroup(ts, cs[j], id);
    }
    if i :| 0 <= i < n && InGroup(ts, b[i], id) {
      assert InGroup(ts, cs[i], id);
    }
  }

  /** A required group has a child; an exclusive one does not have two. */
  lemma GroupsMean(cs: seq<Node>, ts: seq<Named>, g: Group)
    ensures GroupOk(g, GroupCount(cs, ts, g.id))
      <==> if g.relation.Required? then SomeInGroup(cs, ts, g.id) else !TwoInGroup(cs, ts, g.id)
  {
    CountSome(cs, ts, g.id);
    CountTwo(cs, ts, g.id);
  }

  // -------------------------------------------------- what is valid converts

  /** Besides being valid: names stand for numbers, texts of numbers are numbers,
      and array elements are such as can be set. */
  predicate Readable(node: Node, t: Type)
    decreases t
  {
    match t
    case ScalarType(kind, bitmap, enums) =>
      kind.Flag? || if bitmap.Some? || enums.Some? then Numeric(kind) else node.cdata.Some? ==> ParseScalar(kind, node.cdata.value).Some?
    case UnionType(d, cases) =>
      (match Lookup(node.attrs, d)
       case Some(Some(kind)) => var k := FindType(cases, kind); k < |cases| ==> Readable(node, cases[k].ty)
       case _ => true)
    case ArrayType(element, _) =>
      if element.ScalarType? then
        && !element.kind.Flag? && element.bitmap.None?
        && forall c <- node.children :: c.cdata.Some? ==> ParseItem(element.kind, c.cdata.value).Some?
      else element.DictType? && forall c <- node.children :: Readable(c, element)
    case DictType(ts, _) => forall c <- node.children :: var k := ChildType(ts, c); k < |ts| ==> Readable(c, ts[k].ty)
    case _ => true
  }

  /** Such a node is converted if it is valid. */
  lemma {:induction false} AcceptedConverts(node: Node, t: Type)
    requires Accepts(node, t) && Readable(node, t)
    ensures Serialize(node, t).Some?
    decreases t, 1, 0
  {
    match t
    case VoidType =>
    case ScalarType(_, _, _) => hide Bits, ParseEnum, ParseScalar;
    case UnionType(d, cases) =>
      var k := FindType(cases, Lookup(node.attrs, d).value.value);
      AcceptedConverts(node, cases[k].ty);
    case ArrayType(element, _) =>
      if element.ScalarType? {
        ItemsConvert(node.children, element.kind);
      } else {
        DictsConvert(node.children, t);
      }
    case DictType(ts, _) => EntriesConvert(node.children, t);
  }

  lemma {:induction false} ItemsConvert(cs: seq<Node>, kind: Kind)
    requires forall c <- cs :: c.cdata.Some? && ParseItem(kind, c.cdata.value).Some?
    ensures ParseItems(cs, kind).Some?
  {
    if cs != [] {
      assert cs[0] in cs && forall c <- cs[1..] :: c in cs;
      ItemsConvert(cs[1..], kind);
    }
  }

  lemma {:induction false} DictsConvert(cs: seq<Node>, t: Type)
    requires t.ArrayType? && forall c <- cs :: Accepts(c, t.element) && Readable(c, t.element)
    ensures SerializeDicts(cs, t).Some?
    decreases t, 0, |cs|
  {
    if cs != [] {
      assert cs[0] in cs && forall c <- cs[1..] :: c in cs;
      AcceptedConverts(cs[0], t.element);
      DictsConvert(cs[1..], t);
    }
  }

  lemma {:induction false} EntriesConvert(cs: seq<Node>, t: Type)
    requires t.DictType?
    requires forall c <- cs :: var k := ChildType(t.children, c);
      k < |t.children| ==> Accepts(c, t.children[k].ty) && Readable(c, t.children[k].ty)
    ensures SerializeEntries(cs, t).Some?
    decreases t, 0, |cs|
  {
    if cs != [] {
      assert cs[0] in cs && forall c <- cs[1..] :: c in cs;
      var k := ChildType(t.children, cs[0]);
      if k < |t.children| {
        AcceptedConverts(cs[0], t.children[k].ty);
      }
      EntriesConvert(cs[1..], t);
    }
  }

  /** A scalar other than a flag is valid and readable exactly if it can be
      converted; a flag is valid if it has no text. */
  lemma ScalarsAccepted(node: Node, t: Type)
    requires t.ScalarType? && (t.bitmap.Some? || t.enums.Some? ==> Numeric(t.kind))
    ensures !t.kind.Flag? ==> (Accepts(node, t) && Readable(node, t) <==> Serialize(node, t).Some?)
    ensures t.kind.Flag? ==> (Accepts(node, t) <==> node.cdata.None?)
  {
    hide Bits, ParseEnum, ParseScalar;
  }

  // ------------------------------------------------------------ what is refused

  /** What makes a node invalid: text or children where there is no type, an
      element or a known child that is invalid itself, a mandatory child that is
      missing, or a group with too few or too many. */
  predicate Wrong(node: Node, t: Type) {
    match t
    case VoidType => node.cdata.Some? || node.children != []
    case StructType => true
    case UnionType(d, cases) =>
      (match Lookup(node.attrs, d)
       case Some(Some(kind)) => forall n <- cases :: n.name != kind
       case _ => true)
    case ArrayType(element, _) => exists c <- node.children :: !Accepts(c, element)
    case DictType(ts, groups) =>
      || (exists c <- node.children :: var k := ChildType(ts, c); k < |ts| && !Accepts(c, ts[k].ty))
      || (exists n <- ts :: n.mandatory && forall c <- node.children :: c.name != Some(n.name))
      || (exists g <- groups ::
            if g.relation.Required? then !SomeInGroup(node.children, ts, g.id) else TwoInGroup(node.children, ts, g.id))
    case _ => false
  }

  lemma WrongIsRefused(node: Node, t: Type)
    requires Wrong(node, t)
    ensures !Accepts(node, t)
  {
    match t
    case UnionType(d, cases) =>
      match Lookup(node.attrs, d) {
        case Some(Some(kind)) => NotFound(cases, kind);
        case _ =>
      }
    case DictType(ts, groups) =>
      forall g <- groups ensures GroupOk(g, GroupCount(node.children, ts, g.id))
        <==> if g.relation.Required? then SomeInGroup(node.children, ts, g.id) else !TwoInGroup(node.children, ts, g.id)
      {
        GroupsMean(node.children, ts, g);
      }
      hide GroupOk, GroupCount, SomeInGroup, TwoInGroup;
    case _ =>
  }

  /** For a dict and for an array that is all there is. */
  lemma RefusedIsWrong(node: Node, t: Type)
    requires (t.DictType? || t.ArrayType? || t.VoidType?) && !Accepts(node, t)
    ensures Wrong(node, t)
  {
    if t.DictType? {
      forall g <- t.groups ensures GroupOk(g, GroupCount(node.children, t.children, g.id))
        <==> if g.relation.Required? then SomeInGroup(node.children, t.children, g.id) else !TwoInGroup(node.children, t.children, g.id)
      {
        GroupsMean(node.children, t.children, g);
      }
      hide GroupOk, GroupCount, SomeInGroup, TwoInGroup;
    }
  }

  // ------------------------------------------------------- numbers in texts

  /** A number is read for what it is, cut to its kind; what does not fit 64 bits is
      the nearest or the largest number first. */
  lemma NumbersRead(kind: Kind, v: int)
    requires Numeric(kind)
    ensures var signed := kind.Int16? || kind.Int32? || kind.Int64?;
      var w := if signed then (if v >= LONG then LONG - 1 else if v < -LONG then -LONG else v)
               else if v >= ULONG || v <= -ULONG then ULONG - 1 else if v < 0 then v + ULONG else v;
      ParseScalar(kind, SignedDecimal(v)) == Some(Num(kind, Cut(kind, w)))
  {
    StrtolDecimal(v);
    StrtoulDecimal(v);
    var s := SignedDecimal(v);
    assert s[0] == '-' || s[0] in Decimal(v);
    assert s != "true" && s != "false";
    hide Strtol, Strtoul, SignedDecimal, Cut;
  }

  /** For an enumeration, a text that is no name must be a number of 32 bits, and
      must begin with a digit. */
  lemma EnumTexts(v: int, m: IntMap)
    requires ParseMapped(SignedDecimal(v), m).None?
    ensures ParseEnum(SignedDecimal(v), m) == if 0 <= v < UINT then Some(v) else None
  {
    NumberDecimal(v);
    var s := SignedDecimal(v);
    assert s[0] == '-' || s[0] in Decimal(v);
    hide Number, SignedDecimal;
  }

  // ---------------------------------------------------- what is not known

  predicate Unknown(c: Node, t: Type)
    requires t.DictType?
  {
    c.name.None? || forall n <- t.children :: n.name != c.name.value
  }

  lemma UnknownIs(c: Node, t: Type)
    requires t.DictType?
    ensures Unknown(c, t) <==> ChildType(t.children, c) == |t.children|
  {
    if c.name.Some? {
      var k := FindType(t.children, c.name.value);
      assert k < |t.children| ==> t.children[k] in t.children;
    }
  }

  lemma {:induction false} NotFound(ts: seq<Named>, name: string)
    requires forall n <- ts :: n.name != name
    ensures FindType(ts, name) == |ts|
  {
    if ts != [] {
      assert ts[0] in ts && forall n <- ts[1..] :: n in ts;
      NotFound(ts[1..], name);
    }
  }

  /** A child that the type does not know makes no difference. */
  lemma {:induction false} UnknownChild(a: seq<Node>, c: Node, b: seq<Node>, t: Type)
    requires t.DictType? && Unknown(c, t)
    ensures SerializeEntries(a + [c] + b, t) == SerializeEntries(a + b, t)
    decreases |a|
  {
    if a == [] {
      assert a + [c] + b == [c] + b && ([c] + b)[1..] == b && a + b == b;
      UnknownIs(c, t);
    } else {
      assert (a + [c] + b)[1..] == a[1..] + [c] + b && (a + b)[1..] == a[1..] + b;
      UnknownChild(a[1..], c, b, t);
      hide Serialize;
    }
  }

  /** Neither does an entry of a dict, on the way to XML. */
  lemma {:induction false} UnknownEntry(a: seq<Entry>, e: Entry, b: seq<Entry>, t: Type, node: Node)
    requires t.DictType? && forall n <- t.children :: n.name != e.key
    ensures DeserializeEntries(a + [e] + b, t, node) == DeserializeEntries(a + b, t, node)
    decreases |a|
  {
    NotFound(t.children, e.key);
    if a == [] {
      assert a + [e] + b == [e] + b && ([e] + b)[1..] == b && a + b == b;
    } else {
      assert (a + [e] + b)[1..] == a[1..] + [e] + b && (a + b)[1..] == a[1..] + b;
      var j := FindType(t.children, a[0].key);
      if j == |t.children| {
        UnknownEntry(a[1..], e, b, t, node);
      } else {
        var c := Deserialize(a[0].datum, t.children[j].ty, Leaf(a[0].key));
        if c.Some? {
          UnknownEntry(a[1..], e, b, t, node.(children := node.children + [c.value]));
        }
        hide Deserialize;
      }
    }
  }

  /** A union of a kind that the type does not know is refused both ways. */
  lemma UnknownKind(v: Variant, node: Node, t: Type, kind: string)
    requires t.UnionType? && forall n <- t.cases :: n.name != kind
    requires v.Struct? && v.members != [] && v.members[0] == Text(Str, kind)
    requires Lookup(node.attrs, t.discriminant) == Some(Some(kind))
    ensures Deserialize(v, t, node) == None && Serialize(node, t) == None && !Accepts(node, t)
  {
    NotFound(t.cases, kind);
  }

  /** A value of another shape than the type's is refused. An empty array does not
      tell what its elements are. */
  lemma OtherShape(v: Variant, node: Node, t: Type)
    requires match t
      case ScalarType(kind, _, _) => IsArray(v) || (kind.Flag? && !(v.Num? && v.kind.Byte?))
      case UnionType(_, _) => !v.Struct?
      case ArrayType(element, _) =>
        if element.ScalarType? then !v.Array? && v != DictArray([]) else !element.DictType? || !v.DictArray?
      case DictType(_, _) => !v.Dict?
      case StructType => true
      case VoidType => false
    ensures Deserialize(v, t, node) == None
  {
  }

  lemma EmptyArray(node: Node, kind: Kind, name: string)
    ensures Deserialize(DictArray([]), ArrayType(ScalarType(kind, None, None), name), node) == Some(node)
  {
  }

  // -------------------------------------------------------------- how it looks

  /** What scalars look like in XML. A byte is printed as a signed char, except in
      an array. */
  lemma ScalarsPrinted()
    ensures Sprint(Num(Bool, 1)) == Some("true") && Sprint(Num(Bool, 0)) == Some("false")
    ensures Sprint(Num(Int32, -120)) == Some("-120") && Sprint(Num(Byte, 10)) == Some("0x0a")
    ensures Sprint(Num(Byte, 200)) == Some("0xffffffc8") && PrintItem(Num(Byte, 200)) == Some("0xc8")
  {
    Printed();
    hide Hex, SignedDecimal;
  }

  /** What XML looks like: a dict has a child for each entry, an array for each
      element, a bitmap for each bit, and a union leaves its kind in an
      attribute. */
  lemma Looks(e: Type, u: Type, l: Type, t: Type, v: Variant)
    requires e == ScalarType(UInt32, None, Some([Mapping("up", 1)]))
    requires u == UnionType("kind", [Named("state", e, false, None)]) && l == ArrayType(ScalarType(Str, None, None), "item")
    requires t == DictType([Named("l", l, false, None), Named("u", u, true, None)], [])
    requires v == Dict([Entry("l", Array(Str, [Text(Str, "p")])), Entry("u", Struct([Text(Str, "state"), Num(UInt32, 1)]))])
    ensures Conforms(v, t)
    ensures Deserialize(v, t, Leaf("d")) == Some(Leaf("d").(children := [
      Leaf("l").(children := [Leaf("item").(cdata := Some("p"))]),
      Node(Some("u"), [Var("kind", Some("state"))], Some("up"), [])]))
  {
    var a, b := v.entries[0], v.entries[1];
    assert v.entries[1..] == [b] && [b][1..] == [] && v.entries == [a, b];
    assert t.children[1..][0] == t.children[1] && FindType(t.children, "u") == 1 && FindType(t.children, "l") == 0;
    var nl := Leaf("l").(children := [Leaf("item").(cdata := Some("p"))]);
    var nu := Node(Some("u"), [Var("kind", Some("state"))], Some("up"), []);
    LooksList(a.datum, l, nl);
    LooksUnion(b.datum, u, e, nu);
    assert EntryConforms(a, t) && EntryConforms(b, t);
    var d := Leaf("d");
    S.DeserializeFirst(v.entries, t, d);
    S.DeserializeFirst([b], t, d.(children := [] + [nl]));
    LooksDict(v, t, d);
    assert [] + [nl] == [nl] && [nl] + [nu] == [nl, nu];
    assert DeserializeEntries([], t, d.(children := [nl, nu])) == Some(d.(children := [nl, nu]));
    hide Deserialize, Conforms, EntryConforms;
    assert DeserializeEntries([b], t, d.(children := [nl])) == Some(d.(children := [nl, nu]));
    assert Deserialize(v, t, d) == Some(d.(children := [nl, nu]));
  }

  lemma LooksDict(v: Variant, t: Type, d: Node)
    requires t.DictType? && v.Dict?
    ensures Deserialize(v, t, d) == DeserializeEntries(v.entries, t, d)
    ensures (forall e <- v.entries :: EntryConforms(e, t)) ==> Conforms(v, t)
  {
    hide DeserializeEntries, EntryConforms;
  }

  lemma LooksList(v: Variant, l: Type, n: Node)
    requires v == Array(Str, [Text(Str, "p")]) && l == ArrayType(ScalarType(Str, None, None), "item")
    requires n == Leaf("l").(children := [Leaf("item").(cdata := Some("p"))])
    ensures Conforms(v, l) && Deserialize(v, l, Leaf("l")) == Some(n)
  {
    var cs := [Leaf("item").(cdata := Some("p"))];
    assert v.items[1..] == [] && ItemNodes([], "item") == Some([]);
    assert cs + [] == cs && [] + cs == cs;
    assert ItemNodes(v.items, "item") == Some(cs);
  }

  lemma LooksUnion(v: Variant, u: Type, e: Type, n: Node)
    requires e == ScalarType(UInt32, None, Some([Mapping("up", 1)])) && u == UnionType("kind", [Named("state", e, false, None)])
    requires v == Struct([Text(Str, "state"), Num(UInt32, 1)])
    requires n == Node(Some("u"), [Var("kind", Some("state"))], Some("up"), [])
    ensures Conforms(v, u) && Deserialize(v, u, Leaf("u")) == Some(n)
  {
    assert FindType(u.cases, "state") == 0;
    var tagged := Leaf("u").(attrs := [Var("kind", Some("state"))]);
    assert SetVar([], "kind", Some("state")) == tagged.attrs;
    assert Conforms(v.members[1], e);
    assert FormatMapped(1, e.enums.value) == Some("up");
    assert Deserialize(v.members[1], e, tagged) == Some(n);
  }
}
