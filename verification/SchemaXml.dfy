/** The conversions and the validation as they are carried out: loops over
    nodes, entries and elements, and group counters that all dicts share. */
module SchemaXml {
  import opened Wrappers
  import opened VarArrays
  import opened XmlTree
  import opened Schema

  // ---------------------------------------------------------- what is valid

  predicate HasChild(cs: seq<Node>, name: string) {
    exists c <- cs :: c.name == Some(name)
  }

  /** The place of a child's type, or the number of types if it has none. */
  function ChildType(ts: seq<Named>, c: Node): (k: nat)
    ensures k <= |ts|
  {
    if c.name.None? then |ts| else FindType(ts, c.name.value)
  }

  predicate InGroup(ts: seq<Named>, c: Node, id: nat) {
    var k := ChildType(ts, c);
    k < |ts| && ts[k].group == Some(id)
  }

  /** How many children belong to a group. */
  function GroupCount(cs: seq<Node>, ts: seq<Named>, id: nat): nat {
    if cs == [] then 0
    else GroupCount(cs[..|cs| - 1], ts, id) + if InGroup(ts, cs[|cs| - 1], id) then 1 else 0
  }

  predicate GroupOk(g: Group, count: nat) {
    match g.relation
    case Required => count > 0
    case Exclusive => count <= 1
  }

  predicate ScalarOk(node: Node, kind: Kind, bitmap: Option<IntMap>, enums: Option<IntMap>) {
    if bitmap.Some? then Bits(node.children, bitmap.value, 0).Some?
    else if kind.Flag? then node.cdata.None?
    else node.cdata.Some? && (enums.Some? ==> ParseEnum(node.cdata.value, enums.value).Some?)
  }

  /** The nodes that a type admits: every known child of a dict is valid, no
      mandatory one is missing, and the groups are as required or exclusive as
      they should be. */
  predicate Accepts(node: Node, t: Type)
    decreases t
  {
    match t
    case VoidType => node.cdata.None? && node.children == []
    case ScalarType(kind, bitmap, enums) => ScalarOk(node, kind, bitmap, enums)
    case StructType => false
    case UnionType(d, cases) =>
      (match Lookup(node.attrs, d)
       case Some(Some(kind)) => var k := FindType(cases, kind); k < |cases| && Accepts(node, cases[k].ty)
       case _ => false)
    case ArrayType(element, _) => forall c <- node.children :: Accepts(c, element)
    case DictType(ts, groups) =>
      && (forall c <- node.children :: var k := ChildType(ts, c); k < |ts| ==> Accepts(c, ts[k].ty))
      && (forall n <- ts :: n.mandatory ==> HasChild(node.children, n.name))
      && (forall g <- groups :: GroupOk(g, GroupCount(node.children, ts, g.id)))
  }

  /** All groups of a type have a counter. */
  predicate Numbered(t: Type, n: nat)
    decreases t
  {
    match t
    case UnionType(_, cases) => forall c <- cases :: Numbered(c.ty, n)
    case ArrayType(element, _) => Numbered(element, n)
    case DictType(ts, groups) =>
      && (forall c <- ts :: Numbered(c.ty, n) && (c.group.Some? ==> c.group.value < n))
      && forall g <- groups :: g.id < n
    case _ => true
  }

  class Validator {
    /** One counter for each group of the schema. */
    const counts: array<nat>

    constructor (groups: nat)
      ensures counts.Length == groups && fresh(counts)
    {
      counts := new nat[groups];
    }

    method Validate(node: Node, t: Type) returns (ok: bool)
      requires Numbered(t, counts.Length)
      modifies counts
      ensures ok == Accepts(node, t)
      decreases t, 1
    {
      match t
      case VoidType => ok := node.cdata.None? && node.children == [];
      case ScalarType(kind, bitmap, enums) => ok := ScalarOk(node, kind, bitmap, enums);
      case StructType => ok := false;
      case UnionType(d, cases) =>
        var attr := Lookup(node.attrs, d);
        ok := false;
        if attr.Some? && attr.value.Some? {
          var k := FindType(cases, attr.value.value);
          if k < |cases| {
            assert cases[k] in cases;
            ok := Validate(node, cases[k].ty);
          }
        }
      case ArrayType(element, _) => ok := ValidateArray(node, t);
      case DictType(_, _) => ok := ValidateDict(node, t);
    }

    method ValidateArray(node: Node, t: Type) returns (ok: bool)
      requires t.ArrayType? && Numbered(t, counts.Length)
      modifies counts
      ensures ok == Accepts(node, t)
      decreases t, 0
    {
      var i: nat := 0;
      while i < |node.children|
        invariant i <= |node.children|
        invariant forall j :: 0 <= j < i ==> Accepts(node.children[j], t.element)
      {
        ok := Validate(node.children[i], t.element);
        if !ok {
          assert node.children[i] in node.children;
          return;
        }
        i := i + 1;
      }
      ok := true;
    }

    /** The children come first: whatever they leave in the counters is
        overwritten when this dict counts its own. */
    method ValidateDict(node: Node, t: Type) returns (ok: bool)
      requires t.DictType? && Numbered(t, counts.Length)
      modifies counts
      ensures ok == Accepts(node, t)
      decreases t, 0
    {
      var ts := t.children;
      var i: nat := 0;
      while i < |node.children|
        invariant i <= |node.children|
        invariant forall j :: 0 <= j < i ==> KnownOk(node.children[j], t)
      {
        var k := ChildType(ts, node.children[i]);
        if k < |ts| {
          assert ts[k] in ts;
          ok := Validate(node.children[i], ts[k].ty);
          if !ok {
            assert node.children[i] in node.children;
            return;
          }
        }
        i := i + 1;
      }
      forall c <- node.children ensures KnownOk(c, t) {
      }
      ok := CheckMandatory(node, ts);
      if ok {
        CountGroups(node, t);
        ok := CheckGroups(node, t);
      }
    }

    predicate KnownOk(c: Node, t: Type)
      requires t.DictType?
    {
      var k := ChildType(t.children, c);
      k < |t.children| ==> Accepts(c, t.children[k].ty)
    }

    method CheckMandatory(node: Node, ts: seq<Named>) returns (ok: bool)
      ensures ok <==> forall n <- ts :: n.mandatory ==> HasChild(node.children, n.name)
    {
      var i: nat := 0;
      while i < |ts|
        invariant i <= |ts|
        invariant forall j :: 0 <= j < i ==> ts[j].mandatory ==> HasChild(node.children, ts[j].name)
      {
        if ts[i].mandatory && !HasChild(node.children, ts[i].name) {
          assert ts[i] in ts;
          return false;
        }
        i := i + 1;
      }
      ok := true;
    }

    /** Clear the counters of the dict's groups, then count its children. */
    method CountGroups(node: Node, t: Type)
      requires t.DictType? && Numbered(t, counts.Length)
      modifies counts
      ensures forall g <- t.groups :: counts[g.id] == GroupCount(node.children, t.children, g.id)
    {
      var ts, groups := t.children, t.groups;
      var i: nat := 0;
      while i < |groups|
        invariant i <= |groups|
        invariant forall j :: 0 <= j < i ==> counts[groups[j].id] == 0
      {
        assert groups[i] in groups;
        counts[groups[i].id] := 0;
        i := i + 1;
      }
      i := 0;
      while i < |node.children|
        invariant i <= |node.children|
        invariant forall j :: 0 <= j < |groups| ==> counts[groups[j].id] == GroupCount(node.children[..i], ts, groups[j].id)
      {
        var c := node.children[i];
        assert node.children[..i + 1][..i] == node.children[..i];
        var k := ChildType(ts, c);
        if k < |ts| && ts[k].group.Some? {
          assert ts[k] in ts;
          counts[ts[k].group.value] := counts[ts[k].group.value] + 1;
        }
        i := i + 1;
      }
      assert node.children[..i] == node.children;
    }

    method CheckGroups(node: Node, t: Type) returns (ok: bool)
      requires t.DictType? && Numbered(t, counts.Length)
      requires forall g <- t.groups :: counts[g.id] == GroupCount(node.children, t.children, g.id)
      ensures ok <==> forall g <- t.groups :: GroupOk(g, GroupCount(node.children, t.children, g.id))
    {
      var i: nat := 0;
      while i < |t.groups|
        invariant i <= |t.groups|
        invariant forall j :: 0 <= j < i ==> GroupOk(t.groups[j], GroupCount(node.children, t.children, t.groups[j].id))
      {
        assert t.groups[i] in t.groups;
        if !GroupOk(t.groups[i], counts[t.groups[i].id]) {
          return false;
        }
        i := i + 1;
      }
      ok := true;
    }
  }

  // ------------------------------------------------------------ conversions

  method SerializeXml(node: Node, t: Type) returns (v: Option<Variant>)
    ensures v == Serialize(node, t)
    decreases t, 1
  {
    match t
    case VoidType => v := Some(Unset);
    case ScalarType(kind, bitmap, enums) => v := SerializeXmlScalar(node, kind, bitmap, enums);
    case StructType => v := None;
    case UnionType(d, cases) =>
      v := None;
      var attr := Lookup(node.attrs, d);
      if attr.Some? && attr.value.Some? {
        var k := FindType(cases, attr.value.value);
        if k < |cases| {
          v := Some(Struct([Text(Str, attr.value.value)]));
          if !cases[k].ty.VoidType? {
            var child := SerializeXml(node, cases[k].ty);
            v := if child.Some? then Some(Struct([Text(Str, attr.value.value), child.value])) else None;
          }
        }
      }
    case ArrayType(_, _) => v := SerializeXmlArray(node, t);
    case DictType(_, _) => v := SerializeXmlDict(node, t);
  }

  method SerializeXmlScalar(node: Node, kind: Kind, bitmap: Option<IntMap>, enums: Option<IntMap>) returns (v: Option<Variant>)
    ensures v == SerializeScalar(node, kind, bitmap, enums)
  {
    if !kind.Flag? && bitmap.Some? {
      var value := SerializeXmlBitmap(node, bitmap.value);
      return if value.Some? then SetNumber(kind, value.value) else None;
    }
    v := SerializeScalar(node, kind, bitmap, enums);
  }

  method SerializeXmlBitmap(node: Node, bits: IntMap) returns (value: Option<nat>)
    ensures value == Bits(node.children, bits, 0)
  {
    var result: nat := 0;
    var i: nat := 0;
    assert node.children[0..] == node.children;
    while i < |node.children|
      invariant i <= |node.children|
      invariant Bits(node.children, bits, 0) == Bits(node.children[i..], bits, result)
    {
      assert node.children[i..][1..] == node.children[i + 1..];
      if node.children[i].name.None? {
        return None;
      }
      var bb := ParseMapped(node.children[i].name.value, bits);
      if bb.None? || bb.value >= 32 {
        return None;
      }
      result := WithBit(result, bb.value);
      i := i + 1;
    }
    value := Some(result);
  }

  /** What was converted before the rest. */
  function Before<T>(done: seq<T>, rest: Option<seq<T>>): Option<seq<T>> {
    match rest
    case None => None
    case Some(r) => Some(done + r)
  }

  lemma BeforeStep<T>(done: seq<T>, x: T, rest: Option<seq<T>>)
    ensures Before(done, match rest case None => None case Some(r) => Some([x] + r)) == Before(done + [x], rest)
    ensures Before([], rest) == rest
    ensures Before(done, Some([])) == Some(done)
  {
    if rest.Some? {
      assert done + ([x] + rest.value) == done + [x] + rest.value;
      assert [] + rest.value == rest.value;
    }
    assert done + [] == done;
  }

  method SerializeXmlArray(node: Node, t: Type) returns (v: Option<Variant>)
    requires t.ArrayType?
    ensures v == Serialize(node, t)
    decreases t, 0
  {
    var cs := node.children;
    if t.element.ScalarType? {
      if t.element.kind.Flag? {
        return None;
      }
      var items := SerializeXmlItems(cs, t.element.kind);
      v := if items.Some? then Some(Array(t.element.kind, items.value)) else None;
    } else if t.element.DictType? {
      var dicts: seq<Variant> := [];
      var i: nat := 0;
      assert cs[0..] == cs;
      BeforeStep(dicts, Unset, SerializeDicts(cs, t));
      while i < |cs|
        invariant i <= |cs|
        invariant SerializeDicts(cs, t) == Before(dicts, SerializeDicts(cs[i..], t))
      {
        assert cs[i..][1..] == cs[i + 1..];
        var element := SerializeXml(cs[i], t.element);
        if element.None? {
          return None;
        }
        BeforeStep(dicts, element.value, SerializeDicts(cs[i + 1..], t));
        dicts := dicts + [element.value];
        i := i + 1;
      }
      BeforeStep(dicts, Unset, Some([]));
      v := Some(DictArray(dicts));
    } else {
      v := None;
    }
  }

  method SerializeXmlItems(cs: seq<Node>, kind: Kind) returns (items: Option<seq<Variant>>)
    ensures items == ParseItems(cs, kind)
  {
    var done: seq<Variant> := [];
    var i: nat := 0;
    assert cs[0..] == cs;
    BeforeStep(done, Unset, ParseItems(cs, kind));
    while i < |cs|
      invariant i <= |cs|
      invariant ParseItems(cs, kind) == Before(done, ParseItems(cs[i..], kind))
    {
      assert cs[i..][1..] == cs[i + 1..];
      if cs[i].cdata.None? {
        return None;
      }
      var element := ParseItem(kind, cs[i].cdata.value);
      if element.None? {
        return None;
      }
      BeforeStep(done, element.value, ParseItems(cs[i + 1..], kind));
      done := done + [element.value];
      i := i + 1;
    }
    BeforeStep(done, Unset, Some([]));
    items := Some(done);
  }

  method SerializeXmlDict(node: Node, t: Type) returns (v: Option<Variant>)
    requires t.DictType?
    ensures v == Serialize(node, t)
    decreases t, 0
  {
    var cs := node.children;
    var entries: seq<Entry> := [];
    var i: nat := 0;
    assert cs[0..] == cs;
    BeforeStep(entries, Entry("", Unset), SerializeEntries(cs, t));
    while i < |cs|
      invariant i <= |cs|
      invariant SerializeEntries(cs, t) == Before(entries, SerializeEntries(cs[i..], t))
    {
      assert cs[i..][1..] == cs[i + 1..];
      var k := ChildType(t.children, cs[i]);
      if k < |t.children| {
        var datum := SerializeXml(cs[i], t.children[k].ty);
        if datum.None? {
          return None;
        }
        BeforeStep(entries, Entry(cs[i].name.value, datum.value), SerializeEntries(cs[i + 1..], t));
        entries := entries + [Entry(cs[i].name.value, datum.value)];
      }
      i := i + 1;
    }
    BeforeStep(entries, Entry("", Unset), Some([]));
    v := Some(Dict(entries));
  }

  method DeserializeXml(v: Variant, t: Type, node: Node) returns (n: Option<Node>)
    ensures n == Deserialize(v, t, node)
    decreases t, 1
  {
    match t
    case VoidType => n := Some(node);
    case ScalarType(kind, bitmap, enums) => n := DeserializeXmlScalar(v, kind, bitmap, enums, node);
    case StructType => n := None;
    case UnionType(d, cases) =>
      n := None;
      if v.Struct? && v.members != [] && v.members[0].Text? && v.members[0].kind.Str? {
        var attrs := SetInPlace(node.attrs, d, Some(v.members[0].text));
        var tagged := node.(attrs := attrs);
        var k := FindType(cases, v.members[0].text);
        if k < |cases| {
          if cases[k].ty.VoidType? {
            n := Some(tagged);
          } else if |v.members| >= 2 {
            n := DeserializeXml(v.members[1], cases[k].ty, tagged);
          }
        }
      }
    case ArrayType(_, _) => n := DeserializeXmlArray(v, t, node);
    case DictType(_, _) => n := DeserializeXmlDict(v, t, node);
  }

  method DeserializeXmlScalar(v: Variant, kind: Kind, bitmap: Option<IntMap>, enums: Option<IntMap>, node: Node) returns (n: Option<Node>)
    ensures n == DeserializeScalar(v, kind, bitmap, enums, node)
  {
    if !IsArray(v) && !kind.Flag? && bitmap.Some? {
      if !v.Num? || !Numeric(v.kind) {
        return None;
      }
      var children := BitmapNodes(v.value % CNumbers.ULONG, bitmap.value);
      return Some(node.(children := node.children + children));
    }
    n := DeserializeScalar(v, kind, bitmap, enums, node);
  }

  method BitmapNodes(value: nat, bits: IntMap) returns (cs: seq<Node>)
    ensures cs == BitNodes(value, bits, 0)
  {
    hide BitNodes;
    cs := [];
    var bb: nat := 0;
    assert cs + BitNodes(value, bits, 0) == BitNodes(value, bits, 0);
    while bb < 32
      invariant bb <= 32
      invariant BitNodes(value, bits, 0) == cs + BitNodes(value, bits, bb)
    {
      BitNodesStep(value, bits, bb, cs);
      if BitSet(value, bb) {
        var name := FormatMapped(bb, bits);
        if name.Some? {
          cs := cs + [Leaf(name.value)];
        }
      }
      bb := bb + 1;
    }
    BitNodesEnd(value, bits);
    assert cs + [] == cs;
  }

  lemma BitNodesStep(value: nat, bits: IntMap, b: nat, done: seq<Node>)
    requires b < 32
    ensures var here := if BitSet(value, b) && FormatMapped(b, bits).Some? then [Leaf(FormatMapped(b, bits).value)] else [];
      done + BitNodes(value, bits, b) == (if here == [] then done else done + here) + BitNodes(value, bits, b + 1)
  {
    var here := if BitSet(value, b) && FormatMapped(b, bits).Some? then [Leaf(FormatMapped(b, bits).value)] else [];
    var rest := BitNodes(value, bits, b + 1);
    assert BitNodes(value, bits, b) == here + rest;
    hide BitNodes, BitSet;
    assert done + (here + rest) == done + here + rest;
    assert here == [] ==> done + here == done;
  }

  lemma BitNodesEnd(value: nat, bits: IntMap)
    ensures BitNodes(value, bits, 32) == []
  {
  }

  method DeserializeXmlArray(v: Variant, t: Type, node: Node) returns (n: Option<Node>)
    requires t.ArrayType?
    ensures n == Deserialize(v, t, node)
    decreases t, 0
  {
    if t.element.ScalarType? {
      if !v.Array? {
        return if v == DictArray([]) then Some(node) else None;
      }
      var cs := DeserializeXmlItems(v.items, t.elementName);
      n := if cs.Some? then Some(node.(children := node.children + cs.value)) else None;
    } else if t.element.DictType? && v.DictArray? {
      var cur := node;
      var i: nat := 0;
      assert v.dicts[0..] == v.dicts;
      while i < |v.dicts|
        invariant i <= |v.dicts|
        invariant DeserializeDicts(v.dicts, t, node) == DeserializeDicts(v.dicts[i..], t, cur)
      {
        assert v.dicts[i..][1..] == v.dicts[i + 1..];
        var c := DeserializeXml(v.dicts[i], t.element, Leaf(t.elementName));
        if c.None? {
          return None;
        }
        cur := cur.(children := cur.children + [c.value]);
        i := i + 1;
      }
      n := Some(cur);
    } else {
      n := None;
    }
  }

  method DeserializeXmlItems(items: seq<Variant>, name: string) returns (cs: Option<seq<Node>>)
    ensures cs == ItemNodes(items, name)
  {
    var done: seq<Node> := [];
    var i: nat := 0;
    assert items[0..] == items;
    BeforeStep(done, Leaf(name), ItemNodes(items, name));
    while i < |items|
      invariant i <= |items|
      invariant ItemNodes(items, name) == Before(done, ItemNodes(items[i..], name))
    {
      assert items[i..][1..] == items[i + 1..];
      var s := PrintItem(items[i]);
      if s.None? {
        return None;
      }
      BeforeStep(done, Leaf(name).(cdata := s), ItemNodes(items[i + 1..], name));
      done := done + [Leaf(name).(cdata := s)];
      i := i + 1;
    }
    BeforeStep(done, Leaf(name), Some([]));
    cs := Some(done);
  }

  method DeserializeXmlDict(v: Variant, t: Type, node: Node) returns (n: Option<Node>)
    requires t.DictType?
    ensures n == Deserialize(v, t, node)
    decreases t, 0
  {
    if !v.Dict? {
      return None;
    }
    var cur := node;
    var i: nat := 0;
    assert v.entries[0..] == v.entries;
    while i < |v.entries|
      invariant i <= |v.entries|
      invariant DeserializeEntries(v.entries, t, node) == DeserializeEntries(v.entries[i..], t, cur)
    {
      assert v.entries[i..][1..] == v.entries[i + 1..];
      var e := v.entries[i];
      var k := FindType(t.children, e.key);
      if k < |t.children| {
        var c := DeserializeXml(e.datum, t.children[k].ty, Leaf(e.key));
        if c.None? {
          return None;
        }
        cur := cur.(children := cur.children + [c.value]);
      }
      i := i + 1;
    }
    n := Some(cur);
  }
}
