/** Schema types, the variants that they describe, and the conversion between
    variants and XML nodes that a type directs. */
module Schema {
  import opened Wrappers
  import opened VarArrays
  import opened CNumbers
  import opened XmlTree

  datatype Kind = Bool | Byte | Int16 | UInt16 | Int32 | UInt32 | Int64 | UInt64 | Str | ObjectPath | Flag

  datatype Variant =
    | Unset
    | Num(kind: Kind, value: int)
    | Text(kind: Kind, text: string)
    | Array(kind: Kind, items: seq<Variant>)
    | Dict(entries: seq<Entry>)
    | DictArray(dicts: seq<Variant>)
    | Struct(members: seq<Variant>)

  datatype Entry = Entry(key: string, datum: Variant)

  /** Names for numbers. */
  type IntMap = seq<Mapping>
  datatype Mapping = Mapping(name: string, value: UInt)
  type UInt = x: int | 0 <= x < UINT

  const UINT: int := 0x1_0000_0000

  datatype Type =
    | VoidType
    | ScalarType(kind: Kind, bitmap: Option<IntMap>, enums: Option<IntMap>)
    | StructType
    | UnionType(discriminant: string, cases: seq<Named>)
    | ArrayType(element: Type, elementName: string)
    | DictType(children: seq<Named>, groups: seq<Group>)

  /** A type under a name, with what a dict demands of it. */
  datatype Named = Named(name: string, ty: Type, mandatory: bool, group: Option<nat>)

  datatype Relation = Required | Exclusive
  datatype Group = Group(id: nat, relation: Relation)

  /** The place of a name, or the number of names. */
  function FindType(ts: seq<Named>, name: string): (k: nat)
    ensures k <= |ts| && (k < |ts| ==> ts[k].name == name) && forall i :: 0 <= i < k ==> ts[i].name != name
  {
    if ts == [] || ts[0].name == name then 0 else FindType(ts[1..], name) + 1
  }

  // ------------------------------------------------------------ names for numbers

  /** The number for a name, whatever its case. */
  function ParseMapped(name: string, m: IntMap): (r: Option<nat>)
    ensures r.Some? ==> r.value < UINT
  {
    if m == [] then None
    else if Lower(m[0].name) == Lower(name) then Some(m[0].value)
    else ParseMapped(name, m[1..])
  }

  function FormatMapped(value: nat, m: IntMap): Option<string> {
    if m == [] then None
    else if m[0].value == value then Some(m[0].name)
    else FormatMapped(value, m[1..])
  }

  /** No two names are the same but for their case. */
  predicate NamesDiffer(m: IntMap) {
    forall i, j :: 0 <= i < j < |m| ==> Lower(m[i].name) != Lower(m[j].name)
  }

  lemma {:induction false} ParseFormat(value: nat, m: IntMap)
    requires NamesDiffer(m) && FormatMapped(value, m).Some?
    ensures ParseMapped(FormatMapped(value, m).value, m) == Some(value)
    ensures exists x <- m :: x.name == FormatMapped(value, m).value
  {
    if m[0].value != value {
      ParseFormat(value, m[1..]);
      var x :| x in m[1..] && x.name == FormatMapped(value, m).value;
      var i :| 0 <= i < |m[1..]| && m[1..][i] == x;
      assert m[i + 1] == x;
    } else {
      assert m[0] in m;
    }
  }

  // ------------------------------------------------------------------ integers

  predicate Numeric(kind: Kind) { !kind.Str? && !kind.ObjectPath? && !kind.Flag? }

  /** A number cut to the width of its kind, in two's complement. */
  function Signed(value: int, modulus: int): int
    requires modulus > 0
  {
    var v := value % modulus;
    if v >= modulus / 2 then v - modulus else v
  }

  function Cut(kind: Kind, value: int): int {
    match kind
    case Byte => value % 0x100
    case Int16 => Signed(value, 0x1_0000)
    case UInt16 => value % 0x1_0000
    case Int32 => Signed(value, 0x1_0000_0000)
    case UInt32 => value % 0x1_0000_0000
    case Bool => value % 0x1_0000_0000
    case Int64 => Signed(value, ULONG)
    case UInt64 => value % ULONG
    case _ => value
  }

  predicate Fits(kind: Kind, value: int) { Cut(kind, value) == value }

  // -------------------------------------------------------------------- bits

  function Pow2(n: nat): nat {
    if n == 0 then 1 else 2 * Pow2(n - 1)
  }

  lemma {:induction false} Pow2Positive(n: nat)
    ensures Pow2(n) > 0
  {
    if n > 0 { Pow2Positive(n - 1); }
  }

  /** The constant 1 << b is an int: the one for bit 31 fills all higher bits
      when it is widened to 64 bits. */
  predicate BitSet(value: nat, b: nat) {
    if b < 31 then (value / Positive(b)) % 2 == 1 else value / 0x8000_0000 > 0
  }

  function Positive(n: nat): (p: nat)
    ensures p > 0
  {
    Pow2Positive(n);
    Pow2(n)
  }

  /** The bits below n, and for n = 32 what bit 31 stands for. */
  function WithBit(value: nat, b: nat): nat {
    if b < 31 then (if BitSet(value, b) then value else value + Pow2(b))
    else value % 0x8000_0000 + (ULONG - 0x8000_0000)
  }

  // ------------------------------------------------------- scalars, to XML

  /** A scalar as a string. */
  function Sprint(v: Variant): Option<string> {
    match v
    case Text(_, s) => Some(s)
    case Num(kind, value) =>
      (match kind
       case Byte => Some(Hex(value % 0x100, true))
       case Bool => Some(if value != 0 then "true" else "false")
       case _ => Some(SignedDecimal(value)))
    case Struct(_) => Some("<struct>")
    case _ => Some("<unknown type>")
  }

  /** One child for every bit that has a name, from bit b on. */
  function BitNodes(value: nat, m: IntMap, b: nat): seq<Node>
    requires b <= 32
    decreases 32 - b
  {
    if b == 32 then []
    else (if BitSet(value, b) && FormatMapped(b, m).Some? then [Leaf(FormatMapped(b, m).value)] else []) + BitNodes(value, m, b + 1)
  }

  function Leaf(name: string): Node { Node(Some(name), [], None, []) }

  predicate IsArray(v: Variant) { v.Array? || v.Dict? || v.DictArray? }

  function DeserializeScalar(v: Variant, kind: Kind, bitmap: Option<IntMap>, enums: Option<IntMap>, node: Node): Option<Node> {
    if IsArray(v) then None
    else if kind.Flag? then (if v.Num? && v.kind.Byte? then Some(node) else None)
    else if bitmap.Some? then
      if v.Num? && Numeric(v.kind) then Some(node.(children := node.children + BitNodes(v.value % ULONG, bitmap.value, 0))) else None
    else if enums.Some? then
      if v.Num? && Numeric(v.kind) then
        var value := v.value % 0x1_0000_0000;
        var name := FormatMapped(value, enums.value);
        Some(node.(cdata := Some(if name.Some? then name.value else Decimal(value))))
      else None
    else match Sprint(v)
      case Some(s) => Some(node.(cdata := Some(s)))
      case None => None
  }

  // ----------------------------------------------------- scalars, from XML

  /** The bits that the children name. */
  function Bits(cs: seq<Node>, m: IntMap, value: nat): Option<nat> {
    if cs == [] then Some(value)
    else if cs[0].name.None? then None
    else match ParseMapped(cs[0].name.value, m)
      case None => None
      case Some(b) => if b >= 32 then None else Bits(cs[1..], m, WithBit(value, b))
  }

  /** A number of 32 bits that starts with a digit. */
  function ParseUint(s: string): Option<nat> {
    if s == "" || !('0' <= s[0] <= '9') then None
    else match Number(s)
      case None => None
      case Some(x) => if x.1 < 0x1_0000_0000 then Some(x.1) else None
  }

  function ParseEnum(s: string, m: IntMap): Option<nat> {
    var mapped := ParseMapped(s, m);
    if mapped.Some? then mapped else ParseUint(s)
  }

  /** A scalar from a string. The text of an object path is set as a string,
      which makes it one. */
  function ParseScalar(kind: Kind, s: string): Option<Variant> {
    match kind
    case Str => Some(Text(Str, s))
    case ObjectPath => Some(Text(Str, s))
    case Flag => None
    case Bool =>
      if s == "true" then Some(Num(Bool, 1))
      else if s == "false" then Some(Num(Bool, 0))
      else (match Strtoul(s) case Some(v) => Some(Num(kind, Cut(kind, v))) case None => None)
    case _ =>
      if kind.Int16? || kind.Int32? || kind.Int64?
      then (match Strtol(s) case Some(v) => Some(Num(kind, Cut(kind, v))) case None => None)
      else (match Strtoul(s) case Some(v) => Some(Num(kind, Cut(kind, v))) case None => None)
  }

  /** Set a number; only numbers can be. */
  function SetNumber(kind: Kind, value: int): Option<Variant> {
    if Numeric(kind) then Some(Num(kind, Cut(kind, value))) else None
  }

  function SerializeScalar(node: Node, kind: Kind, bitmap: Option<IntMap>, enums: Option<IntMap>): Option<Variant> {
    if kind.Flag? then Some(Num(Byte, 0))
    else if bitmap.Some? then
      (match Bits(node.children, bitmap.value, 0) case Some(v) => SetNumber(kind, v) case None => None)
    else if node.cdata.None? then None
    else if enums.Some? then
      (match ParseEnum(node.cdata.value, enums.value) case Some(v) => SetNumber(kind, v) case None => None)
    else ParseScalar(kind, node.cdata.value)
  }

  // -------------------------------------------------------- everything, to XML

  function PrintItem(v: Variant): Option<string> {
    match v
    case Text(_, s) => Some(s)
    case Num(kind, value) => if kind.Byte? then Some(Hex(value % 0x100, false)) else None
    case _ => None
  }

  /** Array elements from i on as children. */
  function ItemNodes(items: seq<Variant>, name: string): Option<seq<Node>> {
    if items == [] then Some([])
    else match PrintItem(items[0])
      case None => None
      case Some(s) =>
        match ItemNodes(items[1..], name)
        case None => None
        case Some(rest) => Some([Leaf(name).(cdata := Some(s))] + rest)
  }

  function Deserialize(v: Variant, t: Type, node: Node): Option<Node>
    decreases t, 1, 0
  {
    match t
    case VoidType => Some(node)
    case ScalarType(kind, bitmap, enums) => DeserializeScalar(v, kind, bitmap, enums, node)
    case StructType => None
    case UnionType(d, cases) =>
      if !v.Struct? || v.members == [] || !v.members[0].Text? || !v.members[0].kind.Str? then None
      else
        var kind := v.members[0].text;
        var k := FindType(cases, kind);
        var tagged := node.(attrs := SetVar(node.attrs, d, Some(kind)));
        if k == |cases| then None
        else if cases[k].ty.VoidType? then Some(tagged)
        else if |v.members| < 2 then None
        else Deserialize(v.members[1], cases[k].ty, tagged)
    case ArrayType(element, name) =>
      if element.ScalarType? then
        if v.Array? then
          (match ItemNodes(v.items, name) case Some(cs) => Some(node.(children := node.children + cs)) case None => None)
        else if v == DictArray([]) then Some(node) else None
      else if element.DictType? && v.DictArray? then DeserializeDicts(v.dicts, t, node)
      else None
    case DictType(children, _) =>
      if !v.Dict? then None else DeserializeEntries(v.entries, t, node)
  }

  function DeserializeDicts(dicts: seq<Variant>, t: Type, node: Node): Option<Node>
    requires t.ArrayType?
    decreases t, 0, |dicts|
  {
    if dicts == [] then Some(node)
    else match Deserialize(dicts[0], t.element, Leaf(t.elementName))
      case None => None
      case Some(c) => DeserializeDicts(dicts[1..], t, node.(children := node.children + [c]))
  }

  /** Entries that the type does not know are left out. */
  function DeserializeEntries(es: seq<Entry>, t: Type, node: Node): Option<Node>
    requires t.DictType?
    decreases t, 0, |es|
  {
    if es == [] then Some(node)
    else
      var k := FindType(t.children, es[0].key);
      if k == |t.children| then DeserializeEntries(es[1..], t, node)
      else match Deserialize(es[0].datum, t.children[k].ty, Leaf(es[0].key))
        case None => None
        case Some(c) => DeserializeEntries(es[1..], t, node.(children := node.children + [c]))
  }

  // ------------------------------------------------------ everything, from XML

  /** One array element from a string; only strings, object paths and bytes
      are possible. */
  function ParseItem(kind: Kind, s: string): Option<Variant> {
    match kind
    case Str => Some(Text(kind, s))
    case ObjectPath => Some(Text(kind, s))
    case Byte => (match Strtoul(s) case Some(v) => Some(Num(Byte, v % 0x100)) case None => None)
    case _ => None
  }

  function ParseItems(cs: seq<Node>, kind: Kind): Option<seq<Variant>> {
    if cs == [] then Some([])
    else if cs[0].cdata.None? then None
    else match ParseItem(kind, cs[0].cdata.value)
      case None => None
      case Some(v) =>
        match ParseItems(cs[1..], kind)
        case None => None
        case Some(rest) => Some([v] + rest)
  }

  function Serialize(node: Node, t: Type): Option<Variant>
    decreases t, 1, 0
  {
    match t
    case VoidType => Some(Unset)
    case ScalarType(kind, bitmap, enums) => SerializeScalar(node, kind, bitmap, enums)
    case StructType => None
    case UnionType(d, cases) =>
      (match Lookup(node.attrs, d)
       case Some(Some(kind)) =>
         var k := FindType(cases, kind);
         if k == |cases| then None
         else if cases[k].ty.VoidType? then Some(Struct([Text(Str, kind)]))
         else (match Serialize(node, cases[k].ty) case Some(v) => Some(Struct([Text(Str, kind), v])) case None => None)
       case _ => None)
    case ArrayType(element, _) =>
      if element.ScalarType? then
        if element.kind.Flag? then None
        else (match ParseItems(node.children, element.kind) case Some(items) => Some(Array(element.kind, items)) case None => None)
      else if element.DictType? then
        (match SerializeDicts(node.children, t) case Some(ds) => Some(DictArray(ds)) case None => None)
      else None
    case DictType(_, _) =>
      (match SerializeEntries(node.children, t) case Some(es) => Some(Dict(es)) case None => None)
  }

  function SerializeDicts(cs: seq<Node>, t: Type): Option<seq<Variant>>
    requires t.ArrayType?
    decreases t, 0, |cs|
  {
    if cs == [] then Some([])
    else match Serialize(cs[0], t.element)
      case None => None
      case Some(v) =>
        match SerializeDicts(cs[1..], t)
        case None => None
        case Some(rest) => Some([v] + rest)
  }

  /** Children that the type does not know are left out. */
  function SerializeEntries(cs: seq<Node>, t: Type): Option<seq<Entry>>
    requires t.DictType?
    decreases t, 0, |cs|
  {
    if cs == [] then Some([])
    else if cs[0].name.None? then SerializeEntries(cs[1..], t)
    else
      var k := FindType(t.children, cs[0].name.value);
      if k == |t.children| then SerializeEntries(cs[1..], t)
      else match Serialize(cs[0], t.children[k].ty)
        case None => None
        case Some(v) =>
          match SerializeEntries(cs[1..], t)
          case None => None
          case Some(rest) => Some([Entry(cs[0].name.value, v)] + rest)
  }

  // -------------------------------------------------------------- conforming

  /** The numbers of a kind. */
  predicate NumValue(v: Variant, kind: Kind) {
    v.Num? && v.kind == kind && Numeric(kind) && if kind.Bool? then 0 <= v.value <= 1 else Fits(kind, v.value)
  }

  /** A flag is there or not, and encoded as a byte. */
  predicate ScalarValue(v: Variant, kind: Kind) {
    match kind
    case Flag => NumValue(v, Byte)
    case Str => v.Text? && v.kind == kind
    case ObjectPath => v.Text? && v.kind == kind
    case _ => NumValue(v, kind)
  }

  /** The variants that a type describes. */
  predicate Conforms(v: Variant, t: Type)
    decreases t, 1
  {
    match t
    case VoidType => v.Unset?
    case ScalarType(kind, bitmap, enums) =>
      ScalarValue(v, kind) && (kind.Flag? || (bitmap.None? && enums.None?) || Numeric(kind))
    case StructType => false
    case UnionType(d, cases) =>
      && v.Struct? && 1 <= |v.members| <= 2 && v.members[0].Text? && v.members[0].kind.Str?
      && (var k := FindType(cases, v.members[0].text);
          && k < |cases|
          && (cases[k].ty.VoidType? <==> |v.members| == 1)
          && (|v.members| == 2 ==> Conforms(v.members[1], cases[k].ty)))
    case ArrayType(element, _) =>
      if element.ScalarType? then
        && v.Array? && v.kind == element.kind && !v.kind.Flag?
        && forall x <- v.items :: ScalarValue(x, v.kind)
      else element.DictType? && v.DictArray? && forall x <- v.dicts :: Conforms(x, element)
    case DictType(children, _) =>
      v.Dict? && forall e <- v.entries :: EntryConforms(e, t)
  }

  // ----------------------------------------------------- what the XML can hold

  /** What the name of bit b is read as. */
  function Meaning(b: nat, m: IntMap): Option<nat> {
    match FormatMapped(b, m)
    case Some(name) => ParseMapped(name, m)
    case None => None
  }

  /** The name of some bit of the value, from bit b on, stands for bit c. */
  predicate Meant(value: nat, m: IntMap, b: nat, c: nat)
    requires b <= 32
    decreases 32 - b
  {
    b < 32 && ((BitSet(value, b) && Meaning(b, m) == Some(c)) || Meant(value, m, b + 1, c))
  }

  /** No name of a bit of the value, from bit b on, stands for a number that is
      no bit. */
  predicate Readable(value: nat, m: IntMap, b: nat)
    requires b <= 32
    decreases 32 - b
  {
    b == 32
    || ((BitSet(value, b) && Meaning(b, m).Some? ==> Meaning(b, m).value < 32) && Readable(value, m, b + 1))
  }

  predicate Wide(kind: Kind) { kind.Int64? || kind.UInt64? }

  /** How many bits of a number have a place of their own in a bitmap. */
  function Places(kind: Kind): nat {
    match kind
    case Byte => 8
    case Int16 => 16
    case UInt16 => 16
    case _ => 32
  }

  /** The names of a bitmap's bits say which bits these are; a wide number has
      no bits beyond, except that bit 31 stands for all of them. */
  predicate BitsKept(kind: Kind, m: IntMap, value: int) {
    var u := value % ULONG;
    && Readable(u, m, 0)
    && (forall c: nat :: c < Places(kind) ==> (BitSet(u, c) <==> Meant(u, m, 0, c)))
    && (Wide(kind) ==> u < 0x8000_0000 || u >= ULONG - 0x8000_0000)
  }

  /** How a number of an enumeration is printed, and what that is read as. */
  function EnumText(u: nat, m: IntMap): string {
    var name := FormatMapped(u, m);
    if name.Some? then name.value else Decimal(u)
  }

  function EnumMeaning(u: nat, m: IntMap): nat {
    var read := ParseMapped(EnumText(u, m), m);
    if read.Some? then read.value else u
  }

  /** A number of an enumeration passes through 32 bits, and what is printed
      for it stands for the same number. */
  predicate EnumKept(kind: Kind, m: IntMap, value: int) {
    var u := value % UINT;
    && (Wide(kind) ==> 0 <= value < UINT)
    && Cut(kind, EnumMeaning(u, m)) == Cut(kind, u)
  }

  /** The kind that a variant, converted to XML, leaves in an attribute: a union
      in a union writes its own after the outer one. */
  function Leaves(v: Variant, t: Type, attr: string): Option<string>
    requires Conforms(v, t)
    decreases t
  {
    if !t.UnionType? then None
    else
      var kind := v.members[0].text;
      var inner := if |v.members| == 2 then Leaves(v.members[1], t.cases[FindType(t.cases, kind)].ty, attr) else None;
      if inner.Some? then inner else if attr == t.discriminant then Some(kind) else None
  }

  /** Only strings, object paths and bytes can be elements of an array in
      XML. */
  predicate ItemKind(kind: Kind) { kind.Str? || kind.ObjectPath? || kind.Byte? }

  /** All of a variant but its object paths survives in XML: flags are zero,
      bits and enumerations have the right names, no union's kind is
      overwritten by one in it, and array elements are strings, paths or
      bytes. */
  predicate Kept(v: Variant, t: Type)
    requires Conforms(v, t)
    decreases t, 1
  {
    match t
    case ScalarType(kind, bitmap, enums) =>
      if kind.Flag? then v.value == 0
      else if bitmap.Some? then BitsKept(kind, bitmap.value, v.value)
      else enums.Some? ==> EnumKept(kind, enums.value, v.value)
    case UnionType(d, cases) =>
      var kind := v.members[0].text;
      |v.members| == 2 ==>
        (var ty := cases[FindType(cases, kind)].ty;
         && (Leaves(v.members[1], ty, d).None? || Leaves(v.members[1], ty, d) == Some(kind))
         && Kept(v.members[1], ty))
    case ArrayType(element, _) =>
      if element.ScalarType? then v.items == [] || ItemKind(v.kind)
      else forall x <- v.dicts :: Kept(x, element)
    case DictType(_, _) => forall e <- v.entries :: EntryKept(e, t)
    case _ => true
  }

  predicate EntryKept(e: Entry, t: Type)
    requires t.DictType? && EntryConforms(e, t)
    decreases t, 0
  {
    Kept(e.datum, t.children[FindType(t.children, e.key)].ty)
  }

  // ------------------------------------------------------------- the round trip

  /** What a conforming variant comes back as: an object path that is not in an
      array turns into a string. */
  function Settled(v: Variant, t: Type): Variant
    requires Conforms(v, t)
    decreases t, 1
  {
    match t
    case ScalarType(kind, _, _) => if v.Text? then Text(Str, v.text) else v
    case UnionType(d, cases) =>
      if |v.members| == 1 then v
      else v.(members := [v.members[0], Settled(v.members[1], cases[FindType(cases, v.members[0].text)].ty)])
    case ArrayType(element, _) => if element.ScalarType? then v else v.(dicts := SettledDicts(v.dicts, t))
    case DictType(_, _) => v.(entries := SettledEntries(v.entries, t))
    case _ => v
  }

  function SettledDicts(ds: seq<Variant>, t: Type): seq<Variant>
    requires t.ArrayType? && !t.element.ScalarType? && forall x <- ds :: Conforms(x, t.element)
    decreases t, 0, |ds|
  {
    if ds == [] then [] else [Settled(ds[0], t.element)] + SettledDicts(ds[1..], t)
  }

  predicate EntryConforms(e: Entry, t: Type)
    requires t.DictType?
    decreases t, 0
  {
    var k := FindType(t.children, e.key); k < |t.children| && Conforms(e.datum, t.children[k].ty)
  }

  function SettledEntries(es: seq<Entry>, t: Type): seq<Entry>
    requires t.DictType? && forall e <- es :: EntryConforms(e, t)
    decreases t, 0, |es|
  {
    if es == [] then []
    else
      assert EntryConforms(es[0], t);
      [es[0].(datum := Settled(es[0].datum, t.children[FindType(t.children, es[0].key)].ty))] + SettledEntries(es[1..], t)
  }
}
