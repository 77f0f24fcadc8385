/** Which variants that conform to a schema type survive the conversion to XML
    and back, and what becomes of object paths outside arrays. */
module SchemaRoundTrip {
  import opened Wrappers
  import opened VarArrays
  import opened CNumbers
  import opened XmlTree
  import opened Schema

  // ------------------------------------------------------------------- bits

  lemma DivUnique(v: nat, m: nat, q: nat, r: nat)
    requires m > 0 && v == m * q + r && r < m
    ensures v / m == q && v % m == r
  {
    var q', r' := v / m, v % m;
    assert v == m * q' + r';
    if q > q' {
      MulMore(m, q, q');
    } else if q < q' {
      MulMore(m, q', q);
    }
  }

  lemma MulMore(m: nat, a: nat, b: nat)
    requires a > b
    ensures m * a >= m * b + m
  {
    assert m * a == m * b + m * (a - b);
    assert m * (a - b) == m * (a - b - 1) + m;
  }

  lemma ModDouble(v: nat, p: nat)
    requires p > 0
    ensures v % (2 * p) == v % p + (if (v / p) % 2 == 1 then p else 0)
  {
    var q, r := v / p, v % p;
    var h, e := q / 2, q % 2;
    assert v == p * q + r && q == 2 * h + e;
    assert p * (2 * h + e) == 2 * p * h + p * e;
    DivUnique(v, 2 * p, h, p * e + r);
  }

  lemma Powers()
    ensures Pow2(8) == 0x100 && Pow2(16) == 0x1_0000 && Pow2(31) == 0x8000_0000
  {
    assert Pow2(8) == 256;
    assert Pow2(16) == 0x1_0000;
    assert Pow2(24) == 0x100_0000;
  }

  lemma {:induction false} PowSplit(a: nat, b: nat)
    ensures Pow2(a + b) == Pow2(a) * Pow2(b)
  {
    if b > 0 {
      PowSplit(a, b - 1);
    }
  }

  /** An even multiple of a bit does not change it. */
  lemma EvenMultiple(x: nat, p: nat, k: nat)
    requires p > 0
    ensures (x + p * (2 * k)) / p % 2 == x / p % 2
  {
    var q, r := x / p, x % p;
    assert x == p * q + r;
    assert x + p * (2 * k) == p * (q + 2 * k) + r;
    DivUnique(x + p * (2 * k), p, q + 2 * k, r);
  }

  /** The number that 32 bits make up, widened. */
  function FromBits(bs: seq<bool>): nat
    requires |bs| == 32
  {
    FromLow(bs, 31) + if bs[31] then ULONG - 0x8000_0000 else 0
  }

  function FromLow(bs: seq<bool>, n: nat): nat
    requires n <= |bs|
  {
    if n == 0 then 0 else FromLow(bs, n - 1) + if bs[n - 1] then Pow2(n - 1) else 0
  }

  lemma {:induction false} FromLowBound(bs: seq<bool>, n: nat)
    requires n <= |bs|
    ensures FromLow(bs, n) < Pow2(n)
  {
    if n > 0 {
      FromLowBound(bs, n - 1);
    }
  }

  lemma {:induction false} FromLowBit(bs: seq<bool>, n: nat, c: nat)
    requires c < n <= |bs|
    ensures FromLow(bs, n) / Positive(c) % 2 == 1 <==> bs[c]
  {
    var x := FromLow(bs, n - 1);
    if c == n - 1 {
      FromLowBound(bs, c);
      DivUnique(FromLow(bs, n), Positive(c), if bs[c] then 1 else 0, x);
    } else {
      FromLowBit(bs, n - 1, c);
      PowSplit(c + 1, n - 2 - c);
      assert Pow2(n - 1) == Positive(c) * (2 * Pow2(n - 2 - c));
      EvenMultiple(x, Positive(c), Pow2(n - 2 - c));
    }
  }

  lemma {:induction false} FromLowSet(bs: seq<bool>, n: nat, b: nat)
    requires n <= |bs| && b < |bs|
    ensures FromLow(bs[b := true], n) == FromLow(bs, n) + if b < n && !bs[b] then Pow2(b) else 0
  {
    if n > 0 {
      FromLowSet(bs, n - 1, b);
    }
  }

  lemma FromBitsBit(bs: seq<bool>, c: nat)
    requires |bs| == 32 && c < 32
    ensures BitSet(FromBits(bs), c) <==> bs[c]
  {
    if c < 31 {
      FromLowBit(bs, 31, c);
      TopMultiple(c);
      hide Pow2, FromLow;
      EvenMultiple(FromLow(bs, 31), Positive(c), Pow2(30 - c) * 0x1_ffff_ffff);
    } else {
      Powers();
      FromLowBound(bs, 31);
      hide Pow2, FromLow;
    }
  }

  /** All bits from bit 31 on are an even multiple of a lower bit. */
  lemma TopMultiple(c: nat)
    requires c < 31
    ensures Positive(c) * (2 * (Pow2(30 - c) * 0x1_ffff_ffff)) == ULONG - 0x8000_0000
  {
    PowSplit(c, 30 - c);
    Powers();
    var p, q := Positive(c), Pow2(30 - c);
    assert p * q == 0x4000_0000 by {
      assert Pow2(31) == 2 * Pow2(30);
    }
    hide Pow2;
    Rearranged(p, q, 0x1_ffff_ffff);
  }

  lemma Rearranged(p: nat, q: nat, n: nat)
    ensures p * (2 * (q * n)) == 2 * n * (p * q)
  {
  }

  /** Or-ing a bit into a number sets that bit and no other. */
  lemma WithBitSets(bs: seq<bool>, b: nat)
    requires |bs| == 32 && b < 32
    ensures WithBit(FromBits(bs), b) == FromBits(bs[b := true])
  {
    FromBitsBit(bs, b);
    FromLowSet(bs, 31, b);
    if b == 31 {
      Powers();
      FromLowBound(bs, 31);
      TopBit(FromLow(bs, 31), bs[31]);
    }
  }

  lemma TopBit(low: nat, top: bool)
    requires low < 0x8000_0000
    ensures (low + if top then ULONG - 0x8000_0000 else 0) % 0x8000_0000 == low
  {
    DivUnique(low + if top then ULONG - 0x8000_0000 else 0, 0x8000_0000, if top then 0x1_ffff_ffff else 0, low);
  }

  /** Two numbers agree below bit w just if their bits do. */
  lemma {:induction false} SameLow(x: nat, y: nat, w: nat)
    requires w <= 31
    ensures x % Positive(w) == y % Positive(w) <==> forall c: nat :: c < w ==> (BitSet(x, c) <==> BitSet(y, c))
  {
    if w > 0 {
      SameLow(x, y, w - 1);
      ModDouble(x, Positive(w - 1));
      ModDouble(y, Positive(w - 1));
      assert Pow2(w) == 2 * Pow2(w - 1);
      assert BitSet(x, w - 1) <==> x / Positive(w - 1) % 2 == 1;
      assert BitSet(y, w - 1) <==> y / Positive(w - 1) % 2 == 1;
    }
  }

  // ---------------------------------------------------------------- bitmaps

  lemma {:induction false} NameIsRead(value: nat, m: IntMap)
    ensures FormatMapped(value, m).Some? ==> Meaning(value, m).Some?
  {
    if FormatMapped(value, m).Some? {
      Found(value, m, FormatMapped(value, m).value);
    }
  }

  lemma {:induction false} Found(value: nat, m: IntMap, name: string)
    requires FormatMapped(value, m) == Some(name)
    ensures ParseMapped(name, m).Some?
  {
    if m[0].value != value {
      Found(value, m[1..], name);
    }
  }

  /** The bits that the names of a value's bits, from bit b on, stand for. */
  function Collected(value: nat, m: IntMap, b: nat, bs: seq<bool>): (r: seq<bool>)
    requires b <= 32 && |bs| == 32 && Readable(value, m, b)
    ensures |r| == 32
    decreases 32 - b
  {
    if b == 32 then bs
    else Collected(value, m, b + 1, if BitSet(value, b) && Meaning(b, m).Some? then bs[Meaning(b, m).value := true] else bs)
  }

  lemma {:induction false} CollectedIff(value: nat, m: IntMap, b: nat, bs: seq<bool>, c: nat)
    requires b <= 32 && |bs| == 32 && Readable(value, m, b) && c < 32
    ensures Collected(value, m, b, bs)[c] <==> bs[c] || Meant(value, m, b, c)
    decreases 32 - b
  {
    if b < 32 {
      hide BitSet, Meaning;
      var next := if BitSet(value, b) && Meaning(b, m).Some? then bs[Meaning(b, m).value := true] else bs;
      CollectedIff(value, m, b + 1, next, c);
    }
  }

  /** The children made for a bitmap are read as the bits that their names stand
      for. */
  lemma {:induction false} BitsOfNodes(value: nat, m: IntMap, b: nat, bs: seq<bool>)
    requires b <= 32 && |bs| == 32
    ensures Bits(BitNodes(value, m, b), m, FromBits(bs))
      == if Readable(value, m, b) then Some(FromBits(Collected(value, m, b, bs))) else None
    decreases 32 - b
  {
    if b < 32 {
      hide BitSet, FromBits, WithBit;
      var rest := BitNodes(value, m, b + 1);
      NameIsRead(b, m);
      if BitSet(value, b) && FormatMapped(b, m).Some? {
        var cs, p := [Leaf(FormatMapped(b, m).value)] + rest, Meaning(b, m).value;
        assert BitNodes(value, m, b) == cs && cs[1..] == rest;
        if p < 32 {
          WithBitSets(bs, p);
          BitsOfNodes(value, m, b + 1, bs[p := true]);
        }
      } else {
        assert BitNodes(value, m, b) == rest;
        BitsOfNodes(value, m, b + 1, bs);
      }
    }
  }

  function NoBits(): seq<bool> { seq(32, i => false) }

  lemma {:induction false} NoBitsZero(n: nat)
    requires n <= 32
    ensures FromLow(NoBits(), n) == 0
  {
    if n > 0 {
      NoBitsZero(n - 1);
    }
  }

  /** A number of at most 16 bits is made up of the bits that have a place. */
  lemma CutNarrow(kind: Kind, value: int, r: nat)
    requires (kind.Byte? || kind.Int16? || kind.UInt16?) && Fits(kind, value)
    ensures Cut(kind, r) == value <==> forall c: nat :: c < Places(kind) ==> (BitSet(value % ULONG, c) <==> BitSet(r, c))
  {
    SameLow(value % ULONG, r, Places(kind));
    Powers();
    hide Pow2, BitSet;
    if kind.Byte? {
      CutByte(value, r);
    } else {
      CutShort(kind, value, r);
    }
  }

  lemma CutByte(value: int, r: nat)
    requires Fits(Byte, value)
    ensures Cut(Byte, r) == value <==> r % 0x100 == value % ULONG % 0x100
  {
    assert 0 <= value < 0x100;
  }

  lemma CutShort(kind: Kind, value: int, r: nat)
    requires (kind.Int16? || kind.UInt16?) && Fits(kind, value)
    ensures Cut(kind, r) == value <==> r % 0x1_0000 == value % ULONG % 0x1_0000
  {
    assert -0x8000 <= value < 0x1_0000;
    var u := value % ULONG;
    assert u == if value < 0 then ULONG + value else value;
    assert u % 0x1_0000 == if value < 0 then 0x1_0000 + value else value;
  }

  /** 32 bits and more: the bits up to 30 make up one part, the rest is all that
      bit 31 stands for. */
  lemma CutFull(kind: Kind, value: int, bs: seq<bool>)
    requires NumValue(Num(kind, value), kind) && Places(kind) == 32 && |bs| == 32
    ensures var u := value % ULONG;
      Cut(kind, FromBits(bs)) == value
      <==> u % 0x8000_0000 == FromLow(bs, 31) && (BitSet(u, 31) <==> bs[31])
           && (Wide(kind) ==> u < 0x8000_0000 || u >= ULONG - 0x8000_0000)
  {
    Powers();
    FromLowBound(bs, 31);
    var u, low := value % ULONG, FromLow(bs, 31);
    TopBit(low, bs[31]);
    assert u == 0x8000_0000 * (u / 0x8000_0000) + u % 0x8000_0000;
    if Wide(kind) {
      CutWide(kind, value, low, bs[31]);
    } else {
      CutWord(kind, value, low, bs[31]);
    }
  }

  lemma CutWide(kind: Kind, value: int, low: nat, top: bool)
    requires Wide(kind) && Fits(kind, value) && low < 0x8000_0000
    ensures var u := value % ULONG;
      Cut(kind, low + if top then ULONG - 0x8000_0000 else 0) == value
      <==> u % 0x8000_0000 == low && (BitSet(u, 31) <==> top) && (u < 0x8000_0000 || u >= ULONG - 0x8000_0000)
  {
    var u := value % ULONG;
    var r := low + if top then ULONG - 0x8000_0000 else 0;
    assert 0 <= r < ULONG && (Cut(kind, r) == value <==> r == u);
    TopBit(low, top);
    if u < 0x8000_0000 {
      DivUnique(u, 0x8000_0000, 0, u);
    } else if u >= ULONG - 0x8000_0000 {
      DivUnique(u, 0x8000_0000, 0x1_ffff_ffff, u - (ULONG - 0x8000_0000));
    }
  }

  lemma CutWord(kind: Kind, value: int, low: nat, top: bool)
    requires NumValue(Num(kind, value), kind) && !Wide(kind) && Places(kind) == 32 && low < 0x8000_0000
    ensures var u := value % ULONG;
      Cut(kind, low + if top then ULONG - 0x8000_0000 else 0) == value
      <==> u % 0x8000_0000 == low && (BitSet(u, 31) <==> top)
  {
    var u := value % ULONG;
    var r := low + if top then ULONG - 0x8000_0000 else 0;
    var w := low + if top then 0x8000_0000 else 0;
    DivUnique(r, UINT, if top then 0xffff_ffff else 0, w);
    var k := if value < 0 then value + UINT else value;
    assert 0 <= k < UINT && (Cut(kind, r) == value <==> w == k);
    assert u == if value < 0 then ULONG + value else value;
    if value < 0 {
      DivUnique(u, 0x8000_0000, 0x1_ffff_ffff, value + 0x8000_0000);
    } else if value >= 0x8000_0000 {
      DivUnique(u, 0x8000_0000, 1, value - 0x8000_0000);
    } else {
      DivUnique(u, 0x8000_0000, 0, value);
    }
  }

  lemma CutBits(kind: Kind, value: int, bs: seq<bool>)
    requires NumValue(Num(kind, value), kind) && |bs| == 32
    ensures var u := value % ULONG;
      Cut(kind, FromBits(bs)) == value
      <==> (forall c: nat :: c < Places(kind) ==> (BitSet(u, c) <==> bs[c]))
           && (Wide(kind) ==> u < 0x8000_0000 || u >= ULONG - 0x8000_0000)
  {
    var u, r := value % ULONG, FromBits(bs);
    forall c: nat | c < 32 ensures BitSet(r, c) <==> bs[c] {
      FromBitsBit(bs, c);
    }
    if Places(kind) < 32 {
      CutNarrow(kind, value, r);
    } else {
      Powers();
      FromLowBound(bs, 31);
      TopBit(FromLow(bs, 31), bs[31]);
      SameLow(u, r, 31);
      CutFull(kind, value, bs);
      hide Cut, BitSet, FromLow, Fits;
    }
  }

  // ---------------------------------------------------------------- scalars

  /** A bitmap survives exactly if the names of its bits say which bits these
      are. */
  lemma BitmapRoundTrip(v: Variant, kind: Kind, m: IntMap, enums: Option<IntMap>, node: Node)
    requires NumValue(v, kind) && node.children == []
    ensures var n := DeserializeScalar(v, kind, Some(m), enums, node);
      && n.Some? && n.value.name == node.name && n.value.attrs == node.attrs
      && (SerializeScalar(n.value, kind, Some(m), enums) == Some(v) <==> BitsKept(kind, m, v.value))
  {
    hide BitSet, Meant, Readable, Collected, BitNodes, Bits, Cut, Fits, FromLow;
    var u := v.value % ULONG;
    NoBitsZero(31);
    assert FromBits(NoBits()) == 0;
    BitsOfNodes(u, m, 0, NoBits());
    assert [] + BitNodes(u, m, 0) == BitNodes(u, m, 0);
    if Readable(u, m, 0) {
      var bs := Collected(u, m, 0, NoBits());
      forall c: nat | c < 32 ensures bs[c] <==> Meant(u, m, 0, c) {
        CollectedIff(u, m, 0, NoBits(), c);
      }
      CutBits(kind, v.value, bs);
      hide FromBits;
    }
  }

  /** Passing through 32 bits changes wide numbers only. */
  lemma CutUint(kind: Kind, value: int)
    requires NumValue(Num(kind, value), kind)
    ensures Cut(kind, value % UINT) == value <==> (Wide(kind) ==> 0 <= value < UINT)
  {
    var u := value % UINT;
    assert value == UINT * (value / UINT) + u;
    if kind.Byte? || kind.Int16? || kind.UInt16? {
      assert value % 0x1_0000 == u % 0x1_0000 && value % 0x100 == u % 0x100;
    }
  }

  lemma CutUintIff(kind: Kind, value: int, w: nat)
    requires NumValue(Num(kind, value), kind) && w < UINT
    ensures Cut(kind, w) == value <==> (Wide(kind) ==> 0 <= value < UINT) && Cut(kind, w) == Cut(kind, value % UINT)
  {
    CutUint(kind, value);
    if Wide(kind) && Cut(kind, w) == value {
      assert value == w;
    }
  }

  lemma EnumIsRead(u: nat, m: IntMap)
    requires u < UINT
    ensures ParseEnum(EnumText(u, m), m) == Some(EnumMeaning(u, m)) && EnumMeaning(u, m) < UINT
  {
    if FormatMapped(u, m).Some? {
      NameIsRead(u, m);
    } else {
      var s := Decimal(u);
      assert s[0] in s;
      NumberDecimal(u);
      assert ParseUint(s) == Some(u);
    }
  }

  /** A number of an enumeration survives exactly if 32 bits hold it and what is
      printed for it stands for the same number. */
  lemma EnumRoundTrip(v: Variant, kind: Kind, m: IntMap, node: Node)
    requires NumValue(v, kind)
    ensures var n := DeserializeScalar(v, kind, None, Some(m), node);
      && n.Some? && n.value.name == node.name && n.value.attrs == node.attrs
      && (SerializeScalar(n.value, kind, None, Some(m)) == Some(v) <==> EnumKept(kind, m, v.value))
  {
    var u := v.value % UINT;
    EnumIsRead(u, m);
    CutUintIff(kind, v.value, EnumMeaning(u, m));
    hide Cut, ParseEnum, EnumMeaning, FormatMapped, Decimal;
  }

  // ---------------------------------------- maps that were made with care

  /** Names that differ stand for their own numbers; a number without a name is
      read as itself if no name begins with a digit. */
  lemma CarefulEnum(u: nat, m: IntMap)
    requires NamesDiffer(m) && forall x <- m :: x.name != "" && !('0' <= x.name[0] <= '9')
    ensures EnumMeaning(u, m) == u
  {
    if FormatMapped(u, m).Some? {
      ParseFormat(u, m);
    } else {
      var s := Decimal(u);
      assert s[0] in s;
      NotMapped(s, m);
    }
  }

  lemma {:induction false} NotMapped(s: string, m: IntMap)
    requires s != "" && '0' <= s[0] <= '9' && forall x <- m :: x.name != "" && !('0' <= x.name[0] <= '9')
    ensures ParseMapped(s, m).None?
  {
    if m != [] {
      assert m[0] in m && forall x <- m[1..] :: x in m;
      assert Lower(s)[0] == s[0];
      assert Lower(m[0].name)[0] != s[0];
      NotMapped(s, m[1..]);
    }
  }

  /** A bitmap survives if the names differ, each of its bits has one, and it
      has none beyond the 31st that is not a sign. */
  lemma CarefulBitmap(kind: Kind, m: IntMap, value: int)
    requires NamesDiffer(m) && var u := value % ULONG;
      && (Wide(kind) ==> u < 0x8000_0000 || u >= ULONG - 0x8000_0000)
      && (forall b: nat :: b < 32 && BitSet(u, b) ==> FormatMapped(b, m).Some?)
    ensures BitsKept(kind, m, value)
  {
    var u := value % ULONG;
    forall b: nat | b < 32 && BitSet(u, b) ensures Meaning(b, m) == Some(b) {
      ParseFormat(b, m);
    }
    forall c: nat | c < 32 ensures BitSet(u, c) <==> Meant(u, m, 0, c) {
      OwnBits(u, m, 0, c);
    }
    OwnReadable(u, m, 0);
  }

  lemma {:induction false} OwnBits(u: nat, m: IntMap, b: nat, c: nat)
    requires b <= 32 && c < 32
    requires forall a: nat :: a < 32 && BitSet(u, a) ==> Meaning(a, m) == Some(a)
    ensures Meant(u, m, b, c) <==> BitSet(u, c) && b <= c
    decreases 32 - b
  {
    hide BitSet, Meaning;
    if b < 32 {
      OwnBits(u, m, b + 1, c);
    }
  }

  lemma {:induction false} OwnReadable(u: nat, m: IntMap, b: nat)
    requires b <= 32 && forall a: nat :: a < 32 && BitSet(u, a) ==> Meaning(a, m) == Some(a)
    ensures Readable(u, m, b)
    decreases 32 - b
  {
    hide BitSet, Meaning;
    if b < 32 {
      OwnReadable(u, m, b + 1);
    }
  }

  // ----------------------------------------------------------- plain scalars

  lemma PlainRoundTrip(v: Variant, kind: Kind)
    requires !kind.Flag? && ScalarValue(v, kind)
    ensures !IsArray(v) && Sprint(v).Some?
    ensures ParseScalar(kind, Sprint(v).value) == Some(if v.Text? then Text(Str, v.text) else v)
  {
    if kind.Byte? {
      ByteRoundTrip(v.value);
    } else if kind.Bool? || kind.Str? || kind.ObjectPath? {
      hide Number, Cut, Strtoul, Strtol;
    } else {
      IntegerRoundTrip(kind, v.value);
      hide Number, Cut, ParseScalar, SignedDecimal;
    }
  }

  lemma ByteRoundTrip(value: int)
    requires Fits(Byte, value)
    ensures ParseScalar(Byte, Hex(value % 0x100, true)) == Some(Num(Byte, value))
  {
    NumberHex(value, true);
    hide Number, Hex;
  }

  lemma IntegerRoundTrip(kind: Kind, value: int)
    requires Numeric(kind) && !kind.Bool? && !kind.Byte? && Fits(kind, value)
    ensures ParseScalar(kind, SignedDecimal(value)) == Some(Num(kind, value))
  {
    NumberDecimal(value);
    hide Number, SignedDecimal;
  }

  /** What is certain about a converted variant: its way back gives what is
      said, and the variant itself only if all that matters was kept. */
  predicate Returns(back: Option<Variant>, v: Variant, t: Type)
    requires Conforms(v, t)
  {
    (Kept(v, t) ==> back == Some(Settled(v, t))) && (back == Some(v) ==> Kept(v, t))
  }

  lemma ScalarRoundTrip(v: Variant, kind: Kind, bitmap: Option<IntMap>, enums: Option<IntMap>, node: Node)
    requires Conforms(v, ScalarType(kind, bitmap, enums)) && node.children == []
    ensures var n := DeserializeScalar(v, kind, bitmap, enums, node);
      && n.Some? && n.value.name == node.name && n.value.attrs == node.attrs
      && Returns(SerializeScalar(n.value, kind, bitmap, enums), v, ScalarType(kind, bitmap, enums))
  {
    if !kind.Flag? {
      if bitmap.Some? {
        BitmapRoundTrip(v, kind, bitmap.value, enums, node);
      } else if enums.Some? {
        EnumRoundTrip(v, kind, enums.value, node);
      } else {
        PlainRoundTrip(v, kind);
      }
    }
    hide BitsKept, EnumKept, Bits, ParseEnum, ParseScalar, Sprint, Cut, BitNodes;
  }

  // ----------------------------------------------------------------- arrays

  lemma ItemRoundTrip(v: Variant, kind: Kind)
    requires ScalarValue(v, kind) && !kind.Flag?
    ensures PrintItem(v).Some? <==> ItemKind(kind)
    ensures PrintItem(v).Some? ==> ParseItem(kind, PrintItem(v).value) == Some(v)
  {
    if kind.Byte? {
      NumberHex(v.value, false);
      hide Number, Hex;
      assert v.value % 0x100 == v.value;
    }
  }

  lemma {:induction false} ItemsRoundTrip(items: seq<Variant>, kind: Kind, name: string)
    requires !kind.Flag? && forall x <- items :: ScalarValue(x, kind)
    ensures ItemNodes(items, name).Some? <==> (items == [] || ItemKind(kind))
    ensures ItemNodes(items, name).Some? ==> ParseItems(ItemNodes(items, name).value, kind) == Some(items)
  {
    if items != [] {
      assert items[0] in items && forall x <- items[1..] :: x in items;
      ItemRoundTrip(items[0], kind);
      ItemsRoundTrip(items[1..], kind, name);
      if ItemKind(kind) {
        var cs := ItemNodes(items, name).value;
        assert cs[1..] == ItemNodes(items[1..], name).value;
        assert [items[0]] + items[1..] == items;
      }
    }
  }

  // ------------------------------------------------------------- everything

  /** The attributes afterwards: the kinds that unions leave, and what was there
      before. */
  ghost predicate SetsAttrs(node: Node, n: Node, v: Variant, t: Type)
    requires Conforms(v, t)
  {
    forall a: string :: Lookup(n.attrs, a) == if Leaves(v, t, a).Some? then Some(Leaves(v, t, a)) else Lookup(node.attrs, a)
  }

  /** The outcome of converting a variant to XML. */
  ghost predicate Converts(v: Variant, t: Type, node: Node, n: Option<Node>)
    requires Conforms(v, t)
  {
    match n
    case None => !Kept(v, t)
    case Some(n) => n.name == node.name && SetsAttrs(node, n, v, t) && Returns(Serialize(n, t), v, t)
  }

  /** Variants to XML and back. */
  lemma {:induction false} RoundTripInto(v: Variant, t: Type, node: Node)
    requires Conforms(v, t) && node.children == []
    ensures Converts(v, t, node, Deserialize(v, t, node))
    decreases t, 1, 0
  {
    match t
    case VoidType =>
    case ScalarType(kind, bitmap, enums) =>
      ScalarRoundTrip(v, kind, bitmap, enums, node);
      hide DeserializeScalar, SerializeScalar, Returns;
    case UnionType(_, _) => UnionRoundTrip(v, t, node);
    case ArrayType(element, name) =>
      if element.ScalarType? {
        ItemsRoundTrip(v.items, v.kind, name);
        if ItemNodes(v.items, name).Some? {
          var cs := ItemNodes(v.items, name).value;
          assert [] + cs == cs;
        }
      } else {
        var added := DictsRoundTrip(v.dicts, t, node);
        assert added.Some? ==> [] + added.value == added.value;
      }
    case DictType(_, _) =>
      var added := EntriesRoundTrip(v.entries, t, node);
      assert added.Some? ==> [] + added.value == added.value;
  }

  lemma UnionRoundTrip(v: Variant, t: Type, node: Node)
    requires t.UnionType? && Conforms(v, t) && node.children == []
    ensures Converts(v, t, node, Deserialize(v, t, node))
    decreases t, 0, 0
  {
    var d, kind := t.discriminant, v.members[0].text;
    var k := FindType(t.cases, kind);
    var ct := t.cases[k].ty;
    var tagged := node.(attrs := SetVar(node.attrs, d, Some(kind)));
    forall a: string ensures Lookup(tagged.attrs, a) == if a == d then Some(Some(kind)) else Lookup(node.attrs, a) {
      SetVarLookup(node.attrs, d, Some(kind), a);
    }
    if |v.members| == 2 {
      RoundTripInto(v.members[1], ct, tagged);
      assert v.members == [v.members[0], v.members[1]];
    } else {
      assert v.members == [v.members[0]];
    }
  }

  predicate AllKept(ds: seq<Variant>, t: Type)
    requires forall x <- ds :: Conforms(x, t)
  {
    forall x <- ds :: Kept(x, t)
  }

  lemma {:induction false} DictsRoundTrip(ds: seq<Variant>, t: Type, node: Node) returns (added: Option<seq<Node>>)
    requires t.ArrayType? && !t.element.ScalarType? && forall x <- ds :: Conforms(x, t.element)
    ensures added.None? ==> DeserializeDicts(ds, t, node).None? && !AllKept(ds, t.element)
    ensures added.Some? ==>
      && DeserializeDicts(ds, t, node) == Some(node.(children := node.children + added.value))
      && (AllKept(ds, t.element) ==> SerializeDicts(added.value, t) == Some(SettledDicts(ds, t)))
      && (SerializeDicts(added.value, t) == Some(ds) ==> AllKept(ds, t.element))
    decreases t, 0, |ds|
  {
    if ds == [] {
      assert node.children + [] == node.children;
      return Some([]);
    }
    assert ds[0] in ds && forall x <- ds[1..] :: x in ds;
    RoundTripInto(ds[0], t.element, Leaf(t.elementName));
    var c := Deserialize(ds[0], t.element, Leaf(t.elementName));
    if c.None? {
      return None;
    }
    var after := node.(children := node.children + [c.value]);
    var rest := DictsRoundTrip(ds[1..], t, after);
    if rest.None? {
      return None;
    }
    added := Some([c.value] + rest.value);
    assert added.value[1..] == rest.value;
    assert node.children + [c.value] + rest.value == node.children + added.value;
    KeptFirst(ds, t.element);
    ParsedFirst(Serialize(c.value, t.element), SerializeDicts(rest.value, t), ds);
    hide Conforms, Kept, Settled, Deserialize, Serialize, AllKept, SetsAttrs;
  }

  lemma KeptFirst(ds: seq<Variant>, t: Type)
    requires ds != [] && forall x <- ds :: Conforms(x, t)
    ensures AllKept(ds, t) <==> Kept(ds[0], t) && AllKept(ds[1..], t)
  {
    hide Kept, Conforms;
    assert ds == [ds[0]] + ds[1..];
  }

  /** A first result put in front of the others. */
  lemma ParsedFirst<T>(first: Option<T>, rest: Option<seq<T>>, all: seq<T>)
    requires all != []
    ensures first.Some? && rest.Some? ==>
      ([first.value] + rest.value == all <==> first.value == all[0] && rest.value == all[1..])
  {
    if first.Some? && rest.Some? {
      FirstAndRest(all, first.value, rest.value);
    }
  }

  predicate AllEntriesKept(es: seq<Entry>, t: Type)
    requires t.DictType? && forall e <- es :: EntryConforms(e, t)
  {
    forall e <- es :: EntryKept(e, t)
  }

  /** The outcome of converting the entries of a dict to children. */
  ghost predicate EntriesConvert(es: seq<Entry>, t: Type, node: Node, added: Option<seq<Node>>)
    requires t.DictType? && forall e <- es :: EntryConforms(e, t)
  {
    match added
    case None => DeserializeEntries(es, t, node).None? && !AllEntriesKept(es, t)
    case Some(cs) =>
      && DeserializeEntries(es, t, node) == Some(node.(children := node.children + cs))
      && (AllEntriesKept(es, t) ==> SerializeEntries(cs, t) == Some(SettledEntries(es, t)))
      && (SerializeEntries(cs, t) == Some(es) ==> AllEntriesKept(es, t))
  }

  lemma {:induction false} EntriesRoundTrip(es: seq<Entry>, t: Type, node: Node) returns (added: Option<seq<Node>>)
    requires t.DictType? && forall e <- es :: EntryConforms(e, t)
    ensures EntriesConvert(es, t, node, added)
    decreases t, 0, |es|
  {
    if es == [] {
      assert node.children + [] == node.children;
      return Some([]);
    }
    EntriesKeptFirst(es, t);
    var ty := t.children[FindType(t.children, es[0].key)].ty;
    assert Conforms(es[0].datum, ty);
    RoundTripInto(es[0].datum, ty, Leaf(es[0].key));
    var c := Deserialize(es[0].datum, ty, Leaf(es[0].key));
    if c.None? {
      DeserializeFirst(es, t, node);
      return None;
    }
    var after := node.(children := node.children + [c.value]);
    var rest := EntriesRoundTrip(es[1..], t, after);
    hide *;
    added := EntriesJoin(es, t, node, c.value, rest);
  }

  lemma EntriesJoin(es: seq<Entry>, t: Type, node: Node, c: Node, rest: Option<seq<Node>>) returns (added: Option<seq<Node>>)
    requires t.DictType? && es != [] && (forall e <- es :: EntryConforms(e, t)) && EntryConforms(es[0], t)
    requires var ty := t.children[FindType(t.children, es[0].key)].ty;
      Deserialize(es[0].datum, ty, Leaf(es[0].key)) == Some(c) && Converts(es[0].datum, ty, Leaf(es[0].key), Some(c))
    requires EntriesConvert(es[1..], t, node.(children := node.children + [c]), rest)
    ensures EntriesConvert(es, t, node, added)
  {
    EntriesKeptFirst(es, t);
    DeserializeFirst(es, t, node);
    hide Conforms, EntryConforms, Kept, Settled, Deserialize, Serialize, FindType, SetsAttrs, AllEntriesKept;
    hide SettledEntries, SerializeEntries, DeserializeEntries;
    if rest.None? {
      return None;
    }
    added := Some([c] + rest.value);
    assert node.children + [c] + rest.value == node.children + added.value;
    SerializeFirst(c, rest.value, t, es[0].key);
    SettledFirst(es, t);
    EntryParsed(es[0].key, Serialize(c, t.children[FindType(t.children, es[0].key)].ty), SerializeEntries(rest.value, t), es);
  }

  lemma DeserializeFirst(es: seq<Entry>, t: Type, node: Node)
    requires t.DictType? && es != [] && EntryConforms(es[0], t)
    ensures var ty := t.children[FindType(t.children, es[0].key)].ty;
      match Deserialize(es[0].datum, ty, Leaf(es[0].key))
      case None => DeserializeEntries(es, t, node).None?
      case Some(c) => DeserializeEntries(es, t, node) == DeserializeEntries(es[1..], t, node.(children := node.children + [c]))
  {
    hide Conforms, Deserialize;
  }

  lemma SerializeFirst(c: Node, rest: seq<Node>, t: Type, key: string)
    requires t.DictType? && c.name == Some(key) && FindType(t.children, key) < |t.children|
    ensures var v, vs := Serialize(c, t.children[FindType(t.children, key)].ty), SerializeEntries(rest, t);
      SerializeEntries([c] + rest, t) == if v.Some? && vs.Some? then Some([Entry(key, v.value)] + vs.value) else None
  {
    hide Serialize;
    var cs := [c] + rest;
    assert cs[1..] == rest;
  }

  lemma SettledFirst(es: seq<Entry>, t: Type)
    requires t.DictType? && es != [] && forall e <- es :: EntryConforms(e, t)
    ensures EntryConforms(es[0], t) && forall e <- es[1..] :: EntryConforms(e, t)
    ensures var ty := t.children[FindType(t.children, es[0].key)].ty;
      SettledEntries(es, t) == [Entry(es[0].key, Settled(es[0].datum, ty))] + SettledEntries(es[1..], t)
  {
    hide Conforms, Settled;
    assert es[0] in es && forall e <- es[1..] :: e in es;
  }

  lemma EntriesKeptFirst(es: seq<Entry>, t: Type)
    requires t.DictType? && es != [] && forall e <- es :: EntryConforms(e, t)
    ensures EntryConforms(es[0], t) && forall e <- es[1..] :: EntryConforms(e, t)
    ensures AllEntriesKept(es, t)
      <==> Kept(es[0].datum, t.children[FindType(t.children, es[0].key)].ty) && AllEntriesKept(es[1..], t)
  {
    hide Kept, Conforms;
    assert es == [es[0]] + es[1..];
    assert es[0] in es && forall e <- es[1..] :: e in es;
    assert EntryKept(es[0], t) <==> Kept(es[0].datum, t.children[FindType(t.children, es[0].key)].ty);
  }

  lemma EntryParsed(key: string, first: Option<Variant>, rest: Option<seq<Entry>>, all: seq<Entry>)
    requires all != [] && all[0].key == key
    ensures first.Some? && rest.Some? ==>
      ([Entry(key, first.value)] + rest.value == all <==> first.value == all[0].datum && rest.value == all[1..])
  {
    if first.Some? && rest.Some? {
      FirstAndRest(all, Entry(key, first.value), rest.value);
    }
  }

  // ------------------------------------------------------- when it is exact

  /** No object path stands outside an array. */
  predicate NoLonePath(v: Variant) {
    match v
    case Text(kind, _) => !kind.ObjectPath?
    case Dict(es) => forall e <- es :: NoLonePath(e.datum)
    case DictArray(ds) => forall x <- ds :: NoLonePath(x)
    case Struct(ms) => forall x <- ms :: NoLonePath(x)
    case _ => true
  }

  lemma {:induction false} SettledIff(v: Variant, t: Type)
    requires Conforms(v, t)
    ensures Settled(v, t) == v <==> NoLonePath(v)
    decreases t, 1, 0
  {
    match t
    case VoidType =>
    case ScalarType(_, _, _) =>
    case UnionType(d, cases) =>
      assert v.members[0] in v.members;
      if |v.members| == 2 {
        var k := FindType(cases, v.members[0].text);
        SettledIff(v.members[1], cases[k].ty);
        assert v.members == [v.members[0], v.members[1]];
        assert v.members[1] in v.members;
      } else {
        assert v.members == [v.members[0]];
      }
    case ArrayType(element, _) =>
      if !element.ScalarType? {
        SettledDictsIff(v.dicts, t);
      }
    case DictType(_, _) => SettledEntriesIff(v.entries, t);
  }

  lemma {:induction false} SettledDictsIff(ds: seq<Variant>, t: Type)
    requires t.ArrayType? && !t.element.ScalarType? && forall x <- ds :: Conforms(x, t.element)
    ensures SettledDicts(ds, t) == ds <==> forall x <- ds :: NoLonePath(x)
    decreases t, 0, |ds|
  {
    if ds != [] {
      assert ds[0] in ds && forall x <- ds[1..] :: x in ds;
      SettledIff(ds[0], t.element);
      SettledDictsIff(ds[1..], t);
      var d, r := Settled(ds[0], t.element), SettledDicts(ds[1..], t);
      assert SettledDicts(ds, t) == [d] + r;
      hide *;
      FirstAndRest(ds, d, r);
      DictPathsFirst(ds);
    }
  }

  lemma DictPathsFirst(ds: seq<Variant>)
    requires ds != []
    ensures (forall x <- ds :: NoLonePath(x)) <==> NoLonePath(ds[0]) && forall x <- ds[1..] :: NoLonePath(x)
  {
    hide NoLonePath;
    assert ds == [ds[0]] + ds[1..];
  }

  lemma {:induction false} SettledEntriesIff(es: seq<Entry>, t: Type)
    requires t.DictType? && forall e <- es :: EntryConforms(e, t)
    ensures SettledEntries(es, t) == es <==> forall e <- es :: NoLonePath(e.datum)
    decreases t, 0, |es|
  {
    if es != [] {
      assert es[0] in es && forall e <- es[1..] :: e in es;
      assert EntryConforms(es[0], t);
      var ty := t.children[FindType(t.children, es[0].key)].ty;
      SettledIff(es[0].datum, ty);
      SettledEntriesIff(es[1..], t);
      var e, r := es[0].(datum := Settled(es[0].datum, ty)), SettledEntries(es[1..], t);
      assert SettledEntries(es, t) == [e] + r;
      hide *;
      FirstAndRest(es, e, r);
      PathsFirst(es);
    }
  }

  lemma FirstAndRest<T>(es: seq<T>, e: T, r: seq<T>)
    requires es != []
    ensures [e] + r == es <==> e == es[0] && r == es[1..]
  {
    assert ([e] + r)[0] == e && ([e] + r)[1..] == r;
    assert es == [es[0]] + es[1..];
  }

  lemma PathsFirst(es: seq<Entry>)
    requires es != []
    ensures (forall e <- es :: NoLonePath(e.datum)) <==> NoLonePath(es[0].datum) && forall e <- es[1..] :: NoLonePath(e.datum)
  {
    hide NoLonePath;
    assert es == [es[0]] + es[1..];
  }

  /** A conforming variant survives exactly if all that matters is kept and it
      has no object path outside an array. */
  lemma RoundTrip(v: Variant, t: Type, name: string)
    requires Conforms(v, t)
    ensures var n := Deserialize(v, t, Leaf(name));
      (n.Some? && Serialize(n.value, t) == Some(v)) <==> Kept(v, t) && NoLonePath(v)
  {
    RoundTripInto(v, t, Leaf(name));
    SettledIff(v, t);
  }
}
