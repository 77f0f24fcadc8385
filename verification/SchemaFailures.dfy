/** Conforming variants that do not survive the conversion to XML and back: one
    for each way in which that happens. */
module SchemaFailures {
  import opened Wrappers
  import opened VarArrays
  import opened CNumbers
  import opened XmlTree
  import opened Schema
  import opened SchemaRoundTrip

  /** What a variant comes back as. */
  function Back(v: Variant, t: Type): Option<Variant> {
    match Deserialize(v, t, Leaf("x"))
    case Some(n) => Serialize(n, t)
    case None => None
  }

  /** A number of 33 bits in an enumeration is printed with 32. */
  lemma WideEnum(v: Variant, t: Type)
    requires v == Num(UInt64, 0x1_0000_0000) && t == ScalarType(UInt64, None, Some([]))
    ensures Conforms(v, t) && Back(v, t) == Some(Num(UInt64, 0))
  {
  }

  /** Two names that differ in their case: the second number turns into the
      first. */
  lemma NamedAlike(v: Variant, t: Type)
    requires v == Num(UInt32, 2) && t == ScalarType(UInt32, None, Some([Mapping("up", 1), Mapping("UP", 2)]))
    ensures Conforms(v, t) && Back(v, t) == Some(Num(UInt32, 1))
  {
  }

  /** A number without a name is printed as a number, which is the name of
      another. */
  lemma NamedByDigits(v: Variant, t: Type)
    requires v == Num(UInt32, 5) && t == ScalarType(UInt32, None, Some([Mapping("5", 6)]))
    ensures Conforms(v, t) && Back(v, t) == Some(Num(UInt32, 6))
  {
  }

  /** A bit without a name is lost. */
  lemma UnnamedBit(v: Variant, t: Type)
    requires v == Num(UInt32, 1) && t == ScalarType(UInt32, Some([]), None)
    ensures Conforms(v, t) && Back(v, t) != Some(v)
  {
    RoundTrip(v, t, "x");
    LowestBit();
    NeverMeant(1, 0, 0);
    hide BitSet, Meant, Readable, Deserialize, Serialize;
    assert !BitsKept(UInt32, [], 1);
  }

  lemma LowestBit()
    ensures BitSet(1, 0)
  {
  }

  lemma {:induction false} NeverMeant(u: nat, b: nat, c: nat)
    requires b <= 32
    ensures !Meant(u, [], b, c)
    decreases 32 - b
  {
    if b < 32 {
      NeverMeant(u, b + 1, c);
    }
  }

  /** Bit 31 of a wide number takes all higher ones with it. */
  lemma WideBitmap(v: Variant, m: IntMap, t: Type)
    requires v == Num(UInt64, 0x8000_0000) && t == ScalarType(UInt64, Some(m), None)
    ensures Conforms(v, t) && Back(v, t) != Some(v)
  {
    RoundTrip(v, t, "x");
    assert 0x8000_0000 % ULONG == 0x8000_0000;
    hide Readable, Meant, BitSet;
    assert !BitsKept(UInt64, m, 0x8000_0000);
  }

  /** A union in a union that tells its kind by the same attribute. */
  lemma NestedUnions(v: Variant, t: Type)
    requires t == UnionType("k", [Named("a", UnionType("k", [Named("b", VoidType, false, None)]), false, None)])
    requires v == Struct([Text(Str, "a"), Struct([Text(Str, "b")])])
    ensures Conforms(v, t) && Deserialize(v, t, Leaf("x")).Some? && Back(v, t) == None
  {
  }

  /** An object path on its own turns into a string. */
  lemma LonePath(v: Variant, t: Type)
    requires v == Text(ObjectPath, "/") && t == ScalarType(ObjectPath, None, None)
    ensures Conforms(v, t) && Back(v, t) == Some(Text(Str, "/"))
  {
  }

  /** A flag's value is not printed. */
  lemma FlagValue(v: Variant, t: Type)
    requires v == Num(Byte, 1) && t == ScalarType(Flag, None, None)
    ensures Conforms(v, t) && Back(v, t) == Some(Num(Byte, 0))
  {
  }

  /** An array of numbers that are not bytes cannot be converted at all. */
  lemma NumberArray(v: Variant, t: Type)
    requires v == Array(UInt32, [Num(UInt32, 1)]) && t == ArrayType(ScalarType(UInt32, None, None), "e")
    ensures Conforms(v, t) && Deserialize(v, t, Leaf("x")).None?
  {
  }
}
