// The bytes of contract schemas, constructor by constructor.
module SchemaLayout {
  import opened Wrappers
  import opened Hashing
  import opened ByteCodecs
  import opened Schemas

  // The byte that stands for a constructor.
  function FirstByte(t: Type): byte {
    match t
    case Unit => 0 case Bool => 1
    case U8 => 2 case U16 => 3 case U32 => 4 case U64 => 5
    case I8 => 6 case I16 => 7 case I32 => 8 case I64 => 9
    case Amount => 10 case AccountAddress => 11 case ContractAddress => 12 case Timestamp => 13 case Duration => 14
    case Pair(_, _) => 15 case List(_, _) => 16 case Set(_, _) => 17 case Map(_, _, _) => 18 case Array(_, _) => 19
    case Struct(_) => 20 case Enum(_) => 21 case Str(_) => 22
    case U128 => 23 case I128 => 24
    case ContractName(_) => 25 case ReceiveName(_) => 26
  }

  function SizeByte(size: SizeLength): byte {
    match size
    case OneByte => 0
    case TwoBytes => 1
    case FourBytes => 2
    case EightBytes => 3
  }

  // Every type starts with the byte of its constructor, and a type that has no parts
  // is just this byte.
  lemma FirstByteIs(t: Type)
    ensures Serial(t) != [] && Serial(t)[0] == FirstByte(t)
    ensures FirstByte(t) < 15 || FirstByte(t) in {23, 24} ==> Serial(t) == [FirstByte(t)]
  {
  }

  lemma Unfold(t: Type)
    ensures Serial(t) == [FirstByte(t)] + SerialBody(t)
  {
    hide SerialBody;
  }

  // Then come the parts, in order.
  lemma PairIs(a: Type, b: Type)
    ensures Serial(Pair(a, b)) == [15] + Serial(a) + Serial(b)
  {
    Unfold(Pair(a, b));
    assert SerialBody(Pair(a, b)) == Serial(a) + Serial(b);
    hide Serial, SerialBody;
  }

  // Collections and strings say first how many bytes their length takes.
  lemma ListIs(a: Type, size: SizeLength)
    ensures Serial(List(size, a)) == [16, SizeByte(size)] + Serial(a)
  {
    SizedBody(List(size, a), Serial(a)) by { hide Serial; }
  }

  lemma SetIs(a: Type, size: SizeLength)
    ensures Serial(Set(size, a)) == [17, SizeByte(size)] + Serial(a)
  {
    SizedBody(Set(size, a), Serial(a)) by { hide Serial; }
  }

  lemma MapIs(a: Type, b: Type, size: SizeLength)
    ensures Serial(Map(size, a, b)) == [18, SizeByte(size)] + Serial(a) + Serial(b)
  {
    assert SerialBody(Map(size, a, b)) == [SerialSize(size)] + (Serial(a) + Serial(b)) by { hide Serial; }
    hide Serial, SerialBody;
    SizedBody(Map(size, a, b), Serial(a) + Serial(b));
    assert [18, SizeByte(size)] + (Serial(a) + Serial(b)) == [18, SizeByte(size)] + Serial(a) + Serial(b);
  }

  lemma StringIs(size: SizeLength)
    ensures Serial(Str(size)) == [22, SizeByte(size)]
    ensures Serial(ContractName(size)) == [25, SizeByte(size)]
    ensures Serial(ReceiveName(size)) == [26, SizeByte(size)]
  {
    SizedBody(Str(size), []);
    SizedBody(ContractName(size), []);
    SizedBody(ReceiveName(size), []);
    hide Serial, SerialBody, SizeByte;
  }

  lemma SizedBody(t: Type, rest: Bytes)
    requires t.List? || t.Set? || t.Map? || t.Str? || t.ContractName? || t.ReceiveName?
    requires SerialBody(t) == [SerialSize(t.size)] + rest
    ensures Serial(t) == [FirstByte(t), SizeByte(t.size)] + rest
  {
    Unfold(t);
    assert SerialSize(t.size) == SizeByte(t.size);
    hide Serial, SerialBody, SizeByte, FirstByte, SerialSize;
  }

  // An array has its length in four bytes, least significant byte first.
  lemma ArrayIs(len: u32, a: Type)
    ensures Serial(Array(len, a))
         == [19, len % 256, len / 0x100 % 256, len / 0x1_0000 % 256, len / 0x100_0000 % 256] + Serial(a)
  {
    U32BytesAre(len);
    Unfold(Array(len, a));
    assert SerialBody(Array(len, a)) == U32Bytes(len) + Serial(a);
    hide Serial, SerialBody, U32Bytes;
  }

  // A list of fewer than 256 parts, or a name of fewer than 256 bytes, is preceded by
  // its length in four bytes.
  lemma ShortLength(n: nat)
    requires n < 256
    ensures SerialLength(n) == [n, 0, 0, 0]
  {
    U32BytesAre(n);
  }

  // A structure has one byte for the kind of its fields, then their number, and then
  // the fields, with their names if they have any.
  lemma StructIs(name: Text, a: Type)
    requires |name| < 256
    ensures Serial(Struct(NoFields)) == [20, 2]
    ensures Serial(Struct(Unnamed([a]))) == [20, 1, 1, 0, 0, 0] + Serial(a)
    ensures Serial(Struct(Named([Field(name, a)]))) == [20, 0, 1, 0, 0, 0, |name|, 0, 0, 0] + name + Serial(a)
  {
    OneOfEach(name, a);
    Unfold(Struct(NoFields));
    Unfold(Struct(Unnamed([a])));
    Unfold(Struct(Named([Field(name, a)])));
    assert SerialBody(Struct(NoFields)) == [2];
    assert SerialBody(Struct(Unnamed([a]))) == [1] + SerialLength(1) + SerialTypes([a]);
    assert SerialBody(Struct(Named([Field(name, a)]))) == [0] + SerialLength(1) + SerialNamed([Field(name, a)]);
    hide Serial, SerialBody, SerialLength, SerialTypes, SerialNamed;
  }

  lemma OneOfEach(name: Text, a: Type)
    requires |name| < 256
    ensures SerialLength(1) == [1, 0, 0, 0] && SerialTypes([a]) == Serial(a)
    ensures SerialNamed([Field(name, a)]) == [|name|, 0, 0, 0] + name + Serial(a)
  {
    ShortLength(1);
    ShortLength(|name|);
    hide SerialLength, Serial;
    assert [a][1..] == [] && SerialTypes([]) == [];
    assert [Field(name, a)][1..] == [] && SerialNamed([]) == [];
  }

  // An enumeration has the number of its variants, and each one's name and fields.
  lemma EnumIs(name: Text, f: Fields)
    requires |name| < 256
    ensures Serial(Enum([])) == [21, 0, 0, 0, 0]
    ensures Serial(Enum([Variant(name, f)])) == [21, 1, 0, 0, 0, |name|, 0, 0, 0] + name + SerialFields(f)
  {
    OneVariant(name, f);
    Unfold(Enum([]));
    Unfold(Enum([Variant(name, f)]));
    assert SerialBody(Enum([])) == SerialLength(0) + SerialVariants([]);
    assert SerialBody(Enum([Variant(name, f)])) == SerialLength(1) + SerialVariants([Variant(name, f)]);
    hide Serial, SerialBody, SerialLength, SerialVariants, SerialFields;
  }

  lemma OneVariant(name: Text, f: Fields)
    requires |name| < 256
    ensures SerialLength(0) == [0, 0, 0, 0] && SerialLength(1) == [1, 0, 0, 0] && SerialVariants([]) == []
    ensures SerialVariants([Variant(name, f)]) == [|name|, 0, 0, 0] + name + SerialFields(f)
  {
    ShortLength(0);
    ShortLength(1);
    ShortLength(|name|);
    hide SerialLength, SerialFields;
    assert [Variant(name, f)][1..] == [];
  }

  // Longer lists are laid out part by part.
  lemma {:induction false} PartByPart(a: seq<Type>, b: seq<Type>)
    ensures SerialTypes(a + b) == SerialTypes(a) + SerialTypes(b)
  {
    if a == [] {
      assert a + b == b;
    } else {
      assert (a + b)[1..] == a[1..] + b;
      PartByPart(a[1..], b);
    }
  }

  lemma {:induction false} FieldByField(a: seq<Field>, b: seq<Field>)
    ensures SerialNamed(a + b) == SerialNamed(a) + SerialNamed(b)
  {
    if a == [] {
      assert a + b == b;
    } else {
      assert (a + b)[1..] == a[1..] + b;
      FieldByField(a[1..], b);
    }
  }

  lemma {:induction false} VariantByVariant(a: seq<Variant>, b: seq<Variant>)
    ensures SerialVariants(a + b) == SerialVariants(a) + SerialVariants(b)
  {
    if a == [] {
      assert a + b == b;
    } else {
      assert (a + b)[1..] == a[1..] + b;
      VariantByVariant(a[1..], b);
    }
  }
}
