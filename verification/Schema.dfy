// The schema language of concordium-contracts-common (schema.rs): descriptions
// of types as trees, and their byte format with 27 tags.
module Schemas {
  import opened Wrappers
  import opened Hashing
  import opened ByteCodecs

  // A Rust string: its bytes. Which byte strings are UTF-8 is a parameter.
  type Text = Bytes
  type Utf8 = Bytes -> bool

  type u32 = n: nat | n < U32_RANGE

  datatype SizeLength = OneByte | TwoBytes | FourBytes | EightBytes

  datatype Type =
    | Unit | Bool | U8 | U16 | U32 | U64 | U128 | I8 | I16 | I32 | I64 | I128
    | Amount | AccountAddress | ContractAddress | Timestamp | Duration
    | Pair(left: Type, right: Type)
    | List(size: SizeLength, ty: Type)
    | Set(size: SizeLength, ty: Type)
    | Map(size: SizeLength, key: Type, value: Type)
    | Array(len: u32, ty: Type)
    | Struct(fields: Fields)
    | Enum(variants: seq<Variant>)
    | Str(size: SizeLength)
    | ContractName(size: SizeLength)
    | ReceiveName(size: SizeLength)

  datatype Fields = Named(named: seq<Field>) | Unnamed(types: seq<Type>) | NoFields

  datatype Field = Field(name: Text, ty: Type)
  datatype Variant = Variant(name: Text, fields: Fields)

  // ----- serialization -----

  // `len() as u32`, little-endian.
  function SerialLength(n: nat): Bytes {
    U32Bytes(n % U32_RANGE)
  }

  function SerialText(t: Text): Bytes {
    SerialLength(|t|) + t
  }

  function SerialSize(s: SizeLength): (b: byte)
  {
    match s
    case OneByte => 0
    case TwoBytes => 1
    case FourBytes => 2
    case EightBytes => 3
  }

  function Tag(t: Type): byte {
    match t
    case Unit => 0
    case Bool => 1
    case U8 => 2
    case U16 => 3
    case U32 => 4
    case U64 => 5
    case I8 => 6
    case I16 => 7
    case I32 => 8
    case I64 => 9
    case Amount => 10
    case AccountAddress => 11
    case ContractAddress => 12
    case Timestamp => 13
    case Duration => 14
    case Pair(_, _) => 15
    case List(_, _) => 16
    case Set(_, _) => 17
    case Map(_, _, _) => 18
    case Array(_, _) => 19
    case Struct(_) => 20
    case Enum(_) => 21
    case Str(_) => 22
    case U128 => 23
    case I128 => 24
    case ContractName(_) => 25
    case ReceiveName(_) => 26
  }

  function Serial(t: Type): Bytes
    decreases t
  {
    [Tag(t)] + SerialBody(t)
  }

  function SerialBody(t: Type): Bytes
    decreases t, 0
  {
    match t
    case Pair(left, right) => Serial(left) + Serial(right)
    case List(size, ty) => [SerialSize(size)] + Serial(ty)
    case Set(size, ty) => [SerialSize(size)] + Serial(ty)
    case Map(size, key, value) => [SerialSize(size)] + Serial(key) + Serial(value)
    case Array(len, ty) => U32Bytes(len) + Serial(ty)
    case Struct(fields) => SerialFields(fields)
    case Enum(variants) => SerialLength(|variants|) + SerialVariants(variants)
    case Str(size) => [SerialSize(size)]
    case ContractName(size) => [SerialSize(size)]
    case ReceiveName(size) => [SerialSize(size)]
    case _ => []
  }

  function SerialFields(f: Fields): Bytes
    decreases f
  {
    match f
    case Named(named) => [0] + SerialLength(|named|) + SerialNamed(named)
    case Unnamed(types) => [1] + SerialLength(|types|) + SerialTypes(types)
    case NoFields => [2]
  }

  function SerialTypes(types: seq<Type>): Bytes
    decreases types
  {
    if types == [] then [] else Serial(types[0]) + SerialTypes(types[1..])
  }

  function SerialNamed(named: seq<Field>): Bytes
    decreases named
  {
    if named == [] then [] else SerialText(named[0].name) + Serial(named[0].ty) + SerialNamed(named[1..])
  }

  function SerialVariants(variants: seq<Variant>): Bytes
    decreases variants
  {
    if variants == [] then []
    else SerialText(variants[0].name) + SerialFields(variants[0].fields) + SerialVariants(variants[1..])
  }

  // ----- deserialization; None is a parse error -----

  function ReadByte(bytes: Bytes): Option<(byte, Bytes)> {
    if bytes == [] then None else Some((bytes[0], bytes[1..]))
  }

  function ReadU32(bytes: Bytes): Option<(u32, Bytes)> {
    if |bytes| < 4 then None
    else
      WordRanges();
      Some((FromLittleEndian(bytes[..4]), bytes[4..]))
  }

  function ReadText(utf8: Utf8, bytes: Bytes): (r: Option<(Text, Bytes)>)
    ensures r.Some? ==> |r.value.1| < |bytes|
  {
    var len :- ReadU32(bytes);
    if |len.1| < len.0 || !utf8(len.1[..len.0]) then None else Some((len.1[..len.0], len.1[len.0..]))
  }

  function ReadSize(bytes: Bytes): Option<(SizeLength, Bytes)> {
    var tag :- ReadByte(bytes);
    match tag.0
    case 0 => Some((OneByte, tag.1))
    case 1 => Some((TwoBytes, tag.1))
    case 2 => Some((FourBytes, tag.1))
    case 3 => Some((EightBytes, tag.1))
    case _ => None
  }

  function SimpleType(tag: byte): Option<Type> {
    match tag
    case 0 => Some(Unit)
    case 1 => Some(Bool)
    case 2 => Some(U8)
    case 3 => Some(U16)
    case 4 => Some(U32)
    case 5 => Some(U64)
    case 6 => Some(I8)
    case 7 => Some(I16)
    case 8 => Some(I32)
    case 9 => Some(I64)
    case 10 => Some(Amount)
    case 11 => Some(AccountAddress)
    case 12 => Some(ContractAddress)
    case 13 => Some(Timestamp)
    case 14 => Some(Duration)
    case 23 => Some(U128)
    case 24 => Some(I128)
    case _ => None
  }

  function Deserial(utf8: Utf8, bytes: Bytes): (r: Option<(Type, Bytes)>)
    ensures r.Some? ==> |r.value.1| < |bytes|
    decreases |bytes|, 0, 0
  {
    var tag :- ReadByte(bytes);
    if SimpleType(tag.0).Some? then Some((SimpleType(tag.0).value, tag.1))
    else DeserialBody(utf8, tag.0, tag.1)
  }

  function DeserialBody(utf8: Utf8, tag: byte, bytes: Bytes): (r: Option<(Type, Bytes)>)
    ensures r.Some? ==> |r.value.1| <= |bytes|
    decreases |bytes|, 1, 0
  {
    match tag
    case 15 =>
      var left :- Deserial(utf8, bytes);
      var right :- Deserial(utf8, left.1);
      Some((Pair(left.0, right.0), right.1))
    case 16 =>
      var size :- ReadSize(bytes);
      var ty :- Deserial(utf8, size.1);
      Some((List(size.0, ty.0), ty.1))
    case 17 =>
      var size :- ReadSize(bytes);
      var ty :- Deserial(utf8, size.1);
      Some((Set(size.0, ty.0), ty.1))
    case 18 =>
      var size :- ReadSize(bytes);
      var key :- Deserial(utf8, size.1);
      var value :- Deserial(utf8, key.1);
      Some((Map(size.0, key.0, value.0), value.1))
    case 19 =>
      var len :- ReadU32(bytes);
      var ty :- Deserial(utf8, len.1);
      Some((Array(len.0, ty.0), ty.1))
    case 20 =>
      var fields :- DeserialFields(utf8, bytes);
      Some((Struct(fields.0), fields.1))
    case 21 =>
      var len :- ReadU32(bytes);
      var variants :- DeserialVariants(utf8, len.0, len.1);
      Some((Enum(variants.0), variants.1))
    case 22 =>
      var size :- ReadSize(bytes);
      Some((Str(size.0), size.1))
    case 25 =>
      var size :- ReadSize(bytes);
      Some((ContractName(size.0), size.1))
    case 26 =>
      var size :- ReadSize(bytes);
      Some((ReceiveName(size.0), size.1))
    case _ => None
  }

  function DeserialFields(utf8: Utf8, bytes: Bytes): (r: Option<(Fields, Bytes)>)
    ensures r.Some? ==> |r.value.1| < |bytes|
    decreases |bytes|, 0, 0
  {
    var tag :- ReadByte(bytes);
    match tag.0
    case 0 =>
      var len :- ReadU32(tag.1);
      var named :- DeserialNamed(utf8, len.0, len.1);
      Some((Named(named.0), named.1))
    case 1 =>
      var len :- ReadU32(tag.1);
      var types :- DeserialTypes(utf8, len.0, len.1);
      Some((Unnamed(types.0), types.1))
    case 2 => Some((NoFields, tag.1))
    case _ => None
  }

  function DeserialTypes(utf8: Utf8, n: nat, bytes: Bytes): (r: Option<(seq<Type>, Bytes)>)
    ensures r.Some? ==> |r.value.1| <= |bytes| && |r.value.0| == n
    decreases |bytes|, 2, n
  {
    if n == 0 then Some(([], bytes))
    else
      var ty :- Deserial(utf8, bytes);
      var more :- DeserialTypes(utf8, n - 1, ty.1);
      Some(([ty.0] + more.0, more.1))
  }

  function DeserialNamed(utf8: Utf8, n: nat, bytes: Bytes): (r: Option<(seq<Field>, Bytes)>)
    ensures r.Some? ==> |r.value.1| <= |bytes| && |r.value.0| == n
    decreases |bytes|, 2, n
  {
    if n == 0 then Some(([], bytes))
    else
      var name :- ReadText(utf8, bytes);
      var ty :- Deserial(utf8, name.1);
      var more :- DeserialNamed(utf8, n - 1, ty.1);
      Some(([Field(name.0, ty.0)] + more.0, more.1))
  }

  function DeserialVariants(utf8: Utf8, n: nat, bytes: Bytes): (r: Option<(seq<Variant>, Bytes)>)
    ensures r.Some? ==> |r.value.1| <= |bytes| && |r.value.0| == n
    decreases |bytes|, 2, n
  {
    if n == 0 then Some(([], bytes))
    else
      var name :- ReadText(utf8, bytes);
      var fields :- DeserialFields(utf8, name.1);
      var more :- DeserialVariants(utf8, n - 1, fields.1);
      Some(([Variant(name.0, fields.0)] + more.0, more.1))
  }

  // ----- trees with representable lengths -----

  predicate GoodText(utf8: Utf8, t: Text) {
    |t| < U32_RANGE && utf8(t)
  }

  predicate Good(utf8: Utf8, t: Type)
    decreases t
  {
    match t
    case Pair(left, right) => Good(utf8, left) && Good(utf8, right)
    case List(_, ty) => Good(utf8, ty)
    case Set(_, ty) => Good(utf8, ty)
    case Map(_, key, value) => Good(utf8, key) && Good(utf8, value)
    case Array(_, ty) => Good(utf8, ty)
    case Struct(fields) => GoodFields(utf8, fields)
    case Enum(variants) => |variants| < U32_RANGE && GoodVariants(utf8, variants)
    case _ => true
  }

  predicate GoodFields(utf8: Utf8, f: Fields)
    decreases f
  {
    match f
    case Named(named) => |named| < U32_RANGE && GoodNamed(utf8, named)
    case Unnamed(types) => |types| < U32_RANGE && GoodTypes(utf8, types)
    case NoFields => true
  }

  predicate GoodTypes(utf8: Utf8, types: seq<Type>)
    decreases types
  {
    types != [] ==> Good(utf8, types[0]) && GoodTypes(utf8, types[1..])
  }

  predicate GoodNamed(utf8: Utf8, named: seq<Field>)
    decreases named
  {
    named != [] ==> GoodText(utf8, named[0].name) && Good(utf8, named[0].ty) && GoodNamed(utf8, named[1..])
  }

  predicate GoodVariants(utf8: Utf8, variants: seq<Variant>)
    decreases variants
  {
    variants != [] ==>
      GoodText(utf8, variants[0].name) && GoodFields(utf8, variants[0].fields) && GoodVariants(utf8, variants[1..])
  }

  // ----- what was written is read back -----

  lemma ReadU32Back(n: u32, rest: Bytes)
    ensures ReadU32(U32Bytes(n) + rest) == Some((n, rest))
  {
    U32RoundTrip(n);
    assert (U32Bytes(n) + rest)[..4] == U32Bytes(n);
  }

  lemma ReadTextBack(utf8: Utf8, t: Text, rest: Bytes)
    requires GoodText(utf8, t)
    ensures ReadText(utf8, SerialText(t) + rest) == Some((t, rest))
  {
    hide ReadU32, U32Bytes;
    ReadU32Back(|t|, t + rest);
    assert SerialText(t) + rest == U32Bytes(|t|) + (t + rest);
    assert (t + rest)[..|t|] == t;
  }

  lemma ReadSizeBack(s: SizeLength, rest: Bytes)
    ensures ReadSize([SerialSize(s)] + rest) == Some((s, rest))
  {
  }

  // Concatenations regroup.
  lemma Regroup(a: Bytes, b: Bytes, c: Bytes)
    ensures (a + b) + c == a + (b + c)
  {
  }

  lemma TagBack(t: Type)
    ensures SimpleType(Tag(t)).Some? ==> SimpleType(Tag(t)).value == t && SerialBody(t) == []
  {
  }

  lemma {:induction false} SerialRoundTrip(utf8: Utf8, t: Type, rest: Bytes)
    requires Good(utf8, t)
    ensures Deserial(utf8, Serial(t) + rest) == Some((t, rest))
    decreases t, 2
  {
    hide SerialBody, DeserialBody, Good;
    var bytes := Serial(t) + rest;
    assert bytes == [Tag(t)] + (SerialBody(t) + rest);
    assert ReadByte(bytes) == Some((Tag(t), SerialBody(t) + rest)) by { assert bytes[1..] == SerialBody(t) + rest; }
    TagBack(t);
    if SimpleType(Tag(t)).None? {
      BodyRoundTrip(utf8, t, rest);
    }
  }

  lemma {:induction false} BodyRoundTrip(utf8: Utf8, t: Type, rest: Bytes)
    requires Good(utf8, t) && SimpleType(Tag(t)).None?
    ensures DeserialBody(utf8, Tag(t), SerialBody(t) + rest) == Some((t, rest))
    decreases t, 1
  {
    hide SerialBody, DeserialBody, Good;
    match t {
      case Pair(_, _) => CompoundRoundTrip(utf8, t, rest);
      case List(_, _) => CompoundRoundTrip(utf8, t, rest);
      case Set(_, _) => CompoundRoundTrip(utf8, t, rest);
      case Map(_, _, _) => CompoundRoundTrip(utf8, t, rest);
      case Array(_, _) => CompoundRoundTrip(utf8, t, rest);
      case Struct(_) => RecordRoundTrip(utf8, t, rest);
      case Enum(_) => RecordRoundTrip(utf8, t, rest);
      case Str(_) => NameRoundTrip(utf8, t, rest);
      case ContractName(_) => NameRoundTrip(utf8, t, rest);
      case ReceiveName(_) => NameRoundTrip(utf8, t, rest);
    }
  }

  lemma NameRoundTrip(utf8: Utf8, t: Type, rest: Bytes)
    requires t.Str? || t.ContractName? || t.ReceiveName?
    ensures DeserialBody(utf8, Tag(t), SerialBody(t) + rest) == Some((t, rest))
  {
    ReadSizeBack(t.size, rest);
  }

  lemma {:induction false} RecordRoundTrip(utf8: Utf8, t: Type, rest: Bytes)
    requires Good(utf8, t) && (t.Struct? || t.Enum?)
    ensures DeserialBody(utf8, Tag(t), SerialBody(t) + rest) == Some((t, rest))
    decreases t, 0
  {
    hide SerialFields, DeserialFields, SerialVariants, DeserialVariants, ReadU32, U32Bytes, GoodFields, GoodVariants;
    match t {
      case Struct(fields) =>
        FieldsRoundTrip(utf8, fields, rest);
      case Enum(variants) =>
        Regroup(SerialLength(|variants|), SerialVariants(variants), rest);
        ReadU32Back(|variants|, SerialVariants(variants) + rest);
        VariantsRoundTrip(utf8, variants, rest);
    }
  }

  lemma {:induction false} CompoundRoundTrip(utf8: Utf8, t: Type, rest: Bytes)
    requires Good(utf8, t) && (t.Pair? || t.List? || t.Set? || t.Map? || t.Array?)
    ensures DeserialBody(utf8, Tag(t), SerialBody(t) + rest) == Some((t, rest))
    decreases t, 0
  {
    hide Serial, Deserial, ReadU32, ReadSize, U32Bytes;
    match t {
      case Pair(left, right) =>
        Regroup(Serial(left), Serial(right), rest);
        SerialRoundTrip(utf8, left, Serial(right) + rest);
        SerialRoundTrip(utf8, right, rest);
      case List(size, ty) => SizedRoundTrip(utf8, size, ty, rest);
      case Set(size, ty) => SizedRoundTrip(utf8, size, ty, rest);
      case Map(size, key, value) =>
        assert SerialBody(t) + rest == [SerialSize(size)] + (Serial(key) + (Serial(value) + rest));
        ReadSizeBack(size, Serial(key) + (Serial(value) + rest));
        SerialRoundTrip(utf8, key, Serial(value) + rest);
        SerialRoundTrip(utf8, value, rest);
      case Array(len, ty) =>
        Regroup(U32Bytes(len), Serial(ty), rest);
        ReadU32Back(len, Serial(ty) + rest);
        SerialRoundTrip(utf8, ty, rest);
    }
  }

  lemma {:induction false} SizedRoundTrip(utf8: Utf8, size: SizeLength, ty: Type, rest: Bytes)
    requires Good(utf8, ty)
    ensures var bytes := [SerialSize(size)] + Serial(ty) + rest;
      && ReadSize(bytes) == Some((size, Serial(ty) + rest))
      && Deserial(utf8, Serial(ty) + rest) == Some((ty, rest))
    decreases ty, 3
  {
    Regroup([SerialSize(size)], Serial(ty), rest);
    ReadSizeBack(size, Serial(ty) + rest);
    SerialRoundTrip(utf8, ty, rest);
  }

  lemma {:induction false} FieldsRoundTrip(utf8: Utf8, f: Fields, rest: Bytes)
    requires GoodFields(utf8, f)
    ensures DeserialFields(utf8, SerialFields(f) + rest) == Some((f, rest))
    decreases f
  {
    hide SerialNamed, SerialTypes, DeserialNamed, DeserialTypes, ReadU32, U32Bytes, GoodNamed, GoodTypes;
    var bytes := SerialFields(f) + rest;
    match f {
      case Named(named) =>
        assert bytes == [0] + (SerialLength(|named|) + (SerialNamed(named) + rest));
        assert bytes[1..] == SerialLength(|named|) + (SerialNamed(named) + rest);
        ReadU32Back(|named|, SerialNamed(named) + rest);
        NamedRoundTrip(utf8, named, rest);
      case Unnamed(types) =>
        assert bytes == [1] + (SerialLength(|types|) + (SerialTypes(types) + rest));
        assert bytes[1..] == SerialLength(|types|) + (SerialTypes(types) + rest);
        ReadU32Back(|types|, SerialTypes(types) + rest);
        TypesRoundTrip(utf8, types, rest);
      case NoFields =>
    }
  }

  lemma {:induction false} TypesRoundTrip(utf8: Utf8, types: seq<Type>, rest: Bytes)
    requires GoodTypes(utf8, types)
    ensures DeserialTypes(utf8, |types|, SerialTypes(types) + rest) == Some((types, rest))
    decreases types
  {
    hide Serial, Deserial, Good;
    if types == [] {
      assert [] + rest == rest;
    } else {
      Regroup(Serial(types[0]), SerialTypes(types[1..]), rest);
      SerialRoundTrip(utf8, types[0], SerialTypes(types[1..]) + rest);
      TypesRoundTrip(utf8, types[1..], rest);
      assert [types[0]] + types[1..] == types;
    }
  }

  lemma {:induction false} NamedRoundTrip(utf8: Utf8, named: seq<Field>, rest: Bytes)
    requires GoodNamed(utf8, named)
    ensures DeserialNamed(utf8, |named|, SerialNamed(named) + rest) == Some((named, rest))
    decreases named
  {
    hide Serial, Deserial, Good, SerialText, ReadText, GoodText;
    if named == [] {
      assert [] + rest == rest;
    } else {
      var name, ty, more := SerialText(named[0].name), Serial(named[0].ty), SerialNamed(named[1..]);
      assert SerialNamed(named) + rest == name + (ty + (more + rest));
      ReadTextBack(utf8, named[0].name, ty + (more + rest));
      SerialRoundTrip(utf8, named[0].ty, more + rest);
      NamedRoundTrip(utf8, named[1..], rest);
      assert [named[0]] + named[1..] == named;
    }
  }

  lemma {:induction false} VariantsRoundTrip(utf8: Utf8, variants: seq<Variant>, rest: Bytes)
    requires GoodVariants(utf8, variants)
    ensures DeserialVariants(utf8, |variants|, SerialVariants(variants) + rest) == Some((variants, rest))
    decreases variants
  {
    hide SerialFields, DeserialFields, GoodFields, SerialText, ReadText, GoodText;
    if variants == [] {
      assert [] + rest == rest;
    } else {
      var name, fields, more :=
          SerialText(variants[0].name), SerialFields(variants[0].fields), SerialVariants(variants[1..]);
      assert SerialVariants(variants) + rest == name + (fields + (more + rest));
      ReadTextBack(utf8, variants[0].name, fields + (more + rest));
      FieldsRoundTrip(utf8, variants[0].fields, more + rest);
      VariantsRoundTrip(utf8, variants[1..], rest);
      assert [variants[0]] + variants[1..] == variants;
    }
  }

  // ----- what was read writes back the bytes that were consumed -----

  lemma ReadU32Canonical(bytes: Bytes)
    requires ReadU32(bytes).Some?
    ensures bytes == U32Bytes(ReadU32(bytes).value.0) + ReadU32(bytes).value.1
  {
    LittleEndianIsCanonical(bytes[..4]);
  }

  lemma ReadTextCanonical(utf8: Utf8, bytes: Bytes)
    requires ReadText(utf8, bytes).Some?
    ensures GoodText(utf8, ReadText(utf8, bytes).value.0)
    ensures bytes == SerialText(ReadText(utf8, bytes).value.0) + ReadText(utf8, bytes).value.1
  {
    hide U32Bytes, ReadU32;
    ReadU32Canonical(bytes);
    var len := ReadU32(bytes).value;
    assert len.1 == len.1[..len.0] + len.1[len.0..];
  }

  lemma ReadSizeCanonical(bytes: Bytes)
    requires ReadSize(bytes).Some?
    ensures bytes == [SerialSize(ReadSize(bytes).value.0)] + ReadSize(bytes).value.1
  {
  }

  lemma SimpleTypeCanonical(tag: byte)
    requires SimpleType(tag).Some?
    ensures Tag(SimpleType(tag).value) == tag && SerialBody(SimpleType(tag).value) == []
  {
  }

  lemma {:induction false} DeserialIsCanonical(utf8: Utf8, bytes: Bytes)
    requires Deserial(utf8, bytes).Some?
    ensures Good(utf8, Deserial(utf8, bytes).value.0)
    ensures bytes == Serial(Deserial(utf8, bytes).value.0) + Deserial(utf8, bytes).value.1
    decreases |bytes|, 0, 0
  {
    hide DeserialBody, SerialBody, SimpleType, Tag;
    var tag, body := bytes[0], bytes[1..];
    assert bytes == [tag] + body;
    if SimpleType(tag).Some? {
      SimpleIsGood(utf8, tag);
      SimpleTypeCanonical(tag);
      assert [tag] + [] == [tag];
    } else {
      BodyIsCanonical(utf8, tag, body);
      var (t, rest) := DeserialBody(utf8, tag, body).value;
      Regroup([tag], SerialBody(t), rest);
    }
  }

  lemma SimpleIsGood(utf8: Utf8, tag: byte)
    requires SimpleType(tag).Some?
    ensures Good(utf8, SimpleType(tag).value)
  {
  }

  lemma {:induction false} BodyIsCanonical(utf8: Utf8, tag: byte, bytes: Bytes)
    requires DeserialBody(utf8, tag, bytes).Some?
    ensures Good(utf8, DeserialBody(utf8, tag, bytes).value.0)
    ensures Tag(DeserialBody(utf8, tag, bytes).value.0) == tag
    ensures bytes == SerialBody(DeserialBody(utf8, tag, bytes).value.0) + DeserialBody(utf8, tag, bytes).value.1
    decreases |bytes|, 1, 0
  {
    hide Serial, Deserial, SerialFields, DeserialFields, SerialVariants, DeserialVariants, ReadU32, ReadSize, U32Bytes,
        GoodFields, GoodVariants;
    var (t, rest) := DeserialBody(utf8, tag, bytes).value;
    match tag {
      case 15 =>
        DeserialIsCanonical(utf8, bytes);
        DeserialIsCanonical(utf8, Deserial(utf8, bytes).value.1);
        Regroup(Serial(t.left), Serial(t.right), rest);
      case 16 => SizedIsCanonical(utf8, bytes);
      case 17 => SizedIsCanonical(utf8, bytes);
      case 18 =>
        ReadSizeCanonical(bytes);
        var b := ReadSize(bytes).value.1;
        assert |b| < |bytes|;
        DeserialIsCanonical(utf8, b);
        DeserialIsCanonical(utf8, Deserial(utf8, b).value.1);
        assert bytes == [SerialSize(t.size)] + (Serial(t.key) + (Serial(t.value) + rest));
      case 19 =>
        ReadU32Canonical(bytes);
        var b := ReadU32(bytes).value.1;
        assert |b| < |bytes|;
        DeserialIsCanonical(utf8, b);
        Regroup(U32Bytes(t.len), Serial(t.ty), rest);
      case 20 => FieldsAreCanonical(utf8, bytes);
      case 21 =>
        ReadU32Canonical(bytes);
        var (n, b) := ReadU32(bytes).value;
        assert |b| < |bytes|;
        VariantsAreCanonical(utf8, n, b);
        Regroup(SerialLength(n), SerialVariants(t.variants), rest);
      case 22 => ReadSizeCanonical(bytes);
      case 25 => ReadSizeCanonical(bytes);
      case 26 => ReadSizeCanonical(bytes);
      case _ =>
    }
  }

  lemma {:induction false} SizedIsCanonical(utf8: Utf8, bytes: Bytes)
    requires ReadSize(bytes).Some? && Deserial(utf8, ReadSize(bytes).value.1).Some?
    ensures Good(utf8, Deserial(utf8, ReadSize(bytes).value.1).value.0)
    ensures bytes == [SerialSize(ReadSize(bytes).value.0)] + Serial(Deserial(utf8, ReadSize(bytes).value.1).value.0)
                     + Deserial(utf8, ReadSize(bytes).value.1).value.1
    decreases |bytes|, 0, 0
  {
    ReadSizeCanonical(bytes);
    DeserialIsCanonical(utf8, ReadSize(bytes).value.1);
  }

  lemma {:induction false} FieldsAreCanonical(utf8: Utf8, bytes: Bytes)
    requires DeserialFields(utf8, bytes).Some?
    ensures GoodFields(utf8, DeserialFields(utf8, bytes).value.0)
    ensures bytes == SerialFields(DeserialFields(utf8, bytes).value.0) + DeserialFields(utf8, bytes).value.1
    decreases |bytes|, 0, 0
  {
    hide SerialNamed, SerialTypes, DeserialNamed, DeserialTypes, ReadU32, U32Bytes, GoodNamed, GoodTypes;
    var (f, rest) := DeserialFields(utf8, bytes).value;
    var tag, body := bytes[0], bytes[1..];
    assert bytes == [tag] + body;
    if tag == 0 || tag == 1 {
      ReadU32Canonical(body);
      var (n, b) := ReadU32(body).value;
      assert |b| < |bytes|;
      if tag == 0 {
        NamedAreCanonical(utf8, n, b);
        assert bytes == [tag] + (SerialLength(n) + (SerialNamed(f.named) + rest));
      } else {
        TypesAreCanonical(utf8, n, b);
        assert bytes == [tag] + (SerialLength(n) + (SerialTypes(f.types) + rest));
      }
    }
  }

  lemma {:induction false} TypesAreCanonical(utf8: Utf8, n: nat, bytes: Bytes)
    requires DeserialTypes(utf8, n, bytes).Some?
    ensures GoodTypes(utf8, DeserialTypes(utf8, n, bytes).value.0)
    ensures bytes == SerialTypes(DeserialTypes(utf8, n, bytes).value.0) + DeserialTypes(utf8, n, bytes).value.1
    decreases |bytes|, 2, n
  {
    hide Serial, Deserial, Good;
    if n > 0 {
      var (types, rest) := DeserialTypes(utf8, n, bytes).value;
      DeserialIsCanonical(utf8, bytes);
      var b := Deserial(utf8, bytes).value.1;
      TypesAreCanonical(utf8, n - 1, b);
      assert types[1..] == DeserialTypes(utf8, n - 1, b).value.0;
      Regroup(Serial(types[0]), SerialTypes(types[1..]), rest);
    }
  }

  lemma {:induction false} NamedAreCanonical(utf8: Utf8, n: nat, bytes: Bytes)
    requires DeserialNamed(utf8, n, bytes).Some?
    ensures GoodNamed(utf8, DeserialNamed(utf8, n, bytes).value.0)
    ensures bytes == SerialNamed(DeserialNamed(utf8, n, bytes).value.0) + DeserialNamed(utf8, n, bytes).value.1
    decreases |bytes|, 2, n
  {
    hide Serial, Deserial, Good, SerialText, ReadText, GoodText;
    if n > 0 {
      var (named, rest) := DeserialNamed(utf8, n, bytes).value;
      ReadTextCanonical(utf8, bytes);
      var b := ReadText(utf8, bytes).value.1;
      DeserialIsCanonical(utf8, b);
      var b' := Deserial(utf8, b).value.1;
      NamedAreCanonical(utf8, n - 1, b');
      assert named[1..] == DeserialNamed(utf8, n - 1, b').value.0;
      assert bytes == SerialText(named[0].name) + (Serial(named[0].ty) + (SerialNamed(named[1..]) + rest));
    }
  }

  lemma {:induction false} VariantsAreCanonical(utf8: Utf8, n: nat, bytes: Bytes)
    requires DeserialVariants(utf8, n, bytes).Some?
    ensures GoodVariants(utf8, DeserialVariants(utf8, n, bytes).value.0)
    ensures bytes == SerialVariants(DeserialVariants(utf8, n, bytes).value.0) + DeserialVariants(utf8, n, bytes).value.1
    decreases |bytes|, 2, n
  {
    hide SerialFields, DeserialFields, GoodFields, SerialText, ReadText, GoodText;
    if n > 0 {
      var (variants, rest) := DeserialVariants(utf8, n, bytes).value;
      ReadTextCanonical(utf8, bytes);
      var b := ReadText(utf8, bytes).value.1;
      FieldsAreCanonical(utf8, b);
      var b' := DeserialFields(utf8, b).value.1;
      VariantsAreCanonical(utf8, n - 1, b');
      assert variants[1..] == DeserialVariants(utf8, n - 1, b').value.0;
      assert bytes
          == SerialText(variants[0].name) + (SerialFields(variants[0].fields) + (SerialVariants(variants[1..]) + rest));
    }
  }

  // ----- the format -----

  // A schema reads back, whatever follows it, exactly when all its lengths fit
  // in 32 bits and all its names are UTF-8.
  lemma SchemaRoundTripIff(utf8: Utf8, t: Type)
    ensures Good(utf8, t) <==> forall rest: Bytes :: Deserial(utf8, Serial(t) + rest) == Some((t, rest))
  {
    hide Serial, Deserial, Good;
    if Good(utf8, t) {
      forall rest: Bytes ensures Deserial(utf8, Serial(t) + rest) == Some((t, rest)) {
        SerialRoundTrip(utf8, t, rest);
      }
    }
    if forall rest: Bytes :: Deserial(utf8, Serial(t) + rest) == Some((t, rest)) {
      assert Deserial(utf8, Serial(t) + []) == Some((t, []));
      DeserialIsCanonical(utf8, Serial(t) + []);
    }
  }
}
