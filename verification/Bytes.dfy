// Little-endian integers and prefix codes: the byte-level vocabulary of the
// Concordium libraries.
module ByteCodecs {
  import opened Wrappers
  import opened Hashing

  type Bytes = seq<byte>

  const U32_RANGE: nat := 0x1_0000_0000
  const U64_RANGE: nat := 0x1_0000_0000_0000_0000

  // ----- little-endian integers -----

  // 256 to the power of a width.
  function Range(width: nat): (r: nat)
    ensures r > 0
  {
    if width == 0 then 1 else 256 * Range(width - 1)
  }

  // The low bytes of a number, least significant byte first.
  function ToLittleEndian(n: nat, width: nat): (bytes: Bytes)
    ensures |bytes| == width
  {
    if width == 0 then [] else [n % 256] + ToLittleEndian(n / 256, width - 1)
  }

  function FromLittleEndian(bytes: Bytes): (n: nat)
    ensures n < Range(|bytes|)
  {
    if bytes == [] then 0 else bytes[0] + 256 * FromLittleEndian(bytes[1..])
  }

  lemma {:induction false} LittleEndianRoundTrip(n: nat, width: nat)
    requires n < Range(width)
    ensures FromLittleEndian(ToLittleEndian(n, width)) == n
  {
    if width > 0 {
      LittleEndianRoundTrip(n / 256, width - 1);
      assert ToLittleEndian(n, width)[1..] == ToLittleEndian(n / 256, width - 1);
    }
  }

  lemma {:induction false} LittleEndianIsCanonical(bytes: Bytes)
    ensures ToLittleEndian(FromLittleEndian(bytes), |bytes|) == bytes
  {
    if bytes != [] {
      LittleEndianIsCanonical(bytes[1..]);
      var rest := FromLittleEndian(bytes[1..]);
      assert (bytes[0] + 256 * rest) % 256 == bytes[0] && (bytes[0] + 256 * rest) / 256 == rest;
      assert bytes == [bytes[0]] + bytes[1..];
    }
  }

  lemma WordRanges()
    ensures Range(1) == 256 && Range(2) == 0x1_0000 && Range(4) == U32_RANGE && Range(8) == U64_RANGE
  {
    assert Range(2) == 256 * Range(1);
    assert Range(3) == 256 * Range(2);
    assert Range(4) == 256 * Range(3);
    assert Range(5) == 256 * Range(4);
    assert Range(6) == 256 * Range(5);
    assert Range(7) == 256 * Range(6);
    assert Range(8) == 256 * Range(7);
  }

  function U32Bytes(n: nat): (bytes: Bytes)
    ensures |bytes| == 4
  {
    ToLittleEndian(n, 4)
  }

  function U64Bytes(n: nat): (bytes: Bytes)
    ensures |bytes| == 8
  {
    ToLittleEndian(n, 8)
  }

  // The bytes of words, from the least significant to the most significant one.
  lemma U32BytesAre(n: nat)
    ensures U32Bytes(n) == [n % 256, n / 0x100 % 256, n / 0x1_0000 % 256, n / 0x100_0000 % 256]
  {
    TwoBytes(n, 4);
    TwoBytes(n / 0x1_0000, 2);
    assert ToLittleEndian(n / 0x1_0000 / 0x1_0000, 0) == [];
  }

  lemma U64BytesAre(n: nat)
    ensures U64Bytes(n) == U32Bytes(n) + U32Bytes(n / 0x1_0000_0000)
  {
    var high := n / 0x1_0000_0000;
    TwoBytes(n, 8);
    TwoBytes(n / 0x1_0000, 6);
    TwoBytes(n, 4);
    TwoBytes(n / 0x1_0000, 2);
    assert n / 0x1_0000 / 0x1_0000 == high;
  }

  lemma TwoBytes(n: nat, width: nat)
    requires width >= 2
    ensures ToLittleEndian(n, width) == [n % 256, n / 0x100 % 256] + ToLittleEndian(n / 0x1_0000, width - 2)
  {
    assert ToLittleEndian(n / 256, width - 1) == [n / 256 % 256] + ToLittleEndian(n / 256 / 256, width - 2);
    assert n / 256 / 256 == n / 0x1_0000;
  }

  lemma U32RoundTrip(n: nat)
    requires n < U32_RANGE
    ensures FromLittleEndian(U32Bytes(n)) == n
  {
    WordRanges();
    LittleEndianRoundTrip(n, 4);
  }

  lemma U64RoundTrip(n: nat)
    requires n < U64_RANGE
    ensures FromLittleEndian(U64Bytes(n)) == n
  {
    WordRanges();
    LittleEndianRoundTrip(n, 8);
  }

  // ----- codecs -----

  // A serializer with its deserializer, which returns the value and the bytes
  // it has not consumed. Only valid values are ever serialized.
  datatype Codec<!T> = Codec(valid: T -> bool, encode: T -> Bytes, decode: Bytes -> Option<(T, Bytes)>)

  // What was serialized is read back, whatever follows it.
  ghost predicate PrefixCodec<T(!new)>(c: Codec<T>) {
    forall t: T, rest: Bytes :: c.valid(t) ==> c.decode(c.encode(t) + rest) == Some((t, rest))
  }

  lemma ReadBack<T(!new)>(c: Codec<T>, t: T, rest: Bytes)
    requires PrefixCodec(c) && c.valid(t)
    ensures c.decode(c.encode(t) + rest) == Some((t, rest))
    ensures c.decode(c.encode(t)) == Some((t, []))
  {
    assert c.encode(t) + [] == c.encode(t);
  }

  // Different values have different encodings.
  lemma EncodeIsInjective<T(!new)>(c: Codec<T>, a: T, b: T)
    requires PrefixCodec(c) && c.valid(a) && c.valid(b) && c.encode(a) == c.encode(b)
    ensures a == b
  {
    ReadBack(c, a, []);
    ReadBack(c, b, []);
  }
}
