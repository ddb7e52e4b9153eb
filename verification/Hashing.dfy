// The hash interface of the Merkle tree library (rs-merkle/src/hasher.rs).
//
// The hash algorithm itself is a parameter: every definition below takes a
// function from byte strings to digests, and nothing is assumed about it.
module Hashing {
  import opened Wrappers

  type byte = b: int | 0 <= b < 256

  const HASH_SIZE: nat := 32

  datatype RawDigest = RawDigest(bytes: seq<byte>)

  // The result of hashing: a fixed number of bytes.
  type Digest = d: RawDigest | |d.bytes| == HASH_SIZE witness RawDigest(seq(HASH_SIZE, _ => 0))

  type Hasher = seq<byte> -> Digest

  // The parent of two adjacent nodes. A node without a right sibling is
  // promoted unchanged.
  function ConcatAndHash(h: Hasher, left: Digest, right: Option<Digest>): Digest {
    match right
    case Some(node) => h(left.bytes + node.bytes)
    case None => left
  }

  // Two different inputs on which the hash function agrees.
  ghost predicate Collide(h: Hasher, a: seq<byte>, b: seq<byte>) {
    a != b && h(a) == h(b)
  }

  // Because digests have one length, a concatenation of two digests
  // determines both of them: equal parents mean equal children, unless the
  // two concatenations collide.
  lemma EqualParents(h: Hasher, l: Digest, r: Option<Digest>, l': Digest, r': Option<Digest>)
    requires r.Some? == r'.Some?
    requires ConcatAndHash(h, l, r) == ConcatAndHash(h, l', r')
    ensures (l == l' && r == r') || (r.Some? && Collide(h, l.bytes + r.value.bytes, l'.bytes + r'.value.bytes))
  {
    if r.Some? && l.bytes + r.value.bytes == l'.bytes + r'.value.bytes {
      var both := l.bytes + r.value.bytes;
      assert l.bytes == both[..HASH_SIZE] == l'.bytes;
      assert r.value.bytes == both[HASH_SIZE..] == r'.value.bytes;
    }
  }
}
