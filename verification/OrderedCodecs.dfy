// Vectors, ordered maps and sets of concordium-contracts-common (impls.rs): the
// byte cursor, the decoding loops, and when decoding and encoding are inverse.
module OrderedCodecs {
  import opened Wrappers
  import opened ByteCodecs
  import opened StateStores
  import opened Permutations

  // ----- the cursor -----

  class Cursor {
    var data: Bytes
    var offset: nat

    constructor (data: Bytes)
      ensures this.data == data && offset == 0
    {
      this.data := data;
      offset := 0;
    }

    predicate Valid()
      reads this
    {
      offset <= |data|
    }

    // What has not been read yet.
    function Rest(): Bytes
      requires Valid()
      reads this
    {
      data[offset..]
    }

    // Reads at most `len` bytes.
    method Read(len: nat) returns (bytes: Bytes)
      requires Valid()
      modifies this
      ensures Valid() && data == old(data)
      ensures |bytes| == (if len <= |old(Rest())| then len else |old(Rest())|) && old(Rest()) == bytes + Rest()
    {
      var n := |data| - offset;
      if n > len {
        n := len;
      }
      bytes := data[offset..offset + n];
      offset := offset + n;
    }

    // Writes over the data at the cursor, extending it as needed.
    method Write(bytes: Bytes) returns (written: nat)
      requires Valid()
      modifies this
      ensures Valid() && written == |bytes| && offset == old(offset) + |bytes|
      ensures data == Overwrite(old(data), old(offset), bytes)
    {
      if bytes == [] {
        assert data == Overwrite(data, offset, bytes);
        return 0;
      }
      var remaining := |data| - offset;
      if remaining >= |bytes| {
        data := data[..offset] + bytes + data[offset + |bytes|..];
      } else {
        data := data[..offset] + bytes[..remaining];
        data := data + bytes[remaining..];
        assert data == old(data)[..offset] + bytes;
      }
      offset := offset + |bytes|;
      return |bytes|;
    }

    // `get`: one value; None is a parse error.
    method Get<T(!new)>(c: Codec<T>) returns (r: Option<T>)
      requires Valid() && ReadsForward(c)
      modifies this
      ensures Valid() && data == old(data)
      ensures match c.decode(old(Rest()))
        case None => r == None
        case Some((t, rest)) => r == Some(t) && Rest() == rest
    {
      match c.decode(data[offset..])
      case None =>
        return None;
      case Some((t, rest)) =>
        assert IsSuffix(data[offset..], rest);
        offset := |data| - |rest|;
        return Some(t);
    }
  }

  predicate IsSuffix(bytes: Bytes, rest: Bytes) {
    |rest| <= |bytes| && rest == bytes[|bytes| - |rest|..]
  }

  // A deserializer leaves the end of its input.
  ghost predicate ReadsForward<T(!new)>(c: Codec<T>) {
    forall bytes: Bytes :: c.decode(bytes).Some? ==> IsSuffix(bytes, c.decode(bytes).value.1)
  }

  // Decoding accepts only what encoding writes.
  ghost predicate Canonical<T(!new)>(c: Codec<T>) {
    forall bytes: Bytes :: c.decode(bytes).Some? ==>
      c.valid(c.decode(bytes).value.0) && bytes == c.encode(c.decode(bytes).value.0) + c.decode(bytes).value.1
  }

  // ----- vectors -----

  function EncodeAll<T>(c: Codec<T>, xs: seq<T>): Bytes {
    if xs == [] then [] else c.encode(xs[0]) + EncodeAll(c, xs[1..])
  }

  function DecodeAll<T>(c: Codec<T>, n: nat, bytes: Bytes): (r: Option<(seq<T>, Bytes)>)
    ensures r.Some? ==> |r.value.0| == n
  {
    if n == 0 then Some(([], bytes))
    else
      var x :- c.decode(bytes);
      var more :- DecodeAll(c, n - 1, x.1);
      Some(([x.0] + more.0, more.1))
  }

  function Prepend<T>(xs: seq<T>, r: Option<(seq<T>, Bytes)>): Option<(seq<T>, Bytes)> {
    match r
    case None => None
    case Some((ys, rest)) => Some((xs + ys, rest))
  }

  lemma DecodeUnfold<T>(c: Codec<T>, xs: seq<T>, n: nat, bytes: Bytes)
    requires n > 0
    ensures Prepend(xs, DecodeAll(c, n, bytes)) ==
      match c.decode(bytes) case None => None case Some((x, rest)) => Prepend(xs + [x], DecodeAll(c, n - 1, rest))
  {
    if c.decode(bytes).Some? {
      var (x, rest) := c.decode(bytes).value;
      var more := DecodeAll(c, n - 1, rest);
      if more.Some? {
        assert xs + ([x] + more.value.0) == (xs + [x]) + more.value.0;
      }
    }
  }

  lemma PrependNothing<T>(r: Option<(seq<T>, Bytes)>)
    ensures Prepend([], r) == r
  {
    if r.Some? {
      assert [] + r.value.0 == r.value.0;
    }
  }

  lemma NothingLeft<T>(c: Codec<T>, xs: seq<T>, bytes: Bytes)
    ensures Prepend(xs, DecodeAll(c, 0, bytes)) == Some((xs, bytes))
  {
    assert xs + [] == xs;
  }

  // `deserial_vector_no_length`.
  method DeserialVectorNoLength<T(!new)>(source: Cursor, c: Codec<T>, len: nat) returns (r: Option<seq<T>>)
    requires source.Valid() && ReadsForward(c)
    modifies source
    ensures source.Valid()
    ensures match DecodeAll(c, len, old(source.Rest()))
      case None => r == None
      case Some((xs, rest)) => r == Some(xs) && source.Rest() == rest
  {
    var xs: seq<T> := [];
    PrependNothing(DecodeAll(c, len, source.Rest()));
    hide DecodeAll, Prepend;
    for i := 0 to len
      invariant source.Valid()
      invariant DecodeAll(c, len, old(source.Rest())) == Prepend(xs, DecodeAll(c, len - i, source.Rest()))
    {
      DecodeUnfold(c, xs, len - i, source.Rest());
      var x := source.Get(c);
      if x.None? {
        return None;
      }
      xs := xs + [x.value];
    }
    NothingLeft(c, xs, source.Rest());
    return Some(xs);
  }

  predicate AllValid<T>(c: Codec<T>, xs: seq<T>) {
    forall i :: 0 <= i < |xs| ==> c.valid(xs[i])
  }

  lemma {:induction false} DecodeEncoded<T(!new)>(c: Codec<T>, xs: seq<T>, rest: Bytes)
    requires PrefixCodec(c) && AllValid(c, xs)
    ensures DecodeAll(c, |xs|, EncodeAll(c, xs) + rest) == Some((xs, rest))
  {
    if xs == [] {
      assert [] + rest == rest;
    } else {
      assert EncodeAll(c, xs) + rest == c.encode(xs[0]) + (EncodeAll(c, xs[1..]) + rest);
      ReadBack(c, xs[0], EncodeAll(c, xs[1..]) + rest);
      DecodeEncoded(c, xs[1..], rest);
      assert [xs[0]] + xs[1..] == xs;
    }
  }

  lemma {:induction false} EncodeDecoded<T(!new)>(c: Codec<T>, n: nat, bytes: Bytes)
    requires Canonical(c) && DecodeAll(c, n, bytes).Some?
    ensures AllValid(c, DecodeAll(c, n, bytes).value.0)
    ensures bytes == EncodeAll(c, DecodeAll(c, n, bytes).value.0) + DecodeAll(c, n, bytes).value.1
  {
    if n > 0 {
      var (x, b) := c.decode(bytes).value;
      var (xs, rest) := DecodeAll(c, n, bytes).value;
      EncodeDecoded(c, n - 1, b);
      var more := DecodeAll(c, n - 1, b).value.0;
      assert xs[1..] == more;
      assert c.valid(x) && bytes == c.encode(x) + b;
      forall i | 0 <= i < |xs| ensures c.valid(xs[i]) {
        if i > 0 {
          assert xs[i] == more[i - 1];
        }
      }
      assert bytes == c.encode(x) + EncodeAll(c, more) + rest;
    }
  }

  // ----- pairs and order -----

  // The codec of a key followed by a value.
  function PairCodec<K, V>(keys: Codec<K>, values: Codec<V>): Codec<(K, V)> {
    Codec(p => PairValid(keys, values, p), p => PairEncode(keys, values, p), bytes => PairDecode(keys, values, bytes))
  }

  function PairValid<K, V>(keys: Codec<K>, values: Codec<V>, p: (K, V)): bool {
    keys.valid(p.0) && values.valid(p.1)
  }

  function PairEncode<K, V>(keys: Codec<K>, values: Codec<V>, p: (K, V)): Bytes {
    keys.encode(p.0) + values.encode(p.1)
  }

  function PairDecode<K, V>(keys: Codec<K>, values: Codec<V>, bytes: Bytes): Option<((K, V), Bytes)> {
    var k :- keys.decode(bytes);
    var v :- values.decode(k.1);
    Some(((k.0, v.0), v.1))
  }

  lemma PairIsPrefixCodec<K(!new), V(!new)>(keys: Codec<K>, values: Codec<V>)
    requires PrefixCodec(keys) && PrefixCodec(values)
    ensures PrefixCodec(PairCodec(keys, values))
  {
    var c := PairCodec(keys, values);
    forall p: (K, V), rest: Bytes | c.valid(p) ensures c.decode(c.encode(p) + rest) == Some((p, rest)) {
      assert c.encode(p) + rest == keys.encode(p.0) + (values.encode(p.1) + rest);
      ReadBack(keys, p.0, values.encode(p.1) + rest);
      ReadBack(values, p.1, rest);
    }
  }

  lemma PairIsCanonical<K(!new), V(!new)>(keys: Codec<K>, values: Codec<V>)
    requires Canonical(keys) && Canonical(values)
    ensures Canonical(PairCodec(keys, values))
  {
    var c := PairCodec(keys, values);
    forall bytes: Bytes | c.decode(bytes).Some?
      ensures c.valid(c.decode(bytes).value.0) && bytes == c.encode(c.decode(bytes).value.0) + c.decode(bytes).value.1
    {
      var (k, b) := keys.decode(bytes).value;
      var (v, rest) := values.decode(b).value;
      assert bytes == keys.encode(k) + b && b == values.encode(v) + rest;
      assert bytes == keys.encode(k) + values.encode(v) + rest;
    }
  }

  // A strict total order.
  ghost predicate TotalOrder<K(!new)>(less: (K, K) -> bool) {
    && (forall a :: !less(a, a))
    && (forall a, b, c :: less(a, b) && less(b, c) ==> less(a, c))
    && (forall a, b :: a == b || less(a, b) || less(b, a))
  }

  function KeysOf<K, V>(pairs: seq<(K, V)>): seq<K> {
    seq(|pairs|, i requires 0 <= i < |pairs| => pairs[i].0)
  }

  predicate Ascending<K>(less: (K, K) -> bool, keys: seq<K>) {
    forall i :: 0 < i < |keys| ==> less(keys[i - 1], keys[i])
  }

  predicate Distinct<K(==)>(keys: seq<K>) {
    forall i, j :: 0 <= i < j < |keys| ==> keys[i] != keys[j]
  }

  // The map of a list of pairs; later pairs win.
  function MapOf<K, V>(pairs: seq<(K, V)>): map<K, V> {
    if pairs == [] then map[] else MapOf(pairs[..|pairs| - 1])[pairs[|pairs| - 1].0 := pairs[|pairs| - 1].1]
  }

  lemma {:induction false} MapOfKeys<K(!new), V>(pairs: seq<(K, V)>)
    ensures forall k :: k in MapOf(pairs) <==> k in KeysOf(pairs)
  {
    if pairs != [] {
      var n := |pairs| - 1;
      MapOfKeys(pairs[..n]);
      assert KeysOf(pairs) == KeysOf(pairs[..n]) + [pairs[n].0];
    }
  }

  lemma PushPair<K(!new), V>(pairs: seq<(K, V)>, k: K, v: V)
    ensures MapOf(pairs + [(k, v)]) == MapOf(pairs)[k := v]
    ensures KeysOf(pairs + [(k, v)]) == KeysOf(pairs) + [k]
    ensures k in MapOf(pairs) <==> k in KeysOf(pairs)
    ensures Distinct(KeysOf(pairs)) ==> (k in MapOf(pairs) <==> !Distinct(KeysOf(pairs) + [k]))
  {
    assert (pairs + [(k, v)])[..|pairs|] == pairs;
    MapOfKeys(pairs);
    var keys := KeysOf(pairs);
    if k in keys {
      var i :| 0 <= i < |keys| && keys[i] == k;
      assert (keys + [k])[i] == (keys + [k])[|keys|];
    }
  }

  // The key that the decoding loops compare with.
  function Last<K>(keys: seq<K>): Option<K> {
    if keys == [] then None else Some(keys[|keys| - 1])
  }

  lemma PushAscending<K>(less: (K, K) -> bool, keys: seq<K>, k: K)
    requires Ascending(less, keys)
    ensures Ascending(less, keys + [k]) <==> Last(keys).None? || less(Last(keys).value, k)
    ensures Last(keys + [k]) == Some(k)
  {
    var more := keys + [k];
    if keys == [] || less(keys[|keys| - 1], k) {
      forall i | 0 < i < |more| ensures less(more[i - 1], more[i]) {
        if i < |keys| {
          assert more[i - 1] == keys[i - 1] && more[i] == keys[i];
        }
      }
    } else {
      assert !less(more[|keys| - 1], more[|keys|]);
    }
  }

  lemma {:induction false} LongerIsNotAscending<K>(less: (K, K) -> bool, keys: seq<K>, more: seq<K>)
    requires !Ascending(less, keys)
    ensures !Ascending(less, keys + more)
  {
    var i :| 0 < i < |keys| && !less(keys[i - 1], keys[i]);
    var all := keys + more;
    assert !less(all[i - 1], all[i]);
  }

  lemma {:induction false} MapOfPair<K(!new), V>(pairs: seq<(K, V)>, i: nat)
    requires Distinct(KeysOf(pairs)) && i < |pairs|
    ensures pairs[i].0 in MapOf(pairs) && MapOf(pairs)[pairs[i].0] == pairs[i].1
  {
    var n := |pairs| - 1;
    if i < n {
      assert KeysOf(pairs[..n]) == KeysOf(pairs)[..n];
      MapOfPair(pairs[..n], i);
      assert KeysOf(pairs)[i] != KeysOf(pairs)[n];
    }
  }

  lemma {:induction false} MapOfSize<K(!new), V>(pairs: seq<(K, V)>)
    requires Distinct(KeysOf(pairs))
    ensures |MapOf(pairs)| == |pairs|
  {
    if pairs != [] {
      var n := |pairs| - 1;
      assert KeysOf(pairs[..n]) == KeysOf(pairs)[..n];
      MapOfSize(pairs[..n]);
      MapOfKeys(pairs[..n]);
      var k := pairs[n].0;
      assert KeysOf(pairs)[n] == k && k !in KeysOf(pairs[..n]);
      assert MapOf(pairs).Keys == MapOf(pairs[..n]).Keys + {k};
    }
  }

  lemma {:induction false} AscendingBelow<K(!new)>(less: (K, K) -> bool, keys: seq<K>, i: nat, j: nat)
    requires TotalOrder(less) && Ascending(less, keys) && i < j < |keys|
    ensures less(keys[i], keys[j])
  {
    if i < j - 1 {
      AscendingBelow(less, keys, i, j - 1);
    }
    assert less(keys[j - 1], keys[j]);
  }

  lemma AscendingIsDistinct<K(!new)>(less: (K, K) -> bool, keys: seq<K>)
    requires TotalOrder(less) && Ascending(less, keys)
    ensures Distinct(keys)
  {
    forall i, j | 0 <= i < j < |keys| ensures keys[i] != keys[j] {
      AscendingBelow(less, keys, i, j);
    }
  }

  // Permutations of distinct pairs make the same map.
  lemma MapOfPermutation<K(!new), V>(a: seq<(K, V)>, b: seq<(K, V)>)
    requires multiset(a) == multiset(b) && Distinct(KeysOf(a)) && Distinct(KeysOf(b))
    ensures MapOf(a) == MapOf(b)
  {
    MapOfSubset(a, b);
    MapOfSubset(b, a);
  }

  lemma MapOfSubset<K(!new), V>(a: seq<(K, V)>, b: seq<(K, V)>)
    requires multiset(a) == multiset(b) && Distinct(KeysOf(a)) && Distinct(KeysOf(b))
    ensures forall k :: k in MapOf(a) ==> k in MapOf(b) && MapOf(b)[k] == MapOf(a)[k]
  {
    forall k | k in MapOf(a) ensures k in MapOf(b) && MapOf(b)[k] == MapOf(a)[k] {
      MapOfKeys(a);
      assert k in KeysOf(a);
      var i :| 0 <= i < |a| && KeysOf(a)[i] == k;
      MapOfPair(a, i);
      assert a[i] in multiset(b);
      var j :| 0 <= j < |b| && b[j] == a[i];
      MapOfPair(b, j);
    }
  }

  // ----- the ascending list of a map -----

  // What the iterator of a BTreeMap yields.
  ghost predicate Lists<K(!new), V>(less: (K, K) -> bool, pairs: seq<(K, V)>, m: map<K, V>) {
    Ascending(less, KeysOf(pairs)) && MapOf(pairs) == m
  }

  lemma {:induction false} LastIsGreatest<K(!new), V>(less: (K, K) -> bool, pairs: seq<(K, V)>, k: K)
    requires TotalOrder(less) && Ascending(less, KeysOf(pairs)) && k in KeysOf(pairs)
    ensures k == KeysOf(pairs)[|pairs| - 1] || less(k, KeysOf(pairs)[|pairs| - 1])
  {
    var keys := KeysOf(pairs);
    var i :| 0 <= i < |keys| && keys[i] == k;
    if i < |keys| - 1 {
      AscendingBelow(less, keys, i, |keys| - 1);
    }
  }

  lemma SameLast<K(!new), V>(less: (K, K) -> bool, a: seq<(K, V)>, b: seq<(K, V)>, m: map<K, V>)
    requires TotalOrder(less) && Lists(less, a, m) && Lists(less, b, m) && a != [] && b != []
    ensures a[|a| - 1] == b[|b| - 1]
  {
    var p, q := a[|a| - 1], b[|b| - 1];
    MapOfKeys(a);
    MapOfKeys(b);
    assert KeysOf(a)[|a| - 1] == p.0 && KeysOf(b)[|b| - 1] == q.0;
    LastIsGreatest(less, a, q.0);
    LastIsGreatest(less, b, p.0);
    if p.0 != q.0 {
      AtMostIsNotLess(less, p.0, q.0);
    }
    AscendingIsDistinct(less, KeysOf(a));
    AscendingIsDistinct(less, KeysOf(b));
    MapOfPair(a, |a| - 1);
    MapOfPair(b, |b| - 1);
  }

  lemma ListSize<K(!new), V>(less: (K, K) -> bool, a: seq<(K, V)>, m: map<K, V>)
    requires TotalOrder(less) && Lists(less, a, m)
    ensures |a| == |m|
  {
    AscendingIsDistinct(less, KeysOf(a));
    MapOfSize(a);
  }

  // There is only one ascending list of a map.
  lemma {:induction false} ListIsUnique<K(!new), V>(less: (K, K) -> bool, a: seq<(K, V)>, b: seq<(K, V)>, m: map<K, V>)
    requires TotalOrder(less) && Lists(less, a, m) && Lists(less, b, m)
    ensures a == b
  {
    hide TotalOrder, Lists;
    ListSize(less, a, m);
    ListSize(less, b, m);
    if a != [] {
      var n := |a| - 1;
      SameLast(less, a, b, m);
      DropLast(less, a, m);
      DropLast(less, b, m);
      ListIsUnique(less, a[..n], b[..n], m - {a[n].0});
      assert a == a[..n] + [a[n]] && b == b[..n] + [b[n]];
    }
  }

  lemma DropLast<K(!new), V>(less: (K, K) -> bool, a: seq<(K, V)>, m: map<K, V>)
    requires TotalOrder(less) && Lists(less, a, m) && a != []
    ensures Lists(less, a[..|a| - 1], m - {a[|a| - 1].0})
  {
    var n := |a| - 1;
    assert KeysOf(a[..n]) == KeysOf(a)[..n];
    AscendingIsDistinct(less, KeysOf(a));
    MapOfKeys(a[..n]);
    assert KeysOf(a)[n] == a[n].0 && a[n].0 !in KeysOf(a[..n]);
    assert MapOf(a[..n]) == m - {a[n].0};
  }

  // ----- decoding maps -----

  // A key and a value, one after the other.
  method GetPair<K(!new), V(!new)>(source: Cursor, keys: Codec<K>, values: Codec<V>) returns (r: Option<(K, V)>)
    requires source.Valid() && ReadsForward(keys) && ReadsForward(values)
    modifies source
    ensures source.Valid()
    ensures match PairDecode(keys, values, old(source.Rest()))
      case None => r == None
      case Some((p, rest)) => r == Some(p) && source.Rest() == rest
  {
    var k := source.Get(keys);
    if k.None? {
      return None;
    }
    var v := source.Get(values);
    if v.None? {
      return None;
    }
    return Some((k.value, v.value));
  }

  // What the two map decoders return on given bytes.
  function OrderedMap<K, V>(keys: Codec<K>, values: Codec<V>, less: (K, K) -> bool, n: nat,
      bytes: Bytes): Option<(map<K, V>, Bytes)> {
    var d :- DecodeAll(PairCodec(keys, values), n, bytes);
    if Ascending(less, KeysOf(d.0)) then Some((MapOf(d.0), d.1)) else None
  }

  function UnorderedMap<K, V>(keys: Codec<K>, values: Codec<V>, n: nat, bytes: Bytes): Option<(map<K, V>, Bytes)> {
    var d :- DecodeAll(PairCodec(keys, values), n, bytes);
    if Distinct(KeysOf(d.0)) then Some((MapOf(d.0), d.1)) else None
  }

  // The loop with the order check after some pairs, when n are left.
  ghost predicate InOrderedMap<K(!new), V(!new)>(keys: Codec<K>, values: Codec<V>, less: (K, K) -> bool,
      goal: Option<(map<K, V>, Bytes)>, n: nat, bytes: Bytes, pairs: seq<(K, V)>, out: map<K, V>, x: Option<K>) {
    && out == MapOf(pairs) && Ascending(less, KeysOf(pairs)) && x == Last(KeysOf(pairs))
    && goal == match Prepend(pairs, DecodeAll(PairCodec(keys, values), n, bytes))
               case None => None
               case Some((all, rest)) => if Ascending(less, KeysOf(all)) then Some((MapOf(all), rest)) else None
  }

  lemma OrderedMapStarts<K(!new), V(!new)>(keys: Codec<K>, values: Codec<V>, less: (K, K) -> bool, n: nat,
      bytes: Bytes)
    ensures InOrderedMap(keys, values, less, OrderedMap(keys, values, less, n, bytes), n, bytes, [], map[], None)
  {
    PrependNothing(DecodeAll(PairCodec(keys, values), n, bytes));
    assert KeysOf<K, V>([]) == [];
  }

  lemma OrderedMapNext<K(!new), V(!new)>(keys: Codec<K>, values: Codec<V>, less: (K, K) -> bool,
      goal: Option<(map<K, V>, Bytes)>, n: nat, bytes: Bytes, pairs: seq<(K, V)>, out: map<K, V>, x: Option<K>)
    requires n > 0 && InOrderedMap(keys, values, less, goal, n, bytes, pairs, out, x)
    ensures match PairDecode(keys, values, bytes)
      case None => goal == None
      case Some((p, rest)) =>
        if x.Some? && !less(x.value, p.0) then goal == None
        else InOrderedMap(keys, values, less, goal, n - 1, rest, pairs + [p], out[p.0 := p.1], Some(p.0))
  {
    var c := PairCodec(keys, values);
    DecodeUnfold(c, pairs, n, bytes);
    assert c.decode(bytes) == PairDecode(keys, values, bytes);
    hide PairCodec, PairDecode, DecodeAll, Prepend, MapOf, KeysOf, Ascending, Last;
    if c.decode(bytes).Some? {
      var (p, rest) := c.decode(bytes).value;
      var (k, v) := p;
      assert p == (k, v);
      PushPair(pairs, k, v);
      PushAscending(less, KeysOf(pairs), k);
      if !Ascending(less, KeysOf(pairs + [(k, v)])) {
        NotAscending(less, pairs + [(k, v)], DecodeAll(c, n - 1, rest));
      }
    }
  }

  lemma OrderedMapDone<K(!new), V(!new)>(keys: Codec<K>, values: Codec<V>, less: (K, K) -> bool,
      goal: Option<(map<K, V>, Bytes)>, bytes: Bytes, pairs: seq<(K, V)>, out: map<K, V>, x: Option<K>)
    requires InOrderedMap(keys, values, less, goal, 0, bytes, pairs, out, x)
    ensures goal == Some((out, bytes))
  {
    NothingLeft(PairCodec(keys, values), pairs, bytes);
  }

  lemma NotAscending<K(!new), V>(less: (K, K) -> bool, pairs: seq<(K, V)>, r: Option<(seq<(K, V)>, Bytes)>)
    requires !Ascending(less, KeysOf(pairs))
    ensures Prepend(pairs, r).Some? ==> !Ascending(less, KeysOf(Prepend(pairs, r).value.0))
  {
    if r.Some? {
      LongerIsNotAscending(less, KeysOf(pairs), KeysOf(r.value.0));
      assert KeysOf(pairs + r.value.0) == KeysOf(pairs) + KeysOf(r.value.0);
    }
  }

  // `deserial_map_no_length`: succeeds only if the keys are listed in order.
  method DeserialMapNoLength<K(!new), V(!new)>(source: Cursor, keys: Codec<K>, values: Codec<V>,
      less: (K, K) -> bool, len: nat)
    returns (r: Option<map<K, V>>)
    requires source.Valid() && ReadsForward(keys) && ReadsForward(values)
    modifies source
    ensures source.Valid()
    ensures match OrderedMap(keys, values, less, len, old(source.Rest()))
      case None => r == None
      case Some((m, rest)) => r == Some(m) && source.Rest() == rest
  {
    var out: map<K, V> := map[];
    var x: Option<K> := None;
    ghost var pairs: seq<(K, V)> := [];
    ghost var goal := OrderedMap(keys, values, less, len, source.Rest());
    OrderedMapStarts(keys, values, less, len, source.Rest());
    hide *;
    for i := 0 to len
      invariant source.Valid() && InOrderedMap(keys, values, less, goal, len - i, source.Rest(), pairs, out, x)
    {
      OrderedMapNext(keys, values, less, goal, len - i, source.Rest(), pairs, out, x);
      var p := GetPair(source, keys, values);
      if p.None? {
        return None;
      }
      var k, v := p.value.0, p.value.1;
      if x.Some? && !less(x.value, k) {
        return None;
      }
      out := out[k := v];
      x := Some(k);
      pairs := pairs + [p.value];
    }
    OrderedMapDone(keys, values, less, goal, source.Rest(), pairs, out, x);
    return Some(out);
  }

  // The loop without the order check after some pairs, when n are left.
  ghost predicate InUnorderedMap<K(!new), V(!new)>(keys: Codec<K>, values: Codec<V>,
      goal: Option<(map<K, V>, Bytes)>, n: nat, bytes: Bytes, pairs: seq<(K, V)>, out: map<K, V>) {
    && out == MapOf(pairs) && Distinct(KeysOf(pairs))
    && goal == match Prepend(pairs, DecodeAll(PairCodec(keys, values), n, bytes))
               case None => None
               case Some((all, rest)) => if Distinct(KeysOf(all)) then Some((MapOf(all), rest)) else None
  }

  lemma UnorderedMapStarts<K(!new), V(!new)>(keys: Codec<K>, values: Codec<V>, n: nat, bytes: Bytes)
    ensures InUnorderedMap(keys, values, UnorderedMap(keys, values, n, bytes), n, bytes, [], map[])
  {
    PrependNothing(DecodeAll(PairCodec(keys, values), n, bytes));
    assert KeysOf<K, V>([]) == [];
  }

  lemma UnorderedMapNext<K(!new), V(!new)>(keys: Codec<K>, values: Codec<V>,
      goal: Option<(map<K, V>, Bytes)>, n: nat, bytes: Bytes, pairs: seq<(K, V)>, out: map<K, V>)
    requires n > 0 && InUnorderedMap(keys, values, goal, n, bytes, pairs, out)
    ensures match PairDecode(keys, values, bytes)
      case None => goal == None
      case Some((p, rest)) =>
        if p.0 in out then goal == None
        else InUnorderedMap(keys, values, goal, n - 1, rest, pairs + [p], out[p.0 := p.1])
  {
    var c := PairCodec(keys, values);
    DecodeUnfold(c, pairs, n, bytes);
    assert c.decode(bytes) == PairDecode(keys, values, bytes);
    hide PairCodec, PairDecode, DecodeAll, Prepend, MapOf, KeysOf, Distinct;
    if c.decode(bytes).Some? {
      var (p, rest) := c.decode(bytes).value;
      var (k, v) := p;
      assert p == (k, v);
      PushPair(pairs, k, v);
      if k in out {
        NotDistinct(pairs + [(k, v)], DecodeAll(c, n - 1, rest));
      }
    }
  }

  lemma UnorderedMapDone<K(!new), V(!new)>(keys: Codec<K>, values: Codec<V>,
      goal: Option<(map<K, V>, Bytes)>, bytes: Bytes, pairs: seq<(K, V)>, out: map<K, V>)
    requires InUnorderedMap(keys, values, goal, 0, bytes, pairs, out)
    ensures goal == Some((out, bytes))
  {
    NothingLeft(PairCodec(keys, values), pairs, bytes);
  }

  lemma NotDistinct<K(!new), V>(pairs: seq<(K, V)>, r: Option<(seq<(K, V)>, Bytes)>)
    requires !Distinct(KeysOf(pairs))
    ensures Prepend(pairs, r).Some? ==> !Distinct(KeysOf(Prepend(pairs, r).value.0))
  {
    if r.Some? {
      var keys, all := KeysOf(pairs), KeysOf(pairs + r.value.0);
      var i, j :| 0 <= i < j < |keys| && keys[i] == keys[j];
      assert all[i] == keys[i] && all[j] == keys[j];
    }
  }

  // `deserial_map_no_length_no_order_check`: succeeds unless a key is repeated.
  method DeserialMapNoLengthNoOrderCheck<K(!new), V(!new)>(source: Cursor, keys: Codec<K>, values: Codec<V>, len: nat)
    returns (r: Option<map<K, V>>)
    requires source.Valid() && ReadsForward(keys) && ReadsForward(values)
    modifies source
    ensures source.Valid()
    ensures match UnorderedMap(keys, values, len, old(source.Rest()))
      case None => r == None
      case Some((m, rest)) => r == Some(m) && source.Rest() == rest
  {
    var out: map<K, V> := map[];
    ghost var pairs: seq<(K, V)> := [];
    ghost var goal := UnorderedMap(keys, values, len, source.Rest());
    UnorderedMapStarts(keys, values, len, source.Rest());
    hide *;
    for i := 0 to len
      invariant source.Valid() && InUnorderedMap(keys, values, goal, len - i, source.Rest(), pairs, out)
    {
      UnorderedMapNext(keys, values, goal, len - i, source.Rest(), pairs, out);
      var p := GetPair(source, keys, values);
      if p.None? {
        return None;
      }
      var k, v := p.value.0, p.value.1;
      var present := k in out;
      out := out[k := v];
      if present {
        return None;
      }
      pairs := pairs + [p.value];
    }
    UnorderedMapDone(keys, values, goal, source.Rest(), pairs, out);
    return Some(out);
  }

  // ----- decoding sets -----

  function SetOf<K>(keys: seq<K>): set<K> {
    set k | k in keys
  }

  // What the set decoder with the order check returns on given bytes.
  function OrderedSet<K>(keys: Codec<K>, less: (K, K) -> bool, n: nat, bytes: Bytes): Option<(set<K>, Bytes)> {
    var d :- DecodeAll(keys, n, bytes);
    if Ascending(less, d.0) then Some((SetOf(d.0), d.1)) else None
  }

  // And the one without.
  function UnorderedSet<K>(keys: Codec<K>, n: nat, bytes: Bytes): Option<(set<K>, Bytes)> {
    var d :- DecodeAll(keys, n, bytes);
    if Distinct(d.0) then Some((SetOf(d.0), d.1)) else None
  }

  // The loop with the order check after some elements, when n are left.
  ghost predicate InOrderedSet<K(!new)>(keys: Codec<K>, less: (K, K) -> bool, goal: Option<(set<K>, Bytes)>, n: nat,
      bytes: Bytes, elements: seq<K>, out: set<K>, prev: Option<K>) {
    && out == SetOf(elements) && Ascending(less, elements) && prev == Last(elements)
    && goal == match Prepend(elements, DecodeAll(keys, n, bytes))
               case None => None
               case Some((all, rest)) => if Ascending(less, all) then Some((SetOf(all), rest)) else None
  }

  lemma OrderedSetStarts<K(!new)>(keys: Codec<K>, less: (K, K) -> bool, n: nat, bytes: Bytes)
    ensures InOrderedSet(keys, less, OrderedSet(keys, less, n, bytes), n, bytes, [], {}, None)
  {
    PrependNothing(DecodeAll(keys, n, bytes));
  }

  lemma OrderedSetNext<K(!new)>(keys: Codec<K>, less: (K, K) -> bool, goal: Option<(set<K>, Bytes)>, n: nat,
      bytes: Bytes, elements: seq<K>, out: set<K>, prev: Option<K>)
    requires TotalOrder(less) && n > 0 && InOrderedSet(keys, less, goal, n, bytes, elements, out, prev)
    ensures match keys.decode(bytes)
      case None => goal == None
      case Some((k, rest)) =>
        if prev.Some? && (k == prev.value || less(k, prev.value)) then goal == None
        else InOrderedSet(keys, less, goal, n - 1, rest, elements + [k], out + {k}, Some(k))
  {
    DecodeUnfold(keys, elements, n, bytes);
    if keys.decode(bytes).Some? {
      var (k, rest) := keys.decode(bytes).value;
      PushAscending(less, elements, k);
      assert SetOf(elements + [k]) == SetOf(elements) + {k};
      hide DecodeAll, Prepend, Ascending, Last, SetOf;
      if prev.Some? {
        if k == prev.value || less(k, prev.value) {
          AtMostIsNotLess(less, k, prev.value);
          OutOfOrder(less, elements + [k], DecodeAll(keys, n - 1, rest));
        } else {
          OtherwiseLess(less, prev.value, k);
        }
      }
    }
  }

  lemma OrderedSetDone<K(!new)>(keys: Codec<K>, less: (K, K) -> bool, goal: Option<(set<K>, Bytes)>, bytes: Bytes,
      elements: seq<K>, out: set<K>, prev: Option<K>)
    requires InOrderedSet(keys, less, goal, 0, bytes, elements, out, prev)
    ensures goal == Some((out, bytes))
  {
    NothingLeft(keys, elements, bytes);
  }

  // `deserial_set_no_length`.
  method DeserialSetNoLength<K(!new)>(source: Cursor, keys: Codec<K>, less: (K, K) -> bool, len: nat)
    returns (r: Option<set<K>>)
    requires source.Valid() && ReadsForward(keys) && TotalOrder(less)
    modifies source
    ensures source.Valid()
    ensures match OrderedSet(keys, less, len, old(source.Rest()))
      case None => r == None
      case Some((s, rest)) => r == Some(s) && source.Rest() == rest
  {
    var out: set<K> := {};
    var prev: Option<K> := None;
    ghost var elements: seq<K> := [];
    ghost var goal := OrderedSet(keys, less, len, source.Rest());
    OrderedSetStarts(keys, less, len, source.Rest());
    hide *;
    for i := 0 to len
      invariant source.Valid() && InOrderedSet(keys, less, goal, len - i, source.Rest(), elements, out, prev)
    {
      OrderedSetNext(keys, less, goal, len - i, source.Rest(), elements, out, prev);
      var key := source.Get(keys);
      if key.None? {
        return None;
      }
      // `next <= prev` on optional keys, of which the absent one is least
      if prev.Some? && (key.value == prev.value || less(key.value, prev.value)) {
        return None;
      }
      out := out + {key.value};
      elements := elements + [key.value];
      prev := key;
    }
    OrderedSetDone(keys, less, goal, source.Rest(), elements, out, prev);
    return Some(out);
  }

  lemma AtMostIsNotLess<K(!new)>(less: (K, K) -> bool, a: K, b: K)
    requires TotalOrder(less) && (a == b || less(a, b))
    ensures !less(b, a)
  {
  }

  lemma OtherwiseLess<K(!new)>(less: (K, K) -> bool, a: K, b: K)
    requires TotalOrder(less) && a != b && !less(b, a)
    ensures less(a, b)
  {
  }

  lemma OutOfOrder<K>(less: (K, K) -> bool, keys: seq<K>, r: Option<(seq<K>, Bytes)>)
    requires !Ascending(less, keys)
    ensures Prepend(keys, r).Some? ==> !Ascending(less, Prepend(keys, r).value.0)
  {
    if r.Some? {
      LongerIsNotAscending(less, keys, r.value.0);
    }
  }

  // The loop without the order check after some elements, when n are left.
  ghost predicate InUnorderedSet<K(!new)>(keys: Codec<K>, goal: Option<(set<K>, Bytes)>, n: nat, bytes: Bytes,
      elements: seq<K>, out: set<K>) {
    && out == SetOf(elements) && Distinct(elements)
    && goal == match Prepend(elements, DecodeAll(keys, n, bytes))
               case None => None
               case Some((all, rest)) => if Distinct(all) then Some((SetOf(all), rest)) else None
  }

  lemma UnorderedSetStarts<K(!new)>(keys: Codec<K>, n: nat, bytes: Bytes)
    ensures InUnorderedSet(keys, UnorderedSet(keys, n, bytes), n, bytes, [], {})
  {
    PrependNothing(DecodeAll(keys, n, bytes));
  }

  lemma UnorderedSetNext<K(!new)>(keys: Codec<K>, goal: Option<(set<K>, Bytes)>, n: nat, bytes: Bytes,
      elements: seq<K>, out: set<K>)
    requires n > 0 && InUnorderedSet(keys, goal, n, bytes, elements, out)
    ensures match keys.decode(bytes)
      case None => goal == None
      case Some((k, rest)) =>
        if k in out then goal == None
        else InUnorderedSet(keys, goal, n - 1, rest, elements + [k], out + {k})
  {
    DecodeUnfold(keys, elements, n, bytes);
    if keys.decode(bytes).Some? {
      var (k, rest) := keys.decode(bytes).value;
      if k in elements {
        Repeated(elements, k, DecodeAll(keys, n - 1, rest));
      } else {
        assert SetOf(elements + [k]) == SetOf(elements) + {k};
      }
    }
  }

  lemma UnorderedSetDone<K(!new)>(keys: Codec<K>, goal: Option<(set<K>, Bytes)>, bytes: Bytes, elements: seq<K>,
      out: set<K>)
    requires InUnorderedSet(keys, goal, 0, bytes, elements, out)
    ensures goal == Some((out, bytes))
  {
    NothingLeft(keys, elements, bytes);
  }

  lemma Repeated<K>(keys: seq<K>, k: K, r: Option<(seq<K>, Bytes)>)
    requires k in keys
    ensures Prepend(keys + [k], r).Some? ==> !Distinct(Prepend(keys + [k], r).value.0)
  {
    if r.Some? {
      var i :| 0 <= i < |keys| && keys[i] == k;
      var all := keys + [k] + r.value.0;
      assert all[i] == all[|keys|];
    }
  }

  // `deserial_set_no_length_no_order_check`.
  method DeserialSetNoLengthNoOrderCheck<K(!new)>(source: Cursor, keys: Codec<K>, len: nat) returns (r: Option<set<K>>)
    requires source.Valid() && ReadsForward(keys)
    modifies source
    ensures source.Valid()
    ensures match UnorderedSet(keys, len, old(source.Rest()))
      case None => r == None
      case Some((s, rest)) => r == Some(s) && source.Rest() == rest
  {
    var out: set<K> := {};
    ghost var elements: seq<K> := [];
    ghost var goal := UnorderedSet(keys, len, source.Rest());
    UnorderedSetStarts(keys, len, source.Rest());
    hide *;
    for i := 0 to len
      invariant source.Valid() && InUnorderedSet(keys, goal, len - i, source.Rest(), elements, out)
    {
      UnorderedSetNext(keys, goal, len - i, source.Rest(), elements, out);
      var key := source.Get(keys);
      if key.None? {
        return None;
      }
      if key.value in out {
        return None;
      }
      out := out + {key.value};
      elements := elements + [key.value];
    }
    UnorderedSetDone(keys, goal, source.Rest(), elements, out);
    return Some(out);
  }

  // ----- canonical decoding -----

  // With canonical element codecs, a map decodes with the order check exactly
  // from the bytes of its ascending list: decoding and encoding are inverse.
  lemma OrderedDecodingIsCanonical<K(!new), V(!new)>(keys: Codec<K>, values: Codec<V>, less: (K, K) -> bool,
                                                     n: nat, bytes: Bytes, m: map<K, V>, rest: Bytes)
    requires TotalOrder(less) && PrefixCodec(keys) && PrefixCodec(values) && Canonical(keys) && Canonical(values)
    ensures OrderedMap(keys, values, less, n, bytes) == Some((m, rest)) <==>
      exists pairs :: Lists(less, pairs, m) && IsEncoding(PairCodec(keys, values), pairs, n, bytes, rest)
  {
    var c := PairCodec(keys, values);
    PairIsPrefixCodec(keys, values);
    PairIsCanonical(keys, values);
    if OrderedMap(keys, values, less, n, bytes) == Some((m, rest)) {
      EncodeDecoded(c, n, bytes);
      var pairs := DecodeAll(c, n, bytes).value.0;
      assert Lists(less, pairs, m) && IsEncoding(c, pairs, n, bytes, rest);
    }
    if pairs :| Lists(less, pairs, m) && IsEncoding(c, pairs, n, bytes, rest) {
      DecodeEncoded(c, pairs, rest);
    }
  }

  ghost predicate ListsSet<K(!new)>(less: (K, K) -> bool, elements: seq<K>, s: set<K>) {
    Ascending(less, elements) && SetOf(elements) == s
  }

  lemma OrderedSetDecodingIsCanonical<K(!new)>(keys: Codec<K>, less: (K, K) -> bool, n: nat, bytes: Bytes, s: set<K>,
      rest: Bytes)
    requires TotalOrder(less) && PrefixCodec(keys) && Canonical(keys)
    ensures OrderedSet(keys, less, n, bytes) == Some((s, rest)) <==>
      exists elements :: ListsSet(less, elements, s) && IsEncoding(keys, elements, n, bytes, rest)
  {
    if OrderedSet(keys, less, n, bytes) == Some((s, rest)) {
      EncodeDecoded(keys, n, bytes);
      var elements := DecodeAll(keys, n, bytes).value.0;
      assert ListsSet(less, elements, s) && IsEncoding(keys, elements, n, bytes, rest);
    }
    if elements :| ListsSet(less, elements, s) && IsEncoding(keys, elements, n, bytes, rest) {
      DecodeEncoded(keys, elements, rest);
    }
  }

  ghost predicate IsEncoding<T(!new)>(c: Codec<T>, xs: seq<T>, n: nat, bytes: Bytes, rest: Bytes) {
    |xs| == n && AllValid(c, xs) && bytes == EncodeAll(c, xs) + rest
  }

  // Without the order check every list without repeated keys is accepted, all
  // its permutations give the same map, and a repeated key is rejected.
  lemma UnorderedDecodingAcceptsPermutations<K(!new), V(!new)>(keys: Codec<K>, values: Codec<V>,
                                                               pairs: seq<(K, V)>, shuffled: seq<(K, V)>, rest: Bytes)
    requires PrefixCodec(keys) && PrefixCodec(values) && AllValid(PairCodec(keys, values), pairs)
    requires multiset(pairs) == multiset(shuffled)
    ensures UnorderedMap(keys, values, |pairs|, EncodeAll(PairCodec(keys, values), shuffled) + rest)
         == if Distinct(KeysOf(pairs)) then Some((MapOf(pairs), rest)) else None
  {
    hide *;
    PairIsPrefixCodec(keys, values);
    DecodeShuffled(PairCodec(keys, values), pairs, shuffled, rest);
    UnorderedUnfold(keys, values, |pairs|, EncodeAll(PairCodec(keys, values), shuffled) + rest);
    KeysPermute(pairs, shuffled);
    DistinctPermutation(KeysOf(pairs), KeysOf(shuffled));
    if Distinct(KeysOf(pairs)) {
      MapOfPermutation(pairs, shuffled);
    }
  }

  // The same for sets.
  lemma UnorderedSetAcceptsPermutations<K(!new)>(keys: Codec<K>, elements: seq<K>, shuffled: seq<K>, rest: Bytes)
    requires PrefixCodec(keys) && AllValid(keys, elements) && multiset(elements) == multiset(shuffled)
    ensures UnorderedSet(keys, |elements|, EncodeAll(keys, shuffled) + rest)
         == if Distinct(elements) then Some((SetOf(elements), rest)) else None
  {
    DecodeShuffled(keys, elements, shuffled, rest);
    DistinctPermutation(elements, shuffled);
    SetOfPermutation(elements, shuffled);
    hide DecodeAll, EncodeAll, Distinct, SetOf, PrefixCodec, AllValid;
  }

  lemma SetOfPermutation<K>(a: seq<K>, b: seq<K>)
    requires multiset(a) == multiset(b)
    ensures SetOf(a) == SetOf(b)
  {
    forall k ensures k in SetOf(a) <==> k in SetOf(b) {
      assert k in a <==> k in multiset(a);
      assert k in b <==> k in multiset(b);
    }
  }

  lemma UnorderedUnfold<K(!new), V(!new)>(keys: Codec<K>, values: Codec<V>, n: nat, bytes: Bytes)
    ensures UnorderedMap(keys, values, n, bytes) ==
      match DecodeAll(PairCodec(keys, values), n, bytes)
      case None => None
      case Some((pairs, rest)) => if Distinct(KeysOf(pairs)) then Some((MapOf(pairs), rest)) else None
  {
  }

  lemma DecodeShuffled<T(!new)>(c: Codec<T>, xs: seq<T>, shuffled: seq<T>, rest: Bytes)
    requires PrefixCodec(c) && AllValid(c, xs) && multiset(xs) == multiset(shuffled)
    ensures DecodeAll(c, |xs|, EncodeAll(c, shuffled) + rest) == Some((shuffled, rest))
  {
    hide *;
    ValidPermutation(c, xs, shuffled);
    assert |xs| == |multiset(xs)| == |shuffled|;
    DecodeEncoded(c, shuffled, rest);
  }

  lemma ValidPermutation<T(!new)>(c: Codec<T>, xs: seq<T>, ys: seq<T>)
    requires AllValid(c, xs) && multiset(xs) == multiset(ys)
    ensures AllValid(c, ys)
  {
    forall i | 0 <= i < |ys| ensures c.valid(ys[i]) {
      assert ys[i] in multiset(xs);
    }
  }

  lemma DistinctPermutation<K>(p: seq<K>, q: seq<K>)
    requires multiset(p) == multiset(q)
    ensures Distinct(p) <==> Distinct(q)
  {
    if Distinct(p) {
      StaysDistinct(p, q);
    }
    if Distinct(q) {
      StaysDistinct(q, p);
    }
  }

  lemma StaysDistinct<K>(p: seq<K>, q: seq<K>)
    requires multiset(p) == multiset(q) && Distinct(p)
    ensures Distinct(q)
  {
    forall i, j | 0 <= i < j < |q| ensures q[i] != q[j] {
      if q[i] == q[j] {
        CountTwice(q, i, j);
        CountOnce(p, q[i]);
      }
    }
  }

  lemma KeysPermute<K(!new), V>(a: seq<(K, V)>, b: seq<(K, V)>)
    requires multiset(a) == multiset(b)
    ensures multiset(KeysOf(a)) == multiset(KeysOf(b))
  {
    var first := (p: (K, V)) => p.0;
    assert KeysOf(a) == Images(first, a) && KeysOf(b) == Images(first, b);
    ImagesPermute(first, a, b);
  }

  lemma {:induction false} CountOnce<K>(keys: seq<K>, k: K)
    requires Distinct(keys)
    ensures multiset(keys)[k] <= 1
  {
    if keys != [] {
      var n := |keys| - 1;
      assert keys == keys[..n] + [keys[n]];
      CountOnce(keys[..n], k);
      if k == keys[n] {
        assert k !in keys[..n];
      }
    }
  }

  lemma CountTwice<K>(keys: seq<K>, i: nat, j: nat)
    requires i < j < |keys| && keys[i] == keys[j]
    ensures multiset(keys)[keys[i]] >= 2
  {
    assert keys == keys[..j] + [keys[j]] + keys[j + 1..];
    assert keys[i] in keys[..j];
  }

  // ----- with the length in front -----

  // `BTreeMap`: the number of entries as an u32, then the entries in ascending
  // order; decoding does not check the order.
  function SerialMap<K, V>(keys: Codec<K>, values: Codec<V>, pairs: seq<(K, V)>): Bytes {
    U32Bytes(|pairs| % U32_RANGE) + EncodeAll(PairCodec(keys, values), pairs)
  }

  function DeserialMap<K, V>(keys: Codec<K>, values: Codec<V>, bytes: Bytes): Option<(map<K, V>, Bytes)> {
    if |bytes| < 4 then None else UnorderedMap(keys, values, FromLittleEndian(bytes[..4]), bytes[4..])
  }

  // The bytes of a map: the number of pairs, least significant byte first; then every
  // key, directly followed by its value.
  lemma MapLayout<K, V>(keys: Codec<K>, values: Codec<V>, p: (K, V), rest: seq<(K, V)>)
    ensures SerialMap(keys, values, [p] + rest)
         == LengthBytes((|rest| + 1) % U32_RANGE)
            + (keys.encode(p.0) + values.encode(p.1) + EncodeAll(PairCodec(keys, values), rest))
    ensures SerialMap(keys, values, []) == [0, 0, 0, 0]
  {
    OnePair(keys, values, p, rest);
    assert EncodeAll(PairCodec(keys, values), []) == [];
    U32BytesAre(0);
    U32BytesAre((|rest| + 1) % U32_RANGE);
    hide EncodeAll, PairCodec, U32Bytes;
  }

  function LengthBytes(n: nat): Bytes {
    [n % 256, n / 0x100 % 256, n / 0x1_0000 % 256, n / 0x100_0000 % 256]
  }

  lemma OnePair<K, V>(keys: Codec<K>, values: Codec<V>, p: (K, V), rest: seq<(K, V)>)
    ensures EncodeAll(PairCodec(keys, values), [p] + rest)
         == keys.encode(p.0) + values.encode(p.1) + EncodeAll(PairCodec(keys, values), rest)
  {
    assert ([p] + rest)[1..] == rest;
    assert PairCodec(keys, values).encode(p) == keys.encode(p.0) + values.encode(p.1);
  }

  // A map reads back, whatever follows it, exactly when its size fits in 32 bits.
  lemma MapRoundTripIff<K(!new), V(!new)>(keys: Codec<K>, values: Codec<V>, less: (K, K) -> bool, pairs: seq<(K, V)>,
      m: map<K, V>)
    requires TotalOrder(less) && PrefixCodec(keys) && PrefixCodec(values)
    requires Lists(less, pairs, m) && AllValid(PairCodec(keys, values), pairs)
    ensures |m| < U32_RANGE <==>
      forall rest: Bytes :: DeserialMap(keys, values, SerialMap(keys, values, pairs) + rest) == Some((m, rest))
  {
    assert MapOf(pairs) == m && Ascending(less, KeysOf(pairs));
    hide *;
    AscendingIsDistinct(less, KeysOf(pairs));
    MapOfSize(pairs);
    if |m| < U32_RANGE {
      forall rest: Bytes ensures DeserialMap(keys, values, SerialMap(keys, values, pairs) + rest) == Some((m, rest)) {
        MapReadsBack(keys, values, pairs, rest);
      }
    } else {
      MapIsTruncated(keys, values, pairs);
      assert DeserialMap(keys, values, SerialMap(keys, values, pairs) + []) != Some((m, []));
    }
  }

  lemma MapReadsBack<K(!new), V(!new)>(keys: Codec<K>, values: Codec<V>, pairs: seq<(K, V)>, rest: Bytes)
    requires PrefixCodec(keys) && PrefixCodec(values) && AllValid(PairCodec(keys, values), pairs)
    requires Distinct(KeysOf(pairs)) && |pairs| < U32_RANGE
    ensures DeserialMap(keys, values, SerialMap(keys, values, pairs) + rest) == Some((MapOf(pairs), rest))
  {
    hide PrefixCodec, PairCodec, AllValid, Distinct, KeysOf, SerialMap, MapOf, UnorderedMap, FromLittleEndian;
    LengthReadsBack(keys, values, pairs, rest);
    UnorderedDecodingAcceptsPermutations(keys, values, pairs, pairs, rest);
  }

  lemma MapIsTruncated<K(!new), V(!new)>(keys: Codec<K>, values: Codec<V>, pairs: seq<(K, V)>)
    requires |pairs| >= U32_RANGE && |MapOf(pairs)| == |pairs|
    ensures DeserialMap(keys, values, SerialMap(keys, values, pairs) + []) != Some((MapOf(pairs), []))
  {
    hide PairCodec, MapOf, SerialMap, DeserialMap, FromLittleEndian;
    LengthReadsBack(keys, values, pairs, []);
    var bytes := SerialMap(keys, values, pairs) + [];
    if DeserialMap(keys, values, bytes).Some? {
      SizeIsRead(keys, values, bytes);
    }
  }

  lemma LengthReadsBack<K(!new), V>(keys: Codec<K>, values: Codec<V>, pairs: seq<(K, V)>, rest: Bytes)
    ensures var bytes := SerialMap(keys, values, pairs) + rest;
      && |bytes| >= 4 && FromLittleEndian(bytes[..4]) == |pairs| % U32_RANGE
      && bytes[4..] == EncodeAll(PairCodec(keys, values), pairs) + rest
  {
    hide U32Bytes, EncodeAll, FromLittleEndian;
    var n := |pairs| % U32_RANGE;
    var bytes := SerialMap(keys, values, pairs) + rest;
    assert bytes[..4] == U32Bytes(n);
    U32RoundTrip(n);
  }

  lemma SizeIsRead<K(!new), V>(keys: Codec<K>, values: Codec<V>, bytes: Bytes)
    requires DeserialMap(keys, values, bytes).Some?
    ensures |bytes| >= 4 && |DeserialMap(keys, values, bytes).value.0| == FromLittleEndian(bytes[..4])
  {
    hide FromLittleEndian;
    MapOfSize(DecodeAll(PairCodec(keys, values), FromLittleEndian(bytes[..4]), bytes[4..]).value.0);
  }
}
