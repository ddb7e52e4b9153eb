// The collections of concordium-std (impls.rs) as operations on one store that
// maps byte strings to byte strings, and the mathematical maps and sets they
// stand for.
module StateStores {
  import opened Wrappers
  import opened ByteCodecs

  type Store = map<Bytes, Bytes>

  const PREFIX_SIZE: nat := 8

  // Writing to an entry from the start, over whatever it held before.
  function Overwrite(content: Bytes, position: nat, written: Bytes): Bytes
    requires position <= |content|
  {
    var end := position + |written|;
    content[..position] + written + if end < |content| then content[end..] else []
  }

  function Key<K>(prefix: Bytes, keys: Codec<K>, k: K): Bytes {
    prefix + keys.encode(k)
  }

  // ----- operations; None stands for a trap -----

  function MapGet<K, V>(store: Store, prefix: Bytes, keys: Codec<K>, values: Codec<V>, k: K): Option<Option<V>> {
    var key := Key(prefix, keys, k);
    if key !in store then Some(None)
    else
      match values.decode(store[key])
      case None => None
      case Some((v, _)) => Some(Some(v))
  }

  function MapInsert<K, V>(store: Store, prefix: Bytes, keys: Codec<K>, values: Codec<V>, k: K, v: V): Option<(Store,
      Option<V>)> {
    var key := Key(prefix, keys, k);
    match MapGet(store, prefix, keys, values, k)
    case None => None
    case Some(previous) => Some((store[key := values.encode(v)], previous))
  }

  // A mutable reference from `get_mut` whose value is read, replaced and
  // written back without truncating the entry.
  function MapUpdate<K, V>(store: Store, prefix: Bytes, keys: Codec<K>, values: Codec<V>, k: K, v: V): Option<(Store,
      Option<V>)> {
    var key := Key(prefix, keys, k);
    match MapGet(store, prefix, keys, values, k)
    case None => None
    case Some(None) => Some((store, None))
    case Some(Some(previous)) => Some((store[key := Overwrite(store[key], 0, values.encode(v))], Some(previous)))
  }

  // An occupied entry from `entry` whose value is replaced; the entry is
  // truncated before the value is written back.
  function EntryModify<K, V>(store: Store, prefix: Bytes, keys: Codec<K>, values: Codec<V>, k: K,
      v: V): Option<(Store, Option<V>)> {
    var key := Key(prefix, keys, k);
    match MapGet(store, prefix, keys, values, k)
    case None => None
    case Some(None) => Some((store, None))
    case Some(Some(previous)) => Some((store[key := values.encode(v)], Some(previous)))
  }

  function EntryOrInsert<K, V>(store: Store, prefix: Bytes, keys: Codec<K>, values: Codec<V>, k: K,
      v: V): Option<(Store, V)> {
    var key := Key(prefix, keys, k);
    match MapGet(store, prefix, keys, values, k)
    case None => None
    case Some(None) => Some((store[key := values.encode(v)], v))
    case Some(Some(previous)) => Some((store, previous))
  }

  function MapRemove<K, V>(store: Store, prefix: Bytes, keys: Codec<K>, values: Codec<V>, k: K): Option<(Store,
      Option<V>)> {
    var key := Key(prefix, keys, k);
    match MapGet(store, prefix, keys, values, k)
    case None => None
    case Some(previous) => Some((store - {key}, previous))
  }

  function DeletePrefix(store: Store, prefix: Bytes): Store {
    map key | key in store && !(prefix <= key) :: store[key]
  }

  function SetInsert<K>(store: Store, prefix: Bytes, elements: Codec<K>, k: K): (Store, bool) {
    var key := Key(prefix, elements, k);
    if key in store then (store, false) else (store[key := []], true)
  }

  function SetContains<K>(store: Store, prefix: Bytes, elements: Codec<K>, k: K): bool {
    Key(prefix, elements, k) in store
  }

  function SetRemove<K>(store: Store, prefix: Bytes, elements: Codec<K>, k: K): (Store, bool) {
    var key := Key(prefix, elements, k);
    (store - {key}, key in store)
  }

  // ----- what a store represents -----

  ghost predicate DecodesTo<V>(values: Codec<V>, content: Bytes, v: V) {
    values.decode(content).Some? && values.decode(content).value.0 == v
  }

  ghost predicate IsKeyOf<K>(prefix: Bytes, keys: Codec<K>, elements: set<K>, key: Bytes) {
    exists k :: k in elements && key == Key(prefix, keys, k)
  }

  // The keys below the prefix are exactly those of a set of elements.
  ghost predicate RepresentsSet<K(!new)>(store: Store, prefix: Bytes, keys: Codec<K>, elements: set<K>) {
    && (forall k :: k in elements ==> keys.valid(k) && Key(prefix, keys, k) in store)
    && (forall key :: key in store && prefix <= key ==> IsKeyOf(prefix, keys, elements, key))
  }

  ghost predicate RepresentsMap<K(!new), V>(store: Store, prefix: Bytes, keys: Codec<K>, values: Codec<V>, m: map<K,
      V>) {
    && RepresentsSet(store, prefix, keys, m.Keys)
    && forall k :: k in m ==> DecodesTo(values, store[Key(prefix, keys, k)], m[k])
  }

  // The two stores agree on everything that is not below the prefix.
  ghost predicate SameOutside(before: Store, after: Store, prefix: Bytes) {
    forall key :: !(prefix <= key) ==>
        (key in before <==> key in after) && (key in before ==> before[key] == after[key])
  }

  ghost predicate SameBelow(before: Store, after: Store, prefix: Bytes) {
    forall key :: prefix <= key ==> (key in before <==> key in after) && (key in before ==> before[key] == after[key])
  }

  // ----- the key at hand -----

  lemma KeyIsBelow<K>(prefix: Bytes, keys: Codec<K>, k: K)
    ensures prefix <= Key(prefix, keys, k)
  {
  }

  lemma KeyIsInjective<K(!new)>(prefix: Bytes, keys: Codec<K>, a: K, b: K)
    requires PrefixCodec(keys) && keys.valid(a) && keys.valid(b) && Key(prefix, keys, a) == Key(prefix, keys, b)
    ensures a == b
  {
    assert Key(prefix, keys, a)[|prefix|..] == keys.encode(a);
    assert Key(prefix, keys, b)[|prefix|..] == keys.encode(b);
    EncodeIsInjective(keys, a, b);
  }

  // Looking up a key decides membership.
  lemma KeyDecidesMembership<K(!new)>(store: Store, prefix: Bytes, keys: Codec<K>, elements: set<K>, k: K)
    requires PrefixCodec(keys) && keys.valid(k) && RepresentsSet(store, prefix, keys, elements)
    ensures Key(prefix, keys, k) in store <==> k in elements
  {
    var key := Key(prefix, keys, k);
    if key in store {
      KeyIsBelow(prefix, keys, k);
      assert IsKeyOf(prefix, keys, elements, key);
      var j :| j in elements && key == Key(prefix, keys, j);
      KeyIsInjective(prefix, keys, k, j);
    }
  }

  // ----- changing one key -----

  lemma SetAddKey<K(!new)>(store: Store, prefix: Bytes, keys: Codec<K>, elements: set<K>, k: K, content: Bytes)
    requires keys.valid(k) && RepresentsSet(store, prefix, keys, elements)
    ensures RepresentsSet(store[Key(prefix, keys, k) := content], prefix, keys, elements + {k})
    ensures SameOutside(store, store[Key(prefix, keys, k) := content], prefix)
  {
    KeyIsBelow(prefix, keys, k);
    var after := store[Key(prefix, keys, k) := content];
    forall key | key in after && prefix <= key ensures IsKeyOf(prefix, keys, elements + {k}, key) {
      if key == Key(prefix, keys, k) {
        assert k in elements + {k};
      } else {
        assert IsKeyOf(prefix, keys, elements, key);
        var j :| j in elements && key == Key(prefix, keys, j);
        assert j in elements + {k};
      }
    }
  }

  lemma SetDropKey<K(!new)>(store: Store, prefix: Bytes, keys: Codec<K>, elements: set<K>, k: K)
    requires PrefixCodec(keys) && keys.valid(k) && RepresentsSet(store, prefix, keys, elements)
    ensures RepresentsSet(store - {Key(prefix, keys, k)}, prefix, keys, elements - {k})
    ensures SameOutside(store, store - {Key(prefix, keys, k)}, prefix)
  {
    KeyIsBelow(prefix, keys, k);
    var after := store - {Key(prefix, keys, k)};
    forall key | key in after && prefix <= key ensures IsKeyOf(prefix, keys, elements - {k}, key) {
      assert IsKeyOf(prefix, keys, elements, key);
      var j :| j in elements && key == Key(prefix, keys, j);
      assert j in elements - {k};
    }
    forall j | j in elements - {k} ensures Key(prefix, keys, j) in after {
      if Key(prefix, keys, j) == Key(prefix, keys, k) {
        KeyIsInjective(prefix, keys, j, k);
      }
    }
  }

  lemma MapPutKey<K(!new), V>(store: Store, prefix: Bytes, keys: Codec<K>, values: Codec<V>, m: map<K, V>, k: K,
      v: V, content: Bytes)
    requires PrefixCodec(keys) && keys.valid(k) && RepresentsMap(store, prefix, keys, values, m)
    requires DecodesTo(values, content, v)
    ensures RepresentsMap(store[Key(prefix, keys, k) := content], prefix, keys, values, m[k := v])
    ensures SameOutside(store, store[Key(prefix, keys, k) := content], prefix)
  {
    var after := store[Key(prefix, keys, k) := content];
    SetAddKey(store, prefix, keys, m.Keys, k, content);
    assert m[k := v].Keys == m.Keys + {k};
    forall j | j in m[k := v] ensures DecodesTo(values, after[Key(prefix, keys, j)], m[k := v][j]) {
      if Key(prefix, keys, j) == Key(prefix, keys, k) {
        KeyIsInjective(prefix, keys, j, k);
      }
    }
  }

  lemma MapDropKey<K(!new), V>(store: Store, prefix: Bytes, keys: Codec<K>, values: Codec<V>, m: map<K, V>, k: K)
    requires PrefixCodec(keys) && keys.valid(k) && RepresentsMap(store, prefix, keys, values, m)
    ensures RepresentsMap(store - {Key(prefix, keys, k)}, prefix, keys, values, m - {k})
    ensures SameOutside(store, store - {Key(prefix, keys, k)}, prefix)
  {
    SetDropKey(store, prefix, keys, m.Keys, k);
    assert (m - {k}).Keys == m.Keys - {k};
    var after := store - {Key(prefix, keys, k)};
    forall j | j in m - {k} ensures DecodesTo(values, after[Key(prefix, keys, j)], m[j]) {
      if Key(prefix, keys, j) == Key(prefix, keys, k) {
        KeyIsInjective(prefix, keys, j, k);
      }
    }
  }

  // ----- every operation refines the operation on maps or sets -----

  function Lookup<K, V>(m: map<K, V>, k: K): Option<V> {
    if k in m then Some(m[k]) else None
  }

  lemma GetRefines<K(!new), V>(store: Store, prefix: Bytes, keys: Codec<K>, values: Codec<V>, m: map<K, V>, k: K)
    requires PrefixCodec(keys) && keys.valid(k) && RepresentsMap(store, prefix, keys, values, m)
    ensures MapGet(store, prefix, keys, values, k) == Some(Lookup(m, k))
    ensures Key(prefix, keys, k) in store <==> k in m
  {
    KeyDecidesMembership(store, prefix, keys, m.Keys, k);
  }

  lemma InsertRefines<K(!new), V(!new)>(store: Store, prefix: Bytes, keys: Codec<K>, values: Codec<V>, m: map<K, V>,
      k: K, v: V)
    requires PrefixCodec(keys) && PrefixCodec(values) && keys.valid(k) && values.valid(v)
    requires RepresentsMap(store, prefix, keys, values, m)
    ensures var r := MapInsert(store, prefix, keys, values, k, v);
      r.Some? && r.value.1 == Lookup(m, k)
      && RepresentsMap(r.value.0, prefix, keys, values, m[k := v]) && SameOutside(store, r.value.0, prefix)
  {
    GetRefines(store, prefix, keys, values, m, k);
    ReadBack(values, v, []);
    MapPutKey(store, prefix, keys, values, m, k, v, values.encode(v));
  }

  // Writing a value over an entry without truncating it: the value reads back,
  // even when what it replaces was longer.
  lemma UpdateRefines<K(!new), V(!new)>(store: Store, prefix: Bytes, keys: Codec<K>, values: Codec<V>, m: map<K, V>,
      k: K, v: V)
    requires PrefixCodec(keys) && PrefixCodec(values) && keys.valid(k) && values.valid(v)
    requires RepresentsMap(store, prefix, keys, values, m)
    ensures var r := MapUpdate(store, prefix, keys, values, k, v);
      r.Some? && r.value.1 == Lookup(m, k)
      && RepresentsMap(r.value.0, prefix, keys, values, if k in m then m[k := v] else m)
      && SameOutside(store, r.value.0, prefix)
  {
    GetRefines(store, prefix, keys, values, m, k);
    if k in m {
      var content := store[Key(prefix, keys, k)];
      var tail := if |values.encode(v)| < |content| then content[|values.encode(v)|..] else [];
      assert Overwrite(content, 0, values.encode(v)) == values.encode(v) + tail;
      ReadBack(values, v, tail);
      MapPutKey(store, prefix, keys, values, m, k, v, values.encode(v) + tail);
    }
  }

  lemma ModifyRefines<K(!new), V(!new)>(store: Store, prefix: Bytes, keys: Codec<K>, values: Codec<V>, m: map<K, V>,
      k: K, v: V)
    requires PrefixCodec(keys) && PrefixCodec(values) && keys.valid(k) && values.valid(v)
    requires RepresentsMap(store, prefix, keys, values, m)
    ensures var r := EntryModify(store, prefix, keys, values, k, v);
      r.Some? && r.value.1 == Lookup(m, k)
      && RepresentsMap(r.value.0, prefix, keys, values, if k in m then m[k := v] else m)
      && SameOutside(store, r.value.0, prefix)
  {
    GetRefines(store, prefix, keys, values, m, k);
    if k in m {
      ReadBack(values, v, []);
      MapPutKey(store, prefix, keys, values, m, k, v, values.encode(v));
    }
  }

  lemma OrInsertRefines<K(!new), V(!new)>(store: Store, prefix: Bytes, keys: Codec<K>, values: Codec<V>, m: map<K,
      V>, k: K, v: V)
    requires PrefixCodec(keys) && PrefixCodec(values) && keys.valid(k) && values.valid(v)
    requires RepresentsMap(store, prefix, keys, values, m)
    ensures var r := EntryOrInsert(store, prefix, keys, values, k, v);
      var m' := if k in m then m else m[k := v];
      r.Some? && r.value.1 == m'[k]
      && RepresentsMap(r.value.0, prefix, keys, values, m') && SameOutside(store, r.value.0, prefix)
  {
    GetRefines(store, prefix, keys, values, m, k);
    if k !in m {
      ReadBack(values, v, []);
      MapPutKey(store, prefix, keys, values, m, k, v, values.encode(v));
    }
  }

  lemma RemoveRefines<K(!new), V>(store: Store, prefix: Bytes, keys: Codec<K>, values: Codec<V>, m: map<K, V>, k: K)
    requires PrefixCodec(keys) && keys.valid(k) && RepresentsMap(store, prefix, keys, values, m)
    ensures var r := MapRemove(store, prefix, keys, values, k);
      r.Some? && r.value.1 == Lookup(m, k)
      && RepresentsMap(r.value.0, prefix, keys, values, m - {k}) && SameOutside(store, r.value.0, prefix)
  {
    GetRefines(store, prefix, keys, values, m, k);
    MapDropKey(store, prefix, keys, values, m, k);
  }

  lemma ClearRefines<K(!new), V>(store: Store, prefix: Bytes, keys: Codec<K>, values: Codec<V>)
    ensures RepresentsMap(DeletePrefix(store, prefix), prefix, keys, values, map[])
    ensures RepresentsSet(DeletePrefix(store, prefix), prefix, keys, {})
    ensures SameOutside(store, DeletePrefix(store, prefix), prefix)
  {
  }

  lemma SetInsertRefines<K(!new)>(store: Store, prefix: Bytes, keys: Codec<K>, elements: set<K>, k: K)
    requires PrefixCodec(keys) && keys.valid(k) && RepresentsSet(store, prefix, keys, elements)
    ensures var (after, added) := SetInsert(store, prefix, keys, k);
      && added == (k !in elements)
      && RepresentsSet(after, prefix, keys, elements + {k}) && SameOutside(store, after, prefix)
  {
    KeyDecidesMembership(store, prefix, keys, elements, k);
    if k in elements {
      assert elements + {k} == elements;
    } else {
      SetAddKey(store, prefix, keys, elements, k, []);
    }
  }

  lemma SetRemoveRefines<K(!new)>(store: Store, prefix: Bytes, keys: Codec<K>, elements: set<K>, k: K)
    requires PrefixCodec(keys) && keys.valid(k) && RepresentsSet(store, prefix, keys, elements)
    ensures var (after, removed) := SetRemove(store, prefix, keys, k);
      && removed == (k in elements)
      && RepresentsSet(after, prefix, keys, elements - {k}) && SameOutside(store, after, prefix)
  {
    KeyDecidesMembership(store, prefix, keys, elements, k);
    SetDropKey(store, prefix, keys, elements, k);
  }

  // ----- iteration -----

  ghost predicate Enumerates(order: seq<Bytes>, store: Store, prefix: Bytes) {
    && (forall i :: 0 <= i < |order| ==> order[i] in store && prefix <= order[i])
    && (forall i, j :: 0 <= i < j < |order| ==> order[i] != order[j])
    && (forall key :: key in store && prefix <= key ==> key in order)
  }

  // What an iterator yields for one key: the key after the prefix and the value.
  function Item<K, V>(store: Store, prefix: Bytes, keys: Codec<K>, values: Codec<V>, key: Bytes): Option<(K, V)>
    requires key in store && prefix <= key
  {
    match keys.decode(key[|prefix|..])
    case None => None
    case Some((k, _)) =>
      match values.decode(store[key])
      case None => None
      case Some((v, _)) => Some((k, v))
  }

  lemma ItemOfKey<K(!new), V>(store: Store, prefix: Bytes, keys: Codec<K>, values: Codec<V>, m: map<K, V>, k: K)
    requires PrefixCodec(keys) && RepresentsMap(store, prefix, keys, values, m) && k in m
    ensures Key(prefix, keys, k) in store && prefix <= Key(prefix, keys, k)
    ensures Item(store, prefix, keys, values, Key(prefix, keys, k)) == Some((k, m[k]))
  {
    assert Key(prefix, keys, k)[|prefix|..] == keys.encode(k);
    ReadBack(keys, k, []);
  }

  ghost predicate IsPairOf<K, V>(m: map<K, V>, item: Option<(K, V)>) {
    item.Some? && item.value.0 in m && item.value.1 == m[item.value.0]
  }

  ghost predicate DifferInKey<K, V>(a: Option<(K, V)>, b: Option<(K, V)>) {
    a.Some? && b.Some? && a.value.0 != b.value.0
  }

  lemma ItemIsPair<K(!new), V>(store: Store, prefix: Bytes, keys: Codec<K>, values: Codec<V>, m: map<K, V>, key: Bytes)
    requires PrefixCodec(keys) && RepresentsMap(store, prefix, keys, values, m) && key in store && prefix <= key
    ensures IsPairOf(m, Item(store, prefix, keys, values, key))
    ensures key == Key(prefix, keys, Item(store, prefix, keys, values, key).value.0)
  {
    assert IsKeyOf(prefix, keys, m.Keys, key);
    var k :| k in m.Keys && key == Key(prefix, keys, k);
    ItemOfKey(store, prefix, keys, values, m, k);
  }

  // An iterator over the keys below the prefix, in any order, never traps and
  // yields every pair of the map exactly once.
  lemma IterationYieldsTheMap<K(!new), V>(store: Store, prefix: Bytes, keys: Codec<K>, values: Codec<V>, m: map<K,
      V>, order: seq<Bytes>)
    requires PrefixCodec(keys) && RepresentsMap(store, prefix, keys, values, m) && Enumerates(order, store, prefix)
    ensures forall i :: 0 <= i < |order| ==> IsPairOf(m, Item(store, prefix, keys, values, order[i]))
    ensures forall i, j :: 0 <= i < j < |order| ==>
      DifferInKey(Item(store, prefix, keys, values, order[i]), Item(store, prefix, keys, values, order[j]))
    ensures forall k :: k in m ==>
        Key(prefix, keys, k) in order && prefix <= Key(prefix, keys, k) && Key(prefix, keys, k) in store
    ensures forall k :: k in m ==> Item(store, prefix, keys, values, Key(prefix, keys, k)) == Some((k, m[k]))
  {
    forall i | 0 <= i < |order|
      ensures IsPairOf(m, Item(store, prefix, keys, values, order[i]))
      ensures order[i] == Key(prefix, keys, Item(store, prefix, keys, values, order[i]).value.0)
    {
      ItemIsPair(store, prefix, keys, values, m, order[i]);
    }
    forall k | k in m
      ensures Key(prefix, keys, k) in order && prefix <= Key(prefix, keys, k) && Key(prefix, keys, k) in store
      ensures Item(store, prefix, keys, values, Key(prefix, keys, k)) == Some((k, m[k]))
    {
      ItemOfKey(store, prefix, keys, values, m, k);
    }
  }
}
