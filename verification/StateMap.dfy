// The collections of concordium-std as objects: entry cursors over the store of
// the host, maps, sets, mutable references, occupied entries, boxes and the
// allocator of prefixes. Every method is proved against the operations on
// stores, or against the value it stands for.
module StateMaps {
  import opened Wrappers
  import opened ByteCodecs
  import opened StateStores

  // ----- the host -----

  class StateApi {
    var store: Store

    constructor ()
      ensures store == map[]
    {
      store := map[];
    }

    method LookupEntry(key: Bytes) returns (entry: Option<StateEntry>)
      ensures entry.Some? <==> key in store
      ensures entry.Some? ==> fresh(entry.value) && entry.value.IsOpen(this, key)
    {
      if key !in store {
        return None;
      }
      var e := new StateEntry(this, key);
      return Some(e);
    }

    method CreateEntry(key: Bytes) returns (entry: StateEntry)
      modifies this
      ensures store == old(store)[key := []]
      ensures fresh(entry) && entry.IsOpen(this, key)
    {
      store := store[key := []];
      entry := new StateEntry(this, key);
    }

    method DeleteEntry(entry: StateEntry) returns (existed: bool)
      modifies this
      ensures store == old(store) - {entry.key} && existed == (entry.key in old(store))
    {
      existed := entry.key in store;
      store := store - {entry.key};
    }

    method Delete(prefix: Bytes)
      modifies this
      ensures store == DeletePrefix(old(store), prefix)
    {
      store := DeletePrefix(store, prefix);
    }
  }

  // ----- entry cursors -----

  class StateEntry {
    const api: StateApi
    const key: Bytes
    var currentPosition: nat

    constructor (api: StateApi, key: Bytes)
      ensures IsOpen(api, key)
    {
      this.api := api;
      this.key := key;
      currentPosition := 0;
    }

    ghost predicate IsOpen(api: StateApi, key: Bytes)
      reads this
    {
      this.api == api && this.key == key && currentPosition == 0
    }

    // The entry exists and the cursor is inside it.
    predicate Valid()
      reads this, api
    {
      key in api.store && currentPosition <= |api.store[key]|
    }

    method MoveToStart()
      modifies this
      ensures currentPosition == 0
    {
      currentPosition := 0;
    }

    method Resize(newSize: nat)
      requires Valid() && newSize <= |api.store[key]|
      modifies this, api
      ensures Valid() && api.store == old(api.store)[key := old(api.store)[key][..newSize]]
      ensures currentPosition == if old(currentPosition) > newSize then newSize else old(currentPosition)
    {
      api.store := api.store[key := api.store[key][..newSize]];
      if currentPosition > newSize {
        currentPosition := newSize;
      }
    }

    method Truncate(newSize: nat)
      requires Valid()
      modifies this, api
      ensures Valid()
      ensures api.store == old(api.store)[key :=
        if |old(api.store)[key]| > newSize then old(api.store)[key][..newSize] else old(api.store)[key]]
      ensures currentPosition == if old(currentPosition) > newSize then newSize else old(currentPosition)
    {
      var size := |api.store[key]|;
      if size > newSize {
        Resize(newSize);
      }
    }

    // Everything a serializer writes, starting at the cursor.
    method WriteAll(bytes: Bytes)
      requires Valid()
      modifies this, api
      ensures Valid() && currentPosition == old(currentPosition) + |bytes|
      ensures api.store == old(api.store)[key := Overwrite(old(api.store)[key], old(currentPosition), bytes)]
    {
      api.store := api.store[key := Overwrite(api.store[key], currentPosition, bytes)];
      currentPosition := currentPosition + |bytes|;
    }

    // Deserializes a value at the cursor, and moves past it; None is an error.
    method Deserialize<V>(values: Codec<V>) returns (v: Option<V>)
      requires Valid()
      modifies this
      ensures Valid()
      ensures match values.decode(api.store[key][old(currentPosition)..])
        case None => v == None
        case Some((x, _)) => v == Some(x)
    {
      var content := api.store[key];
      match values.decode(content[currentPosition..])
      case None =>
        return None;
      case Some((x, rest)) =>
        if |rest| <= |content| {
          currentPosition := |content| - |rest|;
        }
        return Some(x);
    }
  }

  // Truncates the entry and writes a value: all that is left is the value.
  method StoreValue<V>(entry: StateEntry, values: Codec<V>, v: V)
    requires entry.Valid()
    modifies entry, entry.api
    ensures entry.Valid() && entry.api.store == old(entry.api.store)[entry.key := values.encode(v)]
  {
    entry.Truncate(0);
    assert entry.api.store[entry.key] == [];
    entry.WriteAll(values.encode(v));
    assert Overwrite([], 0, values.encode(v)) == values.encode(v);
  }

  // Writes a value from the start of the entry; what was longer keeps its tail.
  method WriteFromStart<V>(entry: StateEntry, values: Codec<V>, v: V)
    requires entry.Valid()
    modifies entry, entry.api
    ensures entry.Valid()
    ensures entry.api.store
        == old(entry.api.store)[entry.key := Overwrite(old(entry.api.store)[entry.key], 0, values.encode(v))]
  {
    entry.MoveToStart();
    entry.WriteAll(values.encode(v));
  }

  method CreateWith<V>(api: StateApi, key: Bytes, values: Codec<V>, v: V) returns (entry: StateEntry)
    modifies api
    ensures fresh(entry) && entry.IsOpen(api, key) && entry.Valid()
    ensures api.store == old(api.store)[key := values.encode(v)]
  {
    entry := api.CreateEntry(key);
    entry.WriteAll(values.encode(v));
    assert Overwrite([], 0, values.encode(v)) == values.encode(v);
    entry.MoveToStart();
  }

  // ----- mutable references -----

  // The result of `get_mut`: the value is loaded when first needed, and written
  // back when the reference goes out of scope.
  class StateRefMut<V> {
    const entry: StateEntry
    const values: Codec<V>
    var lazyValue: Option<V>

    constructor (entry: StateEntry, values: Codec<V>)
      ensures this.entry == entry && this.values == values && lazyValue == None
    {
      this.entry := entry;
      this.values := values;
      lazyValue := None;
    }

    ghost predicate Valid()
      reads this, entry, entry.api
    {
      entry.Valid() && (lazyValue.Some? || values.decode(entry.api.store[entry.key]).Some?)
    }

    // The value the reference stands for.
    ghost function Value(): V
      requires Valid()
      reads this, entry, entry.api
    {
      if lazyValue.Some? then lazyValue.value else values.decode(entry.api.store[entry.key]).value.0
    }

    method Get() returns (v: V)
      requires Valid()
      modifies this, entry
      ensures Valid() && v == Value() == old(Value()) && lazyValue == Some(v)
    {
      if lazyValue.Some? {
        return lazyValue.value;
      }
      entry.MoveToStart();
      assert entry.api.store[entry.key][0..] == entry.api.store[entry.key];
      lazyValue := entry.Deserialize(values);
      return lazyValue.value;
    }

    // Changing the value through the reference; the value is loaded first.
    method Assign(v: V)
      requires Valid()
      modifies this, entry
      ensures Valid() && Value() == v && lazyValue == Some(v)
    {
      var _ := Get();
      lazyValue := Some(v);
    }

    method Drop()
      requires Valid()
      modifies entry, entry.api
      ensures entry.Valid()
      ensures entry.api.store == if lazyValue.None? then old(entry.api.store)
        else old(entry.api.store)[entry.key :=
            Overwrite(old(entry.api.store)[entry.key], 0, values.encode(lazyValue.value))]
    {
      if lazyValue.Some? {
        WriteFromStart(entry, values, lazyValue.value);
      }
    }
  }

  // ----- entries -----

  class OccupiedEntry<V> {
    const stateEntry: StateEntry
    const values: Codec<V>
    var value: V
    var modified: bool

    constructor (stateEntry: StateEntry, values: Codec<V>, value: V)
      ensures this.stateEntry == stateEntry && this.values == values && this.value == value && !modified
    {
      this.stateEntry := stateEntry;
      this.values := values;
      this.value := value;
      modified := false;
    }

    method Assign(v: V)
      modifies this
      ensures value == v && modified
    {
      modified := true;
      value := v;
    }

    method Drop()
      requires stateEntry.Valid()
      modifies stateEntry, stateEntry.api
      ensures stateEntry.Valid()
      ensures stateEntry.api.store ==
        if modified then old(stateEntry.api.store)[stateEntry.key := values.encode(value)]
            else old(stateEntry.api.store)
    {
      if modified {
        StoreValue(stateEntry, values, value);
      }
    }
  }

  // ----- maps -----

  class StateMap<K(!new), V> {
    const prefix: Bytes
    const api: StateApi
    const keys: Codec<K>
    const values: Codec<V>

    constructor (api: StateApi, prefix: Bytes, keys: Codec<K>, values: Codec<V>)
      ensures this.api == api && this.prefix == prefix && this.keys == keys && this.values == values
    {
      this.api := api;
      this.prefix := prefix;
      this.keys := keys;
      this.values := values;
    }

    // None is a trap in all methods below.
    method Get(k: K) returns (r: Option<Option<V>>)
      ensures r == MapGet(api.store, prefix, keys, values, k)
    {
      var entry := api.LookupEntry(Key(prefix, keys, k));
      if entry.None? {
        return Some(None);
      }
      var v := Load(entry.value);
      return if v.None? then None else Some(v);
    }

    method Load(entry: StateEntry) returns (v: Option<V>)
      requires entry.Valid() && entry.api == api && entry.currentPosition == 0
      modifies entry
      ensures v == match values.decode(api.store[entry.key]) { case None => None case Some((x, _)) => Some(x) }
      ensures entry.Valid()
    {
      assert api.store[entry.key][0..] == api.store[entry.key];
      v := entry.Deserialize(values);
    }

    method Insert(k: K, v: V) returns (r: Option<Option<V>>)
      modifies api
      ensures match MapInsert(old(api.store), prefix, keys, values, k, v)
        case None => r == None && api.store == old(api.store)
        case Some((after, previous)) => r == Some(previous) && api.store == after
    {
      var entry := api.LookupEntry(Key(prefix, keys, k));
      if entry.None? {
        var _ := CreateWith(api, Key(prefix, keys, k), values, v);
        return Some(None);
      }
      var previous := Load(entry.value);
      if previous.None? {
        return None;
      }
      StoreValue(entry.value, values, v);
      return Some(previous);
    }

    // `get_mut`, with the value replaced through the reference if there is one.
    method Update(k: K, v: V) returns (r: Option<Option<V>>)
      modifies api
      ensures match MapUpdate(old(api.store), prefix, keys, values, k, v)
        case None => r == None && api.store == old(api.store)
        case Some((after, previous)) => r == Some(previous) && api.store == after
    {
      var entry := api.LookupEntry(Key(prefix, keys, k));
      if entry.None? {
        return Some(None);
      }
      var reference := new StateRefMut(entry.value, values);
      if values.decode(api.store[entry.value.key]).None? {
        return None;
      }
      var previous := reference.Get();
      reference.Assign(v);
      reference.Drop();
      return Some(Some(previous));
    }

    // `entry`, with the value replaced if the entry is occupied.
    method Modify(k: K, v: V) returns (r: Option<Option<V>>)
      modifies api
      ensures match EntryModify(old(api.store), prefix, keys, values, k, v)
        case None => r == None && api.store == old(api.store)
        case Some((after, previous)) => r == Some(previous) && api.store == after
    {
      var entry := api.LookupEntry(Key(prefix, keys, k));
      if entry.None? {
        return Some(None);
      }
      var previous := Load(entry.value);
      if previous.None? {
        return None;
      }
      var occupied := new OccupiedEntry(entry.value, values, previous.value);
      occupied.Assign(v);
      occupied.Drop();
      return Some(previous);
    }

    // `entry(k).or_insert(v)`.
    method OrInsert(k: K, v: V) returns (r: Option<V>)
      modifies api
      ensures match EntryOrInsert(old(api.store), prefix, keys, values, k, v)
        case None => r == None && api.store == old(api.store)
        case Some((after, value)) => r == Some(value) && api.store == after
    {
      var entry := api.LookupEntry(Key(prefix, keys, k));
      var occupied: OccupiedEntry<V>;
      if entry.None? {
        var created := CreateWith(api, Key(prefix, keys, k), values, v);
        occupied := new OccupiedEntry(created, values, v);
      } else {
        var value := Load(entry.value);
        if value.None? {
          return None;
        }
        occupied := new OccupiedEntry(entry.value, values, value.value);
      }
      r := Some(occupied.value);
      occupied.Drop();
    }

    method RemoveAndGet(k: K) returns (r: Option<Option<V>>)
      modifies api
      ensures match MapRemove(old(api.store), prefix, keys, values, k)
        case None => r == None && api.store == old(api.store)
        case Some((after, previous)) => r == Some(previous) && api.store == after
    {
      var entry := api.LookupEntry(Key(prefix, keys, k));
      if entry.None? {
        assert api.store - {Key(prefix, keys, k)} == api.store;
        return Some(None);
      }
      var previous := Load(entry.value);
      if previous.None? {
        return None;
      }
      var _ := api.DeleteEntry(entry.value);
      return Some(previous);
    }

    method ClearFlat()
      modifies api
      ensures api.store == DeletePrefix(old(api.store), prefix)
    {
      api.Delete(prefix);
    }
  }

  // ----- sets -----

  class StateSet<K(!new)> {
    const prefix: Bytes
    const api: StateApi
    const elements: Codec<K>

    constructor (api: StateApi, prefix: Bytes, elements: Codec<K>)
      ensures this.api == api && this.prefix == prefix && this.elements == elements
    {
      this.api := api;
      this.prefix := prefix;
      this.elements := elements;
    }

    method Insert(k: K) returns (added: bool)
      modifies api
      ensures (api.store, added) == SetInsert(old(api.store), prefix, elements, k)
    {
      var entry := api.LookupEntry(Key(prefix, elements, k));
      if entry.Some? {
        return false;
      }
      var created := api.CreateEntry(Key(prefix, elements, k));
      created.WriteAll([]);
      assert Overwrite([], 0, []) == [];
      assert api.store == old(api.store)[Key(prefix, elements, k) := []];
      return true;
    }

    method Contains(k: K) returns (present: bool)
      ensures present == SetContains(api.store, prefix, elements, k)
    {
      var entry := api.LookupEntry(Key(prefix, elements, k));
      return entry.Some?;
    }

    method Remove(k: K) returns (removed: bool)
      modifies api
      ensures (api.store, removed) == SetRemove(old(api.store), prefix, elements, k)
    {
      var entry := api.LookupEntry(Key(prefix, elements, k));
      if entry.None? {
        assert api.store - {Key(prefix, elements, k)} == api.store;
        return false;
      }
      var _ := api.DeleteEntry(entry.value);
      return true;
    }

    method Clear()
      modifies api
      ensures api.store == DeletePrefix(old(api.store), prefix)
    {
      api.Delete(prefix);
    }
  }

  // ----- boxes -----

  datatype StateBoxInner<V> =
    | Loaded(entry: StateEntry, modified: bool, value: V)
    | Reference(prefix: Bytes)

  // A box owns one entry of the store. The value is loaded when first needed,
  // and written back on drop if it may have been changed in memory only.
  class StateBox<V(!new)> {
    const api: StateApi
    const values: Codec<V>
    ghost const location: Bytes
    var inner: StateBoxInner<V>

    ghost predicate Valid()
      reads this, api, if inner.Loaded? then {inner.entry} else {}
    {
      && location in api.store
      && match inner
         case Reference(prefix) => prefix == location && values.decode(api.store[location]).Some?
         case Loaded(entry, modified, value) =>
           && entry.api == api && entry.key == location && entry.Valid() && values.valid(value)
           && (modified || DecodesTo(values, api.store[location], value))
    }

    // The value the box stands for.
    ghost function Value(): V
      requires Valid()
      reads this, api, if inner.Loaded? then {inner.entry} else {}
    {
      if inner.Loaded? then inner.value else values.decode(api.store[location]).value.0
    }

    // `new_box`, at a location that the allocator has handed out.
    constructor (api: StateApi, values: Codec<V>, prefix: Bytes, value: V)
      requires values.valid(value)
      modifies api
      ensures Valid() && Value() == value && this.api == api && this.values == values && location == prefix
      ensures inner.Loaded? && fresh(inner.entry)
      ensures api.store == old(api.store)[prefix := values.encode(value)]
    {
      this.api := api;
      this.values := values;
      location := prefix;
      var entry := api.CreateEntry(prefix);
      entry.WriteAll(values.encode(value));
      assert Overwrite([], 0, values.encode(value)) == values.encode(value);
      inner := Loaded(entry, true, value);
    }

    // A box read back from the state of the contract: only its location.
    constructor FromLocation(api: StateApi, values: Codec<V>, prefix: Bytes)
      requires prefix in api.store && values.decode(api.store[prefix]).Some?
      ensures Valid() && this.api == api && this.values == values && location == prefix
      ensures Value() == values.decode(api.store[prefix]).value.0
    {
      this.api := api;
      this.values := values;
      location := prefix;
      inner := Reference(prefix);
    }

    // Loads the value unless it is cached.
    method EnsureCached()
      requires Valid() && values.valid(Value())
      modifies this
      ensures Valid() && inner.Loaded? && Value() == old(Value())
      ensures old(inner.Loaded?) ==> inner == old(inner)
      ensures old(inner.Reference?) ==> fresh(inner.entry) && !inner.modified
    {
      match inner
      case Loaded(_, _, _) =>
      case Reference(prefix) =>
        var entry := new StateEntry(api, prefix);
        assert api.store[prefix][0..] == api.store[prefix];
        var v := entry.Deserialize(values);
        inner := Loaded(entry, false, v.value);
    }

    method Get() returns (v: V)
      requires Valid() && values.valid(Value())
      modifies this
      ensures Valid() && v == Value() == old(Value())
    {
      EnsureCached();
      v := inner.value;
    }

    // `get_mut` and an assignment: the change stays in memory.
    method Assign(v: V)
      requires Valid() && values.valid(Value()) && values.valid(v)
      modifies this
      ensures Valid() && Value() == v && api.store == old(api.store)
    {
      EnsureCached();
      inner := inner.(modified := true);
      inner := inner.(value := v);
    }

    // Writes the new value to the store at once.
    method Replace(v: V) returns (previous: V)
      requires Valid() && values.valid(Value()) && values.valid(v) && PrefixCodec(values)
      modifies this, api, if inner.Loaded? then {inner.entry} else {}
      ensures Valid() && Value() == v && previous == old(Value())
      ensures DecodesTo(values, api.store[location], v)
      ensures SameOutside(old(api.store), api.store, location)
    {
      EnsureCached();
      ghost var content := api.store[location];
      WriteFromStart(inner.entry, values, v);
      Rewritten(values, content, v);
      previous := inner.value;
      inner := inner.(value := v);
    }

    // After the box is dropped the store holds its value.
    method Drop()
      requires Valid() && PrefixCodec(values) && values.valid(Value())
      modifies api, if inner.Loaded? then {inner.entry} else {}
      ensures location in api.store && DecodesTo(values, api.store[location], old(Value()))
      ensures SameOutside(old(api.store), api.store, location)
    {
      match inner
      case Reference(_) =>
      case Loaded(entry, modified, value) =>
        if modified {
          ghost var content := api.store[location];
          WriteFromStart(entry, values, value);
          Rewritten(values, content, value);
        }
    }
  }

  // A value written over older content reads back.
  lemma Rewritten<V(!new)>(values: Codec<V>, content: Bytes, v: V)
    requires PrefixCodec(values) && values.valid(v)
    ensures DecodesTo(values, Overwrite(content, 0, values.encode(v)), v)
  {
    var tail := if |values.encode(v)| < |content| then content[|values.encode(v)|..] else [];
    assert Overwrite(content, 0, values.encode(v)) == values.encode(v) + tail;
    ReadBack(values, v, tail);
  }
}
