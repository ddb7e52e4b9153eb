// All collections of a contract at once: the allocator of prefixes
// (`StateBuilder`), and any interleaving of operations on maps, sets and boxes
// that share one store.
module StateWorlds {
  import opened Wrappers
  import opened ByteCodecs
  import opened StateStores
  import opened StateMaps

  // ----- the allocator -----

  const NEXT_ITEM_PREFIX_KEY: Bytes := U64Bytes(0)
  const GENERIC_MAP_PREFIX: Bytes := U64Bytes(1)
  const INITIAL_NEXT_ITEM_PREFIX: Bytes := U64Bytes(2)

  // None is a trap: the cell holds fewer than eight bytes.
  function AllocatePrefix(store: Store): Option<(Store, Bytes)> {
    var cell := if NEXT_ITEM_PREFIX_KEY in store then store[NEXT_ITEM_PREFIX_KEY] else INITIAL_NEXT_ITEM_PREFIX;
    if |cell| < PREFIX_SIZE then None
    else
      var prefix := FromLittleEndian(cell[..PREFIX_SIZE]);
      var next := U64Bytes((prefix + 1) % U64_RANGE);
      Some((store[NEXT_ITEM_PREFIX_KEY := Overwrite(cell, 0, next)], U64Bytes(prefix)))
  }

  class StateBuilder {
    const api: StateApi

    constructor (api: StateApi)
      ensures this.api == api
    {
      this.api := api;
    }

    method GetAndUpdateItemPrefix() returns (r: Option<Bytes>)
      modifies api
      ensures match AllocatePrefix(old(api.store))
        case None => r == None
        case Some((after, prefix)) => r == Some(prefix) && api.store == after
    {
      hide U64Bytes, ToLittleEndian, FromLittleEndian;
      var found := api.LookupEntry(NEXT_ITEM_PREFIX_KEY);
      var entry: StateEntry;
      if found.None? {
        entry := api.CreateEntry(NEXT_ITEM_PREFIX_KEY);
        entry.WriteAll(INITIAL_NEXT_ITEM_PREFIX);
        assert Overwrite([], 0, INITIAL_NEXT_ITEM_PREFIX) == INITIAL_NEXT_ITEM_PREFIX;
        entry.MoveToStart();
      } else {
        entry := found.value;
      }
      var cell := api.store[NEXT_ITEM_PREFIX_KEY];
      if |cell| < PREFIX_SIZE {
        return None;
      }
      var prefix := FromLittleEndian(cell[..PREFIX_SIZE]);
      entry.currentPosition := PREFIX_SIZE;
      entry.MoveToStart();
      entry.WriteAll(U64Bytes((prefix + 1) % U64_RANGE));
      return Some(U64Bytes(prefix));
    }

    method NewMap<K(!new), V>(keys: Codec<K>, values: Codec<V>) returns (r: Option<StateMap<K, V>>)
      modifies api
      ensures match AllocatePrefix(old(api.store))
        case None => r == None
        case Some((after, prefix)) =>
          && api.store == after && r.Some? && fresh(r.value)
          && r.value.api == api && r.value.prefix == prefix && r.value.keys == keys && r.value.values == values
    {
      var prefix := GetAndUpdateItemPrefix();
      if prefix.None? {
        return None;
      }
      var m := new StateMap(api, prefix.value, keys, values);
      return Some(m);
    }

    method NewSet<K(!new)>(elements: Codec<K>) returns (r: Option<StateSet<K>>)
      modifies api
      ensures match AllocatePrefix(old(api.store))
        case None => r == None
        case Some((after, prefix)) =>
          && api.store == after && r.Some? && fresh(r.value)
          && r.value.api == api && r.value.prefix == prefix && r.value.elements == elements
    {
      var prefix := GetAndUpdateItemPrefix();
      if prefix.None? {
        return None;
      }
      var s := new StateSet(api, prefix.value, elements);
      return Some(s);
    }
  }

  // The prefix handed out by the i-th call.
  function Prefix(i: nat): (p: Bytes)
    ensures |p| == PREFIX_SIZE
  {
    U64Bytes((2 + i) % U64_RANGE)
  }

  lemma U64Injective(a: nat, b: nat)
    requires a < U64_RANGE && b < U64_RANGE && U64Bytes(a) == U64Bytes(b)
    ensures a == b
  {
    U64RoundTrip(a);
    U64RoundTrip(b);
  }

  // A prefix is new, and none of the two reserved ones, exactly as long as the
  // 64-bit counter has not wrapped around.
  lemma PrefixIsNewIff(i: nat)
    ensures Prefix(i) != NEXT_ITEM_PREFIX_KEY && Prefix(i) != GENERIC_MAP_PREFIX
        && (forall j: nat :: j < i ==> Prefix(j) != Prefix(i))
       <==> i < U64_RANGE - 2
  {
    hide U64Bytes;
    if i < U64_RANGE - 2 {
      SmallPrefixIsNew(i);
    } else if i == U64_RANGE - 2 {
      assert (2 + i) % U64_RANGE == 0;
    } else if i == U64_RANGE - 1 {
      assert (2 + i) % U64_RANGE == 1;
    } else {
      var j: nat := i - U64_RANGE;
      WrapsAround(2 + j);
      assert 2 + j + U64_RANGE == 2 + i;
      assert j < i && Prefix(j) == Prefix(i);
    }
  }

  lemma WrapsAround(n: nat)
    ensures (n + U64_RANGE) % U64_RANGE == n % U64_RANGE
  {
  }

  lemma SmallPrefixIsNew(i: nat)
    requires i < U64_RANGE - 2
    ensures Prefix(i) != NEXT_ITEM_PREFIX_KEY && Prefix(i) != GENERIC_MAP_PREFIX
    ensures forall j: nat :: j < i ==> Prefix(j) != Prefix(i)
  {
    hide U64Bytes, ToLittleEndian, FromLittleEndian;
    if Prefix(i) == NEXT_ITEM_PREFIX_KEY {
      U64Injective(2 + i, 0);
    }
    if Prefix(i) == GENERIC_MAP_PREFIX {
      U64Injective(2 + i, 1);
    }
    forall j: nat | j < i ensures Prefix(j) != Prefix(i) {
      if Prefix(j) == Prefix(i) {
        U64Injective(2 + j, 2 + i);
      }
    }
  }

  lemma SameStart(p: Bytes, p': Bytes, key: Bytes)
    requires |p| == |p'|
    ensures p <= key && p' <= key ==> p == p'
  {
    if p <= key && p' <= key {
      assert p == key[..|p|] && p' == key[..|p'|];
    }
  }

  // Keys of different collections are different.
  lemma KeysAreDisjoint(i: nat, j: nat, key: Bytes)
    requires i < U64_RANGE - 2 && j < U64_RANGE - 2 && i != j && Prefix(i) <= key
    ensures !(Prefix(j) <= key)
  {
    SmallPrefixIsNew(i);
    SmallPrefixIsNew(j);
    SameStart(Prefix(i), Prefix(j), key);
  }

  lemma CellIsApart(i: nat)
    requires i < U64_RANGE - 2
    ensures !(Prefix(i) <= NEXT_ITEM_PREFIX_KEY)
  {
    SmallPrefixIsNew(i);
    SameStart(Prefix(i), NEXT_ITEM_PREFIX_KEY, NEXT_ITEM_PREFIX_KEY);
  }

  // ----- collections and operations -----

  // K and V stand for the union of all key and value types in use; each
  // collection has its own codecs, valid on its own types.
  datatype Kind<!K, !V> =
    | MapKind(keys: Codec<K>, values: Codec<V>)
    | SetKind(elements: Codec<K>)
    | BoxKind(values: Codec<V>, initial: V)

  datatype MapOp<K, V> =
    | Get(k: K) | Insert(k: K, v: V) | GetMut(k: K, v: V) | Modify(k: K, v: V)
    | OrInsert(k: K, v: V) | RemoveAndGet(k: K) | ClearFlat

  datatype SetOp<K> = Add(k: K) | Contains(k: K) | Remove(k: K) | Clear

  datatype BoxOp<V> = Read | Write(v: V)

  datatype Op<!K, !V> =
    | New(kind: Kind<K, V>)
    | OnMap(i: nat, mapOp: MapOp<K, V>)
    | OnSet(i: nat, setOp: SetOp<K>)
    | OnBox(i: nat, boxOp: BoxOp<V>)

  datatype Answer<V> = Done | Found(value: Option<V>) | Is(flag: bool)

  // The operation is made on a collection of its kind.
  predicate Targets<K, V>(kinds: seq<Kind<K, V>>, op: Op<K, V>) {
    match op
    case New(_) => true
    case OnMap(i, _) => i < |kinds| && kinds[i].MapKind?
    case OnSet(i, _) => i < |kinds| && kinds[i].SetKind?
    case OnBox(i, _) => i < |kinds| && kinds[i].BoxKind?
  }

  predicate MapArguments<K, V>(keys: Codec<K>, values: Codec<V>, op: MapOp<K, V>) {
    && (!op.ClearFlat? ==> keys.valid(op.k))
    && (op.Insert? || op.GetMut? || op.Modify? || op.OrInsert? ==> values.valid(op.v))
  }

  predicate SetArguments<K>(elements: Codec<K>, op: SetOp<K>) {
    !op.Clear? ==> elements.valid(op.k)
  }

  predicate BoxArguments<V>(values: Codec<V>, op: BoxOp<V>) {
    op.Write? ==> values.valid(op.v)
  }

  // What the types and the allocator ask of an operation.
  ghost predicate Fits<K(!new), V(!new)>(kinds: seq<Kind<K, V>>, op: Op<K, V>) {
    && Targets(kinds, op)
    && match op
       case New(kind) => |kinds| < U64_RANGE - 2 && GoodKind(kind)
       case OnMap(i, mapOp) => MapArguments(kinds[i].keys, kinds[i].values, mapOp)
       case OnSet(i, setOp) => SetArguments(kinds[i].elements, setOp)
       case OnBox(i, boxOp) => BoxArguments(kinds[i].values, boxOp)
  }

  ghost predicate GoodKind<K(!new), V(!new)>(kind: Kind<K, V>) {
    match kind
    case MapKind(keys, values) => PrefixCodec(keys) && PrefixCodec(values)
    case SetKind(elements) => PrefixCodec(elements)
    case BoxKind(values, initial) => PrefixCodec(values) && values.valid(initial)
  }

  // ----- the store side; None is a trap -----

  function Answered<V>(r: Option<(Store, Option<V>)>): Option<(Store, Answer<V>)> {
    match r
    case None => None
    case Some((after, found)) => Some((after, Found(found)))
  }

  function ExecuteMap<K, V>(store: Store, prefix: Bytes, keys: Codec<K>, values: Codec<V>, op: MapOp<K,
      V>): Option<(Store, Answer<V>)> {
    match op
    case Get(k) => (
      match MapGet(store, prefix, keys, values, k)
      case None => None
      case Some(found) => Some((store, Found(found))))
    case Insert(k, v) => Answered(MapInsert(store, prefix, keys, values, k, v))
    case GetMut(k, v) => Answered(MapUpdate(store, prefix, keys, values, k, v))
    case Modify(k, v) => Answered(EntryModify(store, prefix, keys, values, k, v))
    case OrInsert(k, v) => (
      match EntryOrInsert(store, prefix, keys, values, k, v)
      case None => None
      case Some((after, value)) => Some((after, Found(Some(value)))))
    case RemoveAndGet(k) => Answered(MapRemove(store, prefix, keys, values, k))
    case ClearFlat => Some((DeletePrefix(store, prefix), Done))
  }

  function ExecuteSet<K, V>(store: Store, prefix: Bytes, elements: Codec<K>, op: SetOp<K>): (Store, Answer<V>) {
    match op
    case Add(k) => var (after, added) := SetInsert(store, prefix, elements, k); (after, Is(added))
    case Contains(k) => (store, Is(SetContains(store, prefix, elements, k)))
    case Remove(k) => var (after, removed) := SetRemove(store, prefix, elements, k); (after, Is(removed))
    case Clear => (DeletePrefix(store, prefix), Done)
  }

  function ExecuteBox<V>(store: Store, prefix: Bytes, values: Codec<V>, op: BoxOp<V>): Option<(Store, Answer<V>)> {
    if prefix !in store then None
    else
      match values.decode(store[prefix])
      case None => None
      case Some((previous, _)) =>
        match op
        case Read => Some((store, Found(Some(previous))))
        case Write(v) => Some((store[prefix := Overwrite(store[prefix], 0, values.encode(v))], Found(Some(previous))))
  }

  function ExecuteNew<K, V>(store: Store, kind: Kind<K, V>): Option<(Store, Answer<V>)> {
    match AllocatePrefix(store)
    case None => None
    case Some((after, prefix)) =>
      Some((if kind.BoxKind? then after[prefix := kind.values.encode(kind.initial)] else after, Done))
  }

  function Execute<K, V>(store: Store, kinds: seq<Kind<K, V>>, op: Op<K, V>): Option<(Store, Answer<V>)>
    requires Targets(kinds, op)
  {
    match op
    case New(kind) => ExecuteNew(store, kind)
    case OnMap(i, mapOp) => ExecuteMap(store, Prefix(i), kinds[i].keys, kinds[i].values, mapOp)
    case OnSet(i, setOp) => Some(ExecuteSet(store, Prefix(i), kinds[i].elements, setOp))
    case OnBox(i, boxOp) => ExecuteBox(store, Prefix(i), kinds[i].values, boxOp)
  }

  function KindsAfter<K, V>(kinds: seq<Kind<K, V>>, op: Op<K, V>): seq<Kind<K, V>> {
    if op.New? then kinds + [op.kind] else kinds
  }

  // ----- the mathematical side: independent maps, sets and cells -----

  datatype Model<K, V> = MapModel(entries: map<K, V>) | SetModel(elements: set<K>) | BoxModel(value: V)

  function Replace<K, V>(m: map<K, V>, k: K, v: V): map<K, V> {
    if k in m then m[k := v] else m
  }

  function IntendedMap<K, V>(m: map<K, V>, op: MapOp<K, V>): (map<K, V>, Answer<V>) {
    match op
    case Get(k) => (m, Found(Lookup(m, k)))
    case Insert(k, v) => (m[k := v], Found(Lookup(m, k)))
    case GetMut(k, v) => (Replace(m, k, v), Found(Lookup(m, k)))
    case Modify(k, v) => (Replace(m, k, v), Found(Lookup(m, k)))
    case OrInsert(k, v) => if k in m then (m, Found(Some(m[k]))) else (m[k := v], Found(Some(v)))
    case RemoveAndGet(k) => (m - {k}, Found(Lookup(m, k)))
    case ClearFlat => (map[], Done)
  }

  function IntendedSet<K, V>(s: set<K>, op: SetOp<K>): (set<K>, Answer<V>) {
    match op
    case Add(k) => (s + {k}, Is(k !in s))
    case Contains(k) => (s, Is(k in s))
    case Remove(k) => (s - {k}, Is(k in s))
    case Clear => ({}, Done)
  }

  function IntendedBox<V>(x: V, op: BoxOp<V>): (V, Answer<V>) {
    match op
    case Read => (x, Found(Some(x)))
    case Write(v) => (v, Found(Some(x)))
  }

  function Fresh<K, V>(kind: Kind<K, V>): Model<K, V> {
    match kind
    case MapKind(_, _) => MapModel(map[])
    case SetKind(_) => SetModel({})
    case BoxKind(_, initial) => BoxModel(initial)
  }

  predicate SameShape<K, V>(kind: Kind<K, V>, model: Model<K, V>) {
    match kind
    case MapKind(_, _) => model.MapModel?
    case SetKind(_) => model.SetModel?
    case BoxKind(_, _) => model.BoxModel?
  }

  predicate Shaped<K, V>(kinds: seq<Kind<K, V>>, models: seq<Model<K, V>>) {
    |kinds| == |models| && forall i :: 0 <= i < |kinds| ==> SameShape(kinds[i], models[i])
  }

  function Intended<K, V>(kinds: seq<Kind<K, V>>, models: seq<Model<K, V>>, op: Op<K, V>): (seq<Model<K, V>>, Answer<V>)
    requires Shaped(kinds, models) && Targets(kinds, op)
  {
    match op
    case New(kind) => (models + [Fresh(kind)], Done)
    case OnMap(i, mapOp) =>
      assert SameShape(kinds[i], models[i]);
      var (m, answer) := IntendedMap(models[i].entries, mapOp);
      (models[i := MapModel(m)], answer)
    case OnSet(i, setOp) =>
      assert SameShape(kinds[i], models[i]);
      var (m, answer) := IntendedSet(models[i].elements, setOp);
      (models[i := SetModel(m)], answer)
    case OnBox(i, boxOp) =>
      assert SameShape(kinds[i], models[i]);
      var (v, answer) := IntendedBox(models[i].value, boxOp);
      (models[i := BoxModel(v)], answer)
  }

  // ----- the relation between the two -----

  ghost predicate RepresentsOne<K(!new), V(!new)>(store: Store, prefix: Bytes, kind: Kind<K, V>, model: Model<K, V>) {
    && SameShape(kind, model)
    && match kind
       case MapKind(keys, values) =>
         PrefixCodec(keys) && PrefixCodec(values) && RepresentsMap(store, prefix, keys, values, model.entries)
       case SetKind(elements) => PrefixCodec(elements) && RepresentsSet(store, prefix, elements, model.elements)
       case BoxKind(values, _) =>
         PrefixCodec(values) && prefix in store && DecodesTo(values, store[prefix], model.value)
  }

  // After n allocations: the cell of the allocator, and nothing below prefixes
  // that are still to come.
  ghost predicate AllocatorAt(store: Store, n: nat) {
    && n <= U64_RANGE - 2
    && (if NEXT_ITEM_PREFIX_KEY in store then store[NEXT_ITEM_PREFIX_KEY] == Prefix(n) else n == 0)
    && (forall j, key :: n <= j < U64_RANGE - 2 && Prefix(j) <= key ==> key !in store)
  }

  ghost predicate Represents<K(!new), V(!new)>(store: Store, kinds: seq<Kind<K, V>>, models: seq<Model<K, V>>) {
    && |kinds| == |models| && AllocatorAt(store, |kinds|)
    && forall i :: 0 <= i < |kinds| ==> RepresentsOne(store, Prefix(i), kinds[i], models[i])
  }

  // ----- frames -----

  lemma FrameOne<K(!new), V(!new)>(before: Store, after: Store, prefix: Bytes, kind: Kind<K, V>, model: Model<K, V>)
    requires RepresentsOne(before, prefix, kind, model) && SameBelow(before, after, prefix)
    ensures RepresentsOne(after, prefix, kind, model)
  {
    match kind
    case MapKind(keys, values) =>
      forall k | k in model.entries
        ensures Key(prefix, keys, k) in after && after[Key(prefix, keys, k)] == before[Key(prefix, keys, k)]
      {
        KeyIsBelow(prefix, keys, k);
      }
    case SetKind(elements) =>
      forall k | k in model.elements ensures Key(prefix, elements, k) in after {
        KeyIsBelow(prefix, elements, k);
      }
    case BoxKind(values, _) =>
  }

  lemma OthersAreUntouched(before: Store, after: Store, i: nat, j: nat)
    requires i < U64_RANGE - 2 && j < U64_RANGE - 2 && i != j && SameOutside(before, after, Prefix(j))
    ensures SameBelow(before, after, Prefix(i))
  {
    forall key | Prefix(i) <= key
      ensures (key in before <==> key in after) && (key in before ==> before[key] == after[key])
    {
      KeysAreDisjoint(i, j, key);
    }
  }

  lemma AllocatorIsUntouched(before: Store, after: Store, n: nat, j: nat)
    requires AllocatorAt(before, n) && j < n && SameOutside(before, after, Prefix(j))
    ensures AllocatorAt(after, n)
  {
    CellIsApart(j);
    forall i, key | n <= i < U64_RANGE - 2 && Prefix(i) <= key ensures key !in after {
      KeysAreDisjoint(i, j, key);
    }
  }

  // A change below one prefix that is right for that collection is right.
  lemma ChangeOne<K(!new), V(!new)>(before: Store, after: Store, kinds: seq<Kind<K, V>>, models: seq<Model<K, V>>,
      j: nat, model: Model<K, V>)
    requires Represents(before, kinds, models) && j < |kinds|
    requires SameOutside(before, after, Prefix(j)) && RepresentsOne(after, Prefix(j), kinds[j], model)
    ensures Represents(after, kinds, models[j := model])
  {
    AllocatorIsUntouched(before, after, |kinds|, j);
    forall i | 0 <= i < |kinds| ensures RepresentsOne(after, Prefix(i), kinds[i], models[j := model][i]) {
      if i != j {
        OthersAreUntouched(before, after, i, j);
        FrameOne(before, after, Prefix(i), kinds[i], models[i]);
      }
    }
  }

  // ----- allocation -----

  lemma AllocationAnswers(store: Store, n: nat)
    requires AllocatorAt(store, n) && n < U64_RANGE - 2
    ensures AllocatePrefix(store) == Some((store[NEXT_ITEM_PREFIX_KEY := Prefix(n + 1)], Prefix(n)))
  {
    hide U64Bytes, ToLittleEndian, FromLittleEndian;
    var cell := if NEXT_ITEM_PREFIX_KEY in store then store[NEXT_ITEM_PREFIX_KEY] else INITIAL_NEXT_ITEM_PREFIX;
    assert cell == U64Bytes(2 + n);
    assert cell[..PREFIX_SIZE] == cell;
    U64RoundTrip(2 + n);
    OverwriteAll(cell, Prefix(n + 1));
  }

  lemma OverwriteAll(content: Bytes, written: Bytes)
    requires |content| == |written|
    ensures Overwrite(content, 0, written) == written
  {
  }

  lemma AllocatedIsEmpty(store: Store, mid: Store, n: nat)
    requires AllocatorAt(store, n) && n < U64_RANGE - 2
    requires mid == store[NEXT_ITEM_PREFIX_KEY := Prefix(n + 1)]
    ensures AllocatorAt(mid, n + 1)
    ensures forall key :: key in mid ==> !(Prefix(n) <= key)
  {
    hide Prefix;
    CellIsApart(n);
    forall j, key | n + 1 <= j < U64_RANGE - 2 && Prefix(j) <= key ensures key !in mid {
      CellIsApart(j);
    }
  }

  lemma CellOutsideAll(store: Store, mid: Store, content: Bytes, i: nat)
    requires i < U64_RANGE - 2 && mid == store[NEXT_ITEM_PREFIX_KEY := content]
    ensures SameBelow(store, mid, Prefix(i))
  {
    CellIsApart(i);
  }

  lemma NewRefines<K(!new), V(!new)>(store: Store, kinds: seq<Kind<K, V>>, models: seq<Model<K, V>>, kind: Kind<K, V>)
    requires Represents(store, kinds, models) && |kinds| < U64_RANGE - 2 && GoodKind(kind)
    ensures var r := ExecuteNew(store, kind);
      r.Some? && r.value.1 == Done && Represents(r.value.0, kinds + [kind], models + [Fresh(kind)])
  {
    var n := |kinds|;
    AllocationAnswers(store, n);
    var mid := store[NEXT_ITEM_PREFIX_KEY := Prefix(n + 1)];
    var after := ExecuteNew(store, kind).value.0;
    AllocatedIsEmpty(store, mid, n);
    NewIsRepresented(mid, after, n, kind);
    AllocatorIsUntouched(mid, after, n + 1, n);
    hide Prefix, AllocatePrefix, ExecuteNew, AllocatorAt, GoodKind, Fresh, RepresentsOne, SameOutside;
    OldAndNew(store, mid, after, kinds, models, kind, Fresh(kind));
  }

  lemma OldAndNew<K(!new), V(!new)>(store: Store, mid: Store, after: Store, kinds: seq<Kind<K, V>>,
      models: seq<Model<K, V>>,
                                    kind: Kind<K, V>, model: Model<K, V>)
    requires Represents(store, kinds, models) && |kinds| < U64_RANGE - 2
    requires mid == store[NEXT_ITEM_PREFIX_KEY := Prefix(|kinds| + 1)] && SameOutside(mid, after, Prefix(|kinds|))
    requires RepresentsOne(after, Prefix(|kinds|), kind, model) && AllocatorAt(after, |kinds| + 1)
    ensures Represents(after, kinds + [kind], models + [model])
  {
    hide Prefix, AllocatorAt, RepresentsOne, SameOutside;
    forall i | 0 <= i < |kinds| ensures RepresentsOne(after, Prefix(i), kinds[i], models[i]) {
      OneSurvives(store, mid, after, |kinds|, i, kinds[i], models[i]);
    }
  }

  lemma OneSurvives<K(!new), V(!new)>(store: Store, mid: Store, after: Store, n: nat, i: nat, kind: Kind<K, V>,
      model: Model<K, V>)
    requires i < n < U64_RANGE - 2 && RepresentsOne(store, Prefix(i), kind, model)
    requires mid == store[NEXT_ITEM_PREFIX_KEY := Prefix(n + 1)] && SameOutside(mid, after, Prefix(n))
    ensures RepresentsOne(after, Prefix(i), kind, model)
  {
    hide Prefix, RepresentsOne;
    CellOutsideAll(store, mid, Prefix(n + 1), i);
    FrameOne(store, mid, Prefix(i), kind, model);
    OthersAreUntouched(mid, after, i, n);
    FrameOne(mid, after, Prefix(i), kind, model);
  }

  lemma NewIsRepresented<K(!new), V(!new)>(mid: Store, after: Store, n: nat, kind: Kind<K, V>)
    requires GoodKind(kind)
    requires forall key :: key in mid ==> !(Prefix(n) <= key)
    requires after == if kind.BoxKind? then mid[Prefix(n) := kind.values.encode(kind.initial)] else mid
    ensures SameOutside(mid, after, Prefix(n)) && RepresentsOne(after, Prefix(n), kind, Fresh(kind))
  {
    if kind.BoxKind? {
      ReadBack(kind.values, kind.initial, []);
    }
  }

  // ----- every operation -----

  lemma MapRefines<K(!new), V(!new)>(store: Store, p: Bytes, keys: Codec<K>, values: Codec<V>, m: map<K, V>,
      op: MapOp<K, V>)
    requires PrefixCodec(keys) && PrefixCodec(values) && RepresentsMap(store, p, keys, values, m)
    requires MapArguments(keys, values, op)
    ensures var r := ExecuteMap(store, p, keys, values, op);
      var (m', answer) := IntendedMap(m, op);
      && r.Some? && r.value.1 == answer
      && RepresentsMap(r.value.0, p, keys, values, m') && SameOutside(store, r.value.0, p)
  {
    hide RepresentsMap, PrefixCodec, MapGet, MapInsert, MapUpdate, EntryModify, EntryOrInsert, MapRemove, DeletePrefix;
    match op {
      case Get(k) => GetRefines(store, p, keys, values, m, k);
      case Insert(k, v) => InsertRefines(store, p, keys, values, m, k, v);
      case GetMut(k, v) => UpdateRefines(store, p, keys, values, m, k, v);
      case Modify(k, v) => ModifyRefines(store, p, keys, values, m, k, v);
      case OrInsert(k, v) => OrInsertRefines(store, p, keys, values, m, k, v);
      case RemoveAndGet(k) => RemoveRefines(store, p, keys, values, m, k);
      case ClearFlat => ClearRefines(store, p, keys, values);
    }
  }

  lemma SetRefines<K(!new), V(!new)>(store: Store, p: Bytes, elements: Codec<K>, s: set<K>, op: SetOp<K>)
    requires PrefixCodec(elements) && RepresentsSet(store, p, elements, s)
    requires SetArguments(elements, op)
    ensures var (after, given) := ExecuteSet<K, V>(store, p, elements, op);
      var (s', answer) := IntendedSet<K, V>(s, op);
      given == answer && RepresentsSet(after, p, elements, s') && SameOutside(store, after, p)
  {
    match op {
      case Add(k) => SetInsertRefines(store, p, elements, s, k);
      case Contains(k) => KeyDecidesMembership(store, p, elements, s, k);
      case Remove(k) => SetRemoveRefines(store, p, elements, s, k);
      case Clear =>
    }
  }

  lemma BoxRefines<V(!new)>(store: Store, p: Bytes, values: Codec<V>, x: V, op: BoxOp<V>)
    requires PrefixCodec(values) && p in store && DecodesTo(values, store[p], x)
    requires BoxArguments(values, op)
    ensures var r := ExecuteBox(store, p, values, op);
      var (x', answer) := IntendedBox(x, op);
      && r.Some? && r.value.1 == answer
      && p in r.value.0 && DecodesTo(values, r.value.0[p], x') && SameOutside(store, r.value.0, p)
  {
    match op
    case Read =>
    case Write(v) => Rewritten(values, store[p], v);
  }

  lemma RepresentsShape<K(!new), V(!new)>(store: Store, kinds: seq<Kind<K, V>>, models: seq<Model<K, V>>)
    requires Represents(store, kinds, models)
    ensures Shaped(kinds, models)
  {
  }

  // An operation never traps, answers what it would on independent collections,
  // and leaves a store that stands for the collections it should.
  lemma OperationRefines<K(!new), V(!new)>(store: Store, kinds: seq<Kind<K, V>>, models: seq<Model<K, V>>, op: Op<K, V>)
    requires Represents(store, kinds, models) && Fits(kinds, op)
    ensures Shaped(kinds, models)
    ensures var r := Execute(store, kinds, op);
      && r.Some? && r.value.1 == Intended(kinds, models, op).1
      && Represents(r.value.0, KindsAfter(kinds, op), Intended(kinds, models, op).0)
  {
    RepresentsShape(store, kinds, models);
    match op {
      case New(kind) =>
        NewRefines(store, kinds, models, kind);
      case OnMap(i, mapOp) =>
        OneIsRepresented(store, kinds, models, i);
        MapRefines(store, Prefix(i), kinds[i].keys, kinds[i].values, models[i].entries, mapOp);
        hide Represents, ExecuteMap, IntendedMap, RepresentsMap, PrefixCodec, Prefix, SameOutside;
        ChangeOne(store, Execute(store, kinds, op).value.0, kinds, models, i, Intended(kinds, models, op).0[i]);
      case OnSet(i, setOp) =>
        OneIsRepresented(store, kinds, models, i);
        SetRefines<K, V>(store, Prefix(i), kinds[i].elements, models[i].elements, setOp);
        hide Represents, ExecuteSet, IntendedSet, RepresentsSet, PrefixCodec, Prefix, SameOutside;
        ChangeOne(store, Execute(store, kinds, op).value.0, kinds, models, i, Intended(kinds, models, op).0[i]);
      case OnBox(i, boxOp) =>
        OneIsRepresented(store, kinds, models, i);
        BoxRefines(store, Prefix(i), kinds[i].values, models[i].value, boxOp);
        hide Represents, ExecuteBox, IntendedBox, DecodesTo, PrefixCodec, Prefix, SameOutside;
        ChangeOne(store, Execute(store, kinds, op).value.0, kinds, models, i, Intended(kinds, models, op).0[i]);
    }
  }

  lemma OneIsRepresented<K(!new), V(!new)>(store: Store, kinds: seq<Kind<K, V>>, models: seq<Model<K, V>>, i: nat)
    requires Represents(store, kinds, models) && i < |kinds|
    ensures RepresentsOne(store, Prefix(i), kinds[i], models[i])
  {
  }

  // ----- every run -----

  ghost function KindsAfterAll<K, V>(ops: seq<Op<K, V>>): seq<Kind<K, V>> {
    if ops == [] then [] else KindsAfter(KindsAfterAll(ops[..|ops| - 1]), ops[|ops| - 1])
  }

  ghost predicate AllFit<K(!new), V(!new)>(ops: seq<Op<K, V>>) {
    ops != [] ==> AllFit(ops[..|ops| - 1]) && Fits(KindsAfterAll(ops[..|ops| - 1]), ops[|ops| - 1])
  }

  // The store and the answers after a program has run; None is a trap.
  ghost function RunOnStore<K(!new), V(!new)>(store: Store, ops: seq<Op<K, V>>): Option<(Store, seq<Answer<V>>)>
    requires AllFit(ops)
  {
    if ops == [] then Some((store, []))
    else
      var n := |ops| - 1;
      match RunOnStore(store, ops[..n])
      case None => None
      case Some((mid, answers)) =>
        match Execute(mid, KindsAfterAll(ops[..n]), ops[n])
        case None => None
        case Some((after, answer)) => Some((after, answers + [answer]))
  }

  // The same program on independent collections.
  ghost function RunOnModels<K(!new), V(!new)>(ops: seq<Op<K, V>>): (r: (seq<Model<K, V>>, seq<Answer<V>>))
    requires AllFit(ops)
    ensures Shaped(KindsAfterAll(ops), r.0)
  {
    if ops == [] then ([], [])
    else
      var n := |ops| - 1;
      var (models, answers) := RunOnModels(ops[..n]);
      var kinds := KindsAfterAll(ops[..n]);
      IntendedKeepsShape(kinds, models, ops[n]);
      var (after, answer) := Intended(kinds, models, ops[n]);
      (after, answers + [answer])
  }

  lemma IntendedKeepsShape<K, V>(kinds: seq<Kind<K, V>>, models: seq<Model<K, V>>, op: Op<K, V>)
    requires Shaped(kinds, models) && Targets(kinds, op)
    ensures Shaped(KindsAfter(kinds, op), Intended(kinds, models, op).0)
  {
    forall i | 0 <= i < |KindsAfter(kinds, op)|
      ensures SameShape(KindsAfter(kinds, op)[i], Intended(kinds, models, op).0[i])
    {
      if i < |kinds| {
        assert SameShape(kinds[i], models[i]);
      }
    }
  }

  // Any interleaving of allocations and operations on any number of collections
  // behaves as if every collection were a value of its own.
  lemma {:induction false} CollectionsAreIndependent<K(!new), V(!new)>(ops: seq<Op<K, V>>)
    requires AllFit(ops)
    ensures var r := RunOnStore(map[], ops);
      && r.Some? && r.value.1 == RunOnModels(ops).1
      && Represents(r.value.0, KindsAfterAll(ops), RunOnModels(ops).0)
  {
    if ops != [] {
      var n := |ops| - 1;
      CollectionsAreIndependent(ops[..n]);
      hide Represents, Execute, Intended, Fits, KindsAfter;
      OperationRefines(RunOnStore(map[], ops[..n]).value.0, KindsAfterAll(ops[..n]), RunOnModels(ops[..n]).0, ops[n]);
    }
  }
}
