// Sums over maps, and enumerations of their keys.
module Totals {

  // The sum of all values of a map.
  ghost function Total<K>(m: map<K, nat>): nat {
    if m == map[] then 0
    else
      var k :| k in m;
      m[k] + Total(m - {k})
  }

  // Any key can be taken out first.
  lemma {:induction false} TotalWithout<K>(m: map<K, nat>, k: K)
    requires k in m
    ensures Total(m) == m[k] + Total(m - {k})
    decreases |m|
  {
    var j :| j in m && Total(m) == m[j] + Total(m - {j});
    if j != k {
      TotalWithout(m - {j}, k);
      TotalWithout(m - {k}, j);
      assert m - {j} - {k} == m - {k} - {j};
    }
  }

  lemma TotalUpdate<K>(m: map<K, nat>, k: K, v: nat)
    ensures Total(m[k := v]) == Total(m) - (if k in m then m[k] else 0) + v
  {
    TotalWithout(m[k := v], k);
    if k in m {
      TotalWithout(m, k);
      assert m[k := v] - {k} == m - {k};
    } else {
      assert m[k := v] - {k} == m;
    }
  }

  // One value is at most the total.
  lemma TotalBounds<K>(m: map<K, nat>, k: K)
    requires k in m
    ensures m[k] <= Total(m)
  {
    TotalWithout(m, k);
  }

  // ----- enumerations -----

  ghost predicate Enumerates<K>(order: seq<K>, keys: set<K>) {
    && (forall i, j :: 0 <= i < j < |order| ==> order[i] != order[j])
    && (forall i :: 0 <= i < |order| ==> order[i] in keys)
    && (forall k :: k in keys ==> k in order)
  }

  // The keys of a map in the order in which its iterator hands them out.
  method Enumerate<K(==)>(keys: set<K>) returns (order: seq<K>)
    ensures Enumerates(order, keys)
  {
    order := [];
    var rest := keys;
    while rest != {}
      invariant rest <= keys && Enumerates(order, keys - rest)
      decreases |rest|
    {
      var k :| k in rest;
      EnumeratesMore(order, keys - rest, k);
      order := order + [k];
      assert keys - (rest - {k}) == keys - rest + {k};
      rest := rest - {k};
    }
    assert keys - rest == keys;
  }

  lemma EnumeratesMore<K>(order: seq<K>, keys: set<K>, k: K)
    requires Enumerates(order, keys) && k !in keys
    ensures Enumerates(order + [k], keys + {k})
  {
    var more := order + [k];
    forall i, j | 0 <= i < j < |more| ensures more[i] != more[j] {
      if j == |order| {
        assert order[i] in keys;
      }
    }
  }

  lemma EnumeratesRest<K>(order: seq<K>, keys: set<K>)
    requires Enumerates(order, keys) && order != []
    ensures Enumerates(order[1..], keys - {order[0]})
  {
    forall k | k in keys - {order[0]} ensures k in order[1..] {
      assert k in order;
      var i :| 0 <= i < |order| && order[i] == k;
      assert order[1..][i - 1] == k;
    }
  }
}
