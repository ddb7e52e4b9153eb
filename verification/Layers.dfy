// Layers of (index, hash) tuples and the stable sort used on them.
module Layers {
  import opened Hashing
  import opened Indices

  datatype Node = Node(index: nat, hash: Digest)

  type Layer = seq<Node>

  function IndicesOf(layer: Layer): seq<nat> {
    seq(|layer|, i requires 0 <= i < |layer| => layer[i].index)
  }

  function HashesOf(layer: Layer): seq<Digest> {
    seq(|layer|, i requires 0 <= i < |layer| => layer[i].hash)
  }

  // `layer.iter().any(|(index, _)| *index == node_index)`
  predicate HasIndex(layer: Layer, index: nat) {
    exists i :: 0 <= i < |layer| && layer[i].index == index
  }

  function InsertByIndex(node: Node, sorted: Layer): Layer {
    if sorted == [] || node.index <= sorted[0].index then [node] + sorted
    else [sorted[0]] + InsertByIndex(node, sorted[1..])
  }

  // `sort_by(|(a, _), (b, _)| a.cmp(b))`, a stable sort on the index.
  function SortByIndex(layer: Layer): Layer {
    if layer == [] then []
    else InsertByIndex(layer[0], SortByIndex(layer[1..]))
  }

  // ----- properties -----

  ghost predicate Ascending(layer: Layer) {
    Increasing(IndicesOf(layer))
  }

  lemma IndexElements(layer: Layer)
    ensures forall x: nat :: x in IndicesOf(layer) <==> HasIndex(layer, x)
    ensures forall node :: node in layer ==> node.index in IndicesOf(layer)
  {
    var idx := IndicesOf(layer);
    forall x: nat ensures x in idx <==> HasIndex(layer, x) {
      if x in idx {
        var i :| 0 <= i < |idx| && idx[i] == x;
        assert layer[i].index == x;
      }
      if i :| 0 <= i < |layer| && layer[i].index == x {
        assert idx[i] == x;
      }
    }
    forall node | node in layer ensures node.index in idx {
      var i :| 0 <= i < |layer| && layer[i] == node;
      assert idx[i] == node.index;
    }
  }

  lemma IndicesConcat(a: Layer, b: Layer)
    ensures IndicesOf(a + b) == IndicesOf(a) + IndicesOf(b)
  {
  }

  ghost predicate Sorted(layer: Layer) {
    forall i, j :: 0 <= i < j < |layer| ==> layer[i].index <= layer[j].index
  }

  lemma InsertUnfold(node: Node, s: Layer)
    ensures InsertByIndex(node, s) == if s == [] || node.index <= s[0].index then [node] + s
        else [s[0]] + InsertByIndex(node, s[1..])
  {
  }

  lemma {:induction false} InsertElements(node: Node, s: Layer)
    ensures multiset(InsertByIndex(node, s)) == multiset{node} + multiset(s)
  {
    hide InsertByIndex;
    InsertUnfold(node, s);
    if s != [] {
      InsertElements(node, s[1..]);
      assert s == [s[0]] + s[1..];
    }
  }

  lemma {:induction false} InsertSorted(node: Node, s: Layer)
    requires Sorted(s)
    ensures Sorted(InsertByIndex(node, s))
  {
    hide InsertByIndex;
    InsertUnfold(node, s);
    if s != [] && node.index > s[0].index {
      var rest := InsertByIndex(node, s[1..]);
      InsertSorted(node, s[1..]);
      InsertElements(node, s[1..]);
      forall i | 0 <= i < |rest| ensures s[0].index <= rest[i].index {
        assert rest[i] in multiset(rest);
        assert rest[i] == node || rest[i] in s[1..];
      }
    }
  }

  // The sort returns an ordered permutation.
  lemma {:induction false} SortSorts(layer: Layer)
    ensures Sorted(SortByIndex(layer))
    ensures multiset(SortByIndex(layer)) == multiset(layer)
  {
    if layer != [] {
      SortSorts(layer[1..]);
      InsertSorted(layer[0], SortByIndex(layer[1..]));
      InsertElements(layer[0], SortByIndex(layer[1..]));
      assert layer == [layer[0]] + layer[1..];
    }
  }

  lemma SortElements(layer: Layer)
    ensures forall node :: node in SortByIndex(layer) <==> node in layer
    ensures |SortByIndex(layer)| == |layer|
  {
    SortSorts(layer);
    var s := SortByIndex(layer);
    assert |multiset(s)| == |multiset(layer)|;
    forall node ensures node in s <==> node in layer {
      assert node in s <==> node in multiset(s);
      assert node in layer <==> node in multiset(layer);
    }
  }

  // With distinct indices the sorted layer is strictly ascending.
  lemma {:induction false} SortDistinct(layer: Layer)
    requires Distinct(IndicesOf(layer))
    ensures Ascending(SortByIndex(layer))
    ensures forall x :: x in IndicesOf(SortByIndex(layer)) <==> x in IndicesOf(layer)
  {
    var s := SortByIndex(layer);
    SortSorts(layer);
    SortElements(layer);
    IndexElements(layer);
    IndexElements(s);
    forall x: nat ensures x in IndicesOf(s) <==> x in IndicesOf(layer) {
      if HasIndex(s, x) {
        var i :| 0 <= i < |s| && s[i].index == x;
        assert s[i] in layer;
      }
      if HasIndex(layer, x) {
        var i :| 0 <= i < |layer| && layer[i].index == x;
        assert layer[i] in s;
      }
    }
    forall i, j | 0 <= i < j < |s| ensures s[i].index != s[j].index {
      if s[i].index == s[j].index {
        EqualIndexTwice(layer, s, i, j);
      }
    }
  }

  lemma EqualIndexTwice(layer: Layer, s: Layer, i: nat, j: nat)
    requires multiset(s) == multiset(layer)
    requires i < j < |s| && s[i].index == s[j].index
    ensures !Distinct(IndicesOf(layer))
  {
    if s[i] == s[j] {
      assert s == s[..i] + [s[i]] + s[i + 1..j] + [s[j]] + s[j + 1..];
      assert multiset(s)[s[i]] >= 2;
      OccursTwice(layer, s[i]);
    } else {
      assert s[i] in multiset(s) && s[j] in multiset(s);
      assert s[i] in layer && s[j] in layer;
      var a :| 0 <= a < |layer| && layer[a] == s[i];
      var b :| 0 <= b < |layer| && layer[b] == s[j];
      assert IndicesOf(layer)[a] == IndicesOf(layer)[b];
    }
  }

  lemma OccursTwice(layer: Layer, node: Node)
    requires multiset(layer)[node] >= 2
    ensures !Distinct(IndicesOf(layer))
  {
    assert node in layer;
    var a :| 0 <= a < |layer| && layer[a] == node;
    var rest := layer[..a] + layer[a + 1..];
    assert layer == layer[..a] + [node] + layer[a + 1..];
    assert multiset(layer) == multiset(rest) + multiset{node};
    assert node in multiset(rest);
    var b :| 0 <= b < |rest| && rest[b] == node;
    var b' := if b < a then b else b + 1;
    assert layer[b'] == node && b' != a;
    assert IndicesOf(layer)[a] == IndicesOf(layer)[b'];
  }

  // Strictly ascending layers are determined by their elements.
  lemma {:induction false} AscendingUnique(a: Layer, b: Layer)
    requires Ascending(a) && Ascending(b)
    requires forall node :: node in a <==> node in b
    ensures a == b
  {
    IndexElements(a);
    IndexElements(b);
    forall x: nat ensures x in IndicesOf(a) <==> x in IndicesOf(b) {
      if HasIndex(a, x) {
        var i :| 0 <= i < |a| && a[i].index == x;
        assert a[i] in b;
      }
      if HasIndex(b, x) {
        var i :| 0 <= i < |b| && b[i].index == x;
        assert b[i] in a;
      }
    }
    SameElements(IndicesOf(a), IndicesOf(b));
    assert |a| == |IndicesOf(a)| == |IndicesOf(b)| == |b|;
    forall i | 0 <= i < |a| ensures a[i] == b[i] {
      assert a[i] in b;
      var j :| 0 <= j < |b| && b[j] == a[i];
      assert IndicesOf(a)[i] == IndicesOf(b)[i];
      assert IndicesOf(b)[j] == IndicesOf(a)[i];
      assert IndicesOf(b)[i] == IndicesOf(b)[j];
      assert i == j;
    }
  }
}
