// Index arithmetic of the Merkle tree library (rs-merkle/src/utils/indices.rs
// and rs-merkle/src/utils/collections.rs), for 64-bit `usize`.
module Indices {
  import opened Wrappers

  // ----- definitions shared by the code and its specification -----

  predicate IsLeftIndex(index: nat) { index % 2 == 0 }

  function SiblingIndex(index: nat): nat {
    if IsLeftIndex(index) then index + 1 else index - 1
  }

  function SiblingIndices(indices: seq<nat>): seq<nat> {
    seq(|indices|, i requires 0 <= i < |indices| => SiblingIndex(indices[i]))
  }

  function ParentIndex(index: nat): nat {
    if IsLeftIndex(index) then index / 2 else SiblingIndex(index) / 2
  }

  // `Vec::dedup` after mapping every index to its parent: only runs of equal
  // consecutive entries are merged.
  function ParentIndices(indices: seq<nat>): seq<nat> {
    if indices == [] then []
    else
      var rest := ParentIndices(indices[1..]);
      if rest != [] && rest[0] == ParentIndex(indices[0]) then rest
      else [ParentIndex(indices[0])] + rest
  }

  // The elements of a that do not occur in b, in the order of a.
  function Difference(a: seq<nat>, b: seq<nat>): seq<nat> {
    if a == [] then []
    else (if a[0] in b then [] else [a[0]]) + Difference(a[1..], b)
  }

  function DivCeil(x: nat, y: nat): nat
    requires y > 0
  {
    x / y + if x % y != 0 then 1 else 0
  }

  function Pow2(k: nat): nat {
    if k == 0 then 1 else 2 * Pow2(k - 1)
  }

  // The largest number of leaves the depth loop knows about: 2 to the 32.
  const MAX_LEAVES: nat := 0x1_0000_0000

  // The height `tree_depth` finds when its loop is at exponent i.
  function DepthFrom(leavesCount: nat, i: nat): nat
    decreases 33 - i
  {
    if i >= 33 then (if leavesCount == 1 then 1 else 0)
    else if leavesCount <= Pow2(i) then i
    else DepthFrom(leavesCount, i + 1)
  }

  function TreeDepth(leavesCount: nat): nat {
    DepthFrom(leavesCount, 1)
  }

  method ComputeTreeDepth(leavesCount: nat) returns (height: nat)
    ensures height == TreeDepth(leavesCount)
  {
    height := 0;
    if leavesCount == 1 {
      height := 1;
    }
    for i := 1 to 33
      invariant height == if leavesCount == 1 then 1 else 0
      invariant TreeDepth(leavesCount) == DepthFrom(leavesCount, i)
    {
      if leavesCount <= Pow2(i) {
        return i;
      }
    }
  }

  // The number of nodes `layer` levels above n leaves.
  function Width(n: nat, layer: nat): nat {
    if layer == 0 then n else DivCeil(Width(n, layer - 1), 2)
  }

  // ----- proof_indices_by_layers -----

  // The layers with an odd number of nodes, with that number.
  ghost function UnevenLayers(leavesCount: nat, depth: nat): map<nat, nat> {
    map k: nat | k < depth && Width(leavesCount, k) % 2 != 0 :: Width(leavesCount, k)
  }

  method ComputeUnevenLayers(treeLeavesCount: nat) returns (unevenLayers: map<nat, nat>)
    ensures unevenLayers == UnevenLayers(treeLeavesCount, TreeDepth(treeLeavesCount))
  {
    var leavesCount := treeLeavesCount;
    var depth := ComputeTreeDepth(treeLeavesCount);
    unevenLayers := map[];
    for index := 0 to depth
      invariant leavesCount == Width(treeLeavesCount, index)
      invariant unevenLayers == UnevenLayers(treeLeavesCount, index)
    {
      if leavesCount % 2 != 0 {
        unevenLayers := unevenLayers[index := leavesCount];
      }
      leavesCount := DivCeil(leavesCount, 2);
    }
  }

  // The siblings one layer asks for: the last one is dropped when the last
  // node of the layer is the lone node of an uneven layer. The subtraction
  // cannot wrap, an uneven width being at least one.
  function LayerProofIndices(layerNodes: seq<nat>, width: nat): seq<nat> {
    var siblings := SiblingIndices(layerNodes);
    var kept :=
      if width % 2 != 0 && layerNodes != [] && layerNodes[|layerNodes| - 1] == width - 1
      then siblings[..|siblings| - 1] else siblings;
    Difference(kept, layerNodes)
  }

  function ProofIndicesFrom(layerNodes: seq<nat>, leavesCount: nat, layer: nat, depth: nat): seq<seq<nat>>
    decreases depth - layer
  {
    if layer >= depth then []
    else [LayerProofIndices(layerNodes, Width(leavesCount, layer))]
         + ProofIndicesFrom(ParentIndices(layerNodes), leavesCount, layer + 1, depth)
  }

  function ProofIndicesByLayers(leafIndices: seq<nat>, leavesCount: nat): seq<seq<nat>> {
    ProofIndicesFrom(leafIndices, leavesCount, 0, TreeDepth(leavesCount))
  }

  method ComputeProofIndicesByLayers(sortedLeafIndices: seq<nat>, leavesCount: nat)
    returns (proofIndices: seq<seq<nat>>)
    ensures proofIndices == ProofIndicesByLayers(sortedLeafIndices, leavesCount)
  {
    hide ProofIndicesFrom, ParentIndices, LayerProofIndices;
    var depth := ComputeTreeDepth(leavesCount);
    var unevenLayers := ComputeUnevenLayers(leavesCount);
    var layerNodes := sortedLeafIndices;
    proofIndices := [];
    for layerIndex := 0 to depth
      invariant proofIndices + ProofIndicesFrom(layerNodes, leavesCount, layerIndex, depth)
             == ProofIndicesByLayers(sortedLeafIndices, leavesCount)
    {
      var siblings := SiblingIndices(layerNodes);
      if layerIndex in unevenLayers && layerNodes != []
         && layerNodes[|layerNodes| - 1] == unevenLayers[layerIndex] - 1 {
        siblings := siblings[..|siblings| - 1];
      }
      var layer := Difference(siblings, layerNodes);
      ProofIndicesUnfold(layerNodes, leavesCount, layerIndex, depth, siblings);
      proofIndices := proofIndices + [layer];
      layerNodes := ParentIndices(layerNodes);
    }
    ProofIndicesEnd(layerNodes, leavesCount, depth);
  }

  lemma ProofIndicesUnfold(layerNodes: seq<nat>, leavesCount: nat, layer: nat, depth: nat, siblings: seq<nat>)
    requires layer < depth
    requires var all := SiblingIndices(layerNodes);
      siblings == if Width(leavesCount, layer) % 2 != 0 && layerNodes != []
                     && layerNodes[|layerNodes| - 1] == Width(leavesCount, layer) - 1
                  then all[..|all| - 1] else all
    ensures ProofIndicesFrom(layerNodes, leavesCount, layer, depth)
         == [Difference(siblings, layerNodes)]
             + ProofIndicesFrom(ParentIndices(layerNodes), leavesCount, layer + 1, depth)
  {
  }

  lemma ProofIndicesEnd(layerNodes: seq<nat>, leavesCount: nat, depth: nat)
    ensures ProofIndicesFrom(layerNodes, leavesCount, depth, depth) == []
  {
  }

  // ----- facts about depths and widths -----

  lemma DepthFromUnfold(n: nat, i: nat)
    requires i <= 33
    ensures i < 33 && n > Pow2(i) ==> DepthFrom(n, i) == DepthFrom(n, i + 1)
    ensures i < 33 && n <= Pow2(i) ==> DepthFrom(n, i) == i
    ensures i == 33 ==> DepthFrom(n, i) == if n == 1 then 1 else 0
  {
  }

  lemma {:induction false} DepthFromBounds(n: nat, i: nat)
    requires 1 <= i <= 33
    requires i == 1 || n > Pow2(i - 1)
    ensures n <= Pow2(32) ==> i <= DepthFrom(n, i) <= 32 && n <= Pow2(DepthFrom(n, i))
    ensures n > Pow2(32) ==> DepthFrom(n, i) == 0
    ensures DepthFrom(n, i) > 1 ==> n > Pow2(DepthFrom(n, i) - 1)
    decreases 33 - i
  {
    hide *;
    Pow2Monotone(if i < 33 then i else 1, 32);
    Pow2Monotone(0, 32);
    DepthFromUnfold(n, i);
    if i < 33 && n > Pow2(i) {
      DepthFromBounds(n, i + 1);
    }
  }

  lemma {:induction false} Pow2Monotone(i: nat, j: nat)
    requires i <= j
    ensures 1 <= Pow2(i) <= Pow2(j)
    ensures 1 <= i ==> 2 <= Pow2(i)
    decreases j
  {
    if i < j {
      Pow2Monotone(i, j - 1);
    } else if i > 0 {
      Pow2Monotone(i - 1, j - 1);
    }
  }

  // The depth is the least positive exponent whose power of two covers the
  // leaves, as long as there are at most 2 to the 32 of them; above that the
  // loop falls through and the depth is 0.
  lemma TreeDepthIsLeast(n: nat)
    ensures Pow2(32) == MAX_LEAVES
    ensures n <= MAX_LEAVES ==> 1 <= TreeDepth(n) <= 32 && n <= Pow2(TreeDepth(n))
    ensures n <= MAX_LEAVES ==> forall d: nat :: 1 <= d < TreeDepth(n) ==> Pow2(d) < n
    ensures n > MAX_LEAVES ==> TreeDepth(n) == 0
  {
    Pow2Of32();
    DepthFromBounds(n, 1);
    forall d: nat | 1 <= d < TreeDepth(n)
      ensures Pow2(d) < n
    {
      Pow2Monotone(d, TreeDepth(n) - 1);
    }
  }

  lemma Pow2Of32()
    ensures Pow2(32) == MAX_LEAVES
  {
    assert Pow2(4) == 16;
    assert Pow2(8) == 256;
    assert Pow2(12) == 4096;
    assert Pow2(16) == 65536;
    assert Pow2(20) == 0x10_0000;
    assert Pow2(24) == 0x100_0000;
    assert Pow2(28) == 0x1000_0000;
  }

  lemma TreeDepthMonotone(n: nat, m: nat)
    requires n <= m <= MAX_LEAVES
    ensures TreeDepth(n) <= TreeDepth(m)
  {
    TreeDepthIsLeast(n);
    TreeDepthIsLeast(m);
    assert TreeDepth(m) < TreeDepth(n) ==> Pow2(TreeDepth(m)) < n;
  }

  lemma {:induction false} WidthBelow(n: nat, k: nat, m: nat)
    requires n <= Pow2(k) * m
    ensures Width(n, k) <= m
    decreases k
  {
    if k > 0 {
      assert Pow2(k - 1) * (2 * m) == Pow2(k) * m;
      WidthBelow(n, k - 1, 2 * m);
    }
  }

  lemma {:induction false} WidthPositive(n: nat, k: nat)
    requires n > 0
    ensures Width(n, k) > 0
  {
    if k > 0 {
      WidthPositive(n, k - 1);
    }
  }

  // At the depth of the tree one node is left: the root.
  lemma WidthAtDepth(n: nat)
    requires 0 < n <= MAX_LEAVES
    ensures Width(n, TreeDepth(n)) == 1
  {
    TreeDepthIsLeast(n);
    WidthBelow(n, TreeDepth(n), 1);
    WidthPositive(n, TreeDepth(n));
  }

  // ----- strictly increasing index lists -----

  ghost predicate Increasing(s: seq<nat>) {
    forall i, j :: 0 <= i < j < |s| ==> s[i] < s[j]
  }

  ghost predicate Below(s: seq<nat>, bound: nat) {
    forall i :: 0 <= i < |s| ==> s[i] < bound
  }

  lemma {:induction false} SameElements(a: seq<nat>, b: seq<nat>)
    requires Increasing(a) && Increasing(b)
    requires forall x :: x in a <==> x in b
    ensures a == b
  {
    assert |a| > 0 ==> a[0] in a;
    assert |b| > 0 ==> b[0] in b;
    if w :| w in a && w in b {
      assert a[0] in b;
      assert b[0] in a;
      assert a[0] == b[0];
      var a', b' := a[1..], b[1..];
      forall x ensures x in a' <==> x in b' {
        assert x in a' <==> x in a && x != a[0];
        assert x in b' <==> x in b && x != b[0];
      }
      SameElements(a', b');
    }
  }

  // There are at most `bound` indices below `bound`.
  lemma {:induction false} IncreasingIsShort(s: seq<nat>, bound: nat)
    requires Increasing(s) && Below(s, bound)
    ensures |s| <= bound
  {
    if s != [] {
      var n := |s| - 1;
      assert forall i :: 0 <= i < n ==> s[i] < s[n];
      assert s[n] < bound;
      IncreasingIsShort(s[..n], bound - 1);
    }
  }

  // Every child, within the layer, of the given parents.
  ghost function Children(parents: seq<nat>, width: nat): seq<nat> {
    if parents == [] then []
    else [2 * parents[0]] + (if 2 * parents[0] + 1 < width then [2 * parents[0] + 1] else [])
         + Children(parents[1..], width)
  }

  // A parent list one layer up from a layer of the given width.
  ghost predicate IsParentList(parents: seq<nat>, width: nat) {
    Increasing(parents) && Below(parents, DivCeil(width, 2))
  }

  lemma IncreasingTail(s: seq<nat>, bound: nat)
    requires s != [] && Increasing(s) && Below(s, bound)
    ensures Increasing(s[1..]) && Below(s[1..], bound)
    ensures forall x :: x in s[1..] ==> s[0] < x
    ensures forall x :: x in s <==> x == s[0] || x in s[1..]
  {
    assert s == [s[0]] + s[1..];
  }

  lemma {:induction false} ChildrenElements(parents: seq<nat>, width: nat)
    requires IsParentList(parents, width)
    ensures forall x: nat :: x in Children(parents, width) <==> x < width && x / 2 in parents
    ensures Increasing(Children(parents, width)) && Below(Children(parents, width), width)
  {
    if parents != [] {
      var p, ct := parents[0], Children(parents[1..], width);
      var first := [2 * p] + (if 2 * p + 1 < width then [2 * p + 1] else []);
      IncreasingTail(parents, DivCeil(width, 2));
      ChildrenElements(parents[1..], width);
      assert Children(parents, width) == first + ct;
      FirstChildren(p, width);
      hide Children;
      JoinChildren(first, ct, parents, width);
      hide Increasing, Below, IsParentList;
      IncreasingConcat(first, ct);
    }
  }

  lemma JoinChildren(first: seq<nat>, ct: seq<nat>, parents: seq<nat>, width: nat)
    requires parents != [] && Below(first, width) && Below(ct, width)
    requires forall x: nat :: x in first <==> x < width && x / 2 == parents[0]
    requires forall x: nat :: x in ct <==> x < width && x / 2 in parents[1..]
    requires forall x :: x in parents[1..] ==> parents[0] < x
    ensures forall x: nat :: x in first + ct <==> x < width && x / 2 in parents
    ensures forall x, y :: x in first && y in ct ==> x < y
    ensures Below(first + ct, width)
  {
    forall x: nat ensures x in first + ct <==> x < width && x / 2 in parents {
      assert x / 2 in parents <==> x / 2 == parents[0] || x / 2 in parents[1..] by {
        assert parents == [parents[0]] + parents[1..];
      }
    }
    forall x, y | x in first && y in ct ensures x < y {
      assert x / 2 == parents[0] < y / 2;
    }
  }

  lemma FirstChildren(p: nat, width: nat)
    requires p < DivCeil(width, 2)
    ensures var first := [2 * p] + (if 2 * p + 1 < width then [2 * p + 1] else []);
      Increasing(first) && Below(first, width) && forall x: nat :: x in first <==> x < width && x / 2 == p
  {
  }

  lemma IncreasingConcat(a: seq<nat>, b: seq<nat>)
    requires Increasing(a) && Increasing(b)
    requires forall x, y :: x in a && y in b ==> x < y
    ensures Increasing(a + b)
  {
    forall i, j | 0 <= i < j < |a + b| ensures (a + b)[i] < (a + b)[j] {
      if i < |a| <= j {
        assert (a + b)[i] in a && (a + b)[j] in b;
      }
    }
  }

  // Children sit in pairs; only the very last one can be alone.
  lemma {:induction false} ChildrenShape(parents: seq<nat>, width: nat, i: nat)
    requires IsParentList(parents, width) && i < |parents|
    ensures 2 * |parents| - 1 <= |Children(parents, width)| <= 2 * |parents|
    ensures Children(parents, width)[2 * i] == 2 * parents[i]
    ensures 2 * i + 1 < |Children(parents, width)| <==> 2 * parents[i] + 1 < width
    ensures 2 * i + 1 < |Children(parents, width)| ==> Children(parents, width)[2 * i + 1] == 2 * parents[i] + 1
  {
    IncreasingTail(parents, DivCeil(width, 2));
    var p, tail := parents[0], parents[1..];
    var c, ct := Children(parents, width), Children(tail, width);
    if tail == [] {
      assert ct == [];
    } else {
      assert p < tail[0] < DivCeil(width, 2);
      assert c == [2 * p, 2 * p + 1] + ct;
      if i == 0 {
        ChildrenShape(tail, width, 0);
      } else {
        ChildrenShape(tail, width, i - 1);
        assert c[2 * i] == ct[2 * (i - 1)];
      }
    }
  }

  // ParentIndices of an increasing list: increasing, and exactly the parents.
  lemma {:induction false} ParentIndicesOfIncreasing(s: seq<nat>, width: nat)
    requires Increasing(s) && Below(s, width)
    ensures IsParentList(ParentIndices(s), width)
    ensures forall p: nat :: p in ParentIndices(s) <==> exists x :: x in s && x / 2 == p
    ensures s != [] ==> ParentIndices(s) != [] && ParentIndices(s)[0] == s[0] / 2
  {
    var ps := ParentIndices(s);
    if s != [] {
      IncreasingTail(s, width);
      ParentIndicesOfIncreasing(s[1..], width);
      var rest := ParentIndices(s[1..]);
      assert ParentIndex(s[0]) == s[0] / 2;
      if rest != [] {
        assert s[1..][0] == s[1];
        assert s[0] / 2 <= rest[0];
      }
      if rest != [] && rest[0] == s[0] / 2 {
      } else {
        assert ps == [s[0] / 2] + rest;
        forall i, j | 0 <= i < j < |ps| ensures ps[i] < ps[j] {
          assert ps[j] == rest[j - 1];
          assert rest[0] <= rest[j - 1];
        }
      }
      forall p: nat ensures p in ps <==> exists x :: x in s && x / 2 == p {
        if p in ps {
          if p == s[0] / 2 {
            assert s[0] in s;
          } else {
            assert p in rest;
            var x :| x in s[1..] && x / 2 == p;
            assert x in s;
          }
        }
        if x :| x in s && x / 2 == p {
          if x in s[1..] { assert p in rest; } else { assert x == s[0]; }
        }
      }
    }
  }

  lemma ParentsOfChildren(parents: seq<nat>, width: nat)
    requires IsParentList(parents, width)
    ensures ParentIndices(Children(parents, width)) == parents
  {
    var c := Children(parents, width);
    ChildrenElements(parents, width);
    ParentIndicesOfIncreasing(c, width);
    var ps := ParentIndices(c);
    forall p: nat ensures p in ps <==> p in parents {
      if p in parents {
        assert (2 * p) / 2 == p && 2 * p in c;
      }
    }
    SameElements(ps, parents);
  }

  // ----- helper indices -----

  // The siblings a list of nodes lacks, within a layer.
  ghost function HelperIndices(nodes: seq<nat>, width: nat): seq<nat> {
    InLayer(Difference(SiblingIndices(nodes), nodes), width)
  }

  // What is left of an index list after looking every index up in a layer.
  ghost function InLayer(indices: seq<nat>, width: nat): seq<nat> {
    if indices == [] then []
    else (if indices[0] < width then [indices[0]] else []) + InLayer(indices[1..], width)
  }

  lemma {:induction false} DifferenceElements(a: seq<nat>, b: seq<nat>)
    ensures forall x :: x in Difference(a, b) <==> x in a && x !in b
  {
    if a != [] {
      DifferenceElements(a[1..], b);
      assert a == [a[0]] + a[1..];
    }
  }

  lemma {:induction false} InLayerElements(a: seq<nat>, width: nat)
    ensures forall x :: x in InLayer(a, width) <==> x in a && x < width
    ensures |InLayer(a, width)| <= |a|
  {
    if a != [] {
      InLayerElements(a[1..], width);
      assert a == [a[0]] + a[1..];
    }
  }

  ghost predicate Distinct(s: seq<nat>) {
    forall i, j :: 0 <= i < j < |s| ==> s[i] != s[j]
  }

  lemma DistinctConcat(a: seq<nat>, b: seq<nat>)
    requires Distinct(a) && Distinct(b)
    requires forall x :: !(x in a && x in b)
    ensures Distinct(a + b)
  {
    var c := a + b;
    forall i, j | 0 <= i < j < |c| ensures c[i] != c[j] {
      if i < |a| <= j {
        assert c[i] in a && c[j] in b;
      }
    }
  }

  lemma {:induction false} DifferenceDistinct(a: seq<nat>, b: seq<nat>)
    requires Distinct(a)
    ensures Distinct(Difference(a, b))
  {
    if a != [] {
      DifferenceDistinct(a[1..], b);
      DifferenceElements(a[1..], b);
      assert a[0] !in a[1..];
    }
  }

  lemma {:induction false} InLayerDistinct(a: seq<nat>, width: nat)
    requires Distinct(a)
    ensures Distinct(InLayer(a, width))
  {
    if a != [] {
      InLayerDistinct(a[1..], width);
      InLayerElements(a[1..], width);
      assert a[0] !in a[1..];
    }
  }

  lemma SiblingsDistinct(s: seq<nat>)
    requires Increasing(s)
    ensures Distinct(SiblingIndices(s))
    ensures forall x: nat :: x in SiblingIndices(s) <==> SiblingIndex(x) in s
  {
    var t := SiblingIndices(s);
    forall x: nat ensures SiblingIndex(SiblingIndex(x)) == x {
    }
    assert Distinct(t);
    forall x: nat ensures x in t <==> SiblingIndex(x) in s {
      hide SiblingIndex;
      if x in t {
        var i :| 0 <= i < |t| && t[i] == x;
        assert s[i] == SiblingIndex(x);
      }
      if SiblingIndex(x) in s {
        var i :| 0 <= i < |s| && s[i] == SiblingIndex(x);
        assert t[i] == x;
      }
    }
  }

  lemma HelperElements(nodes: seq<nat>, width: nat)
    requires Increasing(nodes)
    ensures forall x: nat :: x in HelperIndices(nodes, width) <==> SiblingIndex(x) in nodes && x !in nodes && x < width
    ensures Distinct(HelperIndices(nodes, width))
  {
    var s := SiblingIndices(nodes);
    SiblingsDistinct(nodes);
    DifferenceElements(s, nodes);
    DifferenceDistinct(s, nodes);
    InLayerElements(Difference(s, nodes), width);
    InLayerDistinct(Difference(s, nodes), width);
  }

  lemma {:induction false} InLayerAll(a: seq<nat>, width: nat)
    requires Below(a, width)
    ensures InLayer(a, width) == a
  {
    if a != [] {
      InLayerAll(a[1..], width);
    }
  }

  lemma DifferenceUnfold(x: nat, a: seq<nat>, b: seq<nat>)
    ensures Difference([x] + a, b) == (if x in b then [] else [x]) + Difference(a, b)
  {
    assert ([x] + a)[1..] == a;
  }

  lemma DifferenceOfNothing(b: seq<nat>)
    ensures Difference([], b) == []
  {
  }

  lemma {:induction false} DifferenceConcat(a: seq<nat>, a': seq<nat>, b: seq<nat>)
    ensures Difference(a + a', b) == Difference(a, b) + Difference(a', b)
  {
    hide Difference;
    if a == [] {
      assert a + a' == a';
      DifferenceOfNothing(b);
    } else {
      var x, tail := a[0], a[1..];
      DifferenceConcat(tail, a', b);
      DifferenceUnfold(x, tail, b);
      DifferenceUnfold(x, tail + a', b);
      assert [x] + tail == a && [x] + (tail + a') == a + a';
    }
  }

  lemma InLayerUnfold(x: nat, a: seq<nat>, width: nat)
    ensures InLayer([x] + a, width) == (if x < width then [x] else []) + InLayer(a, width)
  {
    assert ([x] + a)[1..] == a;
  }

  lemma InLayerOfNothing(width: nat)
    ensures InLayer([], width) == []
  {
  }

  lemma {:induction false} InLayerConcat(a: seq<nat>, a': seq<nat>, width: nat)
    ensures InLayer(a + a', width) == InLayer(a, width) + InLayer(a', width)
  {
    hide InLayer;
    if a == [] {
      assert a + a' == a';
      InLayerOfNothing(width);
    } else {
      var x, tail := a[0], a[1..];
      InLayerConcat(tail, a', width);
      InLayerUnfold(x, tail, width);
      InLayerUnfold(x, tail + a', width);
      assert [x] + tail == a && [x] + (tail + a') == a + a';
    }
  }

  // Siblings of nodes below the last possible one stay inside the layer.
  lemma SiblingsInside(nodes: seq<nat>, width: nat)
    requires Increasing(nodes) && Below(nodes, width)
    requires width % 2 == 0 || Below(nodes, width - 1)
    ensures InLayer(Difference(SiblingIndices(nodes), nodes), width) == Difference(SiblingIndices(nodes), nodes)
  {
    hide Difference, InLayer;
    var s := SiblingIndices(nodes);
    var d := Difference(s, nodes);
    DifferenceElements(s, nodes);
    forall i | 0 <= i < |d| ensures d[i] < width {
      assert d[i] in s;
    }
    InLayerAll(d, width);
  }

  // Dropping the sibling of a lone last node, which lies outside the layer.
  lemma LoneLastNode(nodes: seq<nat>, width: nat)
    requires Increasing(nodes) && Below(nodes, width)
    requires width % 2 == 1 && nodes != [] && nodes[|nodes| - 1] == width - 1
    ensures var s := SiblingIndices(nodes);
      InLayer(Difference(s, nodes), width) == Difference(s[..|s| - 1], nodes)
  {
    hide Difference, InLayer;
    var s, n := SiblingIndices(nodes), |nodes|;
    var kept := s[..n - 1];
    var d := Difference(kept, nodes);
    assert s == kept + [width];
    assert width !in nodes;
    DifferenceConcat(kept, [width], nodes);
    DifferenceUnfold(width, [], nodes);
    DifferenceOfNothing(nodes);
    InLayerOfNothing(width);
    InLayerConcat(d, [width], width);
    InLayerUnfold(width, [], width);
    assert [width] + [] == [width];
    assert InLayer([width], width) == [] && Difference([width], nodes) == [width];
    DifferenceElements(kept, nodes);
    forall i | 0 <= i < |d| ensures d[i] < width {
      assert d[i] in kept;
      var j :| 0 <= j < n - 1 && kept[j] == d[i];
      assert nodes[j] < nodes[n - 1];
    }
    InLayerAll(d, width);
  }

  // The verifier's way of finding the helpers (dropping the last sibling of an
  // uneven layer) and the prover's way (looking the sibling up in the layer)
  // ask for the same nodes in the same order.
  lemma ProofIndicesAreHelpers(nodes: seq<nat>, width: nat)
    requires Increasing(nodes) && Below(nodes, width)
    ensures LayerProofIndices(nodes, width) == HelperIndices(nodes, width)
  {
    hide InLayer, Difference;
    if width % 2 != 0 && nodes != [] && nodes[|nodes| - 1] == width - 1 {
      LoneLastNode(nodes, width);
    } else {
      var n := |nodes|;
      assert width % 2 != 0 ==> forall i :: 0 <= i < n ==> nodes[i] <= nodes[n - 1] < width - 1;
      SiblingsInside(nodes, width);
    }
  }

  // Nodes and helpers together are exactly all children of the nodes' parents.
  lemma NodesAndHelpers(nodes: seq<nat>, width: nat)
    requires Increasing(nodes) && Below(nodes, width)
    ensures forall x: nat :: x in Children(ParentIndices(nodes), width) <==>
        x in nodes || x in HelperIndices(nodes, width)
    ensures forall x: nat :: !(x in nodes && x in HelperIndices(nodes, width))
  {
    var ps := ParentIndices(nodes);
    ParentIndicesOfIncreasing(nodes, width);
    ChildrenElements(ps, width);
    HelperElements(nodes, width);
    hide Children, HelperIndices, ParentIndices, Increasing, SiblingIndex;
    forall x: nat
      ensures x in Children(ps, width) <==> x in nodes || x in HelperIndices(nodes, width)
    {
      HasParent(nodes, ps, x);
    }
  }

  // The parent of an index is there exactly if the index or its sibling is.
  lemma HasParent(nodes: seq<nat>, parents: seq<nat>, x: nat)
    requires forall p: nat :: p in parents <==> exists y :: y in nodes && y / 2 == p
    ensures x / 2 in parents <==> x in nodes || SiblingIndex(x) in nodes
  {
    assert SiblingIndex(x) / 2 == x / 2;
    if x / 2 in parents {
      var y :| y in nodes && y / 2 == x / 2;
      assert y == x || y == SiblingIndex(x);
    }
  }
}
