// Diffs and their effect (rs-merkle/src/merkle_tree.rs): what a commit computes
// as a function of the layers, and the proof that merging a diff into the full
// tree over the old leaves gives the full tree over all leaves.
module Commits {
  import opened Wrappers
  import opened Hashing
  import opened Indices
  import opened Layers
  import opened PartialTrees
  import opened CanonicalTree
  import opened Rebuild

  // ----- helper_node_tuples -----

  // `if let Some(tuple) = tree_layer.get(index)` for each index in turn.
  function LookupAll(layer: Layer, indices: seq<nat>): Layer {
    if indices == [] then []
    else (if indices[0] < |layer| then [layer[indices[0]]] else []) + LookupAll(layer, indices[1..])
  }

  function HelperNodeTuples(layers: seq<Layer>, leafIndices: seq<nat>): seq<Layer> {
    if layers == [] then []
    else [LookupAll(layers[0], Difference(SiblingIndices(leafIndices), leafIndices))]
         + HelperNodeTuples(layers[1..], ParentIndices(leafIndices))
  }

  // The inner loop of helper_node_tuples.
  method ComputeLookup(layer: Layer, indices: seq<nat>) returns (helpersLayer: Layer)
    ensures helpersLayer == LookupAll(layer, indices)
  {
    helpersLayer := [];
    for i := 0 to |indices|
      invariant helpersLayer == LookupAll(layer, indices[..i])
    {
      LookupPush(layer, indices[..i], indices[i]);
      assert indices[..i + 1] == indices[..i] + [indices[i]];
      if indices[i] < |layer| {
        helpersLayer := helpersLayer + [layer[indices[i]]];
      }
    }
    assert indices[..|indices|] == indices;
  }

  lemma {:induction false} LookupPush(layer: Layer, indices: seq<nat>, index: nat)
    ensures LookupAll(layer, indices + [index])
         == if index < |layer| then LookupAll(layer, indices) + [layer[index]] else LookupAll(layer, indices)
  {
    if indices == [] {
      assert ([] + [index])[1..] == [];
    } else {
      LookupPush(layer, indices[1..], index);
      assert (indices + [index])[1..] == indices[1..] + [index];
    }
  }

  method ComputeHelperNodeTuples(layers: seq<Layer>, leafIndices: seq<nat>) returns (helperNodes: seq<Layer>)
    ensures helperNodes == HelperNodeTuples(layers, leafIndices)
  {
    hide HelperNodeTuples, LookupAll, ParentIndices, Difference;
    var currentLayerIndices := leafIndices;
    helperNodes := [];
    for k := 0 to |layers|
      invariant helperNodes + HelperNodeTuples(layers[k..], currentLayerIndices)
          == HelperNodeTuples(layers, leafIndices)
    {
      var siblings := SiblingIndices(currentLayerIndices);
      var helperIndices := Difference(siblings, currentLayerIndices);
      var helpersLayer := ComputeLookup(layers[k], helperIndices);
      TuplesUnfold(layers[k..], currentLayerIndices);
      assert layers[k..][1..] == layers[k + 1..];
      helperNodes := helperNodes + [helpersLayer];
      currentLayerIndices := ParentIndices(currentLayerIndices);
    }
    TuplesUnfold(layers[|layers|..], currentLayerIndices);
  }

  lemma TuplesUnfold(layers: seq<Layer>, known: seq<nat>)
    ensures HelperNodeTuples(layers, known) == if layers == [] then []
            else [LookupAll(layers[0], Difference(SiblingIndices(known), known))]
                 + HelperNodeTuples(layers[1..], ParentIndices(known))
  {
  }

  // ----- uncommitted_diff -----

  function LeavesLen(layers: seq<Layer>): nat {
    if layers == [] then 0 else |layers[0]|
  }

  // The consecutive indices from a up to but not including b.
  function Range(a: nat, b: nat): seq<nat> {
    seq(if a <= b then b - a else 0, i requires 0 <= i => a + i)
  }

  function ShadowTuples(start: nat, leaves: seq<Digest>): Layer {
    seq(|leaves|, i requires 0 <= i < |leaves| => Node(start + i, leaves[i]))
  }

  // The new leaves join the first helper layer, which is sorted afterwards.
  function WithFirstLayer(layers: seq<Layer>, leaves: Layer): seq<Layer> {
    if layers == [] then [leaves]
    else [SortByIndex(layers[0] + leaves)] + layers[1..]
  }

  function UncommittedDiff(h: Hasher, layers: seq<Layer>, uncommitted: seq<Digest>): Option<seq<Layer>> {
    if uncommitted == [] then None
    else
      var count := LeavesLen(layers);
      var helpers := HelperNodeTuples(layers, Range(count, count + |uncommitted|));
      var partialLayers := WithFirstLayer(helpers, ShadowTuples(count, uncommitted));
      match BuildLayers(h, [], partialLayers, TreeDepth(count + |uncommitted|))
      case Ok(diff) => Some(diff)
      case Err(_) => None
  }

  // ----- consecutive known nodes -----

  lemma RangeElements(a: nat, b: nat)
    ensures Increasing(Range(a, b)) && Below(Range(a, b), b)
    ensures forall x: nat :: x in Range(a, b) <==> a <= x < b
  {
    forall x: nat ensures x in Range(a, b) <==> a <= x < b {
      if a <= x < b {
        assert Range(a, b)[x - a] == x;
      }
    }
  }

  lemma ParentsOfRange(a: nat, b: nat)
    requires a < b
    ensures ParentIndices(Range(a, b)) == Range(a / 2, DivCeil(b, 2))
  {
    var s, t := Range(a, b), Range(a / 2, DivCeil(b, 2));
    RangeElements(a, b);
    RangeElements(a / 2, DivCeil(b, 2));
    ParentIndicesOfIncreasing(s, b);
    forall p: nat ensures p in ParentIndices(s) <==> p in t {
      if p in t {
        var x := if 2 * p < a then 2 * p + 1 else 2 * p;
        assert x in s && x / 2 == p;
      }
    }
    SameElements(ParentIndices(s), t);
  }

  lemma AtMostOne(s: seq<nat>, x: nat)
    requires Distinct(s)
    requires forall y :: y in s ==> y == x
    ensures s == if x in s then [x] else []
  {
    if x in s {
      var i :| 0 <= i < |s| && s[i] == x;
      assert forall j :: 0 <= j < |s| && j != i ==> s[j] != s[i] && s[j] in s;
      assert s == s[..i] + [x] + s[i + 1..];
      assert multiset(s[..i]) == multiset{} == multiset(s[i + 1..]);
      assert |s[..i]| == |multiset(s[..i])| && |s[i + 1..]| == |multiset(s[i + 1..])|;
    } else {
      forall y: nat ensures multiset(s)[y] == 0 {
        assert y !in s;
      }
      assert multiset(s) == multiset{};
      assert |s| == |multiset(s)|;
    }
  }

  // Consecutive nodes up to the end of their layer lack at most the left
  // sibling of the first one.
  lemma HelpersOfRange(a: nat, b: nat, width: nat)
    requires a < b && a <= width <= b
    ensures HelperIndices(Range(a, b), width) == if a % 2 == 1 then [a - 1] else []
  {
    var s := Range(a, b);
    RangeElements(a, b);
    HelperElements(s, width);
    var helpers := HelperIndices(s, width);
    forall x: nat ensures x in helpers <==> a % 2 == 1 && x == a - 1 {
    }
    AtMostOne(helpers, if a % 2 == 1 then a - 1 else 0);
  }

  lemma {:induction false} LookupIsPick(nodes: seq<Digest>, indices: seq<nat>)
    ensures Below(InLayer(indices, |nodes|), |nodes|)
    ensures LookupAll(Indexed(nodes), indices) == Pick(nodes, InLayer(indices, |nodes|))
  {
    if indices != [] {
      LookupIsPick(nodes, indices[1..]);
    }
  }

  // ----- the old tree supplies the helpers of the new one -----

  // The first `count` layers above the given nodes.
  function LayersAbove(h: Hasher, nodes: seq<Digest>, count: nat): seq<Layer> {
    seq(count, k requires 0 <= k => Indexed(NodesAbove(h, nodes, k)))
  }

  lemma LayersAboveTail(h: Hasher, nodes: seq<Digest>, count: nat)
    requires count > 0
    ensures |LayersAbove(h, nodes, count)| == count
    ensures LayersAbove(h, nodes, count)[0] == Indexed(nodes)
    ensures LayersAbove(h, nodes, count)[1..] == LayersAbove(h, ParentLayer(h, nodes), count - 1)
  {
  }

  // `past` is a layer of the old tree, `now` the same layer of the new tree,
  // and its first `a` nodes lie entirely over old leaves.
  ghost predicate Grows(past: seq<Digest>, now: seq<Digest>, a: nat) {
    a <= |past| <= |now| && a < |now| && past[..a] == now[..a]
  }

  function Halved(a: nat, k: nat): nat
    decreases k
  {
    if k == 0 then a else Halved(a / 2, k - 1)
  }

  lemma GrowsUp(h: Hasher, past: seq<Digest>, now: seq<Digest>, a: nat)
    requires Grows(past, now, a)
    ensures Grows(ParentLayer(h, past), ParentLayer(h, now), a / 2)
    ensures |ParentLayer(h, now)| == DivCeil(|now|, 2) && a / 2 < |ParentLayer(h, now)|
  {
    var p, q := ParentLayer(h, past), ParentLayer(h, now);
    forall j | 0 <= j < a / 2 ensures p[j] == q[j] {
      assert past[2 * j] == past[..a][2 * j] == now[2 * j];
      assert past[2 * j + 1] == past[..a][2 * j + 1] == now[2 * j + 1];
    }
    assert p[..a / 2] == q[..a / 2];
  }

  // The helper layer looked up in the old layer is what the new nodes lack.
  lemma OldHelpers(h: Hasher, past: seq<Digest>, now: seq<Digest>, a: nat)
    requires Grows(past, now, a)
    ensures var known := Range(a, |now|);
      var helpers := LookupAll(Indexed(past), Difference(SiblingIndices(known), known));
      IndicesOf(helpers) == HelperIndices(known, |now|) && Agrees(helpers, now)
  {
    var known := Range(a, |now|);
    var wanted := Difference(SiblingIndices(known), known);
    LookupIsPick(past, wanted);
    HelpersOfRange(a, |now|, |past|);
    HelpersOfRange(a, |now|, |now|);
    var helpers := LookupAll(Indexed(past), wanted);
    PickedAgrees(past, InLayer(wanted, |past|));
    assert IndicesOf(helpers) == HelperIndices(known, |past|);
    if a % 2 == 1 {
      assert helpers == [Node(a - 1, past[a - 1])];
      assert past[a - 1] == past[..a][a - 1] == now[a - 1];
    }
  }

  // A whole layer has no siblings outside itself.
  lemma {:induction false} WholeLayersNeedNoHelpers(h: Hasher, now: seq<Digest>, rounds: nat)
    requires now != []
    ensures HelpersSuffice(h, [], now, Range(0, |now|), rounds)
    decreases rounds
  {
    if rounds > 0 {
      HelpersOfRange(0, |now|, |now|);
      ParentsOfRange(0, |now|);
      WholeLayersNeedNoHelpers(h, ParentLayer(h, now), rounds - 1);
    }
  }

  lemma SufficeFromParts(h: Hasher, helpers: seq<Layer>, nodes: seq<Digest>, known: seq<nat>, rounds: nat)
    requires rounds > 0
    requires IndicesOf(FirstLayer(helpers)) == HelperIndices(known, |nodes|)
    requires Agrees(FirstLayer(helpers), nodes)
    requires HelpersSuffice(h, RestOfLayers(helpers), ParentLayer(h, nodes), ParentIndices(known), rounds - 1)
    ensures HelpersSuffice(h, helpers, nodes, known, rounds)
  {
  }

  lemma NoHelperTuples(h: Hasher, past: seq<Digest>, known: seq<nat>)
    ensures HelperNodeTuples(LayersAbove(h, past, 0), known) == []
  {
  }

  lemma NoRounds(h: Hasher, helpers: seq<Layer>, nodes: seq<Digest>, known: seq<nat>)
    ensures HelpersSuffice(h, helpers, nodes, known, 0)
  {
  }

  lemma HalvedOnce(a: nat, k: nat)
    requires k > 0
    ensures Halved(a, k) == Halved(a / 2, k - 1)
    ensures Halved(a, 0) == a
  {
  }

  lemma {:induction false} HelpersFromOldTree(h: Hasher, past: seq<Digest>, count: nat, now: seq<Digest>, a: nat,
                                              rounds: nat)
    requires Grows(past, now, a)
    requires a < |now|
    requires Halved(a, count) == 0
    ensures HelpersSuffice(h, HelperNodeTuples(LayersAbove(h, past, count), Range(a, |now|)), now, Range(a, |now|),
        rounds)
    decreases rounds
  {
    hide *;
    var known, layers := Range(a, |now|), LayersAbove(h, past, count);
    if rounds == 0 {
      NoRounds(h, HelperNodeTuples(layers, known), now, known);
    } else if count == 0 {
      HalvedOnce(a, 1);
      WholeLayersNeedNoHelpers(h, now, rounds);
      NoHelperTuples(h, past, known);
    } else {
      var pastUp, nowUp := ParentLayer(h, past), ParentLayer(h, now);
      ParentsOfRange(a, |now|);
      GrowsUp(h, past, now, a);
      HalvedOnce(a, count);
      LayersAboveTail(h, past, count);
      OldHelpers(h, past, now, a);
      HelperTuplesUnfold(layers, known);
      HelpersFromOldTree(h, pastUp, count - 1, nowUp, a / 2, rounds - 1);
      SufficeFromParts(h, HelperNodeTuples(layers, known), now, known, rounds);
    }
  }

  lemma HelperTuplesUnfold(layers: seq<Layer>, known: seq<nat>)
    requires layers != []
    ensures FirstLayer(HelperNodeTuples(layers, known))
        == LookupAll(layers[0], Difference(SiblingIndices(known), known))
    ensures RestOfLayers(HelperNodeTuples(layers, known)) == HelperNodeTuples(layers[1..], ParentIndices(known))
  {
  }

  lemma {:induction false} HalvedAway(a: nat, k: nat)
    requires a <= Pow2(k)
    ensures Halved(a, k + 1) == 0
    decreases k
  {
    if k > 0 {
      HalvedAway(a / 2, k - 1);
    }
  }

  // ----- the diff -----

  // The new leaves together with their helpers are ready for the first round.
  lemma FirstLayerIsReady(h: Hasher, past: seq<Digest>, leaves: seq<Digest>)
    requires leaves != []
    ensures Ready(BottomLayer(past, leaves), Range(|past|, |past| + |leaves|), |past + leaves|)
    ensures Agrees(BottomLayer(past, leaves), past + leaves)
  {
    hide LookupAll, Difference, HelperIndices;
    var all, known := past + leaves, Range(|past|, |past| + |leaves|);
    var shadow := ShadowTuples(|past|, leaves);
    var helpers := LookupAll(Indexed(past), Difference(SiblingIndices(known), known));
    GrowsByAppending(past, leaves);
    OldHelpers(h, past, all, |past|);
    RangeElements(|past|, |all|);
    assert IndicesOf(shadow) == known;
    assert Agrees(shadow, all);
    AgreesConcat(helpers, shadow, all);
    HelperElements(known, |all|);
    IndicesConcat(helpers, shadow);
    DistinctConcat(HelperIndices(known, |all|), known);
  }

  // The layers handed to build_tree: new leaves and helpers at the bottom,
  // helpers from the old tree above.
  ghost predicate DiffInput(h: Hasher, partialLayers: seq<Layer>, all: seq<Digest>, start: nat, depth: nat)
    requires depth > 0
  {
    && Ready([] + FirstLayer(partialLayers), Range(start, |all|), |all|)
    && Agrees([] + FirstLayer(partialLayers), all)
    && HelpersSuffice(h, RestOfLayers(partialLayers), ParentLayer(h, all), ParentIndices(Range(start, |all|)),
        depth - 1)
  }

  lemma DiffInputFromParts(h: Hasher, partialLayers: seq<Layer>, first: Layer, rest: seq<Layer>, all: seq<Digest>,
                           start: nat, depth: nat)
    requires depth > 0 && partialLayers == [first] + rest
    requires Ready(first, Range(start, |all|), |all|) && Agrees(first, all)
    requires HelpersSuffice(h, rest, ParentLayer(h, all), ParentIndices(Range(start, |all|)), depth - 1)
    ensures DiffInput(h, partialLayers, all, start, depth)
  {
    assert FirstLayer(partialLayers) == first && RestOfLayers(partialLayers) == rest;
    assert [] + first == first;
  }

  // The bottom layer of a diff, before sorting.
  function BottomLayer(past: seq<Digest>, leaves: seq<Digest>): Layer {
    var known := Range(|past|, |past| + |leaves|);
    LookupAll(Indexed(past), Difference(SiblingIndices(known), known)) + ShadowTuples(|past|, leaves)
  }

  lemma {:induction false} LookupInNothing(indices: seq<nat>)
    ensures LookupAll(Indexed([]), indices) == []
  {
    if indices != [] {
      LookupInNothing(indices[1..]);
    }
  }

  lemma BottomFromScratch(leaves: seq<Digest>)
    ensures BottomLayer([], leaves) == ShadowTuples(0, leaves)
    ensures WithFirstLayer([], ShadowTuples(0, leaves)) == [BottomLayer([], leaves)] + []
  {
    LookupInNothing(Difference(SiblingIndices(Range(0, |leaves|)), Range(0, |leaves|)));
    assert [] + ShadowTuples(0, leaves) == ShadowTuples(0, leaves);
  }

  lemma DiffInputFromScratch(h: Hasher, leaves: seq<Digest>, depth: nat)
    requires leaves != [] && depth > 0
    ensures DiffInput(h, WithFirstLayer([], ShadowTuples(0, leaves)), leaves, 0, depth)
  {
    hide *;
    var known := Range(0, |leaves|);
    FirstLayerIsReady(h, [], leaves);
    BottomFromScratch(leaves);
    assert [] + leaves == leaves;
    ParentsOfRange(0, |leaves|);
    GrowsByAppending([], leaves);
    GrowsUp(h, [], leaves, 0);
    WholeLayersNeedNoHelpers(h, ParentLayer(h, leaves), depth - 1);
    DiffInputFromParts(h, WithFirstLayer([], ShadowTuples(0, leaves)), BottomLayer([], leaves), [], leaves, 0, depth);
  }

  lemma WithFirstLayerUnfold(h: Hasher, past: seq<Digest>, leaves: seq<Digest>, count: nat)
    requires count > 0
    ensures var known, layers := Range(|past|, |past| + |leaves|), LayersAbove(h, past, count);
      WithFirstLayer(HelperNodeTuples(layers, known), ShadowTuples(|past|, leaves))
      == [SortByIndex(BottomLayer(past, leaves))] + HelperNodeTuples(layers[1..], ParentIndices(known))
  {
    LayersAboveTail(h, past, count);
  }

  lemma GrowsByAppending(past: seq<Digest>, leaves: seq<Digest>)
    requires leaves != []
    ensures Grows(past, past + leaves, |past|)
  {
  }

  lemma DiffInputFromTree(h: Hasher, past: seq<Digest>, leaves: seq<Digest>, count: nat, depth: nat)
    requires leaves != [] && depth > 0 && count > 0
    requires Halved(|past|, count) == 0
    ensures var known := Range(|past|, |past| + |leaves|);
      DiffInput(h, WithFirstLayer(HelperNodeTuples(LayersAbove(h, past, count), known), ShadowTuples(|past|, leaves)),
                past + leaves, |past|, depth)
  {
    hide *;
    var all, known := past + leaves, Range(|past|, |past| + |leaves|);
    var layers := LayersAbove(h, past, count);
    var pastUp, allUp := ParentLayer(h, past), ParentLayer(h, all);
    LayersAboveTail(h, past, count);
    FirstLayerIsReady(h, past, leaves);
    SortedIsReady(BottomLayer(past, leaves), known, all);
    WithFirstLayerUnfold(h, past, leaves, count);
    ParentsOfRange(|past|, |all|);
    GrowsByAppending(past, leaves);
    GrowsUp(h, past, all, |past|);
    HalvedOnce(|past|, count);
    HelpersFromOldTree(h, pastUp, count - 1, allUp, |past| / 2, depth - 1);
    DiffInputFromParts(h, WithFirstLayer(HelperNodeTuples(layers, known), ShadowTuples(|past|, leaves)),
                       SortByIndex(BottomLayer(past, leaves)), HelperNodeTuples(layers[1..], ParentIndices(known)),
                       all, |past|, depth);
  }

  lemma FullTreeLayers(h: Hasher, leaves: seq<Digest>) returns (count: nat)
    requires |leaves| <= MAX_LEAVES
    ensures FullTree(h, leaves) == LayersAbove(h, leaves, count)
    ensures Halved(|leaves|, count) == 0
    ensures count == |FullTree(h, leaves)| == if leaves == [] then 0 else TreeDepth(|leaves|) + 1
    ensures LeavesLen(FullTree(h, leaves)) == |leaves|
  {
    count := |FullTree(h, leaves)|;
    TreeDepthIsLeast(|leaves|);
    if leaves != [] {
      HalvedAway(|leaves|, count - 1);
    }
  }

  // The diff of new leaves over a full tree: the build never fails, and yields
  // the part of the new full tree that the new leaves determine.
  lemma DiffIsKnownPart(h: Hasher, past: seq<Digest>, leaves: seq<Digest>)
    requires leaves != [] && |past| + |leaves| <= MAX_LEAVES
    ensures Increasing(Range(|past|, |past| + |leaves|)) && Below(Range(|past|, |past| + |leaves|), |past + leaves|)
    ensures UncommittedDiff(h, FullTree(h, past), leaves)
         == Some(KnownPart(h, past + leaves, Range(|past|, |past| + |leaves|), TreeDepth(|past| + |leaves|)))
  {
    hide *;
    var all, known, depth := past + leaves, Range(|past|, |past| + |leaves|), TreeDepth(|past| + |leaves|);
    var partialLayers := WithFirstLayer(HelperNodeTuples(FullTree(h, past), known), ShadowTuples(|past|, leaves));
    var count := FullTreeLayers(h, past);
    assert DiffInput(h, partialLayers, all, |past|, depth) && Increasing(known) && Below(known, |all|) && depth > 0 by {
      RangeElements(|past|, |all|);
      TreeDepthIsLeast(|all|);
      if past == [] {
        NoLayers(h, known);
        assert all == leaves;
        DiffInputFromScratch(h, leaves, depth);
      } else {
        DiffInputFromTree(h, past, leaves, count, depth);
      }
    }
    BuildFromDiffInput(h, partialLayers, all, |past|, depth);
    DiffUnfold(h, FullTree(h, past), leaves, KnownPart(h, all, known, depth));
  }

  lemma DiffUnfold(h: Hasher, layers: seq<Layer>, leaves: seq<Digest>, diff: seq<Layer>)
    requires leaves != []
    requires var count := LeavesLen(layers);
      BuildLayers(h, [],
          WithFirstLayer(HelperNodeTuples(layers, Range(count, count + |leaves|)), ShadowTuples(count, leaves)),
                  TreeDepth(count + |leaves|)) == Ok(diff)
    ensures UncommittedDiff(h, layers, leaves) == Some(diff)
  {
  }

  lemma NoLayers(h: Hasher, known: seq<nat>)
    ensures HelperNodeTuples(FullTree(h, []), known) == []
  {
  }

  lemma BuildFromDiffInput(h: Hasher, partialLayers: seq<Layer>, all: seq<Digest>, start: nat, depth: nat)
    requires Increasing(Range(start, |all|)) && Below(Range(start, |all|), |all|) && depth > 0
    requires DiffInput(h, partialLayers, all, start, depth)
    ensures BuildLayers(h, [], partialLayers, depth) == Ok(KnownPart(h, all, Range(start, |all|), depth))
  {
    BuildIsKnownPart(h, [], partialLayers, all, Range(start, |all|), depth);
  }

  // ----- merging the diff -----

  lemma IndexedAscending(nodes: seq<Digest>)
    ensures Ascending(Indexed(nodes)) && Agrees(Indexed(nodes), nodes)
    ensures forall j: nat :: j < |nodes| ==> Node(j, nodes[j]) in Indexed(nodes)
  {
    forall j: nat | j < |nodes| ensures Node(j, nodes[j]) in Indexed(nodes) {
      assert Indexed(nodes)[j] == Node(j, nodes[j]);
    }
  }

  // One layer: unchanged old nodes and the nodes of the diff make up the layer
  // of the new tree.
  lemma MergeOneLayer(past: seq<Digest>, now: seq<Digest>, a: nat, indices: seq<nat>)
    requires a <= |past| <= |now| && past[..a] == now[..a]
    requires Increasing(indices) && Below(indices, |now|)
    requires forall j: nat :: a <= j < |now| ==> j in indices
    ensures MergedLayer(Indexed(past), Pick(now, indices)) == Indexed(now)
  {
    var mine, other, full := Indexed(past), Pick(now, indices), Indexed(now);
    var merged := MergedLayer(mine, other);
    PickedAgrees(now, indices);
    IndexedAscending(past);
    IndexedAscending(now);
    MergedElements(mine, other);
    IndexElements(other);
    forall node ensures node in merged <==> node in full {
      if node in merged {
        if node !in other {
          assert node in mine && node.index !in indices;
          assert node.index < a;
          assert past[node.index] == past[..a][node.index] == now[node.index];
        }
        assert node == Node(node.index, now[node.index]);
      }
      if node in full {
        var j := node.index;
        if j in indices {
          var i :| 0 <= i < |indices| && indices[i] == j;
          assert other[i] == node;
        } else {
          assert past[j] == past[..a][j] == now[j];
          assert mine[j] == node;
        }
      }
    }
    AscendingUnique(merged, full);
  }

  lemma {:induction false} KnownPartTop(h: Hasher, nodes: seq<Digest>, known: seq<nat>, rounds: nat)
    requires Increasing(known) && Below(known, |nodes|)
    ensures |KnownPart(h, nodes, known, rounds)| == rounds + 1
    ensures Below(KnownAbove(known, rounds), |NodesAbove(h, nodes, rounds)|)
    ensures KnownPart(h, nodes, known, rounds)[rounds] == Pick(NodesAbove(h, nodes, rounds), KnownAbove(known, rounds))
    decreases rounds
  {
    if rounds > 0 {
      ParentIndicesOfIncreasing(known, |nodes|);
      KnownPartTop(h, ParentLayer(h, nodes), ParentIndices(known), rounds - 1);
    }
  }

  // The bottom layer of a known part holds the known nodes and maybe siblings.
  lemma KnownPartBottom(h: Hasher, now: seq<Digest>, known: seq<nat>, rounds: nat) returns (indices: seq<nat>)
    requires Increasing(known) && Below(known, |now|)
    ensures Increasing(indices) && Below(indices, |now|)
    ensures forall j :: j in known ==> j in indices
    ensures KnownPart(h, now, known, rounds) != [] && KnownPart(h, now, known, rounds)[0] == Pick(now, indices)
  {
    indices := if rounds == 0 then known else Children(ParentIndices(known), |now|);
    ParentIndicesOfIncreasing(known, |now|);
    ChildrenElements(ParentIndices(known), |now|);
    NodesAndHelpers(known, |now|);
  }

  lemma MergeBottom(h: Hasher, past: seq<Digest>, count: nat, now: seq<Digest>, a: nat, rounds: nat)
    requires Grows(past, now, a) && Halved(a, count) == 0
    requires Increasing(Range(a, |now|)) && Below(Range(a, |now|), |now|)
    ensures KnownPart(h, now, Range(a, |now|), rounds) != []
    ensures MergedLayer(LayerAt(LayersAbove(h, past, count), 0), KnownPart(h, now, Range(a, |now|), rounds)[0])
        == Indexed(now)
  {
    var indices := KnownPartBottom(h, now, Range(a, |now|), rounds);
    RangeElements(a, |now|);
    if count == 0 {
      assert LayerAt(LayersAbove(h, past, count), 0) == [] == Indexed([]);
      MergeOneLayer([], now, 0, indices);
    } else {
      LayersAboveTail(h, past, count);
      MergeOneLayer(past, now, a, indices);
    }
  }

  lemma LayerAbove(h: Hasher, past: seq<Digest>, count: nat, k: nat)
    ensures LayerAt(LayersAbove(h, past, count), k + 1)
         == LayerAt(LayersAbove(h, ParentLayer(h, past), if count == 0 then 0 else count - 1), k)
  {
  }

  lemma HalvedTail(a: nat, count: nat)
    requires Halved(a, count) == 0
    ensures Halved(a / 2, if count == 0 then 0 else count - 1) == 0
  {
  }

  // All layers, bottom up.
  lemma {:induction false} MergeLayers(h: Hasher, past: seq<Digest>, count: nat, now: seq<Digest>, a: nat,
      rounds: nat, k: nat)
    requires Grows(past, now, a) && Halved(a, count) == 0
    requires Increasing(Range(a, |now|)) && Below(Range(a, |now|), |now|)
    requires k <= rounds
    ensures |KnownPart(h, now, Range(a, |now|), rounds)| == rounds + 1
    ensures MergedLayer(LayerAt(LayersAbove(h, past, count), k), KnownPart(h, now, Range(a, |now|), rounds)[k])
         == Indexed(NodesAbove(h, now, k))
    decreases k
  {
    hide KnownPart, MergedLayer, LayersAbove, ParentIndices, Halved;
    var known := Range(a, |now|);
    KnownPartTop(h, now, known, rounds);
    if k == 0 {
      MergeBottom(h, past, count, now, a, rounds);
    } else {
      var pastUp, nowUp := ParentLayer(h, past), ParentLayer(h, now);
      GrowsUp(h, past, now, a);
      HalvedTail(a, count);
      ParentsOfRange(a, |now|);
      RangeElements(a / 2, |nowUp|);
      MergeLayers(h, pastUp, if count == 0 then 0 else count - 1, nowUp, a / 2, rounds - 1, k - 1);
      LayerAbove(h, past, count, k - 1);
      KnownPartUnfold(h, now, known, rounds);
    }
  }

  // Committing new leaves to a full tree gives the full tree over all leaves,
  // and the diff alone already has the new root. The subtraction of layer
  // counts in the merge does not wrap.
  lemma CommitIsCanonical(h: Hasher, past: seq<Digest>, leaves: seq<Digest>) returns (diff: seq<Layer>)
    requires leaves != [] && |past| + |leaves| <= MAX_LEAVES
    ensures UncommittedDiff(h, FullTree(h, past), leaves) == Some(diff)
    ensures |FullTree(h, past)| <= |diff|
    ensures Merged(FullTree(h, past), diff) == FullTree(h, past + leaves)
    ensures RootOf(diff) == Some(MerkleRoot(h, past + leaves))
  {
    hide FullTree, KnownPart, TreeDepth, MergedLayer, NodesAbove, UncommittedDiff, Merged, LayersAbove, Halved;
    var all, known, depth := past + leaves, Range(|past|, |past| + |leaves|), TreeDepth(|past| + |leaves|);
    DiffIsKnownPart(h, past, leaves);
    diff := KnownPart(h, all, known, depth);
    KnownPartTop(h, all, known, depth);
    TreeDepthMonotone(|past|, |all|);
    TreeDepthIsLeast(|all|);
    var count := FullTreeLayers(h, past);
    assert Grows(past, all, |past|);
    forall k: nat | k <= depth
      ensures MergedLayer(LayerAt(FullTree(h, past), k), diff[k]) == Indexed(NodesAbove(h, all, k))
    {
      MergeLayers(h, past, count, all, |past|, depth, k);
    }
    MergedIsFullTree(h, FullTree(h, past), diff, all);
    DiffRoot(h, all, known, depth);
  }

  // No wrap-around when the merged tree is at least as deep.
  lemma MergeSize(mine: nat, other: nat)
    requires mine <= other < USIZE_RANGE
    ensures CombinedTreeSize(mine, other) == other
  {
  }

  lemma MergedIsFullTree(h: Hasher, mine: seq<Layer>, diff: seq<Layer>, all: seq<Digest>)
    requires all != [] && |mine| <= |diff| == TreeDepth(|all|) + 1 && |diff| < USIZE_RANGE
    requires forall k: nat :: k < |diff| ==> MergedLayer(LayerAt(mine, k), diff[k]) == Indexed(NodesAbove(h, all, k))
    ensures Merged(mine, diff) == FullTree(h, all)
  {
    hide MergedLayer, NodesAbove, TreeDepth, CombinedTreeSize, Indexed;
    MergeSize(|mine|, |diff|);
    var merged, full := MergedUpTo(mine, diff, |diff|), FullTree(h, all);
    forall k: nat | k < |diff| ensures merged[k] == full[k] {
      assert LayerAt(diff, k) == diff[k];
      assert merged[k] == MergedLayer(LayerAt(mine, k), LayerAt(diff, k));
      assert full[k] == Indexed(NodesAbove(h, all, k));
    }
    assert |merged| == |full|;
    assert merged == full;
  }

  // The top of a known part is the root of the full tree.
  lemma DiffRoot(h: Hasher, leaves: seq<Digest>, known: seq<nat>, depth: nat)
    requires 0 < |leaves| <= MAX_LEAVES && depth == TreeDepth(|leaves|)
    requires known != [] && Increasing(known) && Below(known, |leaves|)
    ensures RootOf(KnownPart(h, leaves, known, depth)) == Some(MerkleRoot(h, leaves))
  {
    KnownPartTop(h, leaves, known, depth);
    WidthAtDepth(|leaves|);
    KnownAboveIsRoot(known, |leaves|, 0, depth);
    RootIsAlone(h, leaves);
  }

  // ----- beyond the depth loop -----

  // With more than 2 to the 32 leaves the depth comes out as 0. The diff is one
  // empty layer, and merging it leaves the old tree as it was: the new leaves
  // are lost.
  lemma OversizedCommit(h: Hasher, past: seq<Digest>, leaves: seq<Digest>)
    requires leaves != [] && |past| <= MAX_LEAVES < |past| + |leaves|
    ensures UncommittedDiff(h, FullTree(h, past), leaves) == Some([[]])
    ensures Merged(FullTree(h, past), [[]]) == if past == [] then [[]] else FullTree(h, past)
    ensures LeavesLen(Merged(FullTree(h, past), [[]])) == |past|
  {
    hide MergedLayer, BuildLayers, UncommittedDiff;
    var mine := FullTree(h, past);
    assert LeavesLen(mine) == |past|;
    OversizedDiff(h, mine, leaves);
    assert (past == [] ==> mine == []) && (past != [] ==> 1 < |mine| <= 33 && mine[0] == Indexed(past)) by {
      TreeDepthIsLeast(|past|);
      LayersAboveTail(h, past, TreeDepth(|past|) + 1);
    }
    hide FullTree;
    IndexedAscending(past);
    MergeWithEmptyLayer(mine);
  }

  lemma MergeWithEmptyLayer(mine: seq<Layer>)
    requires mine != [] ==> 1 < |mine| < USIZE_RANGE && Ascending(mine[0])
    ensures Merged(mine, [[]]) == if mine == [] then [[]] else mine
  {
    MergeNothing(LayerAt(mine, 0));
    hide *;
    CombinedWithOne(|mine|);
    MergedUnfold(mine, [[]]);
    MergeEmptyAtBottom(mine);
  }

  lemma CombinedWithOne(n: nat)
    requires n != 0 ==> 1 < n < USIZE_RANGE
    ensures CombinedTreeSize(n, 1) == 1
  {
  }

  lemma MergeEmptyAtBottom(mine: seq<Layer>)
    requires MergedLayer(LayerAt(mine, 0), []) == LayerAt(mine, 0)
    ensures MergedUpTo(mine, [[]], 1) == if mine == [] then [[]] else mine
  {
    hide MergedLayer;
  }

  lemma MergedUnfold(mine: seq<Layer>, other: seq<Layer>)
    ensures Merged(mine, other) == MergedUpTo(mine, other, CombinedTreeSize(|mine|, |other|))
  {
  }

  lemma OversizedDiff(h: Hasher, layers: seq<Layer>, leaves: seq<Digest>)
    requires leaves != [] && LeavesLen(layers) + |leaves| > MAX_LEAVES
    ensures UncommittedDiff(h, layers, leaves) == Some([[]])
  {
    TreeDepthIsLeast(LeavesLen(layers) + |leaves|);
    hide TreeDepth, HelperNodeTuples, WithFirstLayer;
  }

  lemma MergeNothing(mine: Layer)
    requires Ascending(mine)
    ensures MergedLayer(mine, []) == mine
  {
    MergedElements(mine, []);
    hide MergedLayer;
    AscendingUnique(MergedLayer(mine, []), mine);
  }

  // ----- histories -----

  function Flatten(batches: seq<seq<Digest>>): seq<Digest> {
    if batches == [] then []
    else Flatten(batches[..|batches| - 1]) + batches[|batches| - 1]
  }

  // What `history` holds after committing the batches one by one.
  function Diffs(h: Hasher, batches: seq<seq<Digest>>): seq<Option<seq<Layer>>> {
    if batches == [] then []
    else
      var before := batches[..|batches| - 1];
      Diffs(h, before) + [UncommittedDiff(h, FullTree(h, Flatten(before)), batches[|batches| - 1])]
  }

  // Merging diffs, oldest first, into an empty tree.
  function Replay(diffs: seq<seq<Layer>>): seq<Layer> {
    if diffs == [] then []
    else Merged(Replay(diffs[..|diffs| - 1]), diffs[|diffs| - 1])
  }

  lemma ReplayUnfold(diffs: seq<seq<Layer>>, i: nat)
    requires i < |diffs|
    ensures Replay(diffs[..i + 1]) == Merged(Replay(diffs[..i]), diffs[i])
  {
    assert diffs[..i + 1][..i] == diffs[..i];
  }

  lemma ReplayNothing()
    ensures Replay([]) == []
  {
  }

  ghost predicate NonEmptyBatches(batches: seq<seq<Digest>>) {
    forall i :: 0 <= i < |batches| ==> batches[i] != []
  }

  // The history of the batches, as a list of diffs.
  ghost predicate IsHistory(h: Hasher, batches: seq<seq<Digest>>, history: seq<seq<Layer>>) {
    Diffs(h, batches) == seq(|history|, i requires 0 <= i < |history| => Some(history[i]))
  }

  lemma {:induction false} DiffsLength(h: Hasher, batches: seq<seq<Digest>>)
    ensures |Diffs(h, batches)| == |batches|
  {
    if batches != [] {
      DiffsLength(h, batches[..|batches| - 1]);
    }
  }

  // The history of all but the last batch is the history without its last diff.
  lemma HistoryBefore(h: Hasher, batches: seq<seq<Digest>>, history: seq<seq<Layer>>)
    requires batches != [] && IsHistory(h, batches, history)
    ensures |history| == |batches|
    ensures IsHistory(h, batches[..|batches| - 1], history[..|history| - 1])
    ensures UncommittedDiff(h, FullTree(h, Flatten(batches[..|batches| - 1])), batches[|batches| - 1])
         == Some(history[|history| - 1])
  {
    DiffsLength(h, batches);
    var n := |history| - 1;
    var all := seq(|history|, i requires 0 <= i < |history| => Some(history[i]));
    assert all == Diffs(h, batches);
    var before := history[..n];
    DiffsLength(h, batches[..n]);
    assert Diffs(h, batches[..n]) == all[..n];
    assert all[n] == Some(history[n]);
  }

  // Replaying the history of any batches rebuilds the full tree over all their
  // leaves, node for node.
  lemma {:induction false} ReplayIsCanonical(h: Hasher, batches: seq<seq<Digest>>, history: seq<seq<Layer>>)
    requires NonEmptyBatches(batches) && |Flatten(batches)| <= MAX_LEAVES
    requires IsHistory(h, batches, history)
    ensures Replay(history) == FullTree(h, Flatten(batches))
    decreases |batches|
  {
    if batches == [] {
      assert history == [];
    } else {
      HistoryBefore(h, batches, history);
      var n := |batches| - 1;
      ReplayIsCanonical(h, batches[..n], history[..n]);
      var diff := CommitIsCanonical(h, Flatten(batches[..n]), batches[n]);
    }
  }
}
