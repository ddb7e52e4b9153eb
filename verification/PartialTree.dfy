// Partial Merkle trees (rs-merkle/src/partial_tree.rs).
module PartialTrees {
  import opened Wrappers
  import opened Hashing
  import opened Indices
  import opened Layers

  datatype Error =
    | NotEnoughHelperNodes
    | NotEnoughHashesToCalculateRoot
    | LeavesIndicesCountMismatch

  // ----- build_tree -----

  function GetNode(nodes: seq<Digest>, i: nat): Option<Digest> {
    if i < |nodes| then Some(nodes[i]) else None
  }

  // The parent tuples from position i on: parent i joins nodes 2i and 2i+1.
  function ParentNodesFrom(h: Hasher, parents: seq<nat>, nodes: seq<Digest>, i: nat): Result<Layer, Error>
    decreases |parents| - i
  {
    if i >= |parents| then Ok([])
    else
      match GetNode(nodes, 2 * i)
      case None => Err(NotEnoughHelperNodes)
      case Some(left) =>
        match ParentNodesFrom(h, parents, nodes, i + 1)
        case Err(e) => Err(e)
        case Ok(rest) => Ok([Node(parents[i], ConcatAndHash(h, left, GetNode(nodes, 2 * i + 1)))] + rest)
  }

  function NextLayer(h: Hasher, layer: Layer): Result<Layer, Error> {
    ParentNodesFrom(h, ParentIndices(IndicesOf(layer)), HashesOf(layer), 0)
  }

  // The layers that are still to come when `rounds` rounds are left, the nodes
  // computed so far for the next layer are `current`, and `pending` are the
  // helper layers not used yet.
  function BuildLayers(h: Hasher, current: Layer, pending: seq<Layer>, rounds: nat): Result<seq<Layer>, Error>
    decreases rounds
  {
    if rounds == 0 then Ok([current])
    else
      var layer := SortByIndex(current + FirstLayer(pending));
      match NextLayer(h, layer)
      case Err(e) => Err(e)
      case Ok(next) =>
        match BuildLayers(h, next, RestOfLayers(pending), rounds - 1)
        case Err(e) => Err(e)
        case Ok(rest) => Ok([layer] + rest)
  }

  function FirstLayer(layers: seq<Layer>): Layer {
    if layers == [] then [] else layers[0]
  }

  function RestOfLayers(layers: seq<Layer>): seq<Layer> {
    if layers == [] then [] else layers[1..]
  }

  ghost function Prepend<T>(front: seq<T>, r: Result<seq<T>, Error>): Result<seq<T>, Error> {
    match r
    case Ok(rest) => Ok(front + rest)
    case Err(e) => Err(e)
  }

  lemma PrependNothing<T>(r: Result<seq<T>, Error>)
    ensures Prepend([], r) == r
  {
    if r.Ok? {
      assert [] + r.value == r.value;
    }
  }

  // The inner loop of build_tree.
  method BuildNextLayer(h: Hasher, layer: Layer) returns (r: Result<Layer, Error>)
    ensures r == NextLayer(h, layer)
  {
    var indices, nodes := IndicesOf(layer), HashesOf(layer);
    var parentLayerIndices := ParentIndices(indices);
    var next: Layer := [];
    PrependNothing(NextLayer(h, layer));
    hide ParentNodesFrom, Prepend;
    for i := 0 to |parentLayerIndices|
      invariant NextLayer(h, layer) == Prepend(next, ParentNodesFrom(h, parentLayerIndices, nodes, i))
    {
      ParentsUnfold(h, next, parentLayerIndices, nodes, i);
      if 2 * i >= |nodes| {
        return Err(NotEnoughHelperNodes);
      }
      var node := Node(parentLayerIndices[i], ConcatAndHash(h, nodes[2 * i], GetNode(nodes, 2 * i + 1)));
      next := next + [node];
    }
    ParentsDone(h, next, parentLayerIndices, nodes);
    r := Ok(next);
  }

  lemma ParentsUnfold(h: Hasher, front: Layer, parents: seq<nat>, nodes: seq<Digest>, i: nat)
    requires i < |parents|
    ensures Prepend(front, ParentNodesFrom(h, parents, nodes, i)) ==
      match GetNode(nodes, 2 * i)
      case None => Err(NotEnoughHelperNodes)
      case Some(left) =>
        Prepend(front + [Node(parents[i], ConcatAndHash(h, left, GetNode(nodes, 2 * i + 1)))],
            ParentNodesFrom(h, parents, nodes, i + 1))
  {
    if 2 * i < |nodes| {
      var node := Node(parents[i], ConcatAndHash(h, nodes[2 * i], GetNode(nodes, 2 * i + 1)));
      var rest := ParentNodesFrom(h, parents, nodes, i + 1);
      if rest.Ok? {
        assert front + ([node] + rest.value) == front + [node] + rest.value;
      }
    }
  }

  lemma ParentsDone(h: Hasher, front: Layer, parents: seq<nat>, nodes: seq<Digest>)
    ensures Prepend(front, ParentNodesFrom(h, parents, nodes, |parents|)) == Ok(front)
  {
    assert front + [] == front;
  }

  method BuildTree(h: Hasher, partialLayers: seq<Layer>, fullTreeDepth: nat) returns (r: Result<seq<Layer>, Error>)
    ensures r == BuildLayers(h, [], partialLayers, fullTreeDepth)
  {
    var partialTree: seq<Layer> := [];
    var currentLayer: Layer := [];
    var remaining := partialLayers;
    ghost var goal := BuildLayers(h, [], partialLayers, fullTreeDepth);
    PrependNothing(goal);
    hide BuildLayers, Prepend, NextLayer;
    for round := 0 to fullTreeDepth
      invariant goal == Prepend(partialTree, BuildLayers(h, currentLayer, remaining, fullTreeDepth - round))
    {
      BuildUnfold(h, partialTree, currentLayer, remaining, fullTreeDepth - round);
      assert remaining == [] ==> currentLayer + FirstLayer(remaining) == currentLayer;
      if remaining != [] {
        currentLayer := currentLayer + remaining[0];
        remaining := remaining[1..];
      }
      currentLayer := SortByIndex(currentLayer);
      var layer := currentLayer;
      var next := BuildNextLayer(h, currentLayer);
      if next.Err? {
        return Err(next.error);
      }
      currentLayer := next.value;
      partialTree := partialTree + [layer];
    }
    BuildDone(h, partialTree, currentLayer, remaining);
    r := Ok(partialTree + [currentLayer]);
  }

  lemma BuildUnfold(h: Hasher, front: seq<Layer>, current: Layer, pending: seq<Layer>, rounds: nat)
    requires rounds > 0
    ensures var layer := SortByIndex(current + FirstLayer(pending));
      Prepend(front, BuildLayers(h, current, pending, rounds)) ==
        match NextLayer(h, layer)
        case Err(e) => Err(e)
        case Ok(next) => Prepend(front + [layer], BuildLayers(h, next, RestOfLayers(pending), rounds - 1))
  {
    var layer := SortByIndex(current + FirstLayer(pending));
    if NextLayer(h, layer).Ok? {
      var tail := BuildLayers(h, NextLayer(h, layer).value, RestOfLayers(pending), rounds - 1);
      if tail.Ok? {
        assert front + ([layer] + tail.value) == front + [layer] + tail.value;
      }
    }
  }

  lemma BuildDone(h: Hasher, front: seq<Layer>, current: Layer, pending: seq<Layer>)
    ensures Prepend(front, BuildLayers(h, current, pending, 0)) == Ok(front + [current])
  {
  }

  // ----- merging -----

  // One layer of the merge result: nodes of `mine` that `other` does not have,
  // followed by the nodes of `other`, in index order.
  function MergedLayer(mine: Layer, other: Layer): Layer {
    SortByIndex(WithoutIndices(mine, other) + other)
  }

  function WithoutIndices(mine: Layer, other: Layer): Layer {
    if mine == [] then []
    else (if HasIndex(other, mine[0].index) then [] else [mine[0]]) + WithoutIndices(mine[1..], other)
  }

  const USIZE_RANGE: nat := 0x1_0000_0000_0000_0000

  // The subtraction is on `usize`: for a shallower `other` it would wrap.
  function CombinedTreeSize(mine: nat, other: nat): nat {
    if (other - mine) % USIZE_RANGE > 0 then other else mine
  }

  function LayerAt(layers: seq<Layer>, k: nat): Layer {
    if k < |layers| then layers[k] else []
  }

  function Merged(mine: seq<Layer>, other: seq<Layer>): seq<Layer> {
    MergedUpTo(mine, other, CombinedTreeSize(|mine|, |other|))
  }

  // `mine` with its first `size` layers merged, and extended where needed.
  function MergedUpTo(mine: seq<Layer>, other: seq<Layer>, size: nat): (r: seq<Layer>)
    ensures |r| == if size <= |mine| then |mine| else size
  {
    seq(if size <= |mine| then |mine| else size,
        k requires 0 <= k => if k < size then MergedLayer(LayerAt(mine, k), LayerAt(other, k)) else LayerAt(mine, k))
  }

  class PartialTree {
    var layers: seq<Layer>

    constructor ()
      ensures layers == []
    {
      layers := [];
    }

    predicate Contains(other: seq<Layer>, layerIndex: nat, nodeIndex: nat) {
      layerIndex < |other| && HasIndex(other[layerIndex], nodeIndex)
    }

    // The hash of the first node of the last layer.
    function Root(): Option<Digest>
      reads this
    {
      RootOf(layers)
    }

    // The filter of one layer during a merge.
    method FilterLayer(other: seq<Layer>, layerIndex: nat) returns (filteredLayer: Layer)
      requires layerIndex < |layers|
      ensures filteredLayer == WithoutIndices(layers[layerIndex], LayerAt(other, layerIndex))
    {
      filteredLayer := [];
      ghost var selfLayer, otherLayer := layers[layerIndex], LayerAt(other, layerIndex);
      for i := 0 to |layers[layerIndex]|
        invariant filteredLayer + WithoutIndices(selfLayer[i..], otherLayer) == WithoutIndices(selfLayer, otherLayer)
      {
        var node := layers[layerIndex][i];
        assert selfLayer[i..][1..] == selfLayer[i + 1..];
        if !Contains(other, layerIndex, node.index) {
          filteredLayer := filteredLayer + [node];
        }
      }
    }

    method MergeUnverified(other: seq<Layer>)
      modifies this
      ensures layers == Merged(old(layers), other)
    {
      var combinedTreeSize := CombinedTreeSize(|layers|, |other|);
      hide CombinedTreeSize, WithoutIndices, SortByIndex;
      for layerIndex := 0 to combinedTreeSize
        invariant layers == MergedUpTo(old(layers), other, layerIndex)
      {
        var combinedLayer: Layer := [];
        NothingFiltered(LayerAt(other, layerIndex));
        if layerIndex < |layers| {
          combinedLayer := FilterLayer(other, layerIndex);
        }
        assert combinedLayer == WithoutIndices(LayerAt(old(layers), layerIndex), LayerAt(other, layerIndex));
        assert combinedLayer + [] == combinedLayer;
        if layerIndex < |other| {
          combinedLayer := combinedLayer + other[layerIndex];
        }
        UpsertLayer(layerIndex, SortByIndex(combinedLayer));
      }
    }

    // Replaces the layer at an index, or pushes it behind the last layer.
    method UpsertLayer(layerIndex: nat, newLayer: Layer)
      modifies this
      ensures layers == if layerIndex < |old(layers)| then old(layers)[layerIndex := newLayer]
          else old(layers) + [newLayer]
    {
      if layerIndex < |layers| {
        layers := layers[layerIndex := newLayer];
      } else {
        layers := layers + [newLayer];
      }
    }

    method Clear()
      modifies this
      ensures layers == []
    {
      layers := [];
    }
  }

  function RootOf(layers: seq<Layer>): Option<Digest> {
    if layers == [] || layers[|layers| - 1] == [] then None
    else Some(layers[|layers| - 1][0].hash)
  }

  // ----- what a merged layer contains -----

  lemma NothingFiltered(other: Layer)
    ensures WithoutIndices([], other) == []
  {
  }

  lemma {:induction false} WithoutElements(mine: Layer, other: Layer)
    ensures forall node :: node in WithoutIndices(mine, other) <==> node in mine && !HasIndex(other, node.index)
  {
    if mine != [] {
      WithoutElements(mine[1..], other);
      assert mine == [mine[0]] + mine[1..];
    }
  }

  lemma {:induction false} WithoutDistinct(mine: Layer, other: Layer)
    requires Distinct(IndicesOf(mine))
    ensures Distinct(IndicesOf(WithoutIndices(mine, other)))
  {
    if mine != [] {
      var tail := mine[1..];
      var rest := WithoutIndices(tail, other);
      assert IndicesOf(tail) == IndicesOf(mine)[1..];
      WithoutDistinct(tail, other);
      WithoutElements(tail, other);
      forall i | 0 <= i < |rest| ensures rest[i].index != mine[0].index {
        assert rest[i] in tail;
        var j :| 0 <= j < |tail| && tail[j] == rest[i];
        assert IndicesOf(mine)[0] != IndicesOf(mine)[j + 1];
      }
      if !HasIndex(other, mine[0].index) {
        IndicesConcat([mine[0]], rest);
        assert IndicesOf(WithoutIndices(mine, other)) == [mine[0].index] + IndicesOf(rest);
      } else {
        assert WithoutIndices(mine, other) == rest;
      }
    }
  }

  // Merging ascending layers gives an ascending layer in which the nodes of
  // `other` win over the nodes of `mine`.
  lemma MergedElements(mine: Layer, other: Layer)
    requires Ascending(mine) && Ascending(other)
    ensures Ascending(MergedLayer(mine, other))
    ensures forall node :: node in MergedLayer(mine, other) <==>
                             node in other || (node in mine && !HasIndex(other, node.index))
  {
    var kept := WithoutIndices(mine, other);
    WithoutElements(mine, other);
    WithoutDistinct(mine, other);
    IndexElements(other);
    IndicesConcat(kept, other);
    forall i, j | 0 <= i < |kept| && 0 <= j < |other| ensures kept[i].index != other[j].index {
      assert kept[i] in kept;
    }
    assert Distinct(IndicesOf(kept + other)) by {
      var idx := IndicesOf(kept) + IndicesOf(other);
      forall i, j | 0 <= i < j < |idx| ensures idx[i] != idx[j] {
        if i < |kept| <= j {
          assert kept[i].index != other[j - |kept|].index;
        }
      }
    }
    SortDistinct(kept + other);
    SortElements(kept + other);
  }
}
