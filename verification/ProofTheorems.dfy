// Completeness and soundness of Merkle proofs, for any number of leaves proved
// at once and for trees with uneven layers at any height.
module ProofTheorems {
  import opened Wrappers
  import opened Hashing
  import opened Indices
  import opened Layers
  import opened PartialTrees
  import opened CanonicalTree
  import opened Rebuild
  import opened Commits
  import opened MerkleProofs

  // ----- what the prover sends -----

  // The helper layers of the known nodes, with their correct hashes.
  ghost function HelperLayers(h: Hasher, nodes: seq<Digest>, known: seq<nat>, count: nat): seq<Layer>
    requires Increasing(known)
    requires Below(known, |nodes|)
    decreases count
  {
    if count == 0 then []
    else
      ParentIndicesOfIncreasing(known, |nodes|);
      HelpersAreBelow(known, |nodes|);
      [Pick(nodes, HelperIndices(known, |nodes|))]
          + HelperLayers(h, ParentLayer(h, nodes), ParentIndices(known), count - 1)
  }

  lemma HelpersAreBelow(known: seq<nat>, width: nat)
    requires Increasing(known)
    ensures Below(HelperIndices(known, width), width)
  {
    HelperElements(known, width);
    var helpers := HelperIndices(known, width);
    forall i | 0 <= i < |helpers| ensures helpers[i] < width {
      assert helpers[i] in helpers;
    }
  }

  lemma HelperLayersUnfold(h: Hasher, nodes: seq<Digest>, known: seq<nat>, count: nat)
    requires Increasing(known) && Below(known, |nodes|) && count > 0
    ensures IsParentList(ParentIndices(known), |nodes|)
    ensures |ParentLayer(h, nodes)| == DivCeil(|nodes|, 2)
    ensures Increasing(ParentIndices(known)) && Below(ParentIndices(known), |ParentLayer(h, nodes)|)
    ensures Below(HelperIndices(known, |nodes|), |nodes|)
    ensures HelperLayers(h, nodes, known, count)
         == [Pick(nodes, HelperIndices(known, |nodes|))]
             + HelperLayers(h, ParentLayer(h, nodes), ParentIndices(known), count - 1)
  {
    ParentIndicesOfIncreasing(known, |nodes|);
    HelpersAreBelow(known, |nodes|);
  }

  lemma NothingToDo(h: Hasher, nodes: seq<Digest>, known: seq<nat>)
    requires Increasing(known) && Below(known, |nodes|)
    ensures HelperLayers(h, nodes, known, 0) == []
    ensures HelperNodeTuples(LayersAbove(h, nodes, 0), known) == []
  {
  }

  // helper_node_tuples over the layers of a full tree finds exactly these.
  lemma {:induction false} TuplesAreHelpers(h: Hasher, nodes: seq<Digest>, known: seq<nat>, count: nat)
    requires Increasing(known) && Below(known, |nodes|)
    ensures HelperNodeTuples(LayersAbove(h, nodes, count), known) == HelperLayers(h, nodes, known, count)
    decreases count
  {
    hide *;
    NothingToDo(h, nodes, known);
    if count > 0 {
      HelperLayersUnfold(h, nodes, known, count);
      LayersAboveTail(h, nodes, count);
      TuplesUnfold(LayersAbove(h, nodes, count), known);
      LookupHelpers(nodes, known);
      TuplesAreHelpers(h, ParentLayer(h, nodes), ParentIndices(known), count - 1);
    }
  }

  lemma LookupHelpers(nodes: seq<Digest>, known: seq<nat>)
    ensures Below(HelperIndices(known, |nodes|), |nodes|)
    ensures LookupAll(Indexed(nodes), Difference(SiblingIndices(known), known))
        == Pick(nodes, HelperIndices(known, |nodes|))
  {
    LookupIsPick(nodes, Difference(SiblingIndices(known), known));
  }

  lemma {:induction false} HelperLayersSuffice(h: Hasher, nodes: seq<Digest>, known: seq<nat>, rounds: nat)
    requires Increasing(known) && Below(known, |nodes|)
    ensures HelpersSuffice(h, HelperLayers(h, nodes, known, rounds), nodes, known, rounds)
    decreases rounds
  {
    hide *;
    if rounds == 0 {
      NoRounds(h, HelperLayers(h, nodes, known, 0), nodes, known);
    } else {
      var layers := HelperLayers(h, nodes, known, rounds);
      HelperLayersUnfold(h, nodes, known, rounds);
      PickedAgrees(nodes, HelperIndices(known, |nodes|));
      HelperLayersSuffice(h, ParentLayer(h, nodes), ParentIndices(known), rounds - 1);
      FirstAndRest(layers);
      SufficeFromParts(h, layers, nodes, known, rounds);
    }
  }

  lemma FirstAndRest(layers: seq<Layer>)
    requires layers != []
    ensures FirstLayer(layers) == layers[0] && RestOfLayers(layers) == layers[1..]
  {
  }

  // ----- what the verifier reads -----

  ghost function IndexLayers(layers: seq<Layer>): seq<seq<nat>> {
    seq(|layers|, i requires 0 <= i < |layers| => IndicesOf(layers[i]))
  }

  // The verifier asks for the indices the prover sends, layer by layer.
  lemma {:induction false} VerifierAsksForHelpers(h: Hasher, nodes: seq<Digest>, known: seq<nat>, n: nat, k: nat,
      depth: nat)
    requires Increasing(known) && Below(known, |nodes|) && |nodes| == Width(n, k) && k <= depth
    ensures ProofIndicesFrom(known, n, k, depth) == IndexLayers(HelperLayers(h, nodes, known, depth - k))
    decreases depth - k
  {
    hide *;
    if k == depth {
      ProofIndicesEnd(known, n, depth);
      NothingToDo(h, nodes, known);
      NoIndexLayers();
    } else {
      var above, parents := ParentLayer(h, nodes), ParentIndices(known);
      HelperLayersUnfold(h, nodes, known, depth - k);
      PickedAgrees(nodes, HelperIndices(known, |nodes|));
      WidthUnfold(n, k);
      VerifierAsksForHelpers(h, above, parents, n, k + 1, depth);
      AskedUnfold(known, n, k, depth);
      IndexLayersUnfold(Pick(nodes, HelperIndices(known, |nodes|)), HelperLayers(h, above, parents, depth - k - 1));
    }
  }

  lemma WidthUnfold(n: nat, k: nat)
    ensures Width(n, k + 1) == DivCeil(Width(n, k), 2)
  {
  }

  lemma AskedUnfold(known: seq<nat>, n: nat, k: nat, depth: nat)
    requires k < depth && Increasing(known) && Below(known, Width(n, k))
    ensures ProofIndicesFrom(known, n, k, depth)
         == [HelperIndices(known, Width(n, k))] + ProofIndicesFrom(ParentIndices(known), n, k + 1, depth)
  {
    hide HelperIndices, LayerProofIndices;
    ProofIndicesAreHelpers(known, Width(n, k));
  }

  lemma NoIndexLayers()
    ensures IndexLayers([]) == []
  {
  }

  lemma IndexLayersUnfold(first: Layer, rest: seq<Layer>)
    ensures IndexLayers([first] + rest) == [IndicesOf(first)] + IndexLayers(rest)
  {
  }

  // Cutting up a flat hash list gives back the layers it was made from, and
  // ignores hashes after them.
  lemma {:induction false} RegroupFlat(layers: seq<Layer>, extra: seq<Digest>)
    ensures Regroup(FlatHashes(layers) + extra, IndexLayers(layers)) == Some(layers)
  {
    if layers != [] {
      var first, rest := layers[0], layers[1..];
      assert layers == [first] + rest;
      hide Regroup, FlatHashes, IndexLayers, HashesOf;
      RegroupFlat(rest, extra);
      RegroupOne(first, FlatHashes(rest) + extra, IndexLayers(rest));
      IndexLayersUnfold(first, rest);
      FlatUnfold(first, rest);
      assert HashesOf(first) + FlatHashes(rest) + extra == HashesOf(first) + (FlatHashes(rest) + extra);
    }
  }

  lemma RegroupOne(first: Layer, hashes: seq<Digest>, indexLayers: seq<seq<nat>>)
    requires Regroup(hashes, indexLayers).Some?
    ensures Regroup(HashesOf(first) + hashes, [IndicesOf(first)] + indexLayers)
        == Some([first] + Regroup(hashes, indexLayers).value)
  {
    var all := HashesOf(first) + hashes;
    assert all[..|first|] == HashesOf(first) && all[|first|..] == hashes;
    assert ([IndicesOf(first)] + indexLayers)[1..] == indexLayers;
    assert ZipNodes(IndicesOf(first), HashesOf(first)) == first;
  }

  // The result of cutting has the indices asked for.
  lemma {:induction false} RegroupedIndices(hashes: seq<Digest>, indexLayers: seq<seq<nat>>)
    requires Regroup(hashes, indexLayers).Some?
    ensures IndexLayers(Regroup(hashes, indexLayers).value) == indexLayers
  {
    if indexLayers != [] {
      var n := |indexLayers[0]|;
      RegroupedIndices(hashes[n..], indexLayers[1..]);
      var layers := Regroup(hashes, indexLayers).value;
      assert layers[1..] == Regroup(hashes[n..], indexLayers[1..]).value;
      assert IndicesOf(layers[0]) == indexLayers[0];
      assert IndexLayers(layers) == [indexLayers[0]] + IndexLayers(layers[1..]);
    }
  }

  lemma SortOfAscending(layer: Layer)
    requires Ascending(layer)
    ensures SortByIndex(layer) == layer
  {
    SortDistinct(layer);
    SortElements(layer);
    AscendingUnique(SortByIndex(layer), layer);
  }

  // The bottom layer: helpers, then the leaves that are proved.
  lemma BottomIsReady(helpers: Layer, leaves: Layer, known: seq<nat>, width: nat)
    requires Increasing(known) && Below(known, width)
    requires IndicesOf(helpers) == HelperIndices(known, width) && IndicesOf(leaves) == known
    ensures Ready(SortByIndex(helpers + leaves), known, width)
    ensures forall node :: node in SortByIndex(helpers + leaves) <==> node in helpers || node in leaves
  {
    hide HelperIndices, SortByIndex;
    var layer := helpers + leaves;
    IndicesConcat(helpers, leaves);
    HelperElements(known, width);
    DistinctConcat(HelperIndices(known, width), known);
    SortDistinct(layer);
    SortElements(layer);
  }

  // ----- completeness -----

  ghost function HashesAt(leaves: seq<Digest>, indices: seq<nat>): seq<Digest>
    requires Below(indices, |leaves|)
  {
    seq(|indices|, i requires 0 <= i < |indices| => leaves[indices[i]])
  }

  lemma ProofRegroups(h: Hasher, leaves: seq<Digest>, indices: seq<nat>)
    requires 0 < |leaves| <= MAX_LEAVES
    requires Increasing(indices) && Below(indices, |leaves|)
    ensures Regroup(ProofFor(FullTree(h, leaves), indices).proofHashes, ProofIndicesByLayers(indices, |leaves|))
         == Some(HelperLayers(h, leaves, indices, TreeDepth(|leaves|)))
  {
    hide HelperLayers, Regroup, ProofIndicesFrom, FlatHashes, HelperNodeTuples, TreeDepth;
    var depth := TreeDepth(|leaves|);
    var layers := HelperLayers(h, leaves, indices, depth);
    assert FullTree(h, leaves) == LayersAbove(h, leaves, depth + 1);
    var extra := OneMoreHelperLayer(h, leaves, indices, depth);
    TuplesAreHelpers(h, leaves, indices, depth + 1);
    VerifierAsksForHelpers(h, leaves, indices, |leaves|, 0, depth);
    RegroupFlat(layers, extra);
  }

  lemma {:induction false} OneMoreHelperLayer(h: Hasher, nodes: seq<Digest>, known: seq<nat>, count: nat)
    returns (extra: seq<Digest>)
    requires Increasing(known) && Below(known, |nodes|)
    ensures FlatHashes(HelperLayers(h, nodes, known, count + 1))
        == FlatHashes(HelperLayers(h, nodes, known, count)) + extra
    decreases count
  {
    hide HelperLayers, HelperIndices, ParentIndices, Pick, ParentLayer;
    HelperLayersUnfold(h, nodes, known, count + 1);
    NothingToDo(h, nodes, known);
    var first := Pick(nodes, HelperIndices(known, |nodes|));
    var above, parents := ParentLayer(h, nodes), ParentIndices(known);
    if count == 0 {
      extra := FlatHashes(HelperLayers(h, nodes, known, 1));
    } else {
      HelperLayersUnfold(h, nodes, known, count);
      extra := OneMoreHelperLayer(h, above, parents, count - 1);
      FlatUnfold(first, HelperLayers(h, above, parents, count));
      FlatUnfold(first, HelperLayers(h, above, parents, count - 1));
    }
  }

  lemma FlatUnfold(first: Layer, rest: seq<Layer>)
    ensures FlatHashes([first] + rest) == HashesOf(first) + FlatHashes(rest)
  {
    assert ([first] + rest)[1..] == rest;
  }

  // Every proof a full tree makes, for any non-empty increasing list of its
  // leaves, rebuilds the root of the tree.
  lemma ProofsAreComplete(h: Hasher, leaves: seq<Digest>, indices: seq<nat>)
    requires 0 < |leaves| <= MAX_LEAVES
    requires indices != [] && Increasing(indices) && Below(indices, |leaves|)
    ensures ProofRoot(h, ProofFor(FullTree(h, leaves), indices), indices, HashesAt(leaves, indices), |leaves|)
         == Root(MerkleRoot(h, leaves))
  {
    var depth := TreeDepth(|leaves|);
    var zipped := ZipNodes(indices, HashesAt(leaves, indices));
    var helpers := HelperLayers(h, leaves, indices, depth);
    var layers := WithFirstLayer(helpers, SortByIndex(zipped));
    TreeDepthIsLeast(|leaves|);
    ProofRegroups(h, leaves, indices);
    BuildFromProof(h, leaves, indices, zipped, depth);
    assert BuildLayers(h, [], layers, depth) == Ok(KnownPart(h, leaves, indices, depth));
    DiffRoot(h, leaves, indices, depth);
  }

  lemma BuildFromProof(h: Hasher, leaves: seq<Digest>, indices: seq<nat>, zipped: Layer, depth: nat)
    requires Increasing(indices) && Below(indices, |leaves|) && depth > 0
    requires zipped == ZipNodes(indices, HashesAt(leaves, indices))
    ensures BuildLayers(h, [], WithFirstLayer(HelperLayers(h, leaves, indices, depth), SortByIndex(zipped)), depth)
         == Ok(KnownPart(h, leaves, indices, depth))
  {
    var helpers := HelperLayers(h, leaves, indices, depth);
    var first := Pick(leaves, HelperIndices(indices, |leaves|)) by { HelpersAreBelow(indices, |leaves|); }
    var rest := HelperLayers(h, ParentLayer(h, leaves), ParentIndices(indices), depth - 1) by {
      HelperLayersUnfold(h, leaves, indices, depth);
    }
    var layers := WithFirstLayer(helpers, SortByIndex(zipped));
    assert IndicesOf(zipped) == indices && zipped == Pick(leaves, indices);
    assert layers == [SortByIndex(first + zipped)] + rest by {
      SortOfAscending(zipped);
      HelperLayersUnfold(h, leaves, indices, depth);
    }
    ProofInputIsGood(h, leaves, indices, first, zipped, rest, depth);
    assert FirstLayer(layers) == SortByIndex(first + zipped) && RestOfLayers(layers) == rest;
    assert [] + FirstLayer(layers) == FirstLayer(layers);
    BuildIsKnownPart(h, [], layers, leaves, indices, depth);
  }

  lemma ProofInputIsGood(h: Hasher, leaves: seq<Digest>, indices: seq<nat>, first: Layer, zipped: Layer,
      rest: seq<Layer>, depth: nat)
    requires Increasing(indices) && Below(indices, |leaves|) && depth > 0
    requires Below(HelperIndices(indices, |leaves|), |leaves|)
        && first == Pick(leaves, HelperIndices(indices, |leaves|))
    requires zipped == Pick(leaves, indices)
    requires IsParentList(ParentIndices(indices), |leaves|)
    requires rest == HelperLayers(h, ParentLayer(h, leaves), ParentIndices(indices), depth - 1)
    ensures Ready(SortByIndex(first + zipped), indices, |leaves|) && Agrees(SortByIndex(first + zipped), leaves)
    ensures HelpersSuffice(h, rest, ParentLayer(h, leaves), ParentIndices(indices), depth - 1)
  {
    hide HelperIndices, HelperLayers, Ready, SortByIndex, HelpersSuffice, ParentIndices;
    PickedAgrees(leaves, HelperIndices(indices, |leaves|));
    PickedAgrees(leaves, indices);
    BottomIsReady(first, zipped, indices, |leaves|);
    HelperLayersSuffice(h, ParentLayer(h, leaves), ParentIndices(indices), depth - 1);
  }

  // ----- soundness -----

  // The tree that verification builds on its way to the root.
  function RebuiltTree(h: Hasher, proof: MerkleProof, indices: seq<nat>, hashes: seq<Digest>, total: nat): seq<Layer>
    requires |indices| == |hashes|
  {
    match ProofLayers(proof, indices, hashes, total)
    case None => []
    case Some(layers) =>
      match BuildLayers(h, [], layers, TreeDepth(total))
      case Err(_) => []
      case Ok(tree) => tree
  }

  lemma {:induction false} IndexedFromLayers(h: Hasher, nodes: seq<Digest>, known: seq<nat>, layers: seq<Layer>,
      rounds: nat)
    requires Increasing(known) && Below(known, |nodes|)
    requires IndexLayers(layers) == IndexLayers(HelperLayers(h, nodes, known, rounds))
    ensures IndexedHelpers(layers, known, |nodes|, rounds)
    decreases rounds
  {
    if rounds > 0 {
      var good := HelperLayers(h, nodes, known, rounds);
      HelperLayersUnfold(h, nodes, known, rounds);
      PickedAgrees(nodes, HelperIndices(known, |nodes|));
      hide HelperLayers, HelperIndices, ParentIndices, Pick, ParentLayer;
      assert |layers| == |IndexLayers(layers)| == |good|;
      assert IndicesOf(layers[0]) == IndexLayers(layers)[0] == IndexLayers(good)[0] == IndicesOf(good[0]);
      assert IndexLayers(layers[1..]) == IndexLayers(layers)[1..] == IndexLayers(good)[1..] == IndexLayers(good[1..]);
      IndexedFromLayers(h, ParentLayer(h, nodes), ParentIndices(known), layers[1..], rounds - 1);
    }
  }

  // The input of the rebuild, whatever hashes the proof carries.
  lemma ProofInput(h: Hasher, leaves: seq<Digest>, proof: MerkleProof, indices: seq<nat>, hashes: seq<Digest>,
                   layers: seq<Layer>, depth: nat)
    requires |indices| == |hashes| && depth == TreeDepth(|leaves|) > 0
    requires Increasing(indices) && Below(indices, |leaves|)
    requires ProofLayers(proof, indices, hashes, |leaves|) == Some(layers)
    ensures layers != [] && Ready(layers[0], indices, |leaves|)
    ensures IndexedHelpers(layers[1..], ParentIndices(indices), DivCeil(|leaves|, 2), depth - 1)
    ensures forall i :: 0 <= i < |indices| ==> Node(indices[i], hashes[i]) in layers[0]
  {
    hide BuildLayers, TreeDepth, IndexedHelpers, HelperLayers, Ready, ParentIndices, Regroup, ProofIndicesFrom,
        SortByIndex;
    var asked := ProofIndicesByLayers(indices, |leaves|);
    var helpers := Regroup(proof.proofHashes, asked).value;
    RegroupedIndices(proof.proofHashes, asked);
    VerifierAsksForHelpers(h, leaves, indices, |leaves|, 0, depth);
    HelperLayersUnfold(h, leaves, indices, depth);
    IndexedFromLayers(h, leaves, indices, helpers, depth);
    assert |helpers| == |IndexLayers(helpers)| == |HelperLayers(h, leaves, indices, depth)|;
    IndexedUnfold(helpers, indices, |leaves|, depth);
    var zipped := ZipNodes(indices, hashes);
    assert IndicesOf(zipped) == indices;
    SortOfAscending(zipped);
    BottomIsReady(helpers[0], zipped, indices, |leaves|);
    assert layers == [SortByIndex(helpers[0] + zipped)] + helpers[1..];
    forall i | 0 <= i < |indices| ensures Node(indices[i], hashes[i]) in layers[0] {
      assert zipped[i] == Node(indices[i], hashes[i]);
    }
  }

  lemma IndexedUnfold(helpers: seq<Layer>, known: seq<nat>, width: nat, rounds: nat)
    requires helpers != [] && rounds > 0 && IndexedHelpers(helpers, known, width, rounds)
    ensures IndicesOf(helpers[0]) == HelperIndices(known, width)
    ensures IndexedHelpers(helpers[1..], ParentIndices(known), DivCeil(width, 2), rounds - 1)
  {
  }

  // If a proof leads to the root of the full tree, then every claimed leaf is
  // the leaf of the tree at that index, or the layers built during
  // verification contain a pair of nodes that collides with the pair at the
  // same place of the full tree.
  lemma ProofsAreSound(h: Hasher, leaves: seq<Digest>, proof: MerkleProof, indices: seq<nat>, hashes: seq<Digest>)
    requires 0 < |leaves| <= MAX_LEAVES && |indices| == |hashes|
    requires Increasing(indices) && Below(indices, |leaves|)
    requires ProofRoot(h, proof, indices, hashes, |leaves|) == Root(MerkleRoot(h, leaves))
    ensures hashes == HashesAt(leaves, indices)
         || CollisionInTree(h, RebuiltTree(h, proof, indices, hashes, |leaves|), leaves)
  {
    if indices != [] {
      var depth := TreeDepth(|leaves|);
      TreeDepthIsLeast(|leaves|);
      var layers, tree := RootFound(h, proof, indices, hashes, |leaves|, MerkleRoot(h, leaves));
      ProofInput(h, leaves, proof, indices, hashes, layers, depth);
      RebuildIsSound(h, leaves, indices, layers, depth, tree);
      if Agrees(layers[0], leaves) {
        ClaimedLeaves(leaves, indices, hashes, layers[0]);
      }
    }
  }

  lemma ClaimedLeaves(leaves: seq<Digest>, indices: seq<nat>, hashes: seq<Digest>, layer: Layer)
    requires |indices| == |hashes| && Below(indices, |leaves|)
    requires Agrees(layer, leaves)
    requires forall i :: 0 <= i < |indices| ==> Node(indices[i], hashes[i]) in layer
    ensures hashes == HashesAt(leaves, indices)
  {
  }

  lemma RootFound(h: Hasher, proof: MerkleProof, indices: seq<nat>, hashes: seq<Digest>, total: nat, root: Digest)
    returns (layers: seq<Layer>, tree: seq<Layer>)
    requires |indices| == |hashes|
    requires ProofRoot(h, proof, indices, hashes, total) == Root(root)
    ensures ProofLayers(proof, indices, hashes, total) == Some(layers)
    ensures BuildLayers(h, [], layers, TreeDepth(total)) == Ok(tree)
    ensures tree == RebuiltTree(h, proof, indices, hashes, total)
    ensures RootOf(tree) == Some(root)
  {
    hide BuildLayers, ProofLayers, TreeDepth;
    layers := ProofLayers(proof, indices, hashes, total).value;
    tree := BuildLayers(h, [], layers, TreeDepth(total)).value;
  }

  lemma RebuildIsSound(h: Hasher, leaves: seq<Digest>, indices: seq<nat>, layers: seq<Layer>, depth: nat,
      tree: seq<Layer>)
    requires 0 < |leaves| <= MAX_LEAVES && depth == TreeDepth(|leaves|) && depth > 0
    requires indices != [] && Increasing(indices) && Below(indices, |leaves|)
    requires layers != [] && Ready(layers[0], indices, |leaves|)
    requires IndexedHelpers(layers[1..], ParentIndices(indices), DivCeil(|leaves|, 2), depth - 1)
    requires BuildLayers(h, [], layers, depth) == Ok(tree) && RootOf(tree) == Some(MerkleRoot(h, leaves))
    ensures Agrees(layers[0], leaves) || CollisionInTree(h, tree, leaves)
  {
    assert |tree| == depth + 1 && Agrees(tree[depth], NodesAbove(h, leaves, depth)) by {
      hide BuildLayers, IndexedHelpers, Ready, TreeDepth, NodesAbove;
      TopIsRoot(h, leaves, indices, layers, depth, tree);
    }
    hide *;
    FirstAndRest(layers);
    assert [] + layers[0] == layers[0];
    BuildIsSound(h, [], layers, leaves, indices, depth, tree);
  }

  lemma TopIsRoot(h: Hasher, leaves: seq<Digest>, indices: seq<nat>, layers: seq<Layer>, depth: nat, tree: seq<Layer>)
    requires 0 < |leaves| <= MAX_LEAVES && depth == TreeDepth(|leaves|) && depth > 0
    requires indices != [] && Increasing(indices) && Below(indices, |leaves|)
    requires layers != [] && Ready(layers[0], indices, |leaves|)
    requires IndexedHelpers(layers[1..], ParentIndices(indices), DivCeil(|leaves|, 2), depth - 1)
    requires BuildLayers(h, [], layers, depth) == Ok(tree) && RootOf(tree) == Some(MerkleRoot(h, leaves))
    ensures |tree| == depth + 1 && Agrees(tree[depth], NodesAbove(h, leaves, depth))
  {
    hide BuildLayers, IndexedHelpers, Ready, TreeDepth, NodesAbove, ParentIndices, KnownAbove;
    FirstAndRest(layers);
    assert [] + layers[0] == layers[0];
    var rebuilt := BuildSucceeds(h, [], layers, indices, |leaves|, depth);
    assert rebuilt == tree;
    WidthAtDepth(|leaves|);
    KnownAboveIsRoot(indices, |leaves|, 0, depth);
    RootIsAlone(h, leaves);
    assert |tree[depth]| == |IndicesOf(tree[depth])| == 1;
    assert tree[depth][0].index == IndicesOf(tree[depth])[0] == 0;
  }
}
