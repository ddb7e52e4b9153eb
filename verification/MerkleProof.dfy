// Merkle proofs (rs-merkle/src/merkle_proof.rs): rebuilding the root from
// leaves and a flat list of hashes.
module MerkleProofs {
  import opened Wrappers
  import opened Hashing
  import opened Indices
  import opened Layers
  import opened PartialTrees
  import opened CanonicalTree
  import opened Rebuild
  import opened Commits

  datatype MerkleProof = MerkleProof(proofHashes: seq<Digest>)

  // The outcome of computing a root; Trapped stands for the panic of `splice`
  // when the proof has fewer hashes than the indices ask for.
  datatype RootResult = Root(root: Digest) | Failed(error: Error) | Trapped

  // ----- making a proof -----

  function FlatHashes(layers: seq<Layer>): seq<Digest> {
    if layers == [] then []
    else HashesOf(layers[0]) + FlatHashes(layers[1..])
  }

  function ProofFor(layers: seq<Layer>, leafIndices: seq<nat>): MerkleProof {
    MerkleProof(FlatHashes(HelperNodeTuples(layers, leafIndices)))
  }

  // ----- rebuilding the root -----

  function ZipNodes(indices: seq<nat>, hashes: seq<Digest>): Layer
    requires |indices| == |hashes|
  {
    seq(|indices|, i requires 0 <= i < |indices| => Node(indices[i], hashes[i]))
  }

  // Cuts the flat hash list into layers; None when it is too short.
  function Regroup(hashes: seq<Digest>, indexLayers: seq<seq<nat>>): Option<seq<Layer>> {
    if indexLayers == [] then Some([])
    else
      var n := |indexLayers[0]|;
      if n > |hashes| then None
      else
        match Regroup(hashes[n..], indexLayers[1..])
        case None => None
        case Some(rest) => Some([ZipNodes(indexLayers[0], hashes[..n])] + rest)
  }

  // The layers handed to the tree builder, or the outcome without building.
  function ProofLayers(proof: MerkleProof, leafIndices: seq<nat>, leafHashes: seq<Digest>,
      total: nat): Option<seq<Layer>>
    requires |leafIndices| == |leafHashes|
  {
    match Regroup(proof.proofHashes, ProofIndicesByLayers(leafIndices, total))
    case None => None
    case Some(layers) => Some(WithFirstLayer(layers, SortByIndex(ZipNodes(leafIndices, leafHashes))))
  }

  function ProofRoot(h: Hasher, proof: MerkleProof, leafIndices: seq<nat>, leafHashes: seq<Digest>,
      total: nat): RootResult {
    if |leafIndices| != |leafHashes| then Failed(LeavesIndicesCountMismatch)
    else
      match ProofLayers(proof, leafIndices, leafHashes, total)
      case None => Trapped
      case Some(layers) =>
        match BuildLayers(h, [], layers, TreeDepth(total))
        case Err(e) => Failed(e)
        case Ok(tree) =>
          match RootOf(tree)
          case None => Failed(NotEnoughHashesToCalculateRoot)
          case Some(root) => Root(root)
  }

  method ComputeProofRoot(h: Hasher, proof: MerkleProof, leafIndices: seq<nat>, leafHashes: seq<Digest>,
                          totalLeavesCount: nat) returns (r: RootResult)
    ensures r == ProofRoot(h, proof, leafIndices, leafHashes, totalLeavesCount)
  {
    if |leafIndices| != |leafHashes| {
      return Failed(LeavesIndicesCountMismatch);
    }
    var treeDepth := ComputeTreeDepth(totalLeavesCount);
    var leafTuples := SortByIndex(ZipNodes(leafIndices, leafHashes));
    var proofIndicesByLayers := ComputeProofIndicesByLayers(leafIndices, totalLeavesCount);
    var proofLayers: seq<Layer> := [];
    var proofCopy := proof.proofHashes;
    ghost var goal := Regroup(proof.proofHashes, proofIndicesByLayers);
    assert goal.Some? ==> [] + goal.value == goal.value;
    assert proofIndicesByLayers[0..] == proofIndicesByLayers;
    for k := 0 to |proofIndicesByLayers|
      invariant goal == match Regroup(proofCopy, proofIndicesByLayers[k..])
                        case None => None
                        case Some(rest) => Some(proofLayers + rest)
    {
      var proofIndices := proofIndicesByLayers[k];
      assert proofIndicesByLayers[k..] == [proofIndices] + proofIndicesByLayers[k + 1..];
      if |proofIndices| > |proofCopy| {
        return Trapped;
      }
      var layer := ZipNodes(proofIndices, proofCopy[..|proofIndices|]);
      ghost var rest := Regroup(proofCopy[|proofIndices|..], proofIndicesByLayers[k + 1..]);
      assert rest.Some? ==> proofLayers + ([layer] + rest.value) == proofLayers + [layer] + rest.value;
      proofCopy := proofCopy[|proofIndices|..];
      proofLayers := proofLayers + [layer];
    }
    assert goal == Some(proofLayers) by {
      assert proofLayers + [] == proofLayers;
    }
    proofLayers := WithFirstLayer(proofLayers, leafTuples);
    var partialTree := BuildTree(h, proofLayers, treeDepth);
    if partialTree.Err? {
      return Failed(partialTree.error);
    }
    match RootOf(partialTree.value)
    case Some(root) => return Root(root);
    case None => return Failed(NotEnoughHashesToCalculateRoot);
  }

  // `verify`; None stands for a trap.
  function Verify(h: Hasher, proof: MerkleProof, root: Digest, leafIndices: seq<nat>, leafHashes: seq<Digest>,
      total: nat): Option<bool> {
    match ProofRoot(h, proof, leafIndices, leafHashes, total)
    case Root(extracted) => Some(extracted == root)
    case Failed(_) => Some(false)
    case Trapped => None
  }
}
