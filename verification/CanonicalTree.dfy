// The reference definition: the full Merkle tree over a list of leaves, built
// layer by layer from all leaves at once, without helpers, diffs or merging.
module CanonicalTree {
  import opened Wrappers
  import opened Hashing
  import opened Indices
  import opened Layers
  import opened PartialTrees

  function ParentHash(h: Hasher, nodes: seq<Digest>, i: nat): Digest
    requires 2 * i < |nodes|
  {
    ConcatAndHash(h, nodes[2 * i], GetNode(nodes, 2 * i + 1))
  }

  function ParentLayer(h: Hasher, nodes: seq<Digest>): (parents: seq<Digest>)
    ensures |parents| == DivCeil(|nodes|, 2)
  {
    seq(DivCeil(|nodes|, 2), i requires 0 <= i < DivCeil(|nodes|, 2) => ParentHash(h, nodes, i))
  }

  // The nodes k levels above the given ones.
  function NodesAbove(h: Hasher, nodes: seq<Digest>, k: nat): seq<Digest>
    decreases k
  {
    if k == 0 then nodes else NodesAbove(h, ParentLayer(h, nodes), k - 1)
  }

  function Indexed(nodes: seq<Digest>): Layer {
    seq(|nodes|, i requires 0 <= i < |nodes| => Node(i, nodes[i]))
  }

  // The full tree; no layers at all when there are no leaves.
  function FullTree(h: Hasher, leaves: seq<Digest>): seq<Layer> {
    if leaves == [] then []
    else seq(TreeDepth(|leaves|) + 1, k requires 0 <= k => Indexed(NodesAbove(h, leaves, k)))
  }

  // The root of the full tree over a non-empty list of leaves.
  function MerkleRoot(h: Hasher, leaves: seq<Digest>): Digest
    requires 0 < |leaves| <= MAX_LEAVES
  {
    RootIsAlone(h, leaves);
    NodesAbove(h, leaves, TreeDepth(|leaves|))[0]
  }

  lemma {:induction false} OneMoreLevel(h: Hasher, nodes: seq<Digest>, k: nat)
    ensures NodesAbove(h, nodes, k + 1) == ParentLayer(h, NodesAbove(h, nodes, k))
    decreases k
  {
    if k > 0 {
      OneMoreLevel(h, ParentLayer(h, nodes), k - 1);
    }
  }

  lemma {:induction false} LevelWidth(h: Hasher, nodes: seq<Digest>, k: nat)
    ensures |NodesAbove(h, nodes, k)| == Width(|nodes|, k)
    decreases k
  {
    if k > 0 {
      LevelWidth(h, nodes, k - 1);
      OneMoreLevel(h, nodes, k - 1);
    }
  }

  lemma RootIsAlone(h: Hasher, leaves: seq<Digest>)
    requires 0 < |leaves| <= MAX_LEAVES
    ensures |NodesAbove(h, leaves, TreeDepth(|leaves|))| == 1
  {
    WidthAtDepth(|leaves|);
    LevelWidth(h, leaves, TreeDepth(|leaves|));
  }

  lemma FullTreeRoot(h: Hasher, leaves: seq<Digest>)
    requires 0 < |leaves| <= MAX_LEAVES
    ensures RootOf(FullTree(h, leaves)) == Some(MerkleRoot(h, leaves))
  {
    RootIsAlone(h, leaves);
  }
}
