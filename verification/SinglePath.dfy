// What verification of a single leaf proves when nothing is known about the
// claimed position: the path from the leaf to the root is read from the top
// downwards, and every node on it is a node of the full tree.
module SinglePaths {
  import opened Wrappers
  import opened Hashing
  import opened Addresses
  import opened Indices
  import opened Layers
  import opened PartialTrees
  import opened CanonicalTree
  import opened Rebuild
  import opened Commits
  import opened MerkleProofs
  import opened ProofTheorems

  function LeafHashes(h: Hasher, accounts: seq<AccountAddress>): (leaves: seq<Digest>)
    ensures |leaves| == |accounts|
  {
    seq(|accounts|, i requires 0 <= i < |accounts| => h(accounts[i]))
  }

  // The bytes of two adjacent nodes, as they are hashed.
  ghost predicate IsPair(nodes: seq<Digest>, i: nat, bytes: seq<byte>) {
    2 * i + 1 < |nodes| && bytes == nodes[2 * i].bytes + nodes[2 * i + 1].bytes
  }

  ghost predicate HasPair(nodes: seq<Digest>, bytes: seq<byte>) {
    exists i: nat :: IsPair(nodes, i, bytes)
  }

  // Everything that is hashed in the course of making the full tree.
  ghost predicate IsInput(h: Hasher, accounts: seq<AccountAddress>, bytes: seq<byte>) {
    || bytes in accounts
    || exists k: nat :: HasPair(NodesAbove(h, LeafHashes(h, accounts), k), bytes)
  }

  ghost predicate IsNode(h: Hasher, accounts: seq<AccountAddress>, d: Digest) {
    exists k: nat :: d in NodesAbove(h, LeafHashes(h, accounts), k)
  }

  ghost predicate CollidesWithTree(h: Hasher, accounts: seq<AccountAddress>, bytes: seq<byte>) {
    exists input :: IsInput(h, accounts, input) && Collide(h, bytes, input)
  }

  // Two nodes that verification has hashed together collide with an input of the tree.
  ghost predicate PathCollides(h: Hasher, accounts: seq<AccountAddress>, path: seq<Layer>) {
    exists k :: 0 <= k < |path| && LayerCollides(h, accounts, path[k])
  }

  ghost predicate LayerCollides(h: Hasher, accounts: seq<AccountAddress>, layer: Layer) {
    |layer| == 2 && CollidesWithTree(h, accounts, layer[0].hash.bytes + layer[1].hash.bytes)
  }

  // Every node is the hash of an input: nodes without a sibling are promoted.
  lemma {:induction false} NodesAreHashes(h: Hasher, accounts: seq<AccountAddress>, k: nat, i: nat)
    returns (input: seq<byte>)
    requires i < |NodesAbove(h, LeafHashes(h, accounts), k)|
    ensures IsInput(h, accounts, input) && h(input) == NodesAbove(h, LeafHashes(h, accounts), k)[i]
    decreases k
  {
    var leaves := LeafHashes(h, accounts);
    if k == 0 {
      input := accounts[i];
    } else {
      OneMoreLevel(h, leaves, k - 1);
      hide NodesAbove, LeafHashes;
      var below := NodesAbove(h, leaves, k - 1);
      assert NodesAbove(h, leaves, k)[i] == ParentHash(h, below, i);
      if 2 * i + 1 < |below| {
        input := below[2 * i].bytes + below[2 * i + 1].bytes;
        assert IsPair(below, i, input);
        assert HasPair(below, input);
      } else {
        input := NodesAreHashes(h, accounts, k - 1, 2 * i);
      }
    }
  }

  lemma NodeIsHash(h: Hasher, accounts: seq<AccountAddress>, d: Digest) returns (input: seq<byte>)
    requires IsNode(h, accounts, d)
    ensures IsInput(h, accounts, input) && h(input) == d
  {
    hide NodesAbove, LeafHashes, IsInput;
    var k: nat :| d in NodesAbove(h, LeafHashes(h, accounts), k);
    var i :| 0 <= i < |NodesAbove(h, LeafHashes(h, accounts), k)| && NodesAbove(h, LeafHashes(h, accounts), k)[i] == d;
    input := NodesAreHashes(h, accounts, k, i);
  }

  // An address has 32 bytes and a pair of nodes has 64.
  lemma InputOfPairSize(h: Hasher, accounts: seq<AccountAddress>, l: Digest, r: Digest)
    requires IsInput(h, accounts, l.bytes + r.bytes)
    ensures IsNode(h, accounts, l) && IsNode(h, accounts, r)
  {
    hide NodesAbove, LeafHashes;
    var bytes := l.bytes + r.bytes;
    assert |bytes| == 64;
    var k: nat :| HasPair(NodesAbove(h, LeafHashes(h, accounts), k), bytes);
    var nodes := NodesAbove(h, LeafHashes(h, accounts), k);
    var i: nat :| IsPair(nodes, i, bytes);
    assert bytes[..HASH_SIZE] == l.bytes && bytes[..HASH_SIZE] == nodes[2 * i].bytes;
    assert bytes[HASH_SIZE..] == r.bytes && bytes[HASH_SIZE..] == nodes[2 * i + 1].bytes;
    assert l == nodes[2 * i] && r == nodes[2 * i + 1];
  }

  lemma NoShortPairs(nodes: seq<Digest>, bytes: seq<byte>)
    requires |bytes| < 2 * HASH_SIZE
    ensures !HasPair(nodes, bytes)
  {
    forall i: nat | 2 * i + 1 < |nodes| ensures !IsPair(nodes, i, bytes) {
      assert |nodes[2 * i].bytes + nodes[2 * i + 1].bytes| == 2 * HASH_SIZE;
    }
  }

  lemma InputOfAddressSize(h: Hasher, accounts: seq<AccountAddress>, account: AccountAddress)
    requires IsInput(h, accounts, account)
    ensures account in accounts
  {
    hide NodesAbove, LeafHashes;
    forall k: nat ensures !HasPair(NodesAbove(h, LeafHashes(h, accounts), k), account) {
      NoShortPairs(NodesAbove(h, LeafHashes(h, accounts), k), account);
    }
  }

  // ----- one step down -----

  // A node and, possibly, its sibling.
  ghost predicate IsStep(layer: Layer, index: nat) {
    || (|layer| == 1 && layer[0].index == index)
    || (|layer| == 2 && IsLeftIndex(index) && layer[0].index == index && layer[1].index == index + 1)
    || (|layer| == 2 && !IsLeftIndex(index) && layer[0].index == index - 1 && layer[1].index == index)
  }

  lemma StepUp(h: Hasher, layer: Layer, index: nat)
    requires IsStep(layer, index)
    ensures NextLayer(h, layer) == Ok([Node(ParentIndex(index),
      ConcatAndHash(h, layer[0].hash, if |layer| == 2 then Some(layer[1].hash) else None))])
  {
    var parents := ParentIndices(IndicesOf(layer));
    assert parents == [ParentIndex(index)] by {
      var indices := IndicesOf(layer);
      assert ParentIndices(indices[1..]) == if |layer| == 2 then [ParentIndex(indices[1])] else [] by {
        assert indices[1..] == if |layer| == 2 then [indices[1]] else [];
      }
    }
    var hashes := HashesOf(layer);
    assert ParentNodesFrom(h, parents, hashes, 1) == Ok([]);
    assert GetNode(hashes, 0) == Some(layer[0].hash);
    assert GetNode(hashes, 1) == if |layer| == 2 then Some(layer[1].hash) else None;
    var parent := Node(parents[0], ConcatAndHash(h, layer[0].hash, GetNode(hashes, 1)));
    assert [parent] + [] == [parent];
    assert ParentNodesFrom(h, parents, hashes, 0) == Ok([parent]);
  }

  lemma StepDown(h: Hasher, accounts: seq<AccountAddress>, layer: Layer, index: nat)
    requires IsStep(layer, index) && NextLayer(h, layer).Ok? && |NextLayer(h, layer).value| == 1
    requires IsNode(h, accounts, NextLayer(h, layer).value[0].hash)
    ensures LayerCollides(h, accounts, layer) || forall i :: 0 <= i < |layer| ==> IsNode(h, accounts, layer[i].hash)
  {
    hide IsInput, IsNode;
    StepUp(h, layer, index);
    if |layer| == 2 {
      var l, r := layer[0].hash, layer[1].hash;
      var input := NodeIsHash(h, accounts, h(l.bytes + r.bytes));
      if input == l.bytes + r.bytes {
        InputOfPairSize(h, accounts, l, r);
      } else {
        assert Collide(h, l.bytes + r.bytes, input);
      }
    }
  }

  // ----- the whole path -----

  ghost predicate AllNodes(h: Hasher, accounts: seq<AccountAddress>, layer: Layer) {
    forall i :: 0 <= i < |layer| ==> IsNode(h, accounts, layer[i].hash)
  }

  // Helper layers with nothing but the siblings of a path upwards from an index.
  ghost predicate Siblings(helpers: seq<Layer>, index: nat, rounds: nat)
    decreases rounds
  {
    rounds == 0 || (SiblingOrNone(FirstLayer(helpers), index)
                    && Siblings(RestOfLayers(helpers), ParentIndex(index), rounds - 1))
  }

  ghost predicate SiblingOrNone(layer: Layer, index: nat) {
    layer == [] || (|layer| == 1 && layer[0].index == SiblingIndex(index))
  }

  lemma StepFromParts(node: Node, helpers: Layer)
    requires SiblingOrNone(helpers, node.index)
    ensures IsStep(SortByIndex([node] + helpers), node.index) && IsStep(SortByIndex(helpers + [node]), node.index)
    ensures node in SortByIndex([node] + helpers) && node in SortByIndex(helpers + [node])
  {
    assert [node] + [] == [node] && [] + [node] == [node];
    SortOne(node);
    if helpers != [] {
      assert helpers == [helpers[0]];
      assert [node] + helpers == [node, helpers[0]] && helpers + [node] == [helpers[0], node];
      SortTwo(node, helpers[0]);
      SortTwo(helpers[0], node);
    }
  }

  lemma SortOne(a: Node)
    ensures SortByIndex([a]) == [a]
  {
    assert [a][1..] == [];
  }

  lemma SortTwo(a: Node, b: Node)
    ensures SortByIndex([a, b]) == if a.index <= b.index then [a, b] else [b, a]
  {
    SortOne(b);
    assert [a, b][1..] == [b] && [b][1..] == [];
    assert InsertByIndex(a, []) == [a];
    assert InsertByIndex(a, [b]) == if a.index <= b.index then [a, b] else [b, a];
  }

  lemma StepIsSorted(layer: Layer, index: nat)
    requires IsStep(layer, index)
    ensures SortByIndex(layer) == layer
  {
    if |layer| == 1 {
      assert layer == [layer[0]];
      SortOne(layer[0]);
    } else {
      assert layer == [layer[0], layer[1]];
      SortTwo(layer[0], layer[1]);
    }
  }

  // If the path ends in a node of the tree, then all nodes at its lower end are
  // nodes of the tree, or two nodes on the path collide with it.
  lemma {:induction false} PathDown(h: Hasher, accounts: seq<AccountAddress>, current: Layer, pending: seq<Layer>,
      index: nat, rounds: nat, path: seq<Layer>)
    requires rounds > 0 && BuildLayers(h, current, pending, rounds) == Ok(path)
    requires IsStep(SortByIndex(current + FirstLayer(pending)), index)
    requires Siblings(RestOfLayers(pending), ParentIndex(index), rounds - 1)
    requires RootOf(path).Some? && IsNode(h, accounts, RootOf(path).value)
    ensures path != [] && path[0] == SortByIndex(current + FirstLayer(pending))
    ensures AllNodes(h, accounts, path[0]) || PathCollides(h, accounts, path)
    decreases rounds
  {
    hide BuildLayers, SortByIndex, NextLayer, IsNode, CollidesWithTree, SiblingOrNone, IsStep;
    var layer, rest := SortByIndex(current + FirstLayer(pending)), RestOfLayers(pending);
    StepUp(h, layer, index);
    var next := NextLayer(h, layer).value;
    BuildTail(h, current, pending, rounds, layer, next, path);
    var tail := path[1..];
    assert path == [layer] + tail;
    SomeLayer(h, next, rest, rounds - 1);
    if rounds == 1 {
      assert tail == [next];
    } else {
      StepFromParts(next[0], FirstLayer(rest));
      assert next == [next[0]];
      PathDown(h, accounts, next, rest, ParentIndex(index), rounds - 1, tail);
    }
    if IsNode(h, accounts, next[0].hash) {
      StepDown(h, accounts, layer, index);
    }
    if LayerCollides(h, accounts, layer) || PathCollides(h, accounts, tail) {
      CollisionAbove(h, accounts, layer, tail);
    }
  }

  lemma SomeLayer(h: Hasher, current: Layer, pending: seq<Layer>, rounds: nat)
    ensures BuildLayers(h, current, pending, rounds).Ok? ==> BuildLayers(h, current, pending, rounds).value != []
    ensures BuildLayers(h, current, pending, 0) == Ok([current])
  {
  }

  lemma CollisionAbove(h: Hasher, accounts: seq<AccountAddress>, layer: Layer, tail: seq<Layer>)
    requires LayerCollides(h, accounts, layer) || PathCollides(h, accounts, tail)
    ensures PathCollides(h, accounts, [layer] + tail)
  {
    hide LayerCollides;
    var path := [layer] + tail;
    if LayerCollides(h, accounts, layer) {
      assert path[0] == layer;
    } else {
      var k :| 0 <= k < |tail| && LayerCollides(h, accounts, tail[k]);
      assert path[k + 1] == tail[k];
    }
  }

  // ----- the path that a proof describes -----

  lemma AskedForOne(index: nat, width: nat)
    ensures LayerProofIndices([index], width) in {[], [SiblingIndex(index)]}
    ensures ParentIndices([index]) == [ParentIndex(index)]
  {
    var siblings := SiblingIndices([index]);
    assert siblings == [SiblingIndex(index)] && siblings[..0] == [] && siblings[1..] == [];
    assert SiblingIndex(index) !in [index];
    assert Difference([], [index]) == [];
    assert Difference(siblings, [index]) == [SiblingIndex(index)];
    assert LayerProofIndices([index], width) == Difference(siblings, [index])
        || LayerProofIndices([index], width) == Difference(siblings[..|siblings| - 1], [index]);
    assert [index][1..] == [];
  }

  // For one leaf a proof is asked for at most one hash per layer.
  lemma {:induction false} AskedForSiblings(helpers: seq<Layer>, index: nat, total: nat, k: nat, depth: nat)
    requires k <= depth && IndexLayers(helpers) == ProofIndicesFrom([index], total, k, depth)
    ensures |helpers| == depth - k && Siblings(helpers, index, depth - k)
    decreases depth - k
  {
    hide ParentIndices, LayerProofIndices, Width, ParentIndex, SiblingIndex;
    assert |helpers| == |IndexLayers(helpers)|;
    if k < depth {
      AskedForOne(index, Width(total, k));
      assert helpers != []
          && IndicesOf(helpers[0]) == IndexLayers(helpers)[0] == LayerProofIndices([index], Width(total, k));
      assert |helpers[0]| == |IndicesOf(helpers[0])|;
      assert SiblingOrNone(helpers[0], index) by {
        assert helpers[0] != [] ==> helpers[0][0].index == IndicesOf(helpers[0])[0];
      }
      assert IndexLayers(helpers[1..]) == IndexLayers(helpers)[1..];
      AskedForSiblings(helpers[1..], ParentIndex(index), total, k + 1, depth);
    }
  }

  // The first layer that a proof of one leaf is rebuilt from.
  lemma FirstStep(hashes: seq<Digest>, index: nat, leaf: Digest, total: nat, layers: seq<Layer>)
    requires TreeDepth(total) > 0
    requires ProofLayers(MerkleProof(hashes), [index], [leaf], total) == Some(layers)
    ensures layers != [] && SortByIndex([] + layers[0]) == layers[0] && IsStep(layers[0], index)
    ensures Node(index, leaf) in layers[0]
    ensures Siblings(layers[1..], ParentIndex(index), TreeDepth(total) - 1)
  {
    hide Regroup, ProofIndicesFrom, SortByIndex, TreeDepth, IsStep, ParentIndex, SiblingOrNone;
    var node := Node(index, leaf);
    var asked := ProofIndicesByLayers([index], total);
    var helpers := Regroup(hashes, asked).value;
    RegroupedIndices(hashes, asked);
    AskedForSiblings(helpers, index, total, 0, TreeDepth(total));
    assert ZipNodes([index], [leaf]) == [node];
    SortOne(node);
    assert layers == [SortByIndex(helpers[0] + [node])] + helpers[1..];
    StepFromParts(node, helpers[0]);
    StepIsSorted(layers[0], index);
    assert [] + layers[0] == layers[0];
  }

  // A leaf that is accepted with any position at all is a node of the tree of
  // the accounts, or the path rebuilt from the proof collides with that tree.
  lemma AcceptedLeafIsNode(h: Hasher, accounts: seq<AccountAddress>, proof: MerkleProof, index: nat, leaf: Digest)
    requires 0 < |accounts| <= MAX_LEAVES
    requires ProofRoot(h, proof, [index], [leaf], |accounts|) == Root(MerkleRoot(h, LeafHashes(h, accounts)))
    ensures IsNode(h, accounts, leaf) || PathCollides(h, accounts, RebuiltTree(h, proof, [index], [leaf], |accounts|))
  {
    hide BuildLayers, TreeDepth, ProofLayers, ProofRoot, RebuiltTree, NodesAbove, LeafHashes, PathCollides, IsStep;
    hide ParentIndex, Siblings, SortByIndex;
    var root, depth := MerkleRoot(h, LeafHashes(h, accounts)), TreeDepth(|accounts|);
    TreeDepthIsLeast(|accounts|);
    var layers, tree := RootFound(h, proof, [index], [leaf], |accounts|, root);
    FirstStep(proof.proofHashes, index, leaf, |accounts|, layers);
    RootIsAlone(h, LeafHashes(h, accounts));
    assert root in NodesAbove(h, LeafHashes(h, accounts), depth);
    FirstAndRest(layers);
    PathDown(h, accounts, [], layers, index, depth, tree);
    if AllNodes(h, accounts, tree[0]) {
      var i :| 0 <= i < |tree[0]| && tree[0][i] == Node(index, leaf);
      assert IsNode(h, accounts, tree[0][i].hash);
    }
  }
}
