// The Merkle tree with history (rs-merkle/src/merkle_tree.rs).
module MerkleTrees {
  import opened Wrappers
  import opened Hashing
  import opened Indices
  import opened Layers
  import opened PartialTrees
  import opened CanonicalTree
  import opened Commits
  import opened MerkleProofs

  class MerkleTree {
    const hasher: Hasher
    const currentWorkingTree: PartialTree
    var history: seq<seq<Layer>>
    var uncommittedLeaves: seq<Digest>

    // The batches of leaves committed and not rolled back, oldest first.
    ghost var committed: seq<seq<Digest>>

    // The working tree is the full tree over all committed leaves, and the
    // history holds the diff of every commit.
    ghost predicate Valid()
      reads this, currentWorkingTree
    {
      && NonEmptyBatches(committed)
      && |CommittedLeaves()| <= MAX_LEAVES
      && currentWorkingTree.layers == FullTree(hasher, CommittedLeaves())
      && IsHistory(hasher, committed, history)
    }

    ghost function CommittedLeaves(): seq<Digest>
      reads this
    {
      Flatten(committed)
    }

    // `new`
    constructor (hasher: Hasher)
      ensures Valid() && fresh(currentWorkingTree)
      ensures this.hasher == hasher && committed == [] && uncommittedLeaves == []
    {
      this.hasher := hasher;
      var tree := new PartialTree();
      currentWorkingTree := tree;
      history := [];
      uncommittedLeaves := [];
      committed := [];
    }

    // `from_leaves`. Of more than 2 to the 32 leaves nothing is kept: the tree has
    // one empty layer, and no root.
    constructor FromLeaves(hasher: Hasher, leaves: seq<Digest>)
      ensures fresh(currentWorkingTree) && this.hasher == hasher && uncommittedLeaves == []
      ensures |leaves| <= MAX_LEAVES ==> Valid() && CommittedLeaves() == leaves
      ensures |leaves| > MAX_LEAVES ==> currentWorkingTree.layers == [[]] && RootOf(currentWorkingTree.layers).None?
    {
      this.hasher := hasher;
      var tree := new PartialTree();
      currentWorkingTree := tree;
      history := [];
      uncommittedLeaves := [];
      committed := [];
      new;
      Append(leaves);
      Commit();
    }

    method Insert(leaf: Digest)
      modifies this`uncommittedLeaves
      ensures uncommittedLeaves == old(uncommittedLeaves) + [leaf]
    {
      uncommittedLeaves := uncommittedLeaves + [leaf];
    }

    method Append(leaves: seq<Digest>)
      modifies this`uncommittedLeaves
      ensures uncommittedLeaves == old(uncommittedLeaves) + leaves
    {
      uncommittedLeaves := uncommittedLeaves + leaves;
    }

    method AbortUncommitted()
      modifies this`uncommittedLeaves
      ensures uncommittedLeaves == []
    {
      uncommittedLeaves := [];
    }

    // `uncommitted_diff`
    method ComputeUncommittedDiff() returns (diff: Option<seq<Layer>>)
      ensures diff == UncommittedDiff(hasher, currentWorkingTree.layers, uncommittedLeaves)
    {
      if uncommittedLeaves == [] {
        return None;
      }
      var committedLeavesCount := LeavesLen(currentWorkingTree.layers);
      var leavesInNewTree := committedLeavesCount + |uncommittedLeaves|;
      var shadowIndices := Range(committedLeavesCount, leavesInNewTree);
      var shadowNodeTuples := ShadowTuples(committedLeavesCount, uncommittedLeaves);
      var partialTreeTuples := ComputeHelperNodeTuples(currentWorkingTree.layers, shadowIndices);
      var uncommittedTreeDepth := ComputeTreeDepth(leavesInNewTree);
      partialTreeTuples := WithFirstLayer(partialTreeTuples, shadowNodeTuples);
      var built := BuildTree(hasher, partialTreeTuples, uncommittedTreeDepth);
      diff := match built case Ok(layers) => Some(layers) case Err(_) => None;
    }

    // Commits the uncommitted leaves. Up to 2 to the 32 leaves in all, the
    // working tree becomes the full tree over all leaves; beyond that the new
    // leaves are lost.
    method Commit()
      requires Valid()
      modifies this`history, this`uncommittedLeaves, this`committed, currentWorkingTree
      ensures uncommittedLeaves == []
      ensures old(|CommittedLeaves()| + |uncommittedLeaves|) <= MAX_LEAVES ==>
                && Valid()
                && CommittedLeaves() == old(CommittedLeaves() + uncommittedLeaves)
                && committed == if old(uncommittedLeaves) == [] then old(committed)
                    else old(committed) + [old(uncommittedLeaves)]
      ensures old(|CommittedLeaves()| + |uncommittedLeaves|) > MAX_LEAVES ==>
                currentWorkingTree.layers == if old(CommittedLeaves()) == [] then [[]]
                    else old(currentWorkingTree.layers)
    {
      hide FullTree, Merged, Diffs, BuildLayers, WithFirstLayer, HelperNodeTuples, TreeDepth;
      ghost var leaves, past := uncommittedLeaves, CommittedLeaves();
      LeavesOfFullTree(hasher, past);
      var diff := ComputeUncommittedDiff();
      if leaves != [] {
        if |past| + |leaves| <= MAX_LEAVES {
          var d := CommitIsCanonical(hasher, past, leaves);
        } else {
          OversizedCommit(hasher, past, leaves);
        }
      }
      if diff.Some? {
        history := history + [diff.value];
        currentWorkingTree.MergeUnverified(diff.value);
        uncommittedLeaves := [];
        committed := committed + [leaves];
        BatchesExtended(hasher, old(committed), leaves, old(history), diff.value);
      }
    }

    // Undoes the last commit: the working tree is again the full tree over the
    // leaves committed before it.
    method Rollback()
      requires Valid()
      modifies this`history, this`committed, currentWorkingTree
      ensures Valid()
      ensures committed == if old(committed) == [] then [] else old(committed)[..|old(committed)| - 1]
    {
      DiffsLength(hasher, committed);
      if history != [] {
        HistoryBefore(hasher, committed, history);
        history := history[..|history| - 1];
        committed := committed[..|committed| - 1];
        assert Flatten(old(committed)) == Flatten(committed) + old(committed)[|committed|];
      }
      currentWorkingTree.Clear();
      ghost var kept, batches := history, committed;
      ReplayNothing();
      hide Replay, Merged, IsHistory, FullTree, Flatten;
      for i := 0 to |history|
        invariant history == kept && committed == batches
        invariant currentWorkingTree.layers == Replay(history[..i])
      {
        currentWorkingTree.MergeUnverified(history[i]);
        ReplayUnfold(history, i);
      }
      assert history[..|history|] == history;
      ReplayIsCanonical(hasher, committed, history);
    }

    function Root(): (root: Option<Digest>)
      requires Valid()
      reads this, currentWorkingTree
      ensures root == if CommittedLeaves() == [] then None else Some(MerkleRoot(hasher, CommittedLeaves()))
    {
      RootOfFullTree(hasher, CommittedLeaves());
      currentWorkingTree.Root()
    }

    // The root a commit would produce: nothing when there is nothing to commit,
    // or when there are too many leaves.
    method UncommittedRoot() returns (root: Option<Digest>)
      requires Valid()
      ensures root == if uncommittedLeaves == [] || |CommittedLeaves()| + |uncommittedLeaves| > MAX_LEAVES then None
                      else Some(MerkleRoot(hasher, CommittedLeaves() + uncommittedLeaves))
    {
      var shadowTree := ComputeUncommittedDiff();
      if uncommittedLeaves != [] {
        if |CommittedLeaves()| + |uncommittedLeaves| <= MAX_LEAVES {
          var diff := CommitIsCanonical(hasher, CommittedLeaves(), uncommittedLeaves);
        } else {
          OversizedCommit(hasher, CommittedLeaves(), uncommittedLeaves);
        }
      }
      root := match shadowTree case None => None case Some(layers) => RootOf(layers);
    }

    function Leaves(): (leaves: Option<seq<Digest>>)
      requires Valid()
      reads this, currentWorkingTree
      ensures leaves == if CommittedLeaves() == [] then None else Some(CommittedLeaves())
    {
      if currentWorkingTree.layers == [] then None
      else
        assert HashesOf(Indexed(CommittedLeaves())) == CommittedLeaves();
        Some(HashesOf(currentWorkingTree.layers[0]))
    }

    // `proof`: the helper hashes for the given leaves, bottom to top.
    method Proof(leafIndices: seq<nat>) returns (proof: MerkleProof)
      ensures proof == ProofFor(currentWorkingTree.layers, leafIndices)
    {
      var helperNodes: seq<Digest> := [];
      var tuples := ComputeHelperNodeTuples(currentWorkingTree.layers, leafIndices);
      for k := 0 to |tuples|
        invariant helperNodes + FlatHashes(tuples[k..]) == FlatHashes(tuples)
      {
        helperNodes := helperNodes + HashesOf(tuples[k]);
        assert tuples[k..][1..] == tuples[k + 1..];
      }
      proof := MerkleProof(helperNodes);
    }
  }

  lemma RootOfFullTree(h: Hasher, leaves: seq<Digest>)
    requires |leaves| <= MAX_LEAVES
    ensures RootOf(FullTree(h, leaves)) == if leaves == [] then None else Some(MerkleRoot(h, leaves))
  {
    if leaves != [] {
      FullTreeRoot(h, leaves);
    }
  }

  lemma LeavesOfFullTree(h: Hasher, leaves: seq<Digest>)
    ensures LeavesLen(FullTree(h, leaves)) == |leaves|
  {
  }

  lemma DiffsUnfold(h: Hasher, batches: seq<seq<Digest>>, leaves: seq<Digest>)
    ensures Diffs(h, batches + [leaves])
        == Diffs(h, batches) + [UncommittedDiff(h, FullTree(h, Flatten(batches)), leaves)]
  {
    assert (batches + [leaves])[..|batches|] == batches;
  }

  lemma BatchesExtended(h: Hasher, batches: seq<seq<Digest>>, leaves: seq<Digest>, history: seq<seq<Layer>>,
      diff: seq<Layer>)
    requires IsHistory(h, batches, history)
    requires UncommittedDiff(h, FullTree(h, Flatten(batches)), leaves) == Some(diff)
    ensures Flatten(batches + [leaves]) == Flatten(batches) + leaves
    ensures IsHistory(h, batches + [leaves], history + [diff])
  {
    hide Diffs, UncommittedDiff, FullTree;
    assert (batches + [leaves])[..|batches|] == batches;
    DiffsUnfold(h, batches, leaves);
    var before := seq(|history|, i requires 0 <= i < |history| => Some(history[i]));
    var after := seq(|history| + 1, i requires 0 <= i < |history| + 1 => Some((history + [diff])[i]));
    assert after == before + [Some(diff)];
  }
}
