// The hash of a list of leaves, defined by splitting the list, not layer by layer:
// the root of the tree is that hash.
module TreeHashes {
  import opened Hashing
  import opened Indices
  import opened CanonicalTree

  // The largest power of two below n.
  function Split(n: nat): (k: nat)
    requires n > 1
    ensures 0 < k < n <= 2 * k
  {
    if n == 2 then 1 else 2 * Split((n + 1) / 2)
  }

  lemma {:induction false} SplitIsPower(n: nat, k: nat)
    requires Pow2(k) < n <= Pow2(k + 1)
    ensures Split(n) == Pow2(k)
  {
    if n > 2 {
      SplitIsPower((n + 1) / 2, k - 1);
    }
  }

  // One leaf is its own hash; of more leaves the longest complete tree stands on the
  // left, and the two hashes are hashed together, the left one first.
  function TreeHash(h: Hasher, leaves: seq<Digest>): Digest
    requires leaves != []
    decreases |leaves|
  {
    if |leaves| == 1 then leaves[0]
    else
      var k := Split(|leaves|);
      h(TreeHash(h, leaves[..k]).bytes + TreeHash(h, leaves[k..]).bytes)
  }

  lemma ParentsOfConcat(h: Hasher, a: seq<Digest>, b: seq<Digest>)
    requires |a| % 2 == 0
    ensures ParentLayer(h, a + b) == ParentLayer(h, a) + ParentLayer(h, b)
  {
    var n := |a| / 2;
    forall i | 0 <= i < DivCeil(|a + b|, 2)
      ensures ParentHash(h, a + b, i) == (ParentLayer(h, a) + ParentLayer(h, b))[i]
    {
      if i >= n {
        assert (a + b)[2 * i] == b[2 * (i - n)];
      }
    }
  }

  // Above a complete tree on the left, both sides are built apart.
  lemma {:induction false} AboveConcat(h: Hasher, a: seq<Digest>, b: seq<Digest>, k: nat, i: nat)
    requires |a| == Pow2(i) && k <= i
    ensures NodesAbove(h, a + b, k) == NodesAbove(h, a, k) + NodesAbove(h, b, k)
    decreases k
  {
    if k > 0 {
      ParentsOfConcat(h, a, b);
      AboveConcat(h, ParentLayer(h, a), ParentLayer(h, b), k - 1, i - 1);
    }
  }

  lemma ParentOfFew(h: Hasher, a: Digest, b: Digest)
    ensures ParentLayer(h, [a]) == [a] && ParentLayer(h, [a, b]) == [h(a.bytes + b.bytes)]
  {
  }

  lemma TreeHashUnfold(h: Hasher, leaves: seq<Digest>)
    requires leaves != []
    ensures TreeHash(h, leaves) ==
      if |leaves| == 1 then leaves[0]
      else
        var k := Split(|leaves|);
        h(TreeHash(h, leaves[..k]).bytes + TreeHash(h, leaves[k..]).bytes)
  {
  }

  // High enough above the leaves only their hash is left.
  lemma {:induction false} HashIsLeft(h: Hasher, leaves: seq<Digest>, k: nat)
    requires 0 < |leaves| <= Pow2(k)
    ensures NodesAbove(h, leaves, k) == [TreeHash(h, leaves)]
    decreases k
  {
    hide ParentLayer, TreeHash, Split;
    TreeHashUnfold(h, leaves);
    if k > 0 {
      OneMoreLevel(h, leaves, k - 1);
      hide NodesAbove;
      if |leaves| <= Pow2(k - 1) {
        HashIsLeft(h, leaves, k - 1);
        ParentOfFew(h, TreeHash(h, leaves), TreeHash(h, leaves));
      } else {
        var half := Pow2(k - 1);
        SplitIsPower(|leaves|, k - 1);
        var a, b := leaves[..half], leaves[half..];
        assert leaves == a + b;
        AboveConcat(h, a, b, k - 1, k - 1);
        HashIsLeft(h, a, k - 1);
        HashIsLeft(h, b, k - 1);
        ParentOfFew(h, TreeHash(h, a), TreeHash(h, b));
        assert [TreeHash(h, a)] + [TreeHash(h, b)] == [TreeHash(h, a), TreeHash(h, b)];
      }
    }
  }

  lemma RootIsTreeHash(h: Hasher, leaves: seq<Digest>)
    requires 0 < |leaves| <= MAX_LEAVES
    ensures MerkleRoot(h, leaves) == TreeHash(h, leaves)
  {
    TreeDepthIsLeast(|leaves|);
    HashIsLeft(h, leaves, TreeDepth(|leaves|));
  }
}
