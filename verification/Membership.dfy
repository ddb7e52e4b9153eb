// Proof of membership in the list of voters: the byte encoding of proofs
// (rs-merkle/src/proof_serializers/direct_hashes_order.rs), the prover
// (off-chain/src/lib.rs) and the on-chain check (voting/src/crypto.rs).
module Membership {
  import opened Wrappers
  import opened Addresses
  import opened Hashing
  import opened Indices
  import opened Layers
  import opened PartialTrees
  import opened CanonicalTree
  import opened Rebuild
  import opened Commits
  import opened MerkleProofs
  import opened ProofTheorems
  import opened SinglePaths

  // ----- DirectHashesOrder -----

  datatype ParseError = WrongProofSize

  function ToBytes(hashes: seq<Digest>): seq<byte> {
    if hashes == [] then [] else hashes[0].bytes + ToBytes(hashes[1..])
  }

  function FromBytes(bytes: seq<byte>): (r: Result<MerkleProof, ParseError>)
    ensures r.Ok? <==> |bytes| % HASH_SIZE == 0
  {
    if |bytes| % HASH_SIZE != 0 then Err(WrongProofSize)
    else Ok(MerkleProof(Chunks(bytes)))
  }

  function Chunks(bytes: seq<byte>): seq<Digest>
    requires |bytes| % HASH_SIZE == 0
  {
    if bytes == [] then []
    else [RawDigest(bytes[..HASH_SIZE])] + Chunks(bytes[HASH_SIZE..])
  }

  method DeserializeProof(bytes: seq<byte>) returns (r: Result<MerkleProof, ParseError>)
    ensures r == FromBytes(bytes)
  {
    if |bytes| % HASH_SIZE != 0 {
      return Err(WrongProofSize);
    }
    var hashesCount := |bytes| / HASH_SIZE;
    var hashes: seq<Digest> := [];
    hide Chunks;
    for i := 0 to hashesCount
      invariant hashes + Chunks(bytes[i * HASH_SIZE..]) == Chunks(bytes)
    {
      var slice := bytes[i * HASH_SIZE..(i + 1) * HASH_SIZE];
      ghost var rest := bytes[i * HASH_SIZE..];
      assert rest[..HASH_SIZE] == slice;
      assert rest[HASH_SIZE..] == bytes[(i + 1) * HASH_SIZE..];
      ChunksUnfold(rest);
      assert Chunks(rest) == [RawDigest(slice)] + Chunks(bytes[(i + 1) * HASH_SIZE..]);
      assert hashes + Chunks(rest) == hashes + [RawDigest(slice)] + Chunks(bytes[(i + 1) * HASH_SIZE..]);
      hashes := hashes + [RawDigest(slice)];
    }
    assert bytes[hashesCount * HASH_SIZE..] == [];
    NoChunks();
    assert hashes + [] == hashes;
    r := Ok(MerkleProof(hashes));
  }

  lemma NoChunks()
    ensures Chunks([]) == []
  {
  }

  lemma ChunksUnfold(bytes: seq<byte>)
    requires bytes != [] && |bytes| % HASH_SIZE == 0
    ensures Chunks(bytes) == [RawDigest(bytes[..HASH_SIZE])] + Chunks(bytes[HASH_SIZE..])
  {
  }

  // Serialized proofs parse back, and parsed bytes serialize back.
  lemma {:induction false} ProofBytesRoundTrip(hashes: seq<Digest>)
    ensures |ToBytes(hashes)| == HASH_SIZE * |hashes|
    ensures FromBytes(ToBytes(hashes)) == Ok(MerkleProof(hashes))
  {
    if hashes != [] {
      ProofBytesRoundTrip(hashes[1..]);
      var bytes := ToBytes(hashes);
      assert bytes[..HASH_SIZE] == hashes[0].bytes;
      assert bytes[HASH_SIZE..] == ToBytes(hashes[1..]);
      assert RawDigest(bytes[..HASH_SIZE]) == hashes[0];
      assert Chunks(bytes) == [hashes[0]] + hashes[1..] == hashes;
    }
  }

  lemma {:induction false} ProofBytesAreCanonical(bytes: seq<byte>)
    requires |bytes| % HASH_SIZE == 0
    ensures ToBytes(Chunks(bytes)) == bytes
  {
    if bytes != [] {
      ProofBytesAreCanonical(bytes[HASH_SIZE..]);
      assert bytes == bytes[..HASH_SIZE] + bytes[HASH_SIZE..];
      assert Chunks(bytes)[1..] == Chunks(bytes[HASH_SIZE..]);
    }
  }

  // ----- the on-chain check -----

  // A proof as it arrives in a register message; the index is an `i32`.
  datatype MembershipProof = MembershipProof(proof: seq<byte>, leaf: Digest, index: int)

  // `as usize` of a signed 32-bit integer.
  function AsUsize(i: int): nat
    requires -0x8000_0000 <= i < 0x8000_0000
  {
    if i >= 0 then i else i + USIZE_RANGE
  }

  predicate IsI32(i: int) { -0x8000_0000 <= i < 0x8000_0000 }

  // None stands for a trap: the proof does not parse, or is too short.
  function VerifyMembership(h: Hasher, root: Digest, leafCount: int, proof: MembershipProof,
      sender: AccountAddress): Option<bool>
    requires IsI32(leafCount) && IsI32(proof.index)
  {
    match FromBytes(proof.proof)
    case Err(_) => None
    case Ok(merkleProof) =>
      match Verify(h, merkleProof, root, [AsUsize(proof.index)], [proof.leaf], AsUsize(leafCount))
      case None => None
      case Some(valid) => Some(valid && h(sender) == proof.leaf)
  }

  // ----- the prover -----

  // `create_merkle_tree` followed by `root`.
  function VoterRoot(h: Hasher, accounts: seq<AccountAddress>): Digest
    requires 0 < |accounts| <= MAX_LEAVES
  {
    MerkleRoot(h, LeafHashes(h, accounts))
  }

  // The first position of a leaf, the leaf being there.
  function Position(leaves: seq<Digest>, leaf: Digest): (i: nat)
    requires leaf in leaves
    ensures i < |leaves| && leaves[i] == leaf
  {
    if leaves[0] == leaf then 0 else 1 + Position(leaves[1..], leaf)
  }

  // `create_merkle_proof`, for an account that is in the tree.
  function CreateMerkleProof(h: Hasher, account: AccountAddress, accounts: seq<AccountAddress>): MembershipProof
    requires account in accounts
  {
    var leaves := LeafHashes(h, accounts);
    AccountHasLeaf(h, account, accounts);
    var index := Position(leaves, h(account));
    MembershipProof(ToBytes(ProofFor(FullTree(h, leaves), [index]).proofHashes), leaves[index], index)
  }

  lemma AccountHasLeaf(h: Hasher, account: AccountAddress, accounts: seq<AccountAddress>)
    requires account in accounts
    ensures h(account) in LeafHashes(h, accounts)
  {
    var i :| 0 <= i < |accounts| && accounts[i] == account;
    assert LeafHashes(h, accounts)[i] == h(account);
  }

  // Every listed account can register with the proof made for it.
  lemma MembershipIsComplete(h: Hasher, account: AccountAddress, accounts: seq<AccountAddress>)
    requires account in accounts && |accounts| < 0x8000_0000
    ensures var proof := CreateMerkleProof(h, account, accounts);
      VerifyMembership(h, VoterRoot(h, accounts), |accounts|, proof, account) == Some(true)
  {
    var leaves := LeafHashes(h, accounts);
    var proof := CreateMerkleProof(h, account, accounts);
    AccountHasLeaf(h, account, accounts);
    var indices: seq<nat> := [proof.index];
    ProofBytesRoundTrip(ProofFor(FullTree(h, leaves), indices).proofHashes);
    ProofsAreComplete(h, leaves, indices);
    assert HashesAt(leaves, indices) == [proof.leaf];
  }

  // A proof is accepted only for the hash of the sender, and if it leads to the
  // root of the tree.
  lemma AcceptedProof(h: Hasher, accounts: seq<AccountAddress>, proof: MembershipProof, sender: AccountAddress)
    requires 0 < |accounts| < 0x8000_0000 && IsI32(proof.index)
    requires VerifyMembership(h, VoterRoot(h, accounts), |accounts|, proof, sender) == Some(true)
    ensures h(sender) == proof.leaf && FromBytes(proof.proof).Ok?
    ensures ProofRoot(h, FromBytes(proof.proof).value, [AsUsize(proof.index)], [proof.leaf], |accounts|)
         == Root(VoterRoot(h, accounts))
  {
    hide ProofRoot, FromBytes, VoterRoot;
  }

  // The nodes that the check computes on the way from the claimed leaf to the root.
  function RebuiltPath(h: Hasher, accounts: seq<AccountAddress>, proof: MembershipProof): seq<Layer>
    requires IsI32(proof.index) && FromBytes(proof.proof).Ok?
  {
    RebuiltTree(h, FromBytes(proof.proof).value, [AsUsize(proof.index)], [proof.leaf], |accounts|)
  }

  // Whatever position is claimed, an accepted sender is a listed account, unless
  // the sender's address, or two nodes rebuilt from the proof, collide with
  // something that is hashed when the tree of the listed accounts is made.
  lemma MembershipIsSound(h: Hasher, accounts: seq<AccountAddress>, proof: MembershipProof, sender: AccountAddress)
    requires 0 < |accounts| < 0x8000_0000 && IsI32(proof.index)
    requires VerifyMembership(h, VoterRoot(h, accounts), |accounts|, proof, sender) == Some(true)
    ensures FromBytes(proof.proof).Ok?
    ensures || sender in accounts
            || CollidesWithTree(h, accounts, sender)
            || PathCollides(h, accounts, RebuiltPath(h, accounts, proof))
  {
    hide VerifyMembership, IsNode, IsInput, ProofRoot, RebuiltTree, PathCollides, FromBytes;
    AcceptedProof(h, accounts, proof, sender);
    AcceptedLeafIsNode(h, accounts, FromBytes(proof.proof).value, AsUsize(proof.index), proof.leaf);
    if IsNode(h, accounts, proof.leaf) {
      var input := NodeIsHash(h, accounts, h(sender));
      if input == sender {
        InputOfAddressSize(h, accounts, sender);
      } else {
        assert Collide(h, sender, input);
      }
    }
  }

  // For a position within the list the sender is the very account at that
  // position, unless the two addresses collide or the rebuilt tree collides with
  // the full one.
  lemma MembershipAtPosition(h: Hasher, accounts: seq<AccountAddress>, proof: MembershipProof, sender: AccountAddress)
    requires 0 <= proof.index < |accounts| < 0x8000_0000
    requires VerifyMembership(h, VoterRoot(h, accounts), |accounts|, proof, sender) == Some(true)
    ensures FromBytes(proof.proof).Ok?
    ensures sender == accounts[proof.index]
         || Collide(h, sender, accounts[proof.index])
         || CollisionInTree(h, RebuiltPath(h, accounts, proof), LeafHashes(h, accounts))
  {
    var leaves := LeafHashes(h, accounts);
    var indices: seq<nat> := [proof.index];
    ProofsAreSound(h, leaves, FromBytes(proof.proof).value, indices, [proof.leaf]);
    if [proof.leaf] == HashesAt(leaves, indices) {
      assert proof.leaf == HashesAt(leaves, indices)[0] == leaves[proof.index];
    }
  }
}
