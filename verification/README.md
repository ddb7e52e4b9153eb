# Verified models of the Open Vote Network and its neighbours

This project models, in Dafny, the parts of a repository of Concordium smart
contracts that carry its guarantees, and proves them:

- **Merkle trees** (`Hashing`, `Indices`, `Layers`, `PartialTree`, `CanonicalTree`, `TreeHash`, `Rebuild`, `Commits`,
  `MerkleTree`, `MerkleProof`, `ProofTheorems`, `SinglePath`, `Membership`): an incremental tree that commits
  by building only a diff and merging it without rehashing, with rollback and multi-proofs. The reference
  definition is the tree built from all leaves at once, whose root is the recursive hash of the list.
- **Voting** (`PrimeField`, `VotingCrypto`, `Verifiers`, `SelfTally`, `VotingState`, `VotingSafety`, `Voting`,
  `ElectionResult`, `Eligibility`, `HonestVoter`, `Records`, `Evidence`, `Timeline`, `Acceptance`, `Deposits`,
  `StuckElection`): a self-tallying vote with deposits. The group is the integers modulo a prime, points being
  named by their multiple of the generator. The contract is a class whose methods are proved equal to step
  functions; safety, deposits and termination are proved over runs.
- **Contract state** (`Bytes`, `StateStore`, `StateMap`, `StateWorld`): maps, sets and boxes that share one
  store from byte strings to byte strings.
- **Codecs** (`Schema`, `SchemaLayout`, `OrderedCodecs`, `Amount`): prefix codes, ordered and unordered
  decoding, decimal amounts.
- **Contracts that hold money or tokens** (`Auction`, `Cis1`, `Cis1Nft`, `NftEffects`, `Cis1Multi`,
  `MultiEffects`, `Commerce`, `Payouts`, with `Addresses`, `Totals` and `Permutations`): conservation over
  every run, with reentrant calls where there are any.

`dafny verify dfyconfig.toml` checks the whole project.

## Conventions

- A rejected or trapped call leaves the chain as it was; `None` stands for a trap where a function says so.
  A transfer succeeds exactly when the balance covers it.
- No profile of the repository turns overflow checks on, so unsigned arithmetic wraps around; it is written
  out wherever it can matter (`% U64_RANGE`, `WrapI32`). `usize` is taken to have 64 bits; on chain, where it
  has 32, all counts and positions are signed 32-bit numbers, and the depth of an impossible count is 0 as
  well; what an accepted proof of one leaf shows (`SinglePaths.AcceptedLeafIsNode`) holds for every position.
- Hash functions, the encoding of curve points, the hash to a scalar and the UTF-8 check are parameters, about
  which nothing is assumed. "Or a collision" always means a pair of inputs at a stated place, not mere
  existence.
- Classes have the fields of the structures they model; loops of the source are loops here. Each such method
  is proved against a function of its inputs or of the old state, and the theorems are about that function.
  The fields `committed` of the Merkle tree, `minted` of the multi token contract, `books` and `paid` of the
  escrow and `paid` of the voting contract are ghost: they record history and are not part of the contracts.
  The ghost field `location` of a box is the key of its entry.
- `hide` statements only keep definitions out of proofs that do not need them.

## Where properties have conditions

- A commit is exact up to 2^32 leaves in all; above that the depth comes out as 0 and the new leaves are lost
  (`Commits.OversizedCommit`).
- The documentation of the Merkle proof asks for sorted, existing leaf indices; so do the two theorems about
  proofs of many leaves. For one leaf, as the voting contract checks it, nothing is asked of the index.
- The refund loop of the voting contract pays voters again who already got their deposit back, so an abort
  from Vote can fail; `VotingSafety.AbortSucceedsIff` says exactly when, and `StuckElections.AbortCanFail` gives
  runs, for any number of voters, that lead to such a failure.
- A single voter's election does not tally correctly in general (`SelfTally.LoneVoter` says exactly when).
- The contract does not tie the points of a vote proof to the vote; no theorem says that a recorded vote is a
  zero or a one, only that its proof meets the equations (`Evidence.EverythingIsProved`).
  `ElectionResults.ResultCountsTheVotes` is about ballots made by the voters' software.
- The escrow records every purchase as one of item 0, and an abort pays the price of the item in its own
  parameter. It is exact if and only if every accepted request and every accepted abort names an item that
  costs what item 0 costs (`Commerce.EscrowIsExactIff`); `SecondListingUnbalances` and `AbortUnbalances` are
  the two ways to break it. The timeout guard compares two offsets of the same timestamp
  (`Commerce.TimeoutIff`).
- A schema, and a map with its length in front, reads back exactly when its lengths fit in 32 bits.

## Model

| member | source | states |
|---|---|---|
| `MerkleTrees.MerkleTree.constructor` | open-vote-network/rs-merkle/src/merkle_tree.rs:37-43 | a new tree is the full tree over no leaves |
| `MerkleTrees.MerkleTree.FromLeaves` | open-vote-network/rs-merkle/src/merkle_tree.rs:62-67 | the tree made from a list of at most 2^32 leaves is the full tree over them; of a longer list nothing is kept, and the tree has no root |
| `MerkleTrees.MerkleTree.Insert` | open-vote-network/rs-merkle/src/merkle_tree.rs:247-250 | one leaf is added behind the uncommitted leaves; the tree is untouched |
| `MerkleTrees.MerkleTree.Append` | open-vote-network/rs-merkle/src/merkle_tree.rs:278-281 | leaves are added behind the uncommitted leaves, in order; the tree is untouched |
| `MerkleTrees.MerkleTree.Commit` | open-vote-network/rs-merkle/src/merkle_tree.rs:313-319 | after any history of calls the working tree equals, node for node, the tree built from all committed leaves at once, up to 2^32 leaves; beyond that the new leaves are lost and the tree stays as it was |
| `MerkleTrees.MerkleTree.Rollback` | open-vote-network/rs-merkle/src/merkle_tree.rs:352-363 | after any history of commits the tree is exactly the one before the last commit |
| `MerkleTrees.MerkleTree.Root` | open-vote-network/rs-merkle/src/merkle_tree.rs:97-99 | the root is the root of the full tree over all committed leaves, and absent without leaves |
| `MerkleTrees.MerkleTree.UncommittedRoot` | open-vote-network/rs-merkle/src/merkle_tree.rs:369-372 | the root that a following commit produces |
| `MerkleTrees.MerkleTree.ComputeUncommittedDiff` | open-vote-network/rs-merkle/src/merkle_tree.rs:536-572 | the loop-built diff is the specified function of the layers and the new leaves |
| `MerkleTrees.MerkleTree.Leaves` | open-vote-network/rs-merkle/src/merkle_tree.rs:489-491 | the leaves are all committed leaves, in order |
| `MerkleTrees.MerkleTree.Proof` | open-vote-network/rs-merkle/src/merkle_tree.rs:198-200 | the proof is the flat list of helper hashes, bottom to top, for which completeness is proved |
| `MerkleTrees.MerkleTree.AbortUncommitted` | open-vote-network/rs-merkle/src/merkle_tree.rs:442-444 | forgets the uncommitted leaves and nothing else |
| `Commits.ComputeHelperNodeTuples` | open-vote-network/rs-merkle/src/merkle_tree.rs:147-168 | the loop over layers finds exactly the specified helpers, layer by layer |
| `Commits.DiffIsKnownPart` | open-vote-network/rs-merkle/src/merkle_tree.rs:536-572 | building the diff never fails, and its layers are the nodes of the new full tree that the new leaves determine |
| `Commits.CommitIsCanonical` | open-vote-network/rs-merkle/src/merkle_tree.rs:313-319 | merging a diff, without rehashing, into the full tree over the old leaves gives the full tree over all leaves; the diff alone has the new root; the `usize` subtraction in the merge does not wrap |
| `Commits.OversizedCommit` | open-vote-network/rs-merkle/src/merkle_tree.rs:536-572 | with more than 2^32 leaves in all the diff is one empty layer and merging it loses the new leaves: the exact complement of the case above |
| `Commits.HistoryBefore` | open-vote-network/rs-merkle/src/merkle_tree.rs:352-363 | the history without its last diff is the history of all commits but the last |
| `Commits.ReplayIsCanonical` | open-vote-network/rs-merkle/src/merkle_tree.rs:352-363 | replaying the diffs of any sequence of commits rebuilds the full tree over all their leaves |
| `PartialTrees.BuildTree` | open-vote-network/rs-merkle/src/partial_tree.rs:49-95 | the loops that drain and refill the current layer compute the recursive definition, errors included |
| `PartialTrees.PartialTree.MergeUnverified` | open-vote-network/rs-merkle/src/partial_tree.rs:120-150 | the loop over layers replaces every layer by its merge with the layer of the other tree |
| `PartialTrees.PartialTree.FilterLayer` | open-vote-network/rs-merkle/src/partial_tree.rs:132-140 | keeps exactly the nodes whose index the other layer does not have |
| `PartialTrees.PartialTree.UpsertLayer` | open-vote-network/rs-merkle/src/partial_tree.rs:153-160 | replaces the layer at an index, or pushes a new last layer |
| `PartialTrees.PartialTree.Clear` | open-vote-network/rs-merkle/src/partial_tree.rs:179-181 | no layers are left |
| `PartialTrees.MergedElements` | open-vote-network/rs-merkle/src/partial_tree.rs:120-150 | a merged layer is in index order, and has the nodes of the other tree and those of the own tree at all other indices |
| `Rebuild.BuildIsKnownPart` | open-vote-network/rs-merkle/src/partial_tree.rs:49-95 | given the helpers of the full tree, a build succeeds and every layer is the part of the full tree above the known leaves, with nodes promoted at odd layer ends |
| `Rebuild.BuildSucceeds` | open-vote-network/rs-merkle/src/partial_tree.rs:49-95 | with nodes at the right indices a build never runs out of helpers and ends in the nodes above the known ones |
| `Rebuild.BuildIsSound` | open-vote-network/rs-merkle/src/merkle_proof.rs:236-249 | if a rebuild ends in the right root, every node that went in was right, or the rebuilt layers exhibit a collision |
| `Hashing.EqualParents` | open-vote-network/rs-merkle/src/hasher.rs:59-70 | equal parents come from equal children or from a collision, for pairs and for promoted nodes |
| `CanonicalTree.FullTreeRoot` | open-vote-network/rs-merkle/src/merkle_tree.rs:97-99 | the last layer of the full tree is one node, the root |
| `TreeHashes.RootIsTreeHash` | open-vote-network/rs-merkle/src/partial_tree.rs:59-96 | the root equals the hash defined by recursive splitting: one leaf stands for itself, and of n leaves the largest power of two below n goes to the left, the hash being that of the left hash followed by the right one |
| `Indices.ComputeTreeDepth` | open-vote-network/rs-merkle/src/utils/indices.rs:35-47 | the loop over powers of two computes the depth function |
| `Indices.TreeDepthIsLeast` | open-vote-network/rs-merkle/src/utils/indices.rs:35-47 | the depth is the least positive exponent whose power of two covers the leaves, up to 2^32 leaves, and 0 above |
| `Indices.WidthAtDepth` | open-vote-network/rs-merkle/src/utils/indices.rs:35-47 | halving and rounding up, a layer at this depth has one node |
| `Indices.ComputeUnevenLayers` | open-vote-network/rs-merkle/src/utils/indices.rs:49-64 | finds exactly the layers below the root with an odd number of nodes |
| `Indices.ComputeProofIndicesByLayers` | open-vote-network/rs-merkle/src/utils/indices.rs:67-99 | the loop computes the indices that a verifier asks for, layer by layer |
| `Indices.ProofIndicesAreHelpers` | open-vote-network/rs-merkle/src/utils/indices.rs:67-99 | dropping the last sibling of an uneven layer asks for the same nodes, in the same order, as looking siblings up in the layer |
| `Indices.ParentIndicesOfIncreasing` | open-vote-network/rs-merkle/src/utils/indices.rs:28-32 | the parents of increasing indices are increasing, and exactly the halves of the indices |
| `Indices.DifferenceElements` | open-vote-network/rs-merkle/src/utils/collections.rs:17-19 | exactly the elements of the first list that are not in the second |
| `Layers.SortElements` | open-vote-network/rs-merkle/src/partial_tree.rs:71-71 | sorting by index keeps exactly the nodes |
| `MerkleProofs.ComputeProofRoot` | open-vote-network/rs-merkle/src/merkle_proof.rs:202-250 | the loop that regroups the hashes, and the rebuild, compute the specified outcome: a root, an error, or the panic on too few hashes |
| `ProofTheorems.VerifierAsksForHelpers` | open-vote-network/rs-merkle/src/merkle_proof.rs:225-234 | for any increasing leaves the verifier asks for exactly the indices that the prover sends |
| `ProofTheorems.ProofRegroups` | open-vote-network/rs-merkle/src/merkle_proof.rs:225-234 | regrouping the flat proof gives back the helpers layer by layer |
| `ProofTheorems.ProofsAreComplete` | open-vote-network/rs-merkle/src/merkle_proof.rs:202-250 | for every tree and every non-empty increasing list of its leaves, the root rebuilt from the proof is the root of the tree |
| `ProofTheorems.ProofsAreSound` | open-vote-network/rs-merkle/src/merkle_proof.rs:159-170 | a proof that leads to the root of the tree proves the leaves of the tree, or the rebuilt layers collide with the tree at a place that is exhibited |
| `SinglePaths.AcceptedLeafIsNode` | open-vote-network/rs-merkle/src/merkle_proof.rs:202-250 | a leaf accepted with any position at all is a node of the tree, or two nodes rebuilt on the path collide with an input of the tree |
| `Membership.DeserializeProof` | open-vote-network/rs-merkle/src/proof_serializers/direct_hashes_order.rs:19-44 | the loop cuts the bytes into hashes, and fails exactly on a wrong length |
| `Membership.ProofBytesRoundTrip` | open-vote-network/rs-merkle/src/proof_serializers/direct_hashes_order.rs:9-44 | a serialized proof parses back to itself |
| `Membership.ProofBytesAreCanonical` | open-vote-network/rs-merkle/src/proof_serializers/direct_hashes_order.rs:9-44 | parsed bytes serialize back to themselves |
| `Membership.MembershipIsComplete` | open-vote-network/voting/src/crypto.rs:87-107 | every listed account passes the on-chain check with the proof made for it |
| `Membership.MembershipIsSound` | open-vote-network/voting/src/crypto.rs:87-107 | whatever position is claimed, an accepted sender is a listed account, or the address or a pair of nodes rebuilt from the proof collides with something hashed in making the tree |
| `Membership.MembershipAtPosition` | open-vote-network/voting/src/crypto.rs:87-107 | for a position within the list the sender is the account at that very position, or a collision is exhibited |
| `VotingCrypto.SchnorrIsComplete` | open-vote-network/voting/src/crypto.rs:14-29 | the honest key proof is accepted, unless a zero in it traps |
| `VotingCrypto.SchnorrExtraction` | open-vote-network/voting/src/crypto.rs:14-29 | two answers to different challenges determine the secret as the only solution of an equation |
| `VotingCrypto.YesIsComplete` | open-vote-network/off-chain/src/lib.rs:42-69 | the honest proof of a one is accepted, unless a zero in it traps; the ballot in it is the mask plus one |
| `VotingCrypto.NoIsComplete` | open-vote-network/off-chain/src/lib.rs:72-99 | the honest proof of a zero is accepted, unless a zero in it traps; the ballot in it is the mask |
| `VotingCrypto.OneInTwoExtraction` | open-vote-network/voting/src/crypto.rs:32-57 | two accepting proofs with the same points and different challenges: the ballot encrypts zero or one under the secret behind x |
| `Verifiers.SchnorrAcceptsIff` | open-vote-network/voting/src/crypto.rs:14-29 | a key proof is accepted exactly if its numbers are in range and r + hash * key is the commitment modulo the prime, the hash being taken of generator plus commitment plus key; it traps exactly on numbers out of range |
| `Verifiers.SchnorrIsSound` | open-vote-network/voting/src/crypto.rs:14-29 | two accepted proofs with one commitment whose hashes differ determine the secret |
| `Verifiers.OneInTwoAcceptsIff` | open-vote-network/voting/src/crypto.rs:32-57 | a ballot proof is accepted exactly if its numbers are in range, d1 + d2 is the hash of the sum of all six points, and the four equations hold modulo the prime; it traps exactly on numbers out of range |
| `Verifiers.OneInTwoIsSound` | open-vote-network/voting/src/crypto.rs:32-57 | two accepted proofs with the same six points whose hashes differ: the ballot is a zero or a one |
| `SelfTally.ComputeReconstructedKey` | open-vote-network/off-chain/src/lib.rs:103-141 | the three-case loop gives the keys before the own position minus the keys after it, and panics exactly on an unknown key |
| `SelfTally.MasksCancel` | open-vote-network/off-chain/src/lib.rs:103-141 | over any number of voters the sum of secret times mask is zero |
| `SelfTally.BruteForceTally` | open-vote-network/voting/src/crypto.rs:65-84 | the tally loop ends after as many rounds as the sum of the ballots says, counting in 32 bits with wrap-around, and traps on no ballots |
| `SelfTally.TallyCountsOnes` | open-vote-network/voting/src/crypto.rs:65-84 | for two or more voters with distinct keys, fewer than the group order, the ballots in any order tally to the number of ones |
| `SelfTally.LoneVoter` | open-vote-network/off-chain/src/lib.rs:103-141 | a single voter's ballot tallies to the vote exactly when the secret is a multiple of the group order |
| `SelfTally.SumOfPermutation` | open-vote-network/voting/src/lib.rs:357-366 | the sum of the ballots does not depend on the order in which they are read |
| `Voting.SetUp` | open-vote-network/voting/src/lib.rs:73-113 | an election starts exactly when its timeouts are in order and in the future, in Registration without voters |
| `Voting.VotingContract.Register` | open-vote-network/voting/src/lib.rs:124-203 | in place: a rejected call leaves the state as it was, an accepted one adds the voter and the deposit, and moves on when all have registered |
| `Voting.VotingContract.Commit` | open-vote-network/voting/src/lib.rs:213-268 | in place: stores key and commitment, or changes nothing |
| `Voting.VotingContract.Vote` | open-vote-network/voting/src/lib.rs:271-341 | in place: stores the vote and pays one deposit to the voter, or changes nothing, also when the transfer fails at the end |
| `Voting.VotingContract.Result` | open-vote-network/voting/src/lib.rs:345-376 | reads the votes in the order of the map, tallies them by brute force and publishes the announced result |
| `Voting.VotingContract.CollectVotes` | open-vote-network/voting/src/lib.rs:357-364 | the points of all votes in order, or the trap on bytes that are no point |
| `Voting.VotingContract.ChangePhase` | open-vote-network/voting/src/lib.rs:379-442 | in place: moves on or aborts as the phase and the clock demand |
| `Voting.VotingContract.RefundDeposits` | open-vote-network/voting/src/lib.rs:445-542 | the loop over transfers succeeds exactly when the balance covers the sum of all refunds, and then has paid one deposit to every honest voter and one to a caller who is entitled to it |
| `Voting.Select` | open-vote-network/voting/src/lib.rs:453-516 | lists every honest voter once, or every stalling one |
| `VotingSafety.InvariantHolds` | open-vote-network/voting/src/lib.rs:137-200 | in every reachable state: phases agree with what voters have submitted, a recorded vote opens its commitment, the balance is D*n in Registration and Commit, D*(n - voted) in Vote, and 0 in Result |
| `VotingSafety.StepAdvances` | open-vote-network/voting/src/lib.rs:73-442 | every call keeps the phase or moves it to the next one or to Abort, and keeps all that is recorded |
| `Timelines.SetupIff` | open-vote-network/voting/src/lib.rs:73-113 | an election is set up exactly if now < registration timeout < commit timeout < vote timeout |
| `Timelines.ChangePhaseOutcome` | open-vote-network/voting/src/lib.rs:379-442 | before the timeout of an unfinished phase nothing happens; after it Registration moves to Commit if there are more than two voters, and otherwise the election is aborted if the refunds are covered |
| `Timelines.AbortsExactlyWhen` | open-vote-network/voting/src/lib.rs:379-442 | of all calls exactly a change_phase call by an account, after the timeout of a phase in which somebody has not done their part and with covered refunds, aborts the election |
| `Timelines.OnlyInTime` | open-vote-network/voting/src/lib.rs:124-442 | a call that changes anything is made by an account in its phase: registrations, commitments and votes until the timeout, change_phase after it |
| `Timelines.VotesAreInTime` | open-vote-network/voting/src/lib.rs:283-303 | over any run every recorded vote was sent by its voter no later than the vote timeout |
| `Acceptance.AcceptedIff` | open-vote-network/voting/src/lib.rs:124-442 | for every call of every entrypoint and every reachable state, exactly when it is accepted, with membership, the proof equations, the opening of the commitment and covered refunds |
| `Acceptance.AdvancesExactlyWhen` | open-vote-network/voting/src/lib.rs:197-421 | a phase ends exactly with the registration of the last listed voter, a late change_phase with more than two voters, the last missing commitment, or the last missing vote; otherwise it stays, or the election is aborted |
| `VotingSafety.RunKeeps` | open-vote-network/voting/src/lib.rs:283-335 | over any run: the voter set is frozen after Registration, commitments after Commit, recorded votes for ever, and phases never go back |
| `VotingSafety.VoteRefundIsCovered` | open-vote-network/voting/src/lib.rs:338-338 | the refund of a voter never lacks funds |
| `VotingSafety.AbortSucceedsIff` | open-vote-network/voting/src/lib.rs:520-527 | an abort that is due succeeds from Registration and Commit always, and from Vote exactly when there is no deposit or 2h + r <= n |
| `StuckElections.AbortCanFail` | open-vote-network/voting/src/lib.rs:379-442 | for any number of voters: a run in which all register and commit, more than half but not all vote, and from then on every abort that is due fails and every other late call is rejected |
| `Deposits.DepositsAreConserved` | open-vote-network/voting/src/lib.rs:124-442 | over any run, aborts included: the balance is one deposit for every voter less one for every transfer, and only deposits are transferred |
| `Deposits.VotersGetTheirDeposit` | open-vote-network/voting/src/lib.rs:338-338 | unless the election is aborted, exactly those who have voted have been paid, once each; in phase Result that is everybody |
| `Deposits.AbortPays` | open-vote-network/voting/src/lib.rs:519-527 | an aborted election has paid one deposit for every registration or reconstructed key, or two for every vote, by the phase it was aborted in, and one more to a caller who has not stalled that phase |
| `VotingSafety.GuardedAbortSucceeds` | open-vote-network/voting/src/lib.rs:531-538 | with the guard of the commented-out loop every abort that is due is covered |
| `VotingSafety.TwoCallsFinish` | open-vote-network/voting/src/lib.rs:383-442 | after all timeouts two calls by accounts end the election from every reachable state, exactly unless the refunds cannot be paid to either caller; then nothing changes |
| `VotingSafety.ResultSucceeds` | open-vote-network/voting/src/lib.rs:349-374 | in phase Result the tally never traps and changes only the announced result |
| `VotingSafety.ResultsAgree` | open-vote-network/voting/src/lib.rs:349-374 | whatever is called in between, repeated results agree |
| `ElectionResults.OrderIsIrrelevant` | open-vote-network/voting/src/lib.rs:357-366 | the result does not depend on the order in which the map hands out the votes |
| `ElectionResults.ResultCountsTheVotes` | open-vote-network/voting/src/lib.rs:356-374 | with honest ballots of two or more voters the announced result is the number of ones and the number of zeros |
| `ElectionResults.CountsAddUp` | open-vote-network/voting/src/lib.rs:356-374 | whatever the ballots are, the two announced numbers are signed 32-bit numbers that add up to the number of voters modulo 2^32 |
| `Eligibility.OnlyListedVoters` | open-vote-network/voting/src/lib.rs:142-151 | over any run every voter is on the list behind the Merkle root, or some call exhibits a hash collision |
| `Evidence.EverythingIsProved` | open-vote-network/voting/src/lib.rs:172-330 | over any run every voter's key proof, and the ballot proof of every recorded vote, meet their equations, and every vote opens its commitment |
| `HonestVoters.HonestRegistrationIsAccepted` | open-vote-network/voting/src/lib.rs:124-203 | a listed account with the proofs made by the off-chain software is registered, unless a zero traps |
| `HonestVoters.CommitmentIsRecorded` | open-vote-network/voting/src/lib.rs:213-267 | a commitment made in time stays on record whatever anybody calls, unless its voter commits again, and any vote recorded later for the voter opens it |
| `HonestVoters.HonestVoteIsAccepted` | open-vote-network/voting/src/lib.rs:271-341 | a committed voter who sends the committed vote with an honest proof in time is recorded, unless a zero traps |
| `HonestVoters.CommitmentBinds` | open-vote-network/voting/src/crypto.rs:60-62 | two votes that open one commitment are the same point, or collide |
| `Records.RecordsAreOwnMessages` | open-vote-network/voting/src/lib.rs:124-341 | over any run an account is registered exactly if it registered itself, its entry consists of the last messages accepted from that account itself, and its vote opens its own last commitment |
| `StateMaps.StateEntry.Truncate` | concordium-rust-smart-contracts-new-contract-state/concordium-std/src/impls.rs:214-236 | shortens the entry only if it is longer, and moves the cursor back inside |
| `StateMaps.StateEntry.WriteAll` | concordium-rust-smart-contracts-new-contract-state/concordium-std/src/impls.rs:376-396 | writes at the cursor over what is there, extending the entry, and moves the cursor past it |
| `StateMaps.StoreValue` | concordium-rust-smart-contracts-new-contract-state/concordium-std/src/impls.rs:618-632 | nothing but the new value is left in the entry |
| `StateMaps.StateRefMut.Get` | concordium-rust-smart-contracts-new-contract-state/concordium-std/src/impls.rs:1136-1162 | the value is loaded at most once, and is the stored one until it is assigned |
| `StateMaps.StateRefMut.Drop` | concordium-rust-smart-contracts-new-contract-state/concordium-std/src/impls.rs:1117-1126 | a loaded value is written back from the start of the entry, without truncation; an unused reference writes nothing |
| `StateMaps.OccupiedEntry.Drop` | concordium-rust-smart-contracts-new-contract-state/concordium-std/src/types.rs:504-519 | the value is stored exactly if it may have been modified |
| `StateMaps.StateMap.Get` | concordium-rust-smart-contracts-new-contract-state/concordium-std/src/impls.rs:864-870 | answers what the store operation answers |
| `StateMaps.StateMap.Insert` | concordium-rust-smart-contracts-new-contract-state/concordium-std/src/impls.rs:882-898 | replaces or adds the entry and returns the previous value; traps leave the store alone |
| `StateMaps.StateMap.Update` | concordium-rust-smart-contracts-new-contract-state/concordium-std/src/impls.rs:874-878 | replacing a value through `get_mut` overwrites the entry without truncating it |
| `StateMaps.StateMap.Modify` | concordium-rust-smart-contracts-new-contract-state/concordium-std/src/impls.rs:901-913 | replacing a value through an occupied entry truncates it first |
| `StateMaps.StateMap.OrInsert` | concordium-rust-smart-contracts-new-contract-state/concordium-std/src/impls.rs:670-675 | the value that is there, or the new one, which is then stored |
| `StateMaps.StateMap.RemoveAndGet` | concordium-rust-smart-contracts-new-contract-state/concordium-std/src/impls.rs:961-974 | removes exactly the entry and returns its value |
| `StateMaps.StateMap.ClearFlat` | concordium-rust-smart-contracts-new-contract-state/concordium-std/src/impls.rs:944-951 | removes exactly the keys below the prefix |
| `StateMaps.StateSet.Insert` | concordium-rust-smart-contracts-new-contract-state/concordium-std/src/impls.rs:1205-1214 | adds an empty entry unless it is there, and says which |
| `StateMaps.StateSet.Remove` | concordium-rust-smart-contracts-new-contract-state/concordium-std/src/impls.rs:1239-1251 | removes the entry if it is there, and says which |
| `StateMaps.StateBox.Get` | concordium-rust-smart-contracts-new-contract-state/concordium-std/src/impls.rs:1345-1393 | loads the value once; it is the value the box stands for in every cache state |
| `StateMaps.StateBox.Assign` | concordium-rust-smart-contracts-new-contract-state/concordium-std/src/impls.rs:1397-1402 | the box stands for the new value while the store is untouched |
| `StateMaps.StateBox.Replace` | concordium-rust-smart-contracts-new-contract-state/concordium-std/src/impls.rs:1409-1414 | the new value is in the store at once, the previous one is returned |
| `StateMaps.StateBox.Drop` | concordium-rust-smart-contracts-new-contract-state/concordium-std/src/impls.rs:1329-1343 | after the drop the store holds the value that the box stood for |
| `StateStores.InsertRefines` | concordium-rust-smart-contracts-new-contract-state/concordium-std/src/impls.rs:882-898 | insertion is insertion into the mathematical map, with the previous value as answer; other prefixes are untouched |
| `StateStores.UpdateRefines` | concordium-rust-smart-contracts-new-contract-state/concordium-std/src/impls.rs:1117-1126 | a shorter value written back without truncation still decodes to itself, and the map is updated at one key |
| `StateStores.ModifyRefines` | concordium-rust-smart-contracts-new-contract-state/concordium-std/src/impls.rs:590-632 | modifying an entry updates the map at one key |
| `StateStores.OrInsertRefines` | concordium-rust-smart-contracts-new-contract-state/concordium-std/src/impls.rs:670-675 | the map gets the value only if the key is absent |
| `StateStores.RemoveRefines` | concordium-rust-smart-contracts-new-contract-state/concordium-std/src/impls.rs:961-974 | removal is removal from the map |
| `StateStores.ClearRefines` | concordium-rust-smart-contracts-new-contract-state/concordium-std/src/impls.rs:944-951 | clearing leaves the empty map, and other prefixes as they were |
| `StateStores.SetInsertRefines` | concordium-rust-smart-contracts-new-contract-state/concordium-std/src/impls.rs:1205-1214 | insertion into the set, answering whether the element is new |
| `StateStores.SetRemoveRefines` | concordium-rust-smart-contracts-new-contract-state/concordium-std/src/impls.rs:1239-1251 | removal from the set, answering whether the element was there |
| `StateStores.IterationYieldsTheMap` | concordium-rust-smart-contracts-new-contract-state/concordium-std/src/impls.rs:1062-1075 | an iterator over the keys below the prefix yields every pair of the map exactly once and never traps |
| `StateWorlds.StateBuilder.GetAndUpdateItemPrefix` | concordium-rust-smart-contracts-new-contract-state/concordium-std/src/impls.rs:1902-1922 | hands out the number in the cell and leaves its successor there, starting at 2 |
| `StateWorlds.StateBuilder.NewMap` | concordium-rust-smart-contracts-new-contract-state/concordium-std/src/impls.rs:1845-1848 | a new map gets the next prefix; only the counter in the store changes |
| `StateWorlds.StateBuilder.NewSet` | concordium-rust-smart-contracts-new-contract-state/concordium-std/src/impls.rs:1851-1854 | a new set gets the next prefix; only the counter in the store changes |
| `StateWorlds.PrefixIsNewIff` | concordium-rust-smart-contracts-new-contract-state/concordium-std/src/impls.rs:735-742 | the i-th prefix differs from all earlier ones and from both reserved ones exactly while i < 2^64 - 2 |
| `StateWorlds.KeysAreDisjoint` | concordium-rust-smart-contracts-new-contract-state/concordium-std/src/impls.rs:988-992 | no key belongs to two collections |
| `StateWorlds.OperationRefines` | concordium-rust-smart-contracts-new-contract-state/concordium-std/src/impls.rs:862-1258 | every operation on one of many collections answers and acts as on independent collections, and never traps |
| `StateWorlds.CollectionsAreIndependent` | concordium-rust-smart-contracts-new-contract-state/concordium-std/src/impls.rs:1845-1922 | any interleaving of allocations and operations on maps, sets and boxes behaves as if each were a value of its own, with equal answers throughout |
| `ByteCodecs.LittleEndianRoundTrip` | concordium-rust-smart-contracts-new-contract-state/concordium-contracts-common/src/impls.rs:636-651 | a number that fits is read back from its bytes |
| `ByteCodecs.U32BytesAre` | concordium-rust-smart-contracts-new-contract-state/concordium-contracts-common/src/impls.rs:636-651 | the four bytes of a 32-bit number, least significant byte first |
| `ByteCodecs.U64BytesAre` | concordium-rust-smart-contracts-new-contract-state/concordium-contracts-common/src/impls.rs:636-651 | the eight bytes of a 64-bit number: those of its low half, then those of its high half |
| `Schemas.SerialRoundTrip` | concordium-rust-smart-contracts-new-contract-state/concordium-contracts-common/src/schema.rs:457-595 | a type with lengths below 2^32 reads back from its bytes, leaving exactly what follows |
| `Schemas.FieldsRoundTrip` | concordium-rust-smart-contracts-new-contract-state/concordium-contracts-common/src/schema.rs:286-315 | fields with lengths below 2^32 read back from their bytes, leaving exactly what follows |
| `Schemas.DeserialIsCanonical` | concordium-rust-smart-contracts-new-contract-state/concordium-contracts-common/src/schema.rs:527-595 | whatever decodes has representable lengths and UTF-8 names, and encodes to the bytes that were consumed |
| `Schemas.FieldsAreCanonical` | concordium-rust-smart-contracts-new-contract-state/concordium-contracts-common/src/schema.rs:305-315 | the same for fields |
| `Schemas.SchemaRoundTripIff` | concordium-rust-smart-contracts-new-contract-state/concordium-contracts-common/src/schema.rs:457-595 | a type reads back, whatever follows, exactly when all its lengths fit in 32 bits and its names are UTF-8 |
| `SchemaLayout.FirstByteIs` | concordium-rust-smart-contracts-new-contract-state/concordium-contracts-common/src/schema.rs:457-524 | the first byte of every constructor; types without parts are this one byte |
| `SchemaLayout.PairIs` | concordium-rust-smart-contracts-new-contract-state/concordium-contracts-common/src/schema.rs:475-479 | a pair is the byte 15, the left type and the right type |
| `SchemaLayout.ListIs` | concordium-rust-smart-contracts-new-contract-state/concordium-contracts-common/src/schema.rs:480-484 | a list is the byte 16, the size of its length, and the type of its elements |
| `SchemaLayout.SetIs` | concordium-rust-smart-contracts-new-contract-state/concordium-contracts-common/src/schema.rs:485-489 | a set is the byte 17, the size of its length, and the type of its elements |
| `SchemaLayout.StringIs` | concordium-rust-smart-contracts-new-contract-state/concordium-contracts-common/src/schema.rs:509-522 | strings and names are the bytes 22, 25 and 26, each with the size of its length |
| `SchemaLayout.MapIs` | concordium-rust-smart-contracts-new-contract-state/concordium-contracts-common/src/schema.rs:490-495 | a map is the byte 18, the size of its length, the keys and the values |
| `SchemaLayout.ArrayIs` | concordium-rust-smart-contracts-new-contract-state/concordium-contracts-common/src/schema.rs:496-500 | an array is the byte 19, its length in four bytes, and the type of its elements |
| `SchemaLayout.StructIs` | concordium-rust-smart-contracts-new-contract-state/concordium-contracts-common/src/schema.rs:286-304 | the bytes of structures without fields, with a field, and with a named field |
| `SchemaLayout.EnumIs` | concordium-rust-smart-contracts-new-contract-state/concordium-contracts-common/src/schema.rs:505-508 | the bytes of enumerations: number of variants, and each one's name and fields |
| `SchemaLayout.FieldByField` | concordium-rust-smart-contracts-new-contract-state/concordium-contracts-common/src/schema.rs:286-304 | named fields follow one after the other |
| `OrderedCodecs.Cursor.Read` | concordium-rust-smart-contracts-new-contract-state/concordium-contracts-common/src/impls.rs:863-876 | reads as much as there is, up to the length asked for, and leaves the rest |
| `OrderedCodecs.Cursor.Write` | concordium-rust-smart-contracts-new-contract-state/concordium-contracts-common/src/impls.rs:879-900 | writes over the data at the cursor and extends it as needed |
| `OrderedCodecs.DeserialVectorNoLength` | concordium-rust-smart-contracts-new-contract-state/concordium-contracts-common/src/impls.rs:457-466 | the loop reads that many elements, one after the other, or fails |
| `OrderedCodecs.DeserialMapNoLength` | concordium-rust-smart-contracts-new-contract-state/concordium-contracts-common/src/impls.rs:484-508 | succeeds exactly when all pairs parse and their keys strictly increase, with the map of these pairs |
| `OrderedCodecs.DeserialMapNoLengthNoOrderCheck` | concordium-rust-smart-contracts-new-contract-state/concordium-contracts-common/src/impls.rs:513-526 | succeeds exactly when all pairs parse and no key is repeated |
| `OrderedCodecs.DeserialSetNoLength` | concordium-rust-smart-contracts-new-contract-state/concordium-contracts-common/src/impls.rs:571-587 | succeeds exactly when all elements parse and strictly increase |
| `OrderedCodecs.DeserialSetNoLengthNoOrderCheck` | concordium-rust-smart-contracts-new-contract-state/concordium-contracts-common/src/impls.rs:620-632 | succeeds exactly when all elements parse and none is repeated |
| `OrderedCodecs.OrderedDecodingIsCanonical` | concordium-rust-smart-contracts-new-contract-state/concordium-contracts-common/src/impls.rs:470-508 | with canonical element codecs a map decodes exactly from the bytes of its ascending list of pairs |
| `OrderedCodecs.OrderedSetDecodingIsCanonical` | concordium-rust-smart-contracts-new-contract-state/concordium-contracts-common/src/impls.rs:558-587 | with a canonical element codec a set decodes exactly from the bytes of its ascending list |
| `OrderedCodecs.ListIsUnique` | concordium-rust-smart-contracts-new-contract-state/concordium-contracts-common/src/impls.rs:470-479 | a map has only one ascending list of pairs |
| `OrderedCodecs.UnorderedDecodingAcceptsPermutations` | concordium-rust-smart-contracts-new-contract-state/concordium-contracts-common/src/impls.rs:513-526 | every permutation of pairs with distinct keys is accepted and gives the same map; a repeated key is rejected |
| `OrderedCodecs.UnorderedSetAcceptsPermutations` | concordium-rust-smart-contracts-new-contract-state/concordium-contracts-common/src/impls.rs:620-632 | every permutation of distinct elements is accepted and gives the same set; a repeated element is rejected |
| `OrderedCodecs.MapRoundTripIff` | concordium-rust-smart-contracts-new-contract-state/concordium-contracts-common/src/impls.rs:653-680 | a `BTreeMap` with its length in front reads back exactly when its size fits in 32 bits |
| `OrderedCodecs.MapLayout` | concordium-rust-smart-contracts-new-contract-state/concordium-contracts-common/src/impls.rs:653-680 | a map is its size in four bytes, then every key directly followed by its value |
| `Amounts.FromStr` | concordium-rust-smart-contracts-new-contract-state/concordium-contracts-common/src/types.rs:88-160 | the loop over characters computes the parser, every error included |
| `Amounts.ParseIff` | concordium-rust-smart-contracts-new-contract-state/concordium-contracts-common/src/types.rs:81-160 | an amount is returned exactly when the text is n or n.m without leading zeros and with one to six decimals, and its value in micro CCD is that amount and fits in 64 bits |
| `Amounts.DisplayDenotes` | concordium-rust-smart-contracts-new-contract-state/concordium-contracts-common/src/types.rs:1362-1372 | an amount is printed as a text that denotes it, with one decimal if it is whole and with six if not |
| `Amounts.DisplayParses` | concordium-rust-smart-contracts-new-contract-state/concordium-contracts-common/src/types.rs:1362-1372 | every 64-bit amount survives printing and parsing |
| `Auctions.AuctionContract.Bid` | Auction/src/lib.rs:108-136 | in place: an accepted bid is added to the earlier bids of the account, a rejected one changes nothing |
| `Auctions.BidAcceptedIff` | Auction/src/lib.rs:108-136 | a bid is accepted exactly if it comes from an account no later than the expiry and, with the earlier bids of the account, exceeds the highest bid within 64 bits; then it leads and no other bid changes |
| `Auctions.AuctionContract.Finalize` | Auction/src/lib.rs:141-187 | in place, over any order of the bids: the specified transfers and the sale, or no change |
| `Auctions.AcceptedBidIsExact` | Auction/src/lib.rs:123-133 | an accepted bid never wraps around in 64 bits |
| `Auctions.BidRuns` | Auction/src/lib.rs:108-136 | after an accepted bid the balance is the sum of all bids and the highest bid is held by exactly one bidder |
| `Auctions.FinalizeSucceeds` | Auction/src/lib.rs:145-187 | after the expiry, with bids: never an error; the owner gets the highest bid, every loser the own bid, the unique highest bidder wins, nothing is left |
| `Auctions.FinalizeWithoutBids` | Auction/src/lib.rs:155-157 | without bids nothing happens |
| `Auctions.FinalizeSettles` | Auction/src/lib.rs:145-187 | finalizing does nothing up to the expiry or without bids; otherwise the item goes to the unique highest bidder, the owner receives the highest bid and everybody else the own bid |
| `Auctions.AuctionSettles` | Auction/src/lib.rs:108-187 | over every run: a bid is what the account has paid in; while running the books balance; once sold everybody but the winner has got back exactly what they paid in |
| `Auctions.BidsAreFinal` | Auction/src/lib.rs:117-117 | over every run: once only late bids and finalizations follow, no bid changes, and the item can only be sold to the unique highest bidder at that point |
| `Cis1Nft.NftContract.Receive` | concordium-rust-smart-contracts-new-contract-state/examples/cis1-nft/src/lib.rs:320-479 | in place, with reentrant calls: an accepted call does what is specified, a rejected one changes nothing |
| `Cis1Nft.NftContract.TransferOne` | concordium-rust-smart-contracts-new-contract-state/examples/cis1-nft/src/lib.rs:188-220 | removes the token from its owner and gives it to the receiver, also if they are the same |
| `Cis1Nft.NftContract.ContractTransfer` | concordium-rust-smart-contracts-new-contract-state/examples/cis1-nft/src/lib.rs:385-437 | executes the transfers in order, invoking receiving contracts in between |
| `Cis1Nft.CallEvolves` | concordium-rust-smart-contracts-new-contract-state/examples/cis1-nft/src/lib.rs:395-437 | any accepted call, with any calls nested in it, keeps single ownership, destroys no token and leaves absent owners alone |
| `Cis1Nft.TokensHaveOneOwner` | concordium-rust-smart-contracts-new-contract-state/examples/cis1-nft/src/lib.rs:133-145 | in every reachable state every token has exactly one owner and only existing tokens are owned |
| `Cis1Nft.BalanceIsOwnership` | concordium-rust-smart-contracts-new-contract-state/examples/cis1-nft/src/lib.rs:157-175 | the balances of a token over all addresses are one for one owner and zero for everybody else |
| `Cis1Nft.AbsentOwnersKeepTheirTokens` | concordium-rust-smart-contracts-new-contract-state/examples/cis1-nft/src/lib.rs:405-405 | tokens do not move unless their owner or one of the owner's operators sends a call, reentrant calls included |
| `Cis1Nft.MintAllIff` | concordium-rust-smart-contracts-new-contract-state/examples/cis1-nft/src/lib.rs:320-358 | minting succeeds exactly for new tokens, at most 32, and gives exactly these to the owner |
| `NftEffects.OneTransferIff` | concordium-rust-smart-contracts-new-contract-state/examples/cis1-nft/src/lib.rs:188-220 | a transfer to an account is accepted exactly if the sender is the payer or an operator of the payer, the token exists, and the amount is zero, or one and owned by the payer; then the receiver owns the token, the payer does not, and nothing else changes |
| `NftEffects.MovedBalances` | concordium-rust-smart-contracts-new-contract-state/examples/cis1-nft/src/lib.rs:157-175 | after a transfer the balance of the token is one for the receiver and zero for everybody else, and no other balance changes |
| `NftEffects.TransferToContractIff` | concordium-rust-smart-contracts-new-contract-state/examples/cis1-nft/src/lib.rs:385-437 | a receiving contract can reject a transfer; if it accepts, its calls follow the transfer |
| `NftEffects.TransfersAreSequential` | concordium-rust-smart-contracts-new-contract-state/examples/cis1-nft/src/lib.rs:385-437 | up to 64 transfers to accounts act like one call each, all or nothing; more are rejected |
| `NftEffects.MintIff` | concordium-rust-smart-contracts-new-contract-state/examples/cis1-nft/src/lib.rs:320-358 | only the owner of the contract mints: at most 32 tokens, all new, which then belong to the given owner |
| `NftEffects.UpdateOperatorIff` | concordium-rust-smart-contracts-new-contract-state/examples/cis1-nft/src/lib.rs:453-480 | at most 64 updates of the sender's own operators are accepted, the last update of an address decides, and nothing else changes |
| `NftEffects.QueryIff` | concordium-rust-smart-contracts-new-contract-state/examples/cis1-nft/src/lib.rs:489-600 | a query is accepted exactly if all tokens exist and the contract that gets the answer accepts |
| `Cis1Multi.MultiContract.Receive` | concordium-rust-smart-contracts-new-contract-state/examples/cis1-multi/src/lib.rs:333-491 | in place, with reentrant calls: an accepted call does what is specified, a rejected one changes nothing |
| `Cis1Multi.MultiContract.TransferOne` | concordium-rust-smart-contracts-new-contract-state/examples/cis1-multi/src/lib.rs:189-223 | moves the amount between balances, also from an address to itself, or fails without change |
| `Cis1Multi.MultiContract.ContractTransfer` | concordium-rust-smart-contracts-new-contract-state/examples/cis1-multi/src/lib.rs:397-448 | executes the transfers in order, invoking receiving contracts in between |
| `Cis1Multi.CreditSupply` | concordium-rust-smart-contracts-new-contract-state/examples/cis1-multi/src/lib.rs:145-157 | a credit raises the sum of the balances by the amount, or wraps around |
| `Cis1Multi.TransferSupply` | concordium-rust-smart-contracts-new-contract-state/examples/cis1-multi/src/lib.rs:189-223 | a transfer keeps the sum of the balances of every token |
| `Cis1Multi.CallEvolves` | concordium-rust-smart-contracts-new-contract-state/examples/cis1-multi/src/lib.rs:407-448 | any accepted call, with any calls nested in it, conserves all tokens and leaves absent owners alone |
| `Cis1Multi.SupplyIsConserved` | concordium-rust-smart-contracts-new-contract-state/examples/cis1-multi/src/lib.rs:145-223 | in every reachable state the balances of a token add up to the amount minted while that is below 2^64, and always modulo 2^64 |
| `Cis1Multi.AbsentOwnersKeepTheirTokens` | concordium-rust-smart-contracts-new-contract-state/examples/cis1-multi/src/lib.rs:417-417 | balances do not go down unless their owner or one of the owner's operators sends a call, reentrant calls included |
| `MultiEffects.OneTransferIff` | concordium-rust-smart-contracts-new-contract-state/examples/cis1-multi/src/lib.rs:189-223 | a transfer to an account is accepted exactly if the sender is the payer or an operator of the payer, the token exists and the balance covers the amount, which then moves between the two balances and changes nothing else |
| `MultiEffects.TransferToContractIff` | concordium-rust-smart-contracts-new-contract-state/examples/cis1-multi/src/lib.rs:397-448 | a receiving contract can reject a transfer; if it accepts, its calls follow the transfer |
| `MultiEffects.TransfersAreSequential` | concordium-rust-smart-contracts-new-contract-state/examples/cis1-multi/src/lib.rs:397-448 | up to 64 transfers to accounts act like one call each, all or nothing; more are rejected |
| `MultiEffects.MintIff` | concordium-rust-smart-contracts-new-contract-state/examples/cis1-multi/src/lib.rs:333-370 | only the owner of the contract mints, at most 32 items; the amounts are added to the balances of the given owner, and nothing else changes |
| `MultiEffects.UpdateOperatorIff` | concordium-rust-smart-contracts-new-contract-state/examples/cis1-multi/src/lib.rs:465-491 | at most 64 updates of the sender's own operators are accepted, the last update of an address decides, and nothing else changes |
| `Commerce.CommerceContract.BuyerRequestPurchase` | Commerce/src/lib.rs:122-155 | in place: a purchase of item 0 is recorded and the price of the requested item taken in |
| `Commerce.CommerceContract.Abort` | Commerce/src/lib.rs:171-200 | in place: the buyer ends a request and is paid the price of the given item |
| `Commerce.CommerceContract.BuyerConfirmDelivery` | Commerce/src/lib.rs:204-229 | in place: ends a delivered purchase and pays the vendor |
| `Commerce.CommerceContract.BuyerDisputeDelivery` | Commerce/src/lib.rs:239-271 | in place: wagers the price again and records the commitment |
| `Commerce.CommerceContract.BuyerTimeout` | Commerce/src/lib.rs:277-315 | in place: ends the purchase and pays the buyer the price, or twice the price in a dispute |
| `Commerce.CommerceContract.BuyerOpenCommitment` | Commerce/src/lib.rs:326-365 | in place: ends a countered dispute and pays twice the price to the winner |
| `Commerce.CommerceContract.SellerTimeout` | Commerce/src/lib.rs:370-399 | in place: ends the purchase and pays the vendor the price |
| `Commerce.CommerceContract.SellerRejectContract` | Commerce/src/lib.rs:403-431 | in place: ends a request and pays the buyer |
| `Commerce.CommerceContract.SellerAcceptContract` | Commerce/src/lib.rs:435-459 | in place: a request becomes accepted |
| `Commerce.CommerceContract.SellerItemWasDelivered` | Commerce/src/lib.rs:463-483 | in place: an accepted purchase becomes delivered |
| `Commerce.CommerceContract.SellerForfeitDispute` | Commerce/src/lib.rs:486-516 | in place: ends a dispute and pays the buyer twice the price |
| `Commerce.CommerceContract.SellerCounterDispute` | Commerce/src/lib.rs:525-560 | in place: takes the wager of the vendor and records the bit |
| `Commerce.CommerceContract.SellerUpdateListings` | Commerce/src/lib.rs:570-594 | in place: changes a listing, only while there are no purchases |
| `Commerce.TimeoutIff` | Commerce/src/lib.rs:299-303 | for all 64-bit timestamps and timeouts, exactly when the timeouts can be called: below ten or when the second sum wraps around, and both if the first one does |
| `Commerce.ActBalances` | Commerce/src/lib.rs:171-560 | an accepted call follows the state machine, pays exactly on entering a final state, never more than was paid in, and leaves the books of the purchase balanced |
| `Commerce.PurchaseStep` | Commerce/src/lib.rs:171-560 | a call on one purchase, an abort naming an item priced like item 0, keeps all books balanced, is paid, and touches no other purchase |
| `Commerce.RequestBalancesIff` | Commerce/src/lib.rs:145-154 | a request keeps the books balanced exactly when the requested item costs what item 0 costs |
| `Commerce.AbortBalancesIff` | Commerce/src/lib.rs:177-197 | an abort keeps the books balanced exactly when what it pays for the named item is the price of item 0 |
| `Commerce.SecondListingUnbalances` | Commerce/src/lib.rs:145-154 | a concrete request that unbalances the books |
| `Commerce.AbortUnbalances` | Commerce/src/lib.rs:177-197 | a run of two requests for item 0 and an abort naming item 1 that unbalances the books, after which the other buyer is not paid back |
| `Commerce.EscrowIsExactIff` | Commerce/src/lib.rs:122-586 | over every run, with any listings: the balance is what is held for all purchases, each is paid out once and no ignored transfer fails, if and only if every accepted request and abort names an item priced like item 0 |
| `Commerce.FairIsExact` | Commerce/src/lib.rs:122-586 | in such runs, moreover, ended purchases and their books never change again |
| `Payouts.AcceptedIff` | Commerce/src/lib.rs:122-594 | who may make which call on a purchase in which state of it, as an if and only if |
| `Payouts.OtherCallsDo` | Commerce/src/lib.rs:122-155 | what a request and an update of the listings add or change |
| `Payouts.AcceptedPays` | Commerce/src/lib.rs:171-560 | the next state of the purchase and the payment, with its recipient, for every call on a purchase |
| `Payouts.EverybodyIsPaid` | Commerce/src/lib.rs:122-594 | over every run with fair items: a completed purchase has paid the vendor the price, a rejected one the buyer, a failed one the buyer what was paid in, or twice the price to one of them after a countered dispute; an open one nobody |
| `Payouts.OpeningDecides` | Commerce/src/lib.rs:346-363 | over every run: an opened commitment was to zero, and twice the price goes to the buyer if the bit of the buyer equals the last bit of the seller, and to the vendor if not |

## Left out

- SHA-256, secp256k1 and its point encoding, random numbers: parameters, see the conventions above.
- Parsing of entrypoint parameters, the schema and reject-code machinery, JSON, serde, base58 and time
  formats, the procedural macros.
- Transfers to accounts that do not exist, and calls that run out of energy.
- Host functions (`concordium-std/src/prims.rs`): the store is a map; an entry is found by its key, so handles
  to entries deleted and created again, locked subtrees and the limit on the size of an entry are not
  modelled.
- `StateMap::is_empty` and `StateSet::is_empty`: they look up the bare prefix, which says nothing about the
  keys below it.
- The recursive `clear` and `remove` of maps whose values own state, `Seek` on entries, raw entries with byte
  slices, and iterators that change values.
- `StateMap::iter` yields keys in the order of their bytes; iteration is modelled for any order.
- Hash maps and hash sets (decoded like the unordered maps and sets), modules and functions of contract
  schemas, and rendering schemas as JSON.
- Events: only their number is modelled, at most 64 between two calls to other contracts; sizes are not.
- Queries of the token contracts are modelled by the check of the token and the call of the contract that gets
  the answer; the answer is not.
- Commerce starts from given listings, because the contract has no entrypoint that adds one; the nonce of an
  opened commitment and the item numbers of purchases other than 0 play no role in the source.
- Not modelled: the example contracts Fibonacci, Piggybank, icecream, memo, counter-notify, the single NFT,
  and `Other/Multi_assert.rs`; `off-chain/src/main.rs` and the quickcheck harnesses.
- SelfTally.TallyCountsOnes: for fewer than 2^31 voters, beyond which the 32-bit counter wraps around as
  `BruteForceTally` says.
- Membership.MembershipIsComplete: for fewer than 2^31 accounts, since positions and counts are signed 32-bit
  numbers.
- Commerce.EscrowIsExactIff: for runs in which the balance stays below 2^64, as amounts on the chain do.
- StateWorlds.CollectionsAreIndependent: for programs of at most 2^64 - 2 allocations, beyond which prefixes
  repeat as `PrefixIsNewIff` says.
- Auctions.AuctionContract.Finalize: the order of the bids is any enumeration of the map.
