// Who can become a voter: over any run, only accounts of the list behind the
// Merkle root of the election, unless a call exhibits a hash collision.
module Eligibility {
  import opened Wrappers
  import opened Addresses
  import opened Hashing
  import opened SinglePaths
  import opened Membership
  import opened SelfTally
  import opened VotingCrypto
  import opened VotingStates

  // A registration that gives two different inputs with the same hash: one of
  // them is the sender's address or a pair of nodes rebuilt from the proof, the
  // other one is hashed in the course of making the tree of the list.
  ghost predicate ShowsCollision(h: Hasher, accounts: seq<AccountAddress>, a: AccountAddress, proof: MembershipProof) {
    && IsI32(proof.index) && FromBytes(proof.proof).Ok?
    && (CollidesWithTree(h, accounts, a) || PathCollides(h, accounts, RebuiltPath(h, accounts, proof)))
  }

  ghost predicate CallShowsCollision(h: Hasher, accounts: seq<AccountAddress>, call: Call) {
    && call.CallRegister? && call.sender.Account?
    && ShowsCollision(h, accounts, call.sender.account, call.register.merkleProof)
  }

  ghost predicate ElectionFor(c: Curve, config: VoteConfig, accounts: seq<AccountAddress>) {
    && 0 < |accounts| < 0x8000_0000
    && config.merkleLeafCount == |accounts|
    && config.merkleRoot == VoterRoot(c.hasher, accounts)
  }

  lemma NewVoterIsListed(c: Curve, s: VotingState, call: Call, accounts: seq<AccountAddress>, a: AccountAddress)
    requires c.q > 0 && ElectionFor(c, s.config, accounts)
    requires call.CallRegister? ==> IsI32(call.register.merkleProof.index)
    requires a in Step(c, s, call).voters && a !in s.voters
    ensures a in accounts || CallShowsCollision(c.hasher, accounts, call)
  {
    NewVoterRegisters(c, s, call, a);
    hide Step, Attempt, RegisterStep, VerifyMembership, CollidesWithTree, PathCollides, FromBytes, VoterRoot;
    MembershipIsSound(c.hasher, accounts, call.register.merkleProof, a);
  }

  lemma NewVoterRegisters(c: Curve, s: VotingState, call: Call, a: AccountAddress)
    requires c.q > 0 && IsI32(s.config.merkleLeafCount)
    requires call.CallRegister? ==> IsI32(call.register.merkleProof.index)
    requires a in Step(c, s, call).voters && a !in s.voters
    ensures call.CallRegister? && call.sender == Account(a)
    ensures VerifyMembership(c.hasher, s.config.merkleRoot, s.config.merkleLeafCount, call.register.merkleProof, a)
        == Some(true)
  {
    hide VerifyMembership, VerifyOneInTwo, VerifySchnorr, WrapI32, Opens, AllCommitted, AllVoted, RefundTotal, Honest,
        Announced;
  }

  lemma {:induction false} OnlyListedVoters(c: Curve, config: VoteConfig, start: nat, calls: seq<Call>,
                                            accounts: seq<AccountAddress>, a: AccountAddress)
    requires c.q > 0 && ElectionFor(c, config, accounts)
    requires WellTyped(calls) && Setup(config, start).Ok?
    requires a in Run(c, Setup(config, start).value, calls).voters
    ensures a in accounts || exists i :: 0 <= i < |calls| && CallShowsCollision(c.hasher, accounts, calls[i])
  {
    hide Step, CallShowsCollision;
    var init := Setup(config, start).value;
    if calls != [] {
      var n := |calls| - 1;
      assert calls[..n + 1] == calls;
      var before := Run(c, init, calls[..n]);
      if a in before.voters {
        OnlyListedVoters(c, config, start, calls[..n], accounts, a);
        if a !in accounts {
          var i :| 0 <= i < |calls[..n]| && CallShowsCollision(c.hasher, accounts, calls[..n][i]);
          assert calls[..n][i] == calls[i];
        }
      } else {
        NewVoterIsListed(c, before, calls[n], accounts, a);
      }
    }
  }
}
