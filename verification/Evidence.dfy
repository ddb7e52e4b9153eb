// What is proved about every voter of every run: the key proof and the ballot
// proof on record meet their equations, and the vote opens the commitment.
module Evidence {
  import opened Wrappers
  import opened Addresses
  import opened PrimeField
  import opened VotingCrypto
  import opened Verifiers
  import opened SelfTally
  import opened Membership
  import opened VotingStates
  import opened VotingSafety

  ghost predicate KeyIsProved(c: Curve, v: Voter)
    requires c.q > 0
  {
    c.pointOf(v.votingKey).Some? && KeyProofHolds(c.q, c.pointHash, c.pointOf(v.votingKey).value, v.votingKeyZkp)
  }

  // The proof is about the ballot inside it; nothing ties that ballot to the vote.
  ghost predicate VoteIsProved(c: Curve, v: Voter)
    requires c.q > 0
  {
    && c.pointOf(v.reconstructedKey).Some? && c.pointOf(v.vote).Some?
    && BallotProofHolds(c.q, c.pointHash, v.voteZkp, c.pointOf(v.reconstructedKey).value)
    && v.commitment == c.hasher(c.encode(c.pointOf(v.vote).value)).bytes
  }

  ghost predicate IsProved(c: Curve, v: Voter)
    requires c.q > 0
  {
    KeyIsProved(c, v) && (v.vote != [] ==> VoteIsProved(c, v))
  }

  ghost predicate AllProved(c: Curve, voters: map<AccountAddress, Voter>)
    requires c.q > 0
  {
    forall a :: a in voters ==> IsProved(c, voters[a])
  }

  lemma RegisterProves(c: Curve, s: VotingState, sender: Address, now: nat, msg: RegisterMessage, deposit: nat)
    requires c.q > 0 && IsI32(s.config.merkleLeafCount) && IsI32(msg.merkleProof.index) && AllProved(c, s.voters)
    requires RegisterStep(c, s, sender, now, msg, deposit).Ok?
    ensures AllProved(c, RegisterStep(c, s, sender, now, msg, deposit).value.voters)
  {
    assert c.pointOf(msg.votingKey).Some? by { hide VerifyMembership, VerifySchnorr, WrapI32; }
    SchnorrAcceptsIff(c.q, c.pointHash, c.pointOf(msg.votingKey).value, msg.votingKeyZkp);
    hide VerifyMembership, VerifySchnorr, WrapI32, KeyProofHolds, VoteIsProved;
  }

  lemma CommitProves(c: Curve, s: VotingState, sender: Address, now: nat, msg: CommitMessage)
    requires c.q > 0 && Invariant(c, s) && AllProved(c, s.voters) && CommitStep(s, sender, now, msg).Ok?
    ensures AllProved(c, CommitStep(s, sender, now, msg).value.voters)
  {
    assert sender.account in s.voters && VoterInvariant(c, Commit, s.voters[sender.account]);
    hide AllCommitted, KeyProofHolds, VoteIsProved, Invariant;
  }

  lemma VoteProves(c: Curve, s: VotingState, sender: Address, now: nat, msg: VoteMessage)
    requires c.q > 0 && AllProved(c, s.voters) && VoteStep(c, s, sender, now, msg).Ok?
    ensures AllProved(c, VoteStep(c, s, sender, now, msg).value.voters)
  {
    assert sender.Account? && sender.account in s.voters by { hide VerifyOneInTwo, Opens, AllVoted; }
    assert c.pointOf(s.voters[sender.account].reconstructedKey).Some? by {
      hide VerifyOneInTwo, Opens, AllVoted;
    }
    OneInTwoAcceptsIff(c.q, c.pointHash, msg.voteZkp, c.pointOf(s.voters[sender.account].reconstructedKey).value);
    hide VerifyOneInTwo, AllVoted, KeyIsProved, BallotProofHolds, OneMore;
  }

  lemma StepProves(c: Curve, s: VotingState, call: Call)
    requires ValidCurve(c) && Invariant(c, s) && IsI32(s.config.merkleLeafCount) && AllProved(c, s.voters)
    requires call.CallRegister? ==> IsI32(call.register.merkleProof.index)
    ensures AllProved(c, Step(c, s, call).voters)
  {
    hide RegisterStep, CommitStep, VoteStep, Invariant, AllProved, Announced, AllCommitted, AllVoted;
    hide Refunds, RefundTotal;
    if Attempt(c, s, call).Ok? {
      match call
      case CallRegister(sender, now, msg, deposit) => RegisterProves(c, s, sender, now, msg, deposit);
      case CallCommit(sender, now, msg) => CommitProves(c, s, sender, now, msg);
      case CallVote(sender, now, msg) => VoteProves(c, s, sender, now, msg);
      case _ =>
    }
  }

  // Over any run every voter has a proved key, and every vote on record comes with a
  // ballot proof for the reconstructed key and opens the commitment.
  lemma {:induction false} EverythingIsProved(c: Curve, config: VoteConfig, start: nat, calls: seq<Call>)
    requires ValidCurve(c) && IsI32(config.merkleLeafCount) && WellTyped(calls) && Setup(config, start).Ok?
    ensures AllProved(c, Run(c, Setup(config, start).value, calls).voters)
  {
    hide Step, Invariant, IsProved;
    if calls != [] {
      hide AllProved;
      var n := |calls| - 1;
      EverythingIsProved(c, config, start, calls[..n]);
      InvariantHolds(c, config, start, calls[..n]);
      StepProves(c, Run(c, Setup(config, start).value, calls[..n]), calls[n]);
    }
  }
}
