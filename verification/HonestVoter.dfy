// The off-chain software and the contract fit together: what an honest voter
// sends is accepted, and a commitment binds its voter to one vote.
module HonestVoters {
  import opened Wrappers
  import opened Addresses
  import opened Hashing
  import opened PrimeField
  import opened VotingCrypto
  import opened SelfTally
  import opened Membership
  import opened VotingStates
  import opened VotingSafety
  import opened Eligibility

  // A listed account that has not registered, whose key is x * G, is accepted
  // with the membership proof and the key proof that its software makes, unless a
  // zero in the key proof traps.
  lemma HonestRegistrationIsAccepted(c: Curve, s: VotingState, account: AccountAddress, accounts: seq<AccountAddress>,
                                     key: Bytes, x: nat, w: nat, now: nat)
    requires ValidCurve(c) && s.votingPhase == Registration && ElectionFor(c, s.config, accounts)
    requires account in accounts && account !in s.voters && now <= s.config.registrationTimeout
    requires c.pointOf(key) == Some(KeyOf(c.q, x))
    requires CreateSchnorr(c.q, c.pointHash, KeyOf(c.q, x), x, w).Some?
    ensures var proof := CreateSchnorr(c.q, c.pointHash, KeyOf(c.q, x), x, w).value;
      var msg := RegisterMessage(key, proof, CreateMerkleProof(c.hasher, account, accounts));
      var outcome := RegisterStep(c, s, Account(account), now, msg, s.config.deposit);
      if Convertible(c.q, proof.gw) && Convertible(c.q, proof.r)
      then outcome.Ok? && account in outcome.value.voters && outcome.value.voters[account].votingKey == key
      else outcome == Err(Trapped)
  {
    MembershipIsComplete(c.hasher, account, accounts);
    SchnorrIsComplete(c.q, c.pointHash, x, w);
    hide VerifyMembership, VerifySchnorr, CreateSchnorr, CreateMerkleProof, WrapI32;
  }

  ghost predicate CommitsAgain(calls: seq<Call>, account: AccountAddress) {
    exists i :: 0 <= i < |calls| && calls[i].CallCommit? && calls[i].sender == Account(account)
  }

  ghost predicate HasCommitment(s: VotingState, account: AccountAddress, msg: CommitMessage) {
    account in s.voters && s.voters[account].commitment == msg.commitment
    && s.voters[account].reconstructedKey == msg.reconstructedKey
  }

  lemma StepKeepsCommitment(c: Curve, s: VotingState, call: Call, account: AccountAddress, msg: CommitMessage)
    requires c.q > 0 && IsI32(s.config.merkleLeafCount) && HasCommitment(s, account, msg)
    requires call.CallRegister? ==> IsI32(call.register.merkleProof.index)
    requires call.CallCommit? ==> call.sender != Account(account)
    ensures HasCommitment(Step(c, s, call), account, msg)
  {
    hide VerifyMembership, VerifySchnorr, VerifyOneInTwo, Opens, AllCommitted, AllVoted, Honest, Announced, WrapI32;
  }

  lemma {:induction false} RunKeepsCommitment(c: Curve, s: VotingState, calls: seq<Call>, account: AccountAddress,
      msg: CommitMessage)
    requires c.q > 0 && IsI32(s.config.merkleLeafCount) && WellTyped(calls) && HasCommitment(s, account, msg)
    requires !CommitsAgain(calls, account)
    ensures HasCommitment(Run(c, s, calls), account, msg)
  {
    hide Step, HasCommitment;
    if calls != [] {
      var n := |calls| - 1;
      assert forall i :: 0 <= i < n ==> calls[..n][i] == calls[i];
      RunKeepsCommitment(c, s, calls[..n], account, msg);
      StepKeepsCommitment(c, Run(c, s, calls[..n]), calls[n], account, msg);
    }
  }

  // A voter who commits in time has the commitment on record for good, whatever
  // anybody calls afterwards, unless the voter commits again; and a vote that is
  // recorded for the voter later on opens it.
  lemma CommitmentIsRecorded(c: Curve, s: VotingState, account: AccountAddress, now: nat, msg: CommitMessage,
      calls: seq<Call>)
    requires ValidCurve(c) && Invariant(c, s) && IsI32(s.config.merkleLeafCount) && WellTyped(calls)
    requires s.votingPhase == Commit && account in s.voters && now <= s.config.commitTimeout
    requires msg.reconstructedKey != [] && msg.commitment != []
    requires !CommitsAgain(calls, account)
    ensures var end := Run(c, Step(c, s, CallCommit(Account(account), now, msg)), calls);
      && HasCommitment(end, account, msg)
      && (HasVoted(end.voters[account]) ==> Opens(c, end.voters[account].vote, msg.commitment))
  {
    var first := CallCommit(Account(account), now, msg);
    CommitIsAccepted(c, s, account, now, msg);
    hide Step, Invariant, HasCommitment, ValidCurve, CommitsAgain;
    StepInvariant(c, s, first);
    RunKeepsCommitment(c, Step(c, s, first), calls, account, msg);
    RunKeeps(c, Step(c, s, first), calls);
    VoteOpens(c, Run(c, Step(c, s, first), calls), account, msg);
  }

  lemma CommitIsAccepted(c: Curve, s: VotingState, account: AccountAddress, now: nat, msg: CommitMessage)
    requires c.q > 0 && IsI32(s.config.merkleLeafCount)
    requires s.votingPhase == Commit && account in s.voters && now <= s.config.commitTimeout
    requires msg.reconstructedKey != [] && msg.commitment != []
    ensures HasCommitment(Step(c, s, CallCommit(Account(account), now, msg)), account, msg)
  {
    hide AllCommitted;
  }

  lemma VoteOpens(c: Curve, s: VotingState, account: AccountAddress, msg: CommitMessage)
    requires Invariant(c, s) && HasCommitment(s, account, msg)
    ensures account in s.voters
    ensures HasVoted(s.voters[account]) ==> Opens(c, s.voters[account].vote, msg.commitment)
  {
    hide Opens;
  }

  // The proof that goes with a vote of one or of zero; the random numbers are the
  // nonce, and the answer and challenge share of the simulated branch.
  function VoteProof(q: nat, hash: PointHash, gy: nat, x: nat, yes: bool, w: nat, r: nat, d: nat): Option<OneInTwoProof>
    requires q > 0
  {
    if yes then CreateYes(q, hash, KeyOf(q, x), gy, x, w, r, d) else CreateNo(q, hash, KeyOf(q, x), gy, x, w, r, d)
  }

  // A voter who has committed to a vote, and now sends this vote with the proof
  // for it in time, is accepted, unless a zero in the proof traps.
  lemma HonestVoteIsAccepted(c: Curve, s: VotingState, account: AccountAddress, now: nat, vote: Bytes,
                             gy: nat, x: nat, yes: bool, w: nat, r: nat, d: nat)
    requires ValidCurve(c) && Invariant(c, s) && s.votingPhase == Vote
    requires account in s.voters && !HasVoted(s.voters[account]) && now <= s.config.voteTimeout
    requires c.pointOf(s.voters[account].reconstructedKey) == Some(gy)
    requires c.pointOf(vote) == Some(VotePoint(c.q, gy, x, if yes then 1 else 0))
    requires s.voters[account].commitment == c.hasher(c.encode(VotePoint(c.q, gy, x, if yes then 1 else 0))).bytes
    requires VoteProof(c.q, c.pointHash, gy, x, yes, w, r, d).Some?
    ensures var proof := VoteProof(c.q, c.pointHash, gy, x, yes, w, r, d).value;
      var outcome := VoteStep(c, s, Account(account), now, VoteMessage(vote, proof));
      if ProofConvertible(c.q, proof) then outcome.Ok? && outcome.value.voters[account].vote == vote
          else outcome == Err(Trapped)
  {
    var proof := VoteProof(c.q, c.pointHash, gy, x, yes, w, r, d).value;
    if yes {
      YesIsComplete(c.q, c.pointHash, gy, x, w, r, d);
    } else {
      NoIsComplete(c.q, c.pointHash, gy, x, w, r, d);
    }
    VoteRefundIsCovered(c, s, Account(account), now, VoteMessage(vote, proof));
    hide VerifyOneInTwo, VoteProof, CreateYes, CreateNo, ProofConvertible, Invariant, VotePoint, AllVoted;
  }

  // Two votes that open the same commitment are the same point, or collide.
  lemma CommitmentBinds(c: Curve, a: Bytes, b: Bytes, commitment: Bytes)
    requires Opens(c, a, commitment) && Opens(c, b, commitment)
    ensures c.encode(c.pointOf(a).value) == c.encode(c.pointOf(b).value)
         || Collide(c.hasher, c.encode(c.pointOf(a).value), c.encode(c.pointOf(b).value))
  {
    var left, right := c.hasher(c.encode(c.pointOf(a).value)), c.hasher(c.encode(c.pointOf(b).value));
    assert left == RawDigest(left.bytes) && right == RawDigest(right.bytes);
  }
}
