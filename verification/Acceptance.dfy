// Which calls the voting contract accepts, and which of them end a phase.
module Acceptance {
  import opened Wrappers
  import opened Addresses
  import opened PrimeField
  import opened VotingCrypto
  import opened Verifiers
  import opened SelfTally
  import opened Membership
  import opened VotingStates
  import opened VotingSafety
  import opened Timelines

  // ----- accepted calls -----

  ghost predicate MayRegister(c: Curve, s: VotingState, a: AccountAddress, msg: RegisterMessage, deposit: nat)
    requires c.q > 0 && IsI32(s.config.merkleLeafCount) && IsI32(msg.merkleProof.index)
  {
    && a !in s.voters && deposit == s.config.deposit
    && VerifyMembership(c.hasher, s.config.merkleRoot, s.config.merkleLeafCount, msg.merkleProof, a) == Some(true)
    && c.pointOf(msg.votingKey).Some?
    && KeyProofHolds(c.q, c.pointHash, c.pointOf(msg.votingKey).value, msg.votingKeyZkp)
  }

  ghost predicate MayVote(c: Curve, s: VotingState, a: AccountAddress, msg: VoteMessage)
    requires c.q > 0
  {
    && a in s.voters && s.voters[a].vote == []
    && c.pointOf(s.voters[a].reconstructedKey).Some? && c.pointOf(msg.vote).Some?
    && BallotProofHolds(c.q, c.pointHash, msg.voteZkp, c.pointOf(s.voters[a].reconstructedKey).value)
    && s.voters[a].commitment == c.hasher(c.encode(c.pointOf(msg.vote).value)).bytes
  }

  // An accepted call is made in its phase and in time; but change_phase, which does
  // nothing in a phase that is not over, is only rejected if an abort is due that
  // cannot be paid for.
  ghost predicate MayCall(c: Curve, s: VotingState, call: Call)
    requires c.q > 0 && IsI32(s.config.merkleLeafCount)
    requires call.CallRegister? ==> IsI32(call.register.merkleProof.index)
  {
    match call
    case CallRegister(sender, _, msg, deposit) => InTime(s, call) && MayRegister(c, s, sender.account, msg, deposit)
    case CallCommit(sender, _, msg) =>
      InTime(s, call) && sender.account in s.voters && msg.commitment != [] && msg.reconstructedKey != []
    case CallVote(sender, _, msg) => InTime(s, call) && MayVote(c, s, sender.account, msg)
    case CallResult => InTime(s, call)
    case CallChangePhase(sender, _) =>
      sender.Account? && (InTime(s, call) && SomebodyIsMissing(s) ==> IsPaidFor(s, sender.account))
  }

  lemma AcceptedIff(c: Curve, s: VotingState, call: Call)
    requires ValidCurve(c) && Invariant(c, s) && IsI32(s.config.merkleLeafCount)
    requires call.CallRegister? ==> IsI32(call.register.merkleProof.index)
    ensures Attempt(c, s, call).Ok? <==> MayCall(c, s, call)
  {
    match call
    case CallRegister(sender, now, msg, deposit) => RegisterIff(c, s, sender, now, msg, deposit);
    case CallCommit(_, _, _) => hide Invariant, AllCommitted;
    case CallVote(sender, now, msg) => VoteIff(c, s, sender, now, msg);
    case CallResult => ResultIff(c, s);
    case CallChangePhase(sender, now) => ChangePhaseIff(c, s, sender, now);
  }

  lemma RegisterIff(c: Curve, s: VotingState, sender: Address, now: nat, msg: RegisterMessage, deposit: nat)
    requires c.q > 0 && IsI32(s.config.merkleLeafCount) && IsI32(msg.merkleProof.index)
    ensures RegisterStep(c, s, sender, now, msg, deposit).Ok? <==>
      InTime(s, CallRegister(sender, now, msg, deposit)) && MayRegister(c, s, sender.account, msg, deposit)
  {
    if c.pointOf(msg.votingKey).Some? {
      SchnorrAcceptsIff(c.q, c.pointHash, c.pointOf(msg.votingKey).value, msg.votingKeyZkp);
    }
    hide VerifyMembership, VerifySchnorr, KeyProofHolds, WrapI32;
  }

  lemma VoteIff(c: Curve, s: VotingState, sender: Address, now: nat, msg: VoteMessage)
    requires c.q > 0 && Invariant(c, s)
    ensures VoteStep(c, s, sender, now, msg).Ok? <==>
      InTime(s, CallVote(sender, now, msg)) && MayVote(c, s, sender.account, msg)
  {
    VoteRefundIsCovered(c, s, sender, now, msg);
    if sender.Account? && sender.account in s.voters && c.pointOf(s.voters[sender.account].reconstructedKey).Some? {
      OneInTwoAcceptsIff(c.q, c.pointHash, msg.voteZkp, c.pointOf(s.voters[sender.account].reconstructedKey).value);
    }
    hide Invariant, VerifyOneInTwo, BallotProofHolds, AllVoted;
  }

  lemma ResultIff(c: Curve, s: VotingState)
    requires ValidCurve(c) && Invariant(c, s)
    ensures ResultStep(c, s).Ok? <==> s.votingPhase == Result
  {
    if s.votingPhase == Result {
      ResultSucceeds(c, s);
    }
    hide Invariant, Announced;
  }

  lemma ChangePhaseIff(c: Curve, s: VotingState, sender: Address, now: nat)
    requires ValidCurve(c) && Invariant(c, s)
    ensures ChangePhaseStep(s, sender, now).Ok? <==>
      sender.Account? &&
      (InTime(s, CallChangePhase(sender, now)) && SomebodyIsMissing(s) ==> IsPaidFor(s, sender.account))
  {
    NotFinished(c, s);
    EverybodyHasKey(c, s);
    if sender.Account? && AbortDue(s, now) {
      PaidForIff(c, s, sender.account, now);
    }
    hide Invariant, AbortStep, IsPaidFor, Honest;
  }

  // ----- the ends of the phases -----

  ghost predicate EverybodyCommitted(s: VotingState) {
    forall a :: a in s.voters ==> s.voters[a].reconstructedKey != [] && s.voters[a].commitment != []
  }

  ghost predicate EverybodyVoted(s: VotingState) {
    forall a :: a in s.voters ==> s.voters[a].vote != []
  }

  // What ends a phase, other than an abort: the registration of the last voter on the
  // list, or a late change_phase with more than two voters; the last commitment; and
  // the last vote.
  ghost predicate Ends(s: VotingState, after: VotingState, call: Call) {
    match s.votingPhase
    case Registration =>
      || (call.CallRegister? && |after.voters| > |s.voters| && WrapI32(|after.voters|) == s.config.merkleLeafCount)
      || (call.CallChangePhase? && InTime(s, call) && |s.voters| > 2)
    case Commit => call.CallCommit? && EverybodyCommitted(after)
    case Vote => call.CallVote? && EverybodyVoted(after)
    case _ => false
  }

  function NextPhase(p: VotingPhase): VotingPhase {
    match p
    case Registration => Commit
    case Commit => Vote
    case Vote => Result
    case _ => p
  }

  // A call leaves the phase as it was, unless it ends it, or aborts the election.
  lemma AdvancesExactlyWhen(c: Curve, s: VotingState, call: Call)
    requires ValidCurve(c) && Invariant(c, s) && IsI32(s.config.merkleLeafCount)
    requires call.CallRegister? ==> IsI32(call.register.merkleProof.index)
    ensures var after := Step(c, s, call);
      if Ends(s, after, call) then after.votingPhase == NextPhase(s.votingPhase)
      else after.votingPhase in {s.votingPhase, Abort}
  {
    match call
    case CallRegister(sender, now, msg, deposit) => RegisterEnds(c, s, sender, now, msg, deposit);
    case CallCommit(_, _, _) => hide Invariant;
    case CallVote(sender, now, msg) => VoteEnds(c, s, sender, now, msg);
    case CallResult => hide Invariant, Announced;
    case CallChangePhase(sender, now) =>
      if sender.Account? {
        ChangePhaseOutcome(c, s, sender.account, now);
      }
      hide Invariant, ChangePhaseStep, IsPaidFor;
      ChangePhaseRejects(s, sender, now);
  }

  lemma ChangePhaseRejects(s: VotingState, sender: Address, now: nat)
    ensures sender.Contract? ==> ChangePhaseStep(s, sender, now).Err?
  {
  }

  lemma RegisterEnds(c: Curve, s: VotingState, sender: Address, now: nat, msg: RegisterMessage, deposit: nat)
    requires ValidCurve(c) && IsI32(s.config.merkleLeafCount) && IsI32(msg.merkleProof.index)
    ensures var call := CallRegister(sender, now, msg, deposit); var after := Step(c, s, call);
      if Ends(s, after, call) then after.votingPhase == NextPhase(s.votingPhase)
      else after.votingPhase == s.votingPhase
  {
    hide VerifyMembership, VerifySchnorr, WrapI32;
  }

  lemma VoteEnds(c: Curve, s: VotingState, sender: Address, now: nat, msg: VoteMessage)
    requires ValidCurve(c) && Invariant(c, s) && IsI32(s.config.merkleLeafCount)
    ensures var call := CallVote(sender, now, msg); var after := Step(c, s, call);
      if Ends(s, after, call) then after.votingPhase == NextPhase(s.votingPhase)
      else after.votingPhase == s.votingPhase
  {
    assert s.votingPhase == Vote ==> !AllVoted(s.voters);
    hide VerifyOneInTwo, Opens, Invariant, OneMore;
  }
}
