// What the contract has on record for an account is what that account itself has
// sent, and a recorded vote opens the commitment that the account sent last.
module Records {
  import opened Wrappers
  import opened Addresses
  import opened PrimeField
  import opened VotingCrypto
  import opened SelfTally
  import opened Membership
  import opened VotingStates
  import opened VotingSafety

  // The last message of each kind that was accepted from an account.
  datatype Sent = Sent(register: Option<RegisterMessage>, commit: Option<CommitMessage>, vote: Option<VoteMessage>)

  const NOTHING := Sent(None, None, None)

  // Whether a call comes from an account and is accepted.
  ghost predicate IsAccepted(c: Curve, s: VotingState, call: Call, a: AccountAddress)
    requires c.q > 0 && IsI32(s.config.merkleLeafCount)
    requires call.CallRegister? ==> IsI32(call.register.merkleProof.index)
  {
    (call.CallRegister? || call.CallCommit? || call.CallVote?) && call.sender == Account(a) && Attempt(c, s, call).Ok?
  }

  ghost function AfterCall(sent: Sent, call: Call): Sent {
    match call
    case CallRegister(_, _, msg, _) => sent.(register := Some(msg))
    case CallCommit(_, _, msg) => sent.(commit := Some(msg))
    case CallVote(_, _, msg) => sent.(vote := Some(msg))
    case _ => sent
  }

  ghost function SentBy(c: Curve, s: VotingState, calls: seq<Call>, a: AccountAddress): Sent
    requires c.q > 0 && IsI32(s.config.merkleLeafCount) && WellTyped(calls)
  {
    if calls == [] then NOTHING
    else
      var n := |calls| - 1;
      var sent := SentBy(c, s, calls[..n], a);
      if IsAccepted(c, Run(c, s, calls[..n]), calls[n], a) then AfterCall(sent, calls[n]) else sent
  }

  // The entry of an account that has sent these messages.
  ghost function EntryFor(sent: Sent): Voter
    requires sent.register.Some?
  {
    var register := sent.register.value;
    Voter(register.votingKey, register.votingKeyZkp,
          if sent.commit.Some? then sent.commit.value.reconstructedKey else [],
          if sent.commit.Some? then sent.commit.value.commitment else [],
          if sent.vote.Some? then sent.vote.value.vote else [],
          if sent.vote.Some? then sent.vote.value.voteZkp else NO_PROOF)
  }

  // The account is registered exactly if it has sent a registration, and without
  // one it has sent nothing else; its entry is made of its own messages; and its
  // vote opens its commitment.
  ghost predicate IsRecordOf(c: Curve, s: VotingState, a: AccountAddress, sent: Sent) {
    && (a in s.voters <==> sent.register.Some?)
    && (sent.register.None? ==> sent == NOTHING)
    && (a in s.voters ==> s.voters[a] == EntryFor(sent))
    && (sent.vote.Some? ==>
          && sent.vote.value.vote != [] && sent.register.Some? && sent.commit.Some?
          && Opens(c, sent.vote.value.vote, sent.commit.value.commitment))
  }

  lemma RegisterRecord(c: Curve, s: VotingState, sender: Address, now: nat, msg: RegisterMessage, deposit: nat,
      a: AccountAddress, sent: Sent)
    requires c.q > 0 && IsI32(s.config.merkleLeafCount) && IsI32(msg.merkleProof.index)
    requires RegisterStep(c, s, sender, now, msg, deposit).Ok? && IsRecordOf(c, s, a, sent)
    ensures IsRecordOf(c, RegisterStep(c, s, sender, now, msg, deposit).value, a,
                       if sender == Account(a) then sent.(register := Some(msg)) else sent)
  {
    hide VerifyMembership, VerifySchnorr, WrapI32, Opens;
  }

  lemma CommitRecord(c: Curve, s: VotingState, sender: Address, now: nat, msg: CommitMessage, a: AccountAddress,
      sent: Sent)
    requires Invariant(c, s) && CommitStep(s, sender, now, msg).Ok? && IsRecordOf(c, s, a, sent)
    ensures IsRecordOf(c, CommitStep(s, sender, now, msg).value, a,
                       if sender == Account(a) then sent.(commit := Some(msg)) else sent)
  {
    assert a in s.voters ==> VoterInvariant(c, s.votingPhase, s.voters[a]);
    hide AllCommitted, Opens, BalanceInvariant;
  }

  lemma VoteRecord(c: Curve, s: VotingState, sender: Address, now: nat, msg: VoteMessage, a: AccountAddress,
      sent: Sent)
    requires ValidCurve(c) && Invariant(c, s) && VoteStep(c, s, sender, now, msg).Ok? && IsRecordOf(c, s, a, sent)
    ensures IsRecordOf(c, VoteStep(c, s, sender, now, msg).value, a,
                       if sender == Account(a) then sent.(vote := Some(msg)) else sent)
  {
    assert c.pointOf([]).None?;
    assert sender.account in s.voters && VoterInvariant(c, Vote, s.voters[sender.account]);
    hide AllVoted, VerifyOneInTwo, BalanceInvariant, ValidCurve;
  }

  lemma OtherCalls(c: Curve, s: VotingState, call: Call)
    requires c.q > 0 && IsI32(s.config.merkleLeafCount) && (call.CallResult? || call.CallChangePhase?)
    ensures Step(c, s, call).voters == s.voters
  {
    hide AllVoted, AllCommitted, Honest, Announced;
  }

  lemma StepRecords(c: Curve, s: VotingState, call: Call, a: AccountAddress, sent: Sent)
    requires ValidCurve(c) && Invariant(c, s) && IsI32(s.config.merkleLeafCount)
    requires call.CallRegister? ==> IsI32(call.register.merkleProof.index)
    requires IsRecordOf(c, s, a, sent)
    ensures IsRecordOf(c, Step(c, s, call), a, if IsAccepted(c, s, call, a) then AfterCall(sent, call) else sent)
  {
    hide RegisterStep, CommitStep, VoteStep, ChangePhaseStep, Announced, Invariant, IsRecordOf;
    if call.CallResult? || call.CallChangePhase? {
      OtherCalls(c, s, call);
      SameVoters(c, s, Step(c, s, call), a, sent);
    } else if Attempt(c, s, call).Ok? {
      match call
      case CallRegister(sender, now, msg, deposit) => RegisterRecord(c, s, sender, now, msg, deposit, a, sent);
      case CallCommit(sender, now, msg) => CommitRecord(c, s, sender, now, msg, a, sent);
      case CallVote(sender, now, msg) => VoteRecord(c, s, sender, now, msg, a, sent);
    }
  }

  lemma SameVoters(c: Curve, s: VotingState, s': VotingState, a: AccountAddress, sent: Sent)
    requires IsRecordOf(c, s, a, sent) && s'.voters == s.voters
    ensures IsRecordOf(c, s', a, sent)
  {
  }

  // Over any run: nobody but the account itself can put anything into its entry,
  // and its recorded vote opens the last commitment that it sent.
  lemma {:induction false} RecordsAreOwnMessages(c: Curve, config: VoteConfig, start: nat, calls: seq<Call>,
      a: AccountAddress)
    requires ValidCurve(c) && IsI32(config.merkleLeafCount) && WellTyped(calls)
    requires Setup(config, start).Ok?
    ensures var init := Setup(config, start).value;
      IsRecordOf(c, Run(c, init, calls), a, SentBy(c, init, calls, a))
  {
    hide Step, Invariant, IsAccepted, AfterCall;
    var init := Setup(config, start).value;
    if calls != [] {
      var n := |calls| - 1;
      RecordsAreOwnMessages(c, config, start, calls[..n], a);
      hide IsRecordOf;
      InvariantHolds(c, config, start, calls[..n]);
      StepRecords(c, Run(c, init, calls[..n]), calls[n], a, SentBy(c, init, calls[..n], a));
    }
  }
}
