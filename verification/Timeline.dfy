// When the calls of an election have an effect: every phase has its timeout, and
// over any run what is on record was sent in time and proved.
module Timelines {
  import opened Wrappers
  import opened Addresses
  import opened PrimeField
  import opened VotingCrypto
  import opened SelfTally
  import opened Membership
  import opened VotingStates
  import opened VotingSafety

  // An election can be set up exactly if its timeouts are in order and still to come.
  lemma SetupIff(config: VoteConfig, now: nat)
    ensures Setup(config, now).Ok? <==>
      now < config.registrationTimeout < config.commitTimeout < config.voteTimeout
    ensures Setup(config, now).Ok? ==>
      var s := Setup(config, now).value;
      s.config == config && s.votingPhase == Registration && s.voters == map[] && s.balance == 0 && s.paid == multiset{}
  {
  }

  // The timeout of the current phase; the last two phases have none.
  function Deadline(s: VotingState): nat {
    match s.votingPhase
    case Registration => s.config.registrationTimeout
    case Commit => s.config.commitTimeout
    case Vote => s.config.voteTimeout
    case _ => 0
  }

  // How many voters have sent their vote.
  ghost function VotesCast(s: VotingState): nat {
    |set a | a in s.voters && s.voters[a].vote != []|
  }

  // Whether an abort by this caller is paid for: always, except from Vote, where the
  // votes cast count twice, and a caller who is not waited for counts once.
  ghost predicate IsPaidFor(s: VotingState, caller: AccountAddress) {
    s.votingPhase == Vote && s.config.deposit > 0 ==>
      2 * VotesCast(s) + (if caller in s.voters && s.voters[caller].vote == [] then 0 else 1) <= |s.voters|
  }

  // What a change_phase call by an account does.
  ghost predicate ChangesPhase(s: VotingState, after: VotingState, caller: AccountAddress, now: nat) {
    if s.votingPhase in {Result, Abort} || now <= Deadline(s) then after == s
    else if s.votingPhase == Registration && |s.voters| > 2 then after == s.(votingPhase := Commit)
    else if IsPaidFor(s, caller) then after.votingPhase == Abort && after.voters == s.voters
    else after == s
  }

  // Before its timeout an unfinished phase stays as it is; after it Registration moves
  // on if there are more than two voters, and everything else is aborted if the
  // refunds are covered, and stays as it is if not.
  lemma ChangePhaseOutcome(c: Curve, s: VotingState, caller: AccountAddress, now: nat)
    requires ValidCurve(c) && Invariant(c, s) && IsI32(s.config.merkleLeafCount)
    ensures ChangesPhase(s, Step(c, s, CallChangePhase(Account(caller), now)), caller, now)
  {
    EverybodyHasKey(c, s);
    AbortKeepsVoters(s, caller, now);
    if AbortDue(s, now) {
      PaidForIff(c, s, caller, now);
    }
    hide Invariant, Honest, AbortStep, IsPaidFor, AllCommitted, AllVoted;
  }

  lemma PaidForIff(c: Curve, s: VotingState, caller: AccountAddress, now: nat)
    requires Invariant(c, s) && AbortDue(s, now)
    ensures var outcome := ChangePhaseStep(s, Account(caller), now);
      (outcome.Ok? <==> IsPaidFor(s, caller)) && (outcome.Ok? ==> outcome.value.votingPhase == Abort)
  {
    RewardInVote(c, s, caller);
    hide Invariant, Honest, ChangePhaseStep, RefundTotal, Reward, VotesCast;
    AbortSucceedsIff(c, s, caller, now);
  }

  lemma EverybodyHasKey(c: Curve, s: VotingState)
    requires Invariant(c, s)
    ensures s.votingPhase == Registration ==> |WithKey(s.voters)| == |s.voters|
    ensures s.votingPhase == Commit ==> !AllCommitted(s.voters)
    ensures s.votingPhase == Vote ==> !AllVoted(s.voters)
  {
    HonestCount(Registration, s.voters);
  }

  lemma AbortKeepsVoters(s: VotingState, caller: AccountAddress, now: nat)
    ensures ChangePhaseStep(s, Account(caller), now).Ok? ==>
              ChangePhaseStep(s, Account(caller), now).value.voters == s.voters
  {
    hide Honest, RefundTotal, Refunds, AllCommitted, AllVoted;
  }

  lemma RewardInVote(c: Curve, s: VotingState, caller: AccountAddress)
    requires Invariant(c, s)
    ensures s.votingPhase == Vote ==>
      && VotesCast(s) == |Voted(s.voters)|
      && Reward(s, caller) == if caller in s.voters && s.voters[caller].vote == [] then 0 else 1
  {
    if s.votingPhase == Vote {
      assert (set a | a in s.voters && s.voters[a].vote != []) == Voted(s.voters);
      HonestCount(Vote, s.voters);
      var a :| a in s.voters && !HasVoted(s.voters[a]);
      assert !IsHonest(Vote, s.voters[a]);
    }
  }

  // When a call can have an effect at all.
  ghost predicate InTime(s: VotingState, call: Call) {
    match call
    case CallRegister(sender, now, _, _) => sender.Account? && s.votingPhase == Registration && now <= Deadline(s)
    case CallCommit(sender, now, _) => sender.Account? && s.votingPhase == Commit && now <= Deadline(s)
    case CallVote(sender, now, _) => sender.Account? && s.votingPhase == Vote && now <= Deadline(s)
    case CallResult => s.votingPhase == Result
    case CallChangePhase(sender, now) =>
      sender.Account? && s.votingPhase in {Registration, Commit, Vote} && now > Deadline(s)
  }

  // Registrations, commitments and votes after the timeout of their phase change
  // nothing, nor does a change_phase call before it.
  lemma OnlyInTime(c: Curve, s: VotingState, call: Call)
    requires ValidCurve(c) && Invariant(c, s) && IsI32(s.config.merkleLeafCount)
    requires call.CallRegister? ==> IsI32(call.register.merkleProof.index)
    ensures Step(c, s, call) != s ==> InTime(s, call)
  {
    hide Invariant, Honest, RefundTotal, Refunds, VerifyMembership, VerifySchnorr, VerifyOneInTwo, Opens, WrapI32;
    hide Announced, AllCommitted, AllVoted, OneMore;
    if call.CallChangePhase? && call.sender.Account? {
      ChangePhaseOutcome(c, s, call.sender.account, call.now);
    }
  }

  // The phase lacks voters, or something from one of the voters.
  ghost predicate SomebodyIsMissing(s: VotingState) {
    match s.votingPhase
    case Registration => |s.voters| <= 2
    case Commit => exists a :: a in s.voters && (s.voters[a].reconstructedKey == [] || s.voters[a].commitment == [])
    case Vote => exists a :: a in s.voters && s.voters[a].vote == []
    case _ => false
  }

  // An election is aborted exactly by a change_phase call of an account, after the
  // timeout of a phase in which somebody has not done their part, that can be paid for.
  lemma AbortsExactlyWhen(c: Curve, s: VotingState, call: Call)
    requires ValidCurve(c) && Invariant(c, s) && IsI32(s.config.merkleLeafCount)
    requires call.CallRegister? ==> IsI32(call.register.merkleProof.index)
    ensures s.votingPhase != Abort && Step(c, s, call).votingPhase == Abort <==>
      call.CallChangePhase? && InTime(s, call) && SomebodyIsMissing(s) && IsPaidFor(s, call.sender.account)
  {
    NotFinished(c, s);
    if call.CallChangePhase? && call.sender.Account? {
      ChangePhaseOutcome(c, s, call.sender.account, call.now);
    } else {
      NoOtherAbort(c, s, call);
    }
    hide Invariant, Step, IsPaidFor;
  }

  lemma NotFinished(c: Curve, s: VotingState)
    requires Invariant(c, s)
    ensures s.votingPhase in {Commit, Vote} ==> SomebodyIsMissing(s)
  {
    if s.votingPhase == Commit {
      var a :| a in s.voters && !HasCommitted(s.voters[a]);
    } else if s.votingPhase == Vote {
      var a :| a in s.voters && !HasVoted(s.voters[a]);
    }
  }

  lemma NoOtherAbort(c: Curve, s: VotingState, call: Call)
    requires ValidCurve(c) && IsI32(s.config.merkleLeafCount)
    requires call.CallRegister? ==> IsI32(call.register.merkleProof.index)
    requires !(call.CallChangePhase? && call.sender.Account?)
    ensures Step(c, s, call).votingPhase == Abort ==> s.votingPhase == Abort
  {
    hide VerifyMembership, VerifySchnorr, VerifyOneInTwo, Opens, WrapI32, Announced, AllCommitted, AllVoted, OneMore;
  }

  // Every recorded vote was sent by its voter before the timeout.
  lemma {:induction false} VotesAreInTime(c: Curve, config: VoteConfig, start: nat, calls: seq<Call>, a: AccountAddress)
    returns (i: nat)
    requires ValidCurve(c) && IsI32(config.merkleLeafCount) && WellTyped(calls) && Setup(config, start).Ok?
    requires var end := Run(c, Setup(config, start).value, calls); a in end.voters && HasVoted(end.voters[a])
    ensures i < |calls| && calls[i].CallVote? && calls[i].sender == Account(a) && calls[i].now <= config.voteTimeout
    ensures calls[i].vote.vote == Run(c, Setup(config, start).value, calls).voters[a].vote
  {
    hide Step, Invariant;
    var init, n := Setup(config, start).value, |calls| - 1;
    var before := Run(c, init, calls[..n]);
    InvariantHolds(c, config, start, calls[..n]);
    if a in before.voters && HasVoted(before.voters[a]) {
      i := VotesAreInTime(c, config, start, calls[..n], a);
      StepAdvances(c, before, calls[n]);
      assert KeepsVoter(before.voters[a], Step(c, before, calls[n]).voters[a]);
    } else {
      i := n;
      NewVote(c, before, calls[n], a);
    }
  }

  lemma NewVote(c: Curve, s: VotingState, call: Call, a: AccountAddress)
    requires ValidCurve(c) && IsI32(s.config.merkleLeafCount)
    requires call.CallRegister? ==> IsI32(call.register.merkleProof.index)
    requires !(a in s.voters && HasVoted(s.voters[a]))
    requires a in Step(c, s, call).voters && HasVoted(Step(c, s, call).voters[a])
    ensures call.CallVote? && call.sender == Account(a) && call.now <= s.config.voteTimeout
    ensures Step(c, s, call).voters[a].vote == call.vote.vote
  {
    hide VerifyMembership, VerifySchnorr, VerifyOneInTwo, Opens, WrapI32, Announced, AllCommitted, AllVoted, OneMore;
    hide Honest, RefundTotal, Refunds;
  }
}
