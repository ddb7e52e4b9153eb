// Where the deposits of an election go: every transfer, over whole runs.
module Deposits {
  import opened Wrappers
  import opened Addresses
  import opened PrimeField
  import opened VotingCrypto
  import opened SelfTally
  import opened Membership
  import opened VotingStates
  import opened VotingSafety

  // How often an account has been paid one deposit.
  ghost function Received(s: VotingState, a: AccountAddress): nat {
    s.paid[Payment(a, s.config.deposit)]
  }

  // ----- conservation -----

  // Every deposit paid in is in the contract or has been paid out.
  ghost predicate Conserved(s: VotingState) {
    && s.balance + s.config.deposit * |s.paid| == s.config.deposit * |s.voters|
    && forall p :: p in s.paid ==> p.amount == s.config.deposit
  }

  lemma PayEachCounts(accounts: set<AccountAddress>, amount: nat)
    ensures |PayEach(accounts, amount)| == |accounts|
    ensures forall a :: PayEach(accounts, amount)[Payment(a, amount)] == if a in accounts then 1 else 0
    ensures forall p :: p in PayEach(accounts, amount) ==> p.amount == amount && p.to in accounts
  {
    var payments := set a | a in accounts :: Payment(a, amount);
    ImageSize(accounts, amount);
    assert |multiset(payments)| == |payments|;
    forall a ensures multiset(payments)[Payment(a, amount)] == if a in accounts then 1 else 0 {
      assert Payment(a, amount) in payments <==> a in accounts;
    }
  }

  lemma {:induction false} ImageSize(accounts: set<AccountAddress>, amount: nat)
    ensures |set a | a in accounts :: Payment(a, amount)| == |accounts|
  {
    if accounts == {} {
      assert (set a | a in accounts :: Payment(a, amount)) == {};
    } else {
      var a :| a in accounts;
      ImageSize(accounts - {a}, amount);
      var rest := set b | b in accounts - {a} :: Payment(b, amount);
      assert (set b | b in accounts :: Payment(b, amount)) == rest + {Payment(a, amount)};
      assert Payment(a, amount) !in rest;
    }
  }

  // The refunds of an abort, account by account.
  lemma RefundsCount(s: VotingState, caller: AccountAddress)
    ensures var d, honest := s.config.deposit, Honest(s.votingPhase, s.voters);
      && |Refunds(s, caller)| == |honest| + Reward(s, caller)
      && RefundTotal(s, caller) == d * |Refunds(s, caller)|
      && (forall p :: p in Refunds(s, caller) ==> p.amount == d)
      && forall a :: Refunds(s, caller)[Payment(a, d)]
           == (if a in honest then 1 else 0) + (if a == caller then Reward(s, caller) else 0)
  {
    hide Honest, PayEach;
    PayEachCounts(Honest(s.votingPhase, s.voters), s.config.deposit);
  }

  // One more voter pays one deposit, or one more transfer takes one.
  lemma OneMoreDeposit(s: VotingState, s': VotingState)
    requires Conserved(s) && s'.config == s.config
    requires || (&& |s'.voters| == |s.voters| + 1 && s'.balance == s.balance + s.config.deposit
                 && s'.paid == s.paid)
             || exists a :: && |s'.voters| == |s.voters| && s'.balance == s.balance - s.config.deposit
                            && s'.paid == OneMore(s.paid, a, s.config.deposit)
    ensures Conserved(s')
  {
    var d := s.config.deposit;
    Distribute(d, |s.voters|, 1);
    Distribute(d, |s.paid|, 1);
  }

  lemma RegisterConserves(c: Curve, s: VotingState, sender: Address, now: nat, msg: RegisterMessage, deposit: nat)
    requires ValidCurve(c) && Conserved(s) && IsI32(s.config.merkleLeafCount) && IsI32(msg.merkleProof.index)
    requires RegisterStep(c, s, sender, now, msg, deposit).Ok?
    ensures Conserved(RegisterStep(c, s, sender, now, msg, deposit).value)
  {
    hide RegisterStep, Conserved;
    var s' := RegisterStep(c, s, sender, now, msg, deposit).value;
    RegisterShape(c, s, sender, now, msg, deposit);
    AddKey(s.voters, sender.account, s'.voters[sender.account]);
    RegisterPays(c, s, sender, now, msg, deposit);
    OneMoreDeposit(s, s');
  }

  lemma VoteConserves(c: Curve, s: VotingState, sender: Address, now: nat, msg: VoteMessage)
    requires ValidCurve(c) && Conserved(s) && VoteStep(c, s, sender, now, msg).Ok?
    ensures Conserved(VoteStep(c, s, sender, now, msg).value)
  {
    hide VoteStep, Conserved, OneMore, AllVoted, Opens;
    var s' := VoteStep(c, s, sender, now, msg).value;
    VoteShape(c, s, sender, now, msg);
    AddKey(s.voters, sender.account, s'.voters[sender.account]);
    VotePays(c, s, sender, now, msg);
    OneMoreDeposit(s, s');
  }

  lemma AbortConserves(s: VotingState, caller: AccountAddress)
    requires Conserved(s) && AbortStep(s, caller).Ok?
    ensures Conserved(AbortStep(s, caller).value)
  {
    hide Refunds, RefundTotal, Honest;
    RefundsCount(s, caller);
    Distribute(s.config.deposit, |s.paid|, |Refunds(s, caller)|);
  }

  lemma ChangePhaseConserves(s: VotingState, sender: Address, now: nat)
    requires Conserved(s) && ChangePhaseStep(s, sender, now).Ok?
    ensures Conserved(ChangePhaseStep(s, sender, now).value)
  {
    hide Conserved, AbortStep, AllCommitted, AllVoted, Honest;
    if AbortStep(s, sender.account).Ok? {
      AbortConserves(s, sender.account);
    }
    SamePayments(s);
  }

  // Neither the phase nor the announced result matters.
  lemma SamePayments(s: VotingState)
    requires Conserved(s)
    ensures forall phase, result :: Conserved(s.(votingPhase := phase, votingResult := result))
  {
  }

  lemma CommitConserves(s: VotingState, sender: Address, now: nat, msg: CommitMessage)
    requires Conserved(s) && CommitStep(s, sender, now, msg).Ok?
    ensures Conserved(CommitStep(s, sender, now, msg).value)
  {
    hide AllCommitted;
    AddKey(s.voters, sender.account, CommitStep(s, sender, now, msg).value.voters[sender.account]);
  }

  lemma StepConserves(c: Curve, s: VotingState, call: Call)
    requires ValidCurve(c) && Conserved(s) && IsI32(s.config.merkleLeafCount)
    requires call.CallRegister? ==> IsI32(call.register.merkleProof.index)
    ensures Conserved(Step(c, s, call))
  {
    hide RegisterStep, CommitStep, VoteStep, ChangePhaseStep, Announced, Conserved;
    if Attempt(c, s, call).Ok? {
      match call
      case CallRegister(sender, now, msg, deposit) => RegisterConserves(c, s, sender, now, msg, deposit);
      case CallCommit(sender, now, msg) => CommitConserves(s, sender, now, msg);
      case CallVote(sender, now, msg) => VoteConserves(c, s, sender, now, msg);
      case CallResult => SamePayments(s);
      case CallChangePhase(sender, now) => ChangePhaseConserves(s, sender, now);
    }
  }

  lemma Distribute(d: nat, a: nat, b: nat)
    ensures d * (a + b) == d * a + d * b
  {
  }

  lemma RegisterPays(c: Curve, s: VotingState, sender: Address, now: nat, msg: RegisterMessage, deposit: nat)
    requires c.q > 0 && IsI32(s.config.merkleLeafCount) && IsI32(msg.merkleProof.index)
    requires RegisterStep(c, s, sender, now, msg, deposit).Ok?
    ensures RegisterStep(c, s, sender, now, msg, deposit).value.paid == s.paid
  {
    hide VerifyMembership, VerifySchnorr, WrapI32;
  }

  lemma VotePays(c: Curve, s: VotingState, sender: Address, now: nat, msg: VoteMessage)
    requires c.q > 0 && VoteStep(c, s, sender, now, msg).Ok?
    ensures sender.Account?
    ensures VoteStep(c, s, sender, now, msg).value.paid == OneMore(s.paid, sender.account, s.config.deposit)
  {
    hide VerifyOneInTwo, Opens, AllVoted;
  }

  // In every state of every run the balance is one deposit for every voter less
  // one for every transfer made, and nothing but deposits is ever transferred.
  lemma {:induction false} DepositsAreConserved(c: Curve, config: VoteConfig, start: nat, calls: seq<Call>)
    requires ValidCurve(c) && IsI32(config.merkleLeafCount) && WellTyped(calls)
    requires Setup(config, start).Ok?
    ensures Conserved(Run(c, Setup(config, start).value, calls))
  {
    hide Step;
    if calls != [] {
      var n := |calls| - 1;
      DepositsAreConserved(c, config, start, calls[..n]);
      hide Conserved;
      StepConserves(c, Run(c, Setup(config, start).value, calls[..n]), calls[n]);
    }
  }

  // ----- who is paid -----

  // While the election goes on: exactly those who have voted, once each.
  ghost predicate VotersArePaid(s: VotingState) {
    match s.votingPhase
    case Registration => s.paid == multiset{}
    case Commit => s.paid == multiset{}
    case Vote => s.paid == PayEach(Voted(s.voters), s.config.deposit)
    case Result => s.paid == PayEach(s.voters.Keys, s.config.deposit)
    case Abort => true
  }

  lemma VotePaysVoter(c: Curve, s: VotingState, sender: Address, now: nat, msg: VoteMessage)
    requires ValidCurve(c) && Invariant(c, s) && VotersArePaid(s) && VoteStep(c, s, sender, now, msg).Ok?
    ensures VotersArePaid(VoteStep(c, s, sender, now, msg).value)
  {
    hide VoteStep, Opens, PayEach, Invariant;
    VoteShape(c, s, sender, now, msg);
    VotePays(c, s, sender, now, msg);
    var s' := VoteStep(c, s, sender, now, msg).value;
    assert sender.account !in Voted(s.voters);
    PayOne(Voted(s.voters), sender.account, s.config.deposit);
    assert Voted(s'.voters) == Voted(s.voters) + {sender.account};
    if s'.votingPhase == Result {
      assert Voted(s'.voters) == s'.voters.Keys;
    }
  }

  lemma NobodyIsPaid(s: VotingState)
    requires s.paid == multiset{} && forall a :: a in s.voters ==> s.voters[a].vote == []
    ensures s.paid == PayEach(Voted(s.voters), s.config.deposit)
  {
    assert Voted(s.voters) == {};
  }

  lemma CommitPays(c: Curve, s: VotingState, sender: Address, now: nat, msg: CommitMessage)
    requires Invariant(c, s) && VotersArePaid(s) && CommitStep(s, sender, now, msg).Ok?
    ensures VotersArePaid(CommitStep(s, sender, now, msg).value)
  {
    hide PayEach, BalanceInvariant, AllCommitted, Opens;
    NobodyIsPaid(CommitStep(s, sender, now, msg).value);
  }

  lemma ChangePhasePays(c: Curve, s: VotingState, sender: Address, now: nat)
    requires Invariant(c, s) && VotersArePaid(s) && ChangePhaseStep(s, sender, now).Ok?
    ensures VotersArePaid(ChangePhaseStep(s, sender, now).value)
  {
    hide PayEach, BalanceInvariant, AllCommitted, AllVoted, Opens, Honest, RefundTotal, Refunds;
  }

  lemma StepPaysVoters(c: Curve, s: VotingState, call: Call)
    requires ValidCurve(c) && Invariant(c, s) && IsI32(s.config.merkleLeafCount) && VotersArePaid(s)
    requires call.CallRegister? ==> IsI32(call.register.merkleProof.index)
    ensures VotersArePaid(Step(c, s, call))
  {
    hide RegisterStep, CommitStep, VoteStep, PayEach, TallyResult, BalanceInvariant, Opens;
    if Attempt(c, s, call).Ok? {
      match call
      case CallRegister(sender, now, msg, deposit) =>
        RegisterShape(c, s, sender, now, msg, deposit);
        RegisterPays(c, s, sender, now, msg, deposit);
      case CallCommit(sender, now, msg) =>
        CommitPays(c, s, sender, now, msg);
      case CallVote(sender, now, msg) =>
        VotePaysVoter(c, s, sender, now, msg);
      case CallResult =>
      case CallChangePhase(sender, now) =>
        ChangePhasePays(c, s, sender, now);
    }
  }

  lemma {:induction false} RunPaysVoters(c: Curve, config: VoteConfig, start: nat, calls: seq<Call>)
    requires ValidCurve(c) && IsI32(config.merkleLeafCount) && WellTyped(calls)
    requires Setup(config, start).Ok?
    ensures VotersArePaid(Run(c, Setup(config, start).value, calls))
  {
    hide Step, Invariant;
    if calls != [] {
      hide VotersArePaid;
      var n := |calls| - 1;
      RunPaysVoters(c, config, start, calls[..n]);
      InvariantHolds(c, config, start, calls[..n]);
      StepPaysVoters(c, Run(c, Setup(config, start).value, calls[..n]), calls[n]);
    }
  }

  // In every run, unless it is aborted: an account has its deposit back exactly if
  // it has voted, and it gets it once.
  lemma VotersGetTheirDeposit(c: Curve, config: VoteConfig, start: nat, calls: seq<Call>, a: AccountAddress)
    requires ValidCurve(c) && IsI32(config.merkleLeafCount) && WellTyped(calls)
    requires Setup(config, start).Ok?
    ensures var end := Run(c, Setup(config, start).value, calls);
      && (end.votingPhase != Abort ==>
          Received(end, a) == if a in end.voters && HasVoted(end.voters[a]) then 1 else 0)
      && (end.votingPhase == Result ==> Received(end, a) == if a in end.voters then 1 else 0)
  {
    hide PayEach;
    var end := Run(c, Setup(config, start).value, calls);
    RunPaysVoters(c, config, start, calls);
    InvariantHolds(c, config, start, calls);
    PayEachCounts(Voted(end.voters), config.deposit);
    PayEachCounts(end.voters.Keys, config.deposit);
  }

  // An election that is aborted is aborted by one call; later calls change nothing.
  lemma {:induction false} AbortingCall(c: Curve, s: VotingState, calls: seq<Call>) returns (i: nat)
    requires c.q > 0 && IsI32(s.config.merkleLeafCount) && WellTyped(calls)
    requires s.votingPhase != Abort && Run(c, s, calls).votingPhase == Abort
    ensures i < |calls| && calls[i].CallChangePhase? && calls[i].sender.Account?
    ensures Run(c, s, calls[..i]).votingPhase in {Registration, Commit, Vote}
    ensures AbortStep(Run(c, s, calls[..i]), calls[i].sender.account) == Ok(Run(c, s, calls))
  {
    hide Step, AbortStep;
    var n := |calls| - 1;
    var before := Run(c, s, calls[..n]);
    AbortStepIsAbort(c, before, calls[n]);
    if before.votingPhase == Abort {
      i := AbortingCall(c, s, calls[..n]);
      assert calls[..n][..i] == calls[..i];
    } else {
      i := n;
    }
  }

  lemma AbortStepIsAbort(c: Curve, s: VotingState, call: Call)
    requires c.q > 0 && IsI32(s.config.merkleLeafCount)
    requires call.CallRegister? ==> IsI32(call.register.merkleProof.index)
    requires Step(c, s, call).votingPhase == Abort
    ensures s.votingPhase == Abort ==> Step(c, s, call) == s
    ensures s.votingPhase != Abort ==>
              && call.CallChangePhase? && call.sender.Account?
              && s.votingPhase in {Registration, Commit, Vote}
              && AbortStep(s, call.sender.account) == Ok(Step(c, s, call))
  {
    hide VerifyMembership, VerifySchnorr, VerifyOneInTwo, WrapI32, Opens, TallyResult, Honest, Refunds, RefundTotal;
    hide AllCommitted, AllVoted;
  }

  // How many deposits an account gets in an election that is aborted in a phase by a
  // caller: a deposit for a registration, a reconstructed key, or a vote; what a vote
  // has already brought back is paid again; and a caller who has not stalled the
  // phase gets one more, unless it is Registration.
  ghost function PaidOnAbort(phase: VotingPhase, voters: map<AccountAddress, Voter>, a: AccountAddress,
      caller: AccountAddress): nat {
    match phase
    case Registration => if a in voters then 1 else 0
    case Commit =>
      (if a in voters && voters[a].reconstructedKey != [] then 1 else 0)
      + (if a == caller && (a in voters ==> voters[a].reconstructedKey != []) then 1 else 0)
    case _ =>
      (if a in voters && voters[a].vote != [] then 2 else 0)
      + (if a == caller && (a in voters ==> voters[a].vote != []) then 1 else 0)
  }

  lemma PaidOnAbortIs(c: Curve, s: VotingState, a: AccountAddress, caller: AccountAddress)
    requires Invariant(c, s) && s.votingPhase in {Registration, Commit, Vote}
    ensures PaidOnAbort(s.votingPhase, s.voters, a, caller)
         == (if a in Honest(s.votingPhase, s.voters) then 1 else 0)
            + (if s.votingPhase == Vote && a in Voted(s.voters) then 1 else 0)
            + (if a == caller then Reward(s, caller) else 0)
  {
    HonestCount(s.votingPhase, s.voters);
    if s.votingPhase == Commit {
      var b :| b in s.voters && !HasCommitted(s.voters[b]);
      assert !IsHonest(Commit, s.voters[b]);
    } else if s.votingPhase == Vote {
      var b :| b in s.voters && !HasVoted(s.voters[b]);
      assert !IsHonest(Vote, s.voters[b]);
    }
  }

  // In an aborted run there is one call that aborts the election, and every account
  // has been paid just what the phase and the caller at that moment entitle it to.
  lemma AbortPays(c: Curve, config: VoteConfig, start: nat, calls: seq<Call>, a: AccountAddress) returns (i: nat)
    requires ValidCurve(c) && IsI32(config.merkleLeafCount) && WellTyped(calls)
    requires Setup(config, start).Ok? && Run(c, Setup(config, start).value, calls).votingPhase == Abort
    ensures i < |calls| && calls[i].CallChangePhase? && calls[i].sender.Account?
    ensures var init := Setup(config, start).value;
      var before, end := Run(c, init, calls[..i]), Run(c, init, calls);
      && before.votingPhase in {Registration, Commit, Vote} && end.voters == before.voters
      && Received(end, a) == PaidOnAbort(before.votingPhase, before.voters, a, calls[i].sender.account)
  {
    hide Step;
    var init := Setup(config, start).value;
    i := AbortingCall(c, init, calls);
    hide Honest, Refunds, PaidOnAbort, Invariant;
    var before := Run(c, init, calls[..i]);
    InvariantHolds(c, config, start, calls[..i]);
    PaidOnAbortIs(c, before, a, calls[i].sender.account);
    PaidBefore(c, config, start, calls[..i], a);
    RefundsCount(before, calls[i].sender.account);
  }

  lemma PaidBefore(c: Curve, config: VoteConfig, start: nat, calls: seq<Call>, a: AccountAddress)
    requires ValidCurve(c) && IsI32(config.merkleLeafCount) && WellTyped(calls)
    requires Setup(config, start).Ok?
    ensures var s := Run(c, Setup(config, start).value, calls);
      s.votingPhase in {Registration, Commit, Vote} ==>
        Received(s, a) == if s.votingPhase == Vote && a in Voted(s.voters) then 1 else 0
  {
    hide Step;
    InvariantHolds(c, config, start, calls);
    VotersGetTheirDeposit(c, config, start, calls, a);
  }
}
