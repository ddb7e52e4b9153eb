// What holds in every reachable state of the voting contract, and over whole
// runs of it.
module VotingSafety {
  import opened Wrappers
  import opened Addresses
  import opened Hashing
  import opened VotingCrypto
  import opened PrimeField
  import opened SelfTally
  import opened Membership
  import opened VotingStates

  // ----- the invariant -----

  ghost predicate VoterInvariant(c: Curve, phase: VotingPhase, v: Voter) {
    && v.votingKey != []
    && (HasVoted(v) ==> Opens(c, v.vote, v.commitment))
    && match phase
       case Registration => v.reconstructedKey == [] && v.commitment == [] && v.vote == []
       case Commit => v.vote == [] && (v.reconstructedKey == [] <==> v.commitment == [])
       case Vote => HasCommitted(v)
       case Result => HasCommitted(v) && HasVoted(v)
       case Abort => true
  }

  // D * n while nobody voted, one deposit less for everyone who has.
  ghost predicate BalanceInvariant(s: VotingState) {
    match s.votingPhase
    case Registration => s.balance == s.config.deposit * |s.voters|
    case Commit => s.balance == s.config.deposit * |s.voters|
    case Vote => s.balance == s.config.deposit * (|s.voters| - |Voted(s.voters)|)
    case Result => s.balance == 0
    case Abort => true
  }

  ghost predicate Invariant(c: Curve, s: VotingState) {
    && s.config.registrationTimeout < s.config.commitTimeout < s.config.voteTimeout
    && (forall a :: a in s.voters ==> VoterInvariant(c, s.votingPhase, s.voters[a]))
    && BalanceInvariant(s)
    && (s.votingPhase in {Commit, Vote, Result} ==> |s.voters| > 0)
    && (s.votingPhase == Commit ==> !AllCommitted(s.voters))
    && (s.votingPhase == Vote ==> !AllVoted(s.voters))
  }

  // ----- cardinalities -----

  lemma MapSize<K, V>(m: map<K, V>)
    ensures |m| == |m.Keys|
  {
  }

  lemma AddKey<K, V>(m: map<K, V>, k: K, v: V)
    ensures |m[k := v]| == |m| + if k in m then 0 else 1
    ensures m[k := v].Keys == m.Keys + {k}
  {
    assert m[k := v].Keys == m.Keys + {k};
  }

  lemma {:induction false} SubsetSize<T>(a: set<T>, b: set<T>)
    requires a <= b
    ensures |a| <= |b|
    ensures |a| == |b| <==> a == b
  {
    if a == {} {
    } else {
      var x :| x in a;
      SubsetSize(a - {x}, b - {x});
      assert a == (a - {x}) + {x} && b == (b - {x}) + {x};
    }
  }

  // Everybody is honest exactly when the honest voters are as many as the voters.
  lemma HonestCount(phase: VotingPhase, voters: map<AccountAddress, Voter>)
    ensures Honest(phase, voters) <= voters.Keys && |Honest(phase, voters)| <= |voters|
    ensures |Honest(phase, voters)| == |voters| <==> forall a :: a in voters ==> IsHonest(phase, voters[a])
  {
    MapSize(voters);
    SubsetSize(Honest(phase, voters), voters.Keys);
  }

  // One more voter has voted.
  lemma OneMoreVote(voters: map<AccountAddress, Voter>, a: AccountAddress, v: Voter)
    requires a in voters && !HasVoted(voters[a]) && HasVoted(v)
    ensures |voters[a := v]| == |voters|
    ensures |Voted(voters[a := v])| == |Voted(voters)| + 1
    ensures |Voted(voters)| < |voters|
  {
    AddKey(voters, a, v);
    assert Voted(voters[a := v]) == Voted(voters) + {a};
    HonestCount(Vote, voters);
  }

  lemma NobodyVoted(voters: map<AccountAddress, Voter>)
    requires forall a :: a in voters ==> voters[a].vote == []
    ensures |Voted(voters)| == 0
  {
    assert Voted(voters) == {};
  }

  // ----- every step keeps the invariant -----

  lemma SetupInvariant(c: Curve, config: VoteConfig, now: nat)
    requires Setup(config, now).Ok?
    ensures Invariant(c, Setup(config, now).value)
  {
  }

  // What an accepted registration does.
  ghost predicate Registers(c: Curve, s: VotingState, s': VotingState, a: AccountAddress, v: Voter) {
    && s.votingPhase == Registration && a !in s.voters
    && v.votingKey != [] && v.reconstructedKey == [] && v.commitment == [] && v.vote == []
    && s'.config == s.config && s'.voters == s.voters[a := v]
    && s'.votingPhase in {Registration, Commit}
    && s'.balance == s.balance + s.config.deposit
  }

  lemma RegisterShape(c: Curve, s: VotingState, sender: Address, now: nat, msg: RegisterMessage, deposit: nat)
    requires ValidCurve(c)
    requires IsI32(s.config.merkleLeafCount) && IsI32(msg.merkleProof.index)
    requires RegisterStep(c, s, sender, now, msg, deposit).Ok?
    ensures sender.Account?
    ensures var s' := RegisterStep(c, s, sender, now, msg, deposit).value;
      sender.account in s'.voters && Registers(c, s, s', sender.account, s'.voters[sender.account])
  {
    hide VerifyMembership, VerifySchnorr, WrapI32;
  }

  lemma RegisterInvariant(c: Curve, s: VotingState, sender: Address, now: nat, msg: RegisterMessage, deposit: nat)
    requires ValidCurve(c) && Invariant(c, s)
    requires IsI32(s.config.merkleLeafCount) && IsI32(msg.merkleProof.index)
    requires RegisterStep(c, s, sender, now, msg, deposit).Ok?
    ensures Invariant(c, RegisterStep(c, s, sender, now, msg, deposit).value)
  {
    hide RegisterStep, Opens;
    RegisterShape(c, s, sender, now, msg, deposit);
    var s' := RegisterStep(c, s, sender, now, msg, deposit).value;
    var voter := s'.voters[sender.account];
    AddKey(s.voters, sender.account, voter);
    assert s.config.deposit * (|s.voters| + 1) == s.config.deposit * |s.voters| + s.config.deposit;
    assert !HasCommitted(voter);
  }

  lemma CommitInvariant(c: Curve, s: VotingState, sender: Address, now: nat, msg: CommitMessage)
    requires Invariant(c, s)
    requires CommitStep(s, sender, now, msg).Ok?
    ensures Invariant(c, CommitStep(s, sender, now, msg).value)
  {
    var s' := CommitStep(s, sender, now, msg).value;
    AddKey(s.voters, sender.account, s'.voters[sender.account]);
    if s'.votingPhase == Vote {
      NobodyVoted(s'.voters);
      assert exists a :: a in s'.voters by { assert sender.account in s'.voters; }
    }
  }

  // What an accepted vote does.
  ghost predicate Votes(c: Curve, s: VotingState, s': VotingState, a: AccountAddress, v: Voter) {
    && s.votingPhase == Vote && a in s.voters && !HasVoted(s.voters[a])
    && HasVoted(v) && v == s.voters[a].(vote := v.vote, voteZkp := v.voteZkp) && Opens(c, v.vote, v.commitment)
    && s'.config == s.config && s'.voters == s.voters[a := v]
    && s'.votingPhase == (if AllVoted(s'.voters) then Result else Vote)
    && s'.balance == s.balance - s.config.deposit
  }

  lemma VoteShape(c: Curve, s: VotingState, sender: Address, now: nat, msg: VoteMessage)
    requires ValidCurve(c) && VoteStep(c, s, sender, now, msg).Ok?
    ensures sender.Account?
    ensures var s' := VoteStep(c, s, sender, now, msg).value;
      sender.account in s'.voters && Votes(c, s, s', sender.account, s'.voters[sender.account])
  {
    hide VerifyOneInTwo, AllVoted;
    assert c.pointOf([]).None?;
  }

  lemma VoteInvariant(c: Curve, s: VotingState, sender: Address, now: nat, msg: VoteMessage)
    requires ValidCurve(c) && Invariant(c, s)
    requires VoteStep(c, s, sender, now, msg).Ok?
    ensures Invariant(c, VoteStep(c, s, sender, now, msg).value)
  {
    hide VoteStep, Opens, Voted;
    VoteShape(c, s, sender, now, msg);
    var s' := VoteStep(c, s, sender, now, msg).value;
    OneMoreVote(s.voters, sender.account, s'.voters[sender.account]);
    var d, n, k := s.config.deposit, |s.voters|, |Voted(s.voters)|;
    assert d * (n - k) - d == d * (n - (k + 1));
    if s'.votingPhase == Result {
      EverybodyVoted(s'.voters);
    }
  }

  lemma EverybodyVoted(voters: map<AccountAddress, Voter>)
    requires AllVoted(voters)
    ensures |Voted(voters)| == |voters|
  {
    HonestCount(Vote, voters);
  }

  lemma ChangePhaseInvariant(c: Curve, s: VotingState, sender: Address, now: nat)
    requires Invariant(c, s)
    requires ChangePhaseStep(s, sender, now).Ok?
    ensures Invariant(c, ChangePhaseStep(s, sender, now).value)
  {
    HonestCount(Registration, s.voters);
    if s.votingPhase == Registration && now > s.config.registrationTimeout && |WithKey(s.voters)| > 2 {
      MapSize(s.voters);
      var a :| a in s.voters;
      assert !HasCommitted(s.voters[a]);
    }
  }

  // In every reachable state: the phases agree with what the voters have
  // submitted, recorded votes open their commitments, and the balance is
  // exactly the deposits not yet paid back.
  lemma {:induction false} InvariantHolds(c: Curve, config: VoteConfig, start: nat, calls: seq<Call>)
    requires ValidCurve(c) && IsI32(config.merkleLeafCount) && WellTyped(calls)
    requires Setup(config, start).Ok?
    ensures Invariant(c, Run(c, Setup(config, start).value, calls))
  {
    var init := Setup(config, start).value;
    if calls == [] {
      SetupInvariant(c, config, start);
    } else {
      var n := |calls| - 1;
      InvariantHolds(c, config, start, calls[..n]);
      StepInvariant(c, Run(c, init, calls[..n]), calls[n]);
    }
  }

  lemma StepInvariant(c: Curve, s: VotingState, call: Call)
    requires ValidCurve(c) && Invariant(c, s) && IsI32(s.config.merkleLeafCount)
    requires call.CallRegister? ==> IsI32(call.register.merkleProof.index)
    ensures Invariant(c, Step(c, s, call))
  {
    hide RegisterStep, CommitStep, VoteStep, ChangePhaseStep, Invariant;
    if Attempt(c, s, call).Ok? {
      match call
      case CallRegister(sender, now, msg, deposit) => RegisterInvariant(c, s, sender, now, msg, deposit);
      case CallCommit(sender, now, msg) => CommitInvariant(c, s, sender, now, msg);
      case CallVote(sender, now, msg) => VoteInvariant(c, s, sender, now, msg);
      case CallResult => ResultInvariant(c, s);
      case CallChangePhase(sender, now) => ChangePhaseInvariant(c, s, sender, now);
    }
  }

  lemma ResultInvariant(c: Curve, s: VotingState)
    requires c.q > 0 && Invariant(c, s) && ResultStep(c, s).Ok?
    ensures Invariant(c, ResultStep(c, s).value)
  {
    hide TallyResult;
  }

  // ----- phases, voters and votes over a run -----

  // A phase is followed by itself, by the next phase, or by Abort.
  ghost predicate Follows(before: VotingPhase, after: VotingPhase) {
    match before
    case Registration => after in {Registration, Commit, Abort}
    case Commit => after in {Commit, Vote, Abort}
    case Vote => after in {Vote, Result, Abort}
    case Result => after == Result
    case Abort => after == Abort
  }

  // What a voter entry keeps from one state to a later one.
  ghost predicate KeepsVoter(before: Voter, after: Voter) {
    && after.votingKey == before.votingKey && after.votingKeyZkp == before.votingKeyZkp
    && (HasVoted(before) ==> after == before)
  }

  ghost predicate Keeps(before: VotingState, after: VotingState) {
    && before.config == after.config
    && before.voters.Keys <= after.voters.Keys
    && (before.votingPhase != Registration ==> before.voters.Keys == after.voters.Keys)
    && (forall a :: a in before.voters ==> KeepsVoter(before.voters[a], after.voters[a]))
    && (before.votingPhase in {Vote, Result, Abort} ==>
        forall a :: a in before.voters ==>
          after.voters[a].commitment == before.voters[a].commitment
          && after.voters[a].reconstructedKey == before.voters[a].reconstructedKey)
  }

  ghost predicate Advances(before: VotingState, after: VotingState) {
    Follows(before.votingPhase, after.votingPhase) && Keeps(before, after)
  }

  lemma RegisterAdvances(c: Curve, s: VotingState, sender: Address, now: nat, msg: RegisterMessage, deposit: nat)
    requires c.q > 0 && IsI32(s.config.merkleLeafCount) && IsI32(msg.merkleProof.index)
    requires RegisterStep(c, s, sender, now, msg, deposit).Ok?
    ensures Advances(s, RegisterStep(c, s, sender, now, msg, deposit).value)
  {
    hide VerifyMembership, VerifySchnorr, WrapI32;
  }

  lemma CommitAdvances(c: Curve, s: VotingState, sender: Address, now: nat, msg: CommitMessage)
    requires Invariant(c, s) && CommitStep(s, sender, now, msg).Ok?
    ensures Advances(s, CommitStep(s, sender, now, msg).value)
  {
    hide Opens, Honest, BalanceInvariant, AllCommitted;
    assert VoterInvariant(c, Commit, s.voters[sender.account]);
  }

  lemma VoteAdvances(c: Curve, s: VotingState, sender: Address, now: nat, msg: VoteMessage)
    requires c.q > 0 && VoteStep(c, s, sender, now, msg).Ok?
    ensures Advances(s, VoteStep(c, s, sender, now, msg).value)
  {
    hide VerifyOneInTwo, Opens, AllVoted;
  }

  lemma ChangePhaseAdvances(s: VotingState, sender: Address, now: nat)
    requires ChangePhaseStep(s, sender, now).Ok?
    ensures Advances(s, ChangePhaseStep(s, sender, now).value)
  {
    SameVotersKept(s, ChangePhaseStep(s, sender, now).value) by {
      hide Honest, AllCommitted, AllVoted, RefundTotal, Refunds;
    }
    hide Honest, AllCommitted, AllVoted, RefundTotal, Refunds, Keeps;
  }

  lemma SameVotersKept(s: VotingState, s': VotingState)
    requires s'.config == s.config && s'.voters == s.voters
    ensures Keeps(s, s')
  {
  }

  lemma StepAdvances(c: Curve, s: VotingState, call: Call)
    requires ValidCurve(c) && Invariant(c, s) && IsI32(s.config.merkleLeafCount)
    requires call.CallRegister? ==> IsI32(call.register.merkleProof.index)
    ensures Advances(s, Step(c, s, call))
  {
    hide RegisterStep, CommitStep, VoteStep, ChangePhaseStep, Invariant, TallyResult;
    if Attempt(c, s, call).Ok? {
      match call
      case CallRegister(sender, now, msg, deposit) => RegisterAdvances(c, s, sender, now, msg, deposit);
      case CallCommit(sender, now, msg) => CommitAdvances(c, s, sender, now, msg);
      case CallVote(sender, now, msg) => VoteAdvances(c, s, sender, now, msg);
      case CallResult =>
      case CallChangePhase(sender, now) => ChangePhaseAdvances(s, sender, now);
    }
  }

  lemma KeepsTrans(a: VotingState, b: VotingState, c: VotingState)
    requires Keeps(a, b) && Advances(b, c)
    requires PhaseSince(a.votingPhase, b.votingPhase)
    ensures Keeps(a, c) && PhaseSince(a.votingPhase, c.votingPhase)
  {
    forall v | v in a.voters ensures KeepsVoter(a.voters[v], c.voters[v]) {
      assert KeepsVoter(a.voters[v], b.voters[v]) && KeepsVoter(b.voters[v], c.voters[v]);
    }
  }

  // The phases that can be reached from a phase, in any number of calls.
  ghost predicate PhaseSince(before: VotingPhase, after: VotingPhase) {
    match before
    case Registration => true
    case Commit => after != Registration
    case Vote => after in {Vote, Result, Abort}
    case Result => after == Result
    case Abort => after == Abort
  }

  // Once registration is over the set of voters is frozen; a recorded vote
  // never changes; a later phase never goes back.
  lemma {:induction false} RunKeeps(c: Curve, s: VotingState, calls: seq<Call>)
    requires ValidCurve(c) && Invariant(c, s) && IsI32(s.config.merkleLeafCount) && WellTyped(calls)
    ensures Invariant(c, Run(c, s, calls)) && Keeps(s, Run(c, s, calls))
    ensures PhaseSince(s.votingPhase, Run(c, s, calls).votingPhase)
  {
    hide Invariant, Step;
    if calls == [] {
      KeepsItself(s);
    } else {
      hide Keeps, Advances;
      var n := |calls| - 1;
      var mid := Run(c, s, calls[..n]);
      RunKeeps(c, s, calls[..n]);
      StepInvariant(c, mid, calls[n]);
      StepAdvances(c, mid, calls[n]);
      KeepsTrans(s, mid, Step(c, mid, calls[n]));
    }
  }

  lemma KeepsItself(s: VotingState)
    ensures Keeps(s, s) && PhaseSince(s.votingPhase, s.votingPhase)
  {
  }

  // ----- deposits -----

  // The refund of a voter who votes never lacks funds.
  lemma VoteRefundIsCovered(c: Curve, s: VotingState, sender: Address, now: nat, msg: VoteMessage)
    requires c.q > 0 && Invariant(c, s)
    ensures VoteStep(c, s, sender, now, msg) != Err(TransferFailed)
  {
    hide VerifyOneInTwo, Opens;
    if s.votingPhase == Vote && sender.Account? && sender.account in s.voters && s.voters[sender.account].vote == [] {
      HonestCount(Vote, s.voters);
      assert !IsHonest(Vote, s.voters[sender.account]);
      var d, m := s.config.deposit, |s.voters| - |Voted(s.voters)|;
      assert m >= 1;
      assert d * m >= d * 1;
    }
  }

  // An abort is due: the phase is over without everybody having done their part.
  ghost predicate AbortDue(s: VotingState, now: nat) {
    match s.votingPhase
    case Registration => now > s.config.registrationTimeout && |WithKey(s.voters)| <= 2
    case Commit => now > s.config.commitTimeout
    case Vote => now > s.config.voteTimeout
    case _ => false
  }

  lemma TimesMonotone(d: nat, a: int, b: int)
    requires a <= b
    ensures d * a <= d * b
    ensures d > 0 && a < b ==> d * a < d * b
  {
  }

  lemma HonestInCommit(c: Curve, s: VotingState)
    requires Invariant(c, s) && s.votingPhase == Commit
    ensures |Honest(Commit, s.voters)| < |s.voters|
  {
    HonestCount(Commit, s.voters);
    var a :| a in s.voters && !HasCommitted(s.voters[a]);
    assert !IsHonest(Commit, s.voters[a]);
  }

  // When an abort is due, the refunds succeed from Registration and Commit; from
  // Vote, with h voters who voted and r = 1 if the caller is rewarded, they
  // succeed exactly when there is no deposit or 2h + r <= n.
  lemma AbortSucceedsIff(c: Curve, s: VotingState, caller: AccountAddress, now: nat)
    requires Invariant(c, s) && AbortDue(s, now)
    ensures var outcome := ChangePhaseStep(s, Account(caller), now);
      var h, r, n := |Voted(s.voters)|, Reward(s, caller), |s.voters|;
      && (outcome.Ok? ==>
          outcome.value.votingPhase == Abort && outcome.value.balance == s.balance - RefundTotal(s, caller))
      && (outcome.Err? ==> outcome == Err(TransferFailed))
      && (outcome.Ok? <==> s.votingPhase != Vote || s.config.deposit == 0 || 2 * h + r <= n)
  {
    var d, h, r, n := s.config.deposit, |Honest(s.votingPhase, s.voters)|, Reward(s, caller), |s.voters|;
    HonestCount(s.votingPhase, s.voters);
    match s.votingPhase
    case Registration =>
      assert h == n;
      assert d * (h + r) == d * n;
    case Commit =>
      HonestInCommit(c, s);
      TimesMonotone(d, h + r, n);
    case Vote =>
      if h + r <= n - h {
        TimesMonotone(d, h + r, n - h);
      } else {
        TimesMonotone(d, n - h, h + r);
      }
      assert d > 0 && h + r > n - h ==> d * (n - h) < d * (h + r);
  }

  // With the guarded loop every abort that is due succeeds.
  lemma GuardedAbortSucceeds(c: Curve, s: VotingState, caller: AccountAddress, now: nat)
    requires Invariant(c, s) && AbortDue(s, now)
    ensures GuardedRefundTotal(s, caller) <= s.balance
  {
    var d, n := s.config.deposit, |s.voters|;
    HonestCount(s.votingPhase, s.voters);
    if s.votingPhase == Vote {
      HonestCount(Vote, s.voters);
      var a :| a in s.voters && !HasVoted(s.voters[a]);
      assert !IsHonest(Vote, s.voters[a]);
      TimesMonotone(d, Reward(s, caller), n - |Voted(s.voters)|);
    } else {
      AbortSucceedsIff(c, s, caller, now);
    }
  }

  // ----- termination -----

  ghost predicate Finished(s: VotingState) {
    s.votingPhase in {Result, Abort}
  }

  ghost predicate Stuck(s: VotingState, caller: AccountAddress) {
    s.votingPhase == Vote && s.config.deposit > 0 && 2 * |Voted(s.voters)| + Reward(s, caller) > |s.voters|
  }

  // After all timeouts, two change_phase calls by accounts end the election from
  // every reachable state, unless the refunds of an abort from Vote cannot be
  // paid; and in that case the calls change nothing.
  lemma TwoCallsFinish(c: Curve, s: VotingState, a: AccountAddress, b: AccountAddress, now: nat, later: nat)
    requires ValidCurve(c) && Invariant(c, s) && IsI32(s.config.merkleLeafCount)
    requires s.config.voteTimeout < now <= later
    ensures var end := Run(c, s, [CallChangePhase(Account(a), now), CallChangePhase(Account(b), later)]);
      && (Finished(end) <==> !(Stuck(s, a) && Stuck(s, b)))
      && (!Finished(end) ==> end == s)
  {
    var first, second := CallChangePhase(Account(a), now), CallChangePhase(Account(b), later);
    var mid := Step(c, s, first);
    TwoSteps(c, s, first, second);
    StepInvariant(c, s, first);
    LateCallAdvances(c, s, a, now);
    LateCallAdvances(c, mid, b, later);
    hide *;
    StuckIsVote(s, a);
    StuckIsVote(s, b);
    StuckIsVote(mid, b);
  }

  lemma TwoSteps(c: Curve, s: VotingState, first: Call, second: Call)
    requires c.q > 0 && IsI32(s.config.merkleLeafCount) && first.CallChangePhase? && second.CallChangePhase?
    ensures Run(c, s, [first, second]) == Step(c, Step(c, s, first), second)
  {
    var calls := [first, second];
    assert calls[..1] == [first] && [first][..0] == [];
    assert Run(c, s, [first]) == Step(c, s, first);
  }

  // What one late call by an account achieves.
  lemma LateCallAdvances(c: Curve, s: VotingState, a: AccountAddress, now: nat)
    requires c.q > 0 && Invariant(c, s) && IsI32(s.config.merkleLeafCount) && s.config.voteTimeout < now
    ensures var after := Step(c, s, CallChangePhase(Account(a), now));
      && (Finished(s) ==> after == s)
      && (s.votingPhase == Registration ==> Finished(after) || after.votingPhase == Commit)
      && (s.votingPhase == Commit ==> Finished(after))
      && (s.votingPhase == Vote ==> if Stuck(s, a) then after == s else Finished(after))
  {
    if AbortDue(s, now) {
      AbortSucceedsIff(c, s, a, now);
    }
    hide Honest, BalanceInvariant, VoterInvariant, Reward, RefundTotal, Refunds;
  }

  lemma StuckIsVote(s: VotingState, a: AccountAddress)
    ensures Stuck(s, a) ==> s.votingPhase == Vote
    ensures Finished(s) <==> s.votingPhase in {Result, Abort}
  {
  }

  // ----- the result -----

  lemma {:induction false} PointsAreVotes(c: Curve, voters: map<AccountAddress, Voter>, order: seq<AccountAddress>)
    requires ValidCurve(c)
    requires forall i :: 0 <= i < |order| ==> order[i] in voters && c.pointOf(voters[order[i]].vote).Some?
    ensures PointsOf(c, voters, order).Some?
    ensures var points := PointsOf(c, voters, order).value;
      && |points| == |order|
      && ArePoints(c.q, points)
      && forall i :: 0 <= i < |order| ==> points[i] == c.pointOf(voters[order[i]].vote).value
  {
    if order != [] {
      PointsAreVotes(c, voters, order[..|order| - 1]);
    }
  }

  // In phase Result the tally never traps; it needs no particular order.
  lemma ResultSucceeds(c: Curve, s: VotingState)
    requires ValidCurve(c) && Invariant(c, s) && s.votingPhase == Result
    ensures ResultStep(c, s).Ok?
    ensures ResultStep(c, s).value == s.(votingResult := ResultStep(c, s).value.votingResult)
  {
    EnumerateElements(s.voters.Keys);
    var order := Enumerate(s.voters.Keys);
    MapSize(s.voters);
    forall i | 0 <= i < |order| ensures order[i] in s.voters && c.pointOf(s.voters[order[i]].vote).Some? {
      assert order[i] in order;
      assert VoterInvariant(c, Result, s.voters[order[i]]);
    }
    PointsAreVotes(c, s.voters, order);
  }

  // Whatever happens between two result calls, they announce the same numbers.
  lemma ResultsAgree(c: Curve, s: VotingState, calls: seq<Call>)
    requires ValidCurve(c) && Invariant(c, s) && IsI32(s.config.merkleLeafCount) && WellTyped(calls)
    requires s.votingPhase == Result
    ensures var later := Run(c, s, calls);
      ResultStep(c, later).Ok? && ResultStep(c, s).Ok?
      && ResultStep(c, later).value.votingResult == ResultStep(c, s).value.votingResult
  {
    RunKeeps(c, s, calls);
    var later := Run(c, s, calls);
    ResultSucceeds(c, s);
    ResultSucceeds(c, later);
    assert later.voters == s.voters by {
      forall a | a in s.voters ensures later.voters[a] == s.voters[a] {
        assert VoterInvariant(c, Result, s.voters[a]);
        assert KeepsVoter(s.voters[a], later.voters[a]);
      }
      assert later.voters.Keys == s.voters.Keys;
    }
  }
}
