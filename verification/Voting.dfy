// The Open Vote Network contract (voting/src/lib.rs): an object whose entrypoints
// change its fields in place and move money. Every entrypoint is proved to do
// exactly what the step functions of VotingStates say.
//
// A rejected entrypoint restores the fields it has already changed, as the chain
// does by not storing the state and reverting the transfers.
module Voting {
  import opened Wrappers
  import opened Addresses
  import opened PrimeField
  import opened VotingCrypto
  import opened SelfTally
  import opened Membership
  import opened VotingStates
  import opened VotingSafety
  import opened ElectionResults

  lemma AppendNew(order: seq<AccountAddress>, a: AccountAddress)
    requires NoDuplicates(order) && a !in order
    ensures NoDuplicates(order + [a])
  {
  }

  // The keys of a map in the order in which its iterator hands them out.
  method Accounts(voters: map<AccountAddress, Voter>) returns (order: seq<AccountAddress>)
    ensures IsEnumeration(order, voters.Keys)
    ensures forall i :: 0 <= i < |order| ==> order[i] in voters
  {
    order := [];
    var rest := voters.Keys;
    while rest != {}
      invariant rest <= voters.Keys && NoDuplicates(order)
      invariant forall a :: a in order <==> a in voters.Keys - rest
      decreases |rest|
    {
      var a :| a in rest;
      AppendNew(order, a);
      order := order + [a];
      rest := rest - {a};
    }
    forall i | 0 <= i < |order| ensures order[i] in voters { assert order[i] in order; }
  }

  // The accounts, in the order of the map, of the voters that are honest, or of
  // those that are not.
  method Select(voters: map<AccountAddress, Voter>, phase: VotingPhase, honest: bool)
    returns (accounts: seq<AccountAddress>)
    ensures IsEnumeration(accounts, if honest then Honest(phase, voters) else voters.Keys - Honest(phase, voters))
  {
    var order := Accounts(voters);
    accounts := [];
    for i := 0 to |order|
      invariant NoDuplicates(accounts)
      invariant forall a :: a in accounts <==> a in order[..i] && IsHonest(phase, voters[a]) == honest
    {
      assert order[i] !in order[..i];
      if IsHonest(phase, voters[order[i]]) == honest {
        AppendNew(accounts, order[i]);
        accounts := accounts + [order[i]];
      }
      assert order[..i + 1] == order[..i] + [order[i]];
    }
    assert order[..|order|] == order;
  }

  class VotingContract {
    const curve: Curve
    const config: VoteConfig
    var votingPhase: VotingPhase
    var votingResult: (int, int)
    var voters: map<AccountAddress, Voter>
    var balance: nat
    ghost var paid: multiset<Payment>

    ghost predicate Valid() {
      ValidCurve(curve) && IsI32(config.merkleLeafCount)
    }

    ghost function State(): VotingState
      reads this
    {
      VotingState(config, votingPhase, votingResult, voters, balance, paid)
    }

    // What an entrypoint must have done: the accepted step, or nothing.
    ghost predicate Did(before: VotingState, step: Wrappers.Result<VotingState, Rejection>,
                        outcome: Wrappers.Result<(), Rejection>)
      reads this
    {
      match step
      case Ok(after) => outcome == Ok(()) && State() == after
      case Err(e) => outcome == Err(e) && State() == before
    }

    constructor (curve: Curve, config: VoteConfig)
      requires ValidCurve(curve) && IsI32(config.merkleLeafCount)
      ensures Valid() && this.curve == curve
      ensures State() == VotingState(config, Registration, (-1, -1), map[], 0, multiset{})
    {
      this.curve := curve;
      this.config := config;
      votingPhase := Registration;
      votingResult := (-1, -1);
      voters := map[];
      balance := 0;
      paid := multiset{};
    }

    // `invoke_transfer`, to an account that exists.
    method InvokeTransfer(to: AccountAddress, amount: nat) returns (ok: bool)
      modifies this`balance, this`paid
      ensures ok <==> amount <= old(balance)
      ensures balance == if ok then old(balance) - amount else old(balance)
      ensures paid == if ok then OneMore(old(paid), to, amount) else old(paid)
    {
      ok := amount <= balance;
      if ok {
        balance := balance - amount;
        paid := OneMore(paid, to, amount);
      }
    }

    method Register(sender: Address, now: nat, msg: RegisterMessage, deposit: nat)
      returns (r: Wrappers.Result<(), Rejection>)
      requires Valid() && IsI32(msg.merkleProof.index)
      modifies this
      ensures Did(old(State()), RegisterStep(curve, old(State()), sender, now, msg, deposit), r)
    {
      hide VerifyMembership, VerifySchnorr, WrapI32;
      if sender.Contract? { return Err(ContractSender); }
      if votingPhase != Registration { return Err(NotRegistrationPhase); }
      var authorized :=
          VerifyMembership(curve.hasher, config.merkleRoot, config.merkleLeafCount, msg.merkleProof, sender.account);
      if authorized.None? { return Err(Trapped); }
      if !authorized.value { return Err(UnauthorizedVoter); }
      if config.deposit != deposit { return Err(WrongDeposit); }
      if now > config.registrationTimeout { return Err(PhaseEnded); }
      if sender.account in voters { return Err(AlreadyRegistered); }
      var before := voters;
      var voter := Voter([], SchnorrProof(0, 0), [], [], [], NO_PROOF);
      voters := voters[sender.account := voter];
      if curve.pointOf(msg.votingKey).None? {
        voters := before;
        return Err(InvalidVotingKey);
      }
      var valid := VerifySchnorr(curve.q, curve.pointHash, curve.pointOf(msg.votingKey).value, msg.votingKeyZkp);
      if valid != Some(true) {
        voters := before;
        return Err(if valid.None? then Trapped else InvalidZKP);
      }
      voter := voter.(votingKey := msg.votingKey);
      voter := voter.(votingKeyZkp := msg.votingKeyZkp);
      voters := voters[sender.account := voter];
      assert voters == before[sender.account := voter];
      balance := balance + deposit;
      if WrapI32(|voters|) == config.merkleLeafCount {
        votingPhase := VotingPhase.Commit;
      }
      return Ok(());
    }

    method Commit(sender: Address, now: nat, msg: CommitMessage) returns (r: Wrappers.Result<(), Rejection>)
      requires Valid()
      modifies this
      ensures Did(old(State()), CommitStep(old(State()), sender, now, msg), r)
    {
      if sender.Contract? { return Err(ContractSender); }
      if msg.commitment == [] { return Err(InvalidCommitMessage); }
      if msg.reconstructedKey == [] { return Err(InvalidCommitMessage); }
      if votingPhase != VotingPhase.Commit { return Err(NotCommitPhase); }
      if sender.account !in voters { return Err(UnauthorizedVoter); }
      if now > config.commitTimeout { return Err(PhaseEnded); }
      ghost var before := voters;
      voters := voters[sender.account := voters[sender.account].(reconstructedKey := msg.reconstructedKey)];
      voters := voters[sender.account := voters[sender.account].(commitment := msg.commitment)];
      assert voters == before[sender.account :=
        before[sender.account].(reconstructedKey := msg.reconstructedKey, commitment := msg.commitment)];
      if AllCommitted(voters) {
        votingPhase := VotingPhase.Vote;
      }
      return Ok(());
    }

    method Vote(sender: Address, now: nat, msg: VoteMessage) returns (r: Wrappers.Result<(), Rejection>)
      requires Valid()
      modifies this
      ensures Did(old(State()), VoteStep(curve, old(State()), sender, now, msg), r)
    {
      hide VerifyOneInTwo, Opens, AllVoted, OneMore;
      if sender.Contract? { return Err(ContractSender); }
      if votingPhase != VotingPhase.Vote { return Err(NotVotePhase); }
      if sender.account !in voters { return Err(UnauthorizedVoter); }
      if now > config.voteTimeout { return Err(PhaseEnded); }
      var v := voters[sender.account];
      if v.vote != [] { return Err(AlreadyVoted); }
      var gy := curve.pointOf(v.reconstructedKey);
      if gy.None? { return Err(Trapped); }
      var valid := VerifyOneInTwo(curve.q, curve.pointHash, msg.voteZkp, gy.value);
      if valid.None? { return Err(Trapped); }
      if !valid.value { return Err(InvalidZKP); }
      if curve.pointOf(msg.vote).None? { return Err(Trapped); }
      if !Opens(curve, msg.vote, v.commitment) { return Err(VoteCommitmentMismatch); }
      var before := voters;
      voters := voters[sender.account := voters[sender.account].(vote := msg.vote)];
      voters := voters[sender.account := voters[sender.account].(voteZkp := msg.voteZkp)];
      assert voters == before[sender.account := v.(vote := msg.vote, voteZkp := msg.voteZkp)];
      if AllVoted(voters) {
        votingPhase := VotingPhase.Result;
      }
      var done := InvokeTransfer(sender.account, config.deposit);
      if !done {
        votingPhase, voters := VotingPhase.Vote, before;
        return Err(TransferFailed);
      }
      return Ok(());
    }

    // `result`: adds up the votes, finds the number of ones by brute force, and
    // publishes it with the number of zeros.
    method Result() returns (r: Wrappers.Result<(int, int), Rejection>)
      requires Valid()
      modifies this
      ensures Did(old(State()), ResultStep(curve, old(State())), if r.Ok? then Ok(()) else Err(r.error))
      ensures r.Ok? ==> r.value == votingResult
    {
      if votingPhase != VotingPhase.Result { return Err(NotResultPhase); }
      var order := Accounts(voters);
      AnnouncedInAnyOrder(curve, voters, order);
      hide Announced;
      var votes := CollectVotes(order);
      if votes.None? { return Err(Trapped); }
      var yesVotes := BruteForceTally(curve.q, votes.value);
      if yesVotes.None? { return Err(Trapped); }
      var noVotes := SubtractI32(WrapI32(|votes.value|), yesVotes.value);
      votingResult := (yesVotes.value, noVotes);
      return Ok((yesVotes.value, noVotes));
    }

    method CollectVotes(order: seq<AccountAddress>) returns (votes: Option<seq<nat>>)
      requires Valid() && forall i :: 0 <= i < |order| ==> order[i] in voters
      ensures votes == PointsOf(curve, voters, order)
      ensures votes.Some? ==> ArePoints(curve.q, votes.value)
    {
      var points: seq<nat> := [];
      for i := 0 to |order|
        invariant PointsOf(curve, voters, order[..i]) == Some(points)
        invariant ArePoints(curve.q, points)
      {
        assert order[..i + 1][..i] == order[..i];
        var p := curve.pointOf(voters[order[i]].vote);
        if p.None? {
          TrapsOnNonPoints(curve, voters, order, i);
          return None;
        }
        points := points + [p.value];
      }
      assert order[..|order|] == order;
      return Some(points);
    }

    method ChangePhase(sender: Address, now: nat) returns (r: Wrappers.Result<(), Rejection>)
      requires Valid()
      modifies this
      ensures Did(old(State()), ChangePhaseStep(old(State()), sender, now), r)
    {
      if sender.Contract? { return Err(ContractSender); }
      match votingPhase {
        case Registration =>
          if now > config.registrationTimeout && |WithKey(voters)| > 2 {
            votingPhase := VotingPhase.Commit;
          } else if now > config.registrationTimeout {
            r := RefundAndAbort(sender.account);
            return;
          }
        case Commit =>
          if AllCommitted(voters) {
            votingPhase := VotingPhase.Vote;
          } else if now > config.commitTimeout {
            r := RefundAndAbort(sender.account);
            return;
          }
        case Vote =>
          if AllVoted(voters) {
            votingPhase := VotingPhase.Result;
          } else if now > config.voteTimeout {
            r := RefundAndAbort(sender.account);
            return;
          }
        case _ =>
      }
      return Ok(());
    }

    method RefundAndAbort(sender: AccountAddress) returns (r: Wrappers.Result<(), Rejection>)
      requires Valid() && votingPhase in {Registration, VotingPhase.Commit, VotingPhase.Vote}
      modifies this
      ensures Did(old(State()), AbortStep(old(State()), sender), r)
    {
      hide Refunds, RefundTotal, ValidCurve;
      var before := balance;
      ghost var paidBefore := paid;
      var done := RefundDeposits(sender);
      if !done {
        balance, paid := before, paidBefore;
        return Err(TransferFailed);
      }
      votingPhase := Abort;
      return Ok(());
    }

    // `refund_deposits`: pays the caller if entitled, then every honest voter,
    // until a transfer fails.
    method RefundDeposits(sender: AccountAddress) returns (ok: bool)
      requires votingPhase in {Registration, VotingPhase.Commit, VotingPhase.Vote}
      modifies this`balance, this`paid
      ensures ok <==> RefundTotal(old(State()), sender) <= old(balance)
      ensures ok ==> balance == old(balance) - RefundTotal(old(State()), sender)
      ensures ok ==> paid == old(paid) + Refunds(old(State()), sender)
    {
      ghost var s := State();
      var numberOfVoters := |voters|;
      var stallingAccounts := Select(voters, votingPhase, false);
      var honestAccounts := Select(voters, votingPhase, true);
      WhoIsPaid(s, sender, stallingAccounts, honestAccounts);
      hide Honest, IsEnumeration, NoDuplicates, Refunds, RefundTotal, PaidInOrder, OneMore, Times;
      var deposit := config.deposit;
      if sender !in stallingAccounts && numberOfVoters - |honestAccounts| > 0 {
        ok := InvokeTransfer(sender, deposit);
        if !ok { return; }
      }
      ok := TransferToEach(honestAccounts, deposit);
    }

    // Its last loop.
    method TransferToEach(accounts: seq<AccountAddress>, amount: nat) returns (ok: bool)
      modifies this`balance, this`paid
      ensures ok <==> Times(amount, |accounts|) <= old(balance)
      ensures ok ==> balance == old(balance) - Times(amount, |accounts|)
      ensures ok ==> paid == PaidInOrder(old(paid), accounts, amount)
    {
      hide PaidInOrder, OneMore, Times;
      TimesNext(amount, 0, |accounts|);
      PaidNone(paid, amount);
      assert accounts[..0] == [];
      for i := 0 to |accounts|
        invariant balance + Times(amount, i) == old(balance)
        invariant paid == PaidInOrder(old(paid), accounts[..i], amount)
      {
        assert accounts[..i + 1] == accounts[..i] + [accounts[i]];
        PaidNext(old(paid), accounts[..i], accounts[i], amount);
        TimesNext(amount, i, |accounts|);
        ok := InvokeTransfer(accounts[i], amount);
        if !ok { return; }
      }
      assert accounts[..|accounts|] == accounts;
      ok := true;
    }
  }

  // The transfers made so far after paying some accounts, one after the other.
  ghost function PaidInOrder(paid: multiset<Payment>, order: seq<AccountAddress>, amount: nat): multiset<Payment> {
    if order == [] then paid
    else OneMore(PaidInOrder(paid, order[..|order| - 1], amount), order[|order| - 1], amount)
  }

  lemma PaidNext(paid: multiset<Payment>, order: seq<AccountAddress>, a: AccountAddress, amount: nat)
    ensures PaidInOrder(paid, order + [a], amount) == OneMore(PaidInOrder(paid, order, amount), a, amount)
  {
    assert (order + [a])[..|order|] == order;
  }

  lemma PaidNone(paid: multiset<Payment>, amount: nat)
    ensures PaidInOrder(paid, [], amount) == paid
  {
  }

  lemma {:induction false} PaidEach(paid: multiset<Payment>, order: seq<AccountAddress>, amount: nat)
    requires NoDuplicates(order)
    ensures PaidInOrder(paid, order, amount) == paid + PayEach((set a | a in order), amount)
  {
    if order == [] {
      assert (set a | a in order) == {};
      PayNobody(amount);
    } else {
      var n := |order| - 1;
      PaidEach(paid, order[..n], amount);
      hide PayEach;
      assert order == order[..n] + [order[n]];
      assert order[n] !in order[..n];
      assert (set a | a in order) == (set a | a in order[..n]) + {order[n]};
      PayOne((set a | a in order[..n]), order[n], amount);
    }
  }

  lemma PayNobody(amount: nat)
    ensures PayEach({}, amount) == multiset{}
  {
  }

  ghost function Times(d: nat, i: nat): nat {
    d * i
  }

  lemma TimesNext(d: nat, i: nat, n: nat)
    ensures Times(d, 0) == 0
    ensures i < n ==> Times(d, i + 1) == Times(d, i) + d && Times(d, i + 1) <= Times(d, n)
  {
    if i < n {
      TimesMonotone(d, i + 1, n);
    }
  }

  // What the refunds of an abort are, in terms of the two lists that the code makes.
  lemma WhoIsPaid(s: VotingState, sender: AccountAddress, stalling: seq<AccountAddress>, honest: seq<AccountAddress>)
    requires s.votingPhase in {Registration, VotingPhase.Commit, VotingPhase.Vote}
    requires IsEnumeration(stalling, s.voters.Keys - Honest(s.votingPhase, s.voters))
    requires IsEnumeration(honest, Honest(s.votingPhase, s.voters))
    ensures var d, reward := s.config.deposit, sender !in stalling && |s.voters| > |honest|;
      && RefundTotal(s, sender) == Times(d, |honest|) + (if reward then d else 0)
      && s.paid + Refunds(s, sender)
         == PaidInOrder(if reward then OneMore(s.paid, sender, d) else s.paid, honest, d)
  {
    RewardIsDue(s, sender, stalling, honest);
    var d, reward := s.config.deposit, sender !in stalling && |s.voters| > |honest|;
    var first := if reward then OneMore(s.paid, sender, d) else s.paid;
    hide *;
    PaidEach(first, honest, d);
    RefundsUnfold(s, sender);
    OneMoreFirst(s.paid, sender, d, PayEach(Honest(s.votingPhase, s.voters), d));
  }

  lemma RefundsUnfold(s: VotingState, sender: AccountAddress)
    ensures var d, honest := s.config.deposit, Honest(s.votingPhase, s.voters);
      && RefundTotal(s, sender) == Times(d, |honest|) + (if Reward(s, sender) == 1 then d else 0)
      && Refunds(s, sender) == if Reward(s, sender) == 1 then OneMore(PayEach(honest, d), sender, d)
          else PayEach(honest, d)
  {
    hide Honest, PayEach;
    var d, n := s.config.deposit, |Honest(s.votingPhase, s.voters)|;
    assert d * (n + 1) == d * n + d;
  }

  lemma OneMoreFirst(paid: multiset<Payment>, to: AccountAddress, amount: nat, rest: multiset<Payment>)
    ensures OneMore(paid, to, amount) + rest == paid + OneMore(rest, to, amount)
  {
  }

  lemma RewardIsDue(s: VotingState, sender: AccountAddress, stalling: seq<AccountAddress>, honest: seq<AccountAddress>)
    requires IsEnumeration(stalling, s.voters.Keys - Honest(s.votingPhase, s.voters))
    requires IsEnumeration(honest, Honest(s.votingPhase, s.voters))
    ensures NoDuplicates(honest) && (set a | a in honest) == Honest(s.votingPhase, s.voters)
    ensures |honest| == |Honest(s.votingPhase, s.voters)| <= |s.voters|
    ensures Reward(s, sender) == if sender !in stalling && |s.voters| > |honest| then 1 else 0
  {
    EnumerationSize(honest, Honest(s.votingPhase, s.voters));
    HonestCount(s.votingPhase, s.voters);
  }

  // `setup`.
  method SetUp(curve: Curve, config: VoteConfig, now: nat) returns (r: Wrappers.Result<VotingContract, Rejection>)
    requires ValidCurve(curve) && IsI32(config.merkleLeafCount)
    ensures match Setup(config, now)
      case Err(e) => r == Err(e)
      case Ok(s) => r.Ok? && fresh(r.value) && r.value.Valid() && r.value.curve == curve && r.value.State() == s
  {
    if config.registrationTimeout <= now { return Err(InvalidRegistrationTimeout); }
    if config.commitTimeout <= config.registrationTimeout { return Err(InvalidPrecommitTimeout); }
    if config.voteTimeout <= config.commitTimeout { return Err(InvalidVoteTimeout); }
    var contract := new VotingContract(curve, config);
    return Ok(contract);
  }
}
