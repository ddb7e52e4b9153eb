// The on-chain protocol of the Open Vote Network (voting/src/lib.rs): the
// contract state and, for every entrypoint, the state it leaves behind.
module VotingStates {
  import opened Wrappers
  import opened Addresses
  import opened Hashing
  import opened PrimeField
  import opened VotingCrypto
  import opened SelfTally
  import opened Membership

  type Bytes = seq<byte>

  datatype VotingPhase = Registration | Commit | Vote | Result | Abort

  datatype VoteConfig = VoteConfig(
    merkleRoot: Digest, merkleLeafCount: int, deposit: nat,
    registrationTimeout: nat, commitTimeout: nat, voteTimeout: nat)

  datatype Voter = Voter(
    votingKey: Bytes, votingKeyZkp: SchnorrProof,
    reconstructedKey: Bytes, commitment: Bytes,
    vote: Bytes, voteZkp: OneInTwoProof)

  const NO_PROOF := OneInTwoProof(0, 0, 0, 0, 0, 0, 0, 0, 0, 0)

  datatype RegisterMessage = RegisterMessage(votingKey: Bytes, votingKeyZkp: SchnorrProof, merkleProof: MembershipProof)
  datatype CommitMessage = CommitMessage(reconstructedKey: Bytes, commitment: Bytes)
  datatype VoteMessage = VoteMessage(vote: Bytes, voteZkp: OneInTwoProof)

  // Reasons for a call to be rejected. Trapped stands for every run-time trap;
  // like all other rejections it leaves the chain as it was.
  datatype Rejection =
    | InvalidRegistrationTimeout | InvalidPrecommitTimeout | InvalidVoteTimeout
    | ContractSender
    | NotRegistrationPhase | NotCommitPhase | NotVotePhase | NotResultPhase
    | UnauthorizedVoter | WrongDeposit | PhaseEnded | AlreadyRegistered
    | InvalidVotingKey | InvalidZKP | InvalidCommitMessage
    | AlreadyVoted | VoteCommitmentMismatch
    | TransferFailed
    | Trapped

  // The curve and the hash functions. Points are named by their multiple of
  // the generator, and come as byte strings.
  datatype Curve = Curve(
    q: nat, hasher: Hasher, pointHash: PointHash,
    pointOf: Bytes -> Option<nat>, encode: nat -> Bytes)

  // The empty string is no point, and neither is the identity.
  ghost predicate ValidCurve(c: Curve) {
    && c.q > 1
    && c.pointOf([]).None?
    && forall b :: c.pointOf(b).Some? ==> 0 < c.pointOf(b).value < c.q
  }

  // The state of the contract, its balance, and the transfers it has made.
  datatype VotingState = VotingState(
    config: VoteConfig, votingPhase: VotingPhase, votingResult: (int, int),
    voters: map<AccountAddress, Voter>, balance: nat, paid: multiset<Payment>)

  // ----- facts about single voters -----

  predicate HasCommitted(v: Voter) { v.reconstructedKey != [] && v.commitment != [] }

  predicate HasVoted(v: Voter) { v.vote != [] }

  // The vote opens the commitment.
  predicate Opens(c: Curve, vote: Bytes, commitment: Bytes) {
    c.pointOf(vote).Some? && c.hasher(c.encode(c.pointOf(vote).value)).bytes == commitment
  }

  // Who counts as honest when the election is aborted in a given phase.
  predicate IsHonest(phase: VotingPhase, v: Voter) {
    match phase
    case Registration => v.votingKey != []
    case Commit => v.reconstructedKey != []
    case Vote => v.vote != []
    case _ => false
  }

  predicate AllCommitted(voters: map<AccountAddress, Voter>) {
    forall a :: a in voters ==> HasCommitted(voters[a])
  }

  predicate AllVoted(voters: map<AccountAddress, Voter>) {
    forall a :: a in voters ==> HasVoted(voters[a])
  }

  function Honest(phase: VotingPhase, voters: map<AccountAddress, Voter>): set<AccountAddress> {
    set a | a in voters && IsHonest(phase, voters[a])
  }

  function Voted(voters: map<AccountAddress, Voter>): set<AccountAddress> {
    Honest(Vote, voters)
  }

  function WithKey(voters: map<AccountAddress, Voter>): set<AccountAddress> {
    Honest(Registration, voters)
  }

  // ----- setup -----

  function Setup(config: VoteConfig, now: nat): Wrappers.Result<VotingState, Rejection> {
    if config.registrationTimeout <= now then Err(InvalidRegistrationTimeout)
    else if config.commitTimeout <= config.registrationTimeout then Err(InvalidPrecommitTimeout)
    else if config.voteTimeout <= config.commitTimeout then Err(InvalidVoteTimeout)
    else Ok(VotingState(config, Registration, (-1, -1), map[], 0, multiset{}))
  }

  // ----- register -----

  function RegisterStep(c: Curve, s: VotingState, sender: Address, now: nat, msg: RegisterMessage, deposit: nat)
    : Wrappers.Result<VotingState, Rejection>
    requires c.q > 0 && IsI32(s.config.merkleLeafCount) && IsI32(msg.merkleProof.index)
  {
    if sender.Contract? then Err(ContractSender)
    else if s.votingPhase != Registration then Err(NotRegistrationPhase)
    else
      match VerifyMembership(c.hasher, s.config.merkleRoot, s.config.merkleLeafCount, msg.merkleProof, sender.account)
      case None => Err(Trapped)
      case Some(authorized) =>
        if !authorized then Err(UnauthorizedVoter)
        else if s.config.deposit != deposit then Err(WrongDeposit)
        else if now > s.config.registrationTimeout then Err(PhaseEnded)
        else if sender.account in s.voters then Err(AlreadyRegistered)
        else if c.pointOf(msg.votingKey).None? then Err(InvalidVotingKey)
        else
          match VerifySchnorr(c.q, c.pointHash, c.pointOf(msg.votingKey).value, msg.votingKeyZkp)
          case None => Err(Trapped)
          case Some(valid) =>
            if !valid then Err(InvalidZKP)
            else
              var voter := Voter(msg.votingKey, msg.votingKeyZkp, [], [], [], NO_PROOF);
              var voters := s.voters[sender.account := voter];
              var phase := if WrapI32(|voters|) == s.config.merkleLeafCount then Commit else Registration;
              Ok(s.(voters := voters, votingPhase := phase, balance := s.balance + deposit))
  }

  // ----- commit -----

  function CommitStep(s: VotingState, sender: Address, now: nat, msg: CommitMessage)
    : Wrappers.Result<VotingState, Rejection>
  {
    if sender.Contract? then Err(ContractSender)
    else if msg.commitment == [] || msg.reconstructedKey == [] then Err(InvalidCommitMessage)
    else if s.votingPhase != Commit then Err(NotCommitPhase)
    else if sender.account !in s.voters then Err(UnauthorizedVoter)
    else if now > s.config.commitTimeout then Err(PhaseEnded)
    else
      var voter := s.voters[sender.account].(reconstructedKey := msg.reconstructedKey, commitment := msg.commitment);
      var voters := s.voters[sender.account := voter];
      Ok(s.(voters := voters, votingPhase := if AllCommitted(voters) then Vote else Commit))
  }

  // ----- vote -----

  // One more transfer.
  function OneMore(paid: multiset<Payment>, to: AccountAddress, amount: nat): multiset<Payment> {
    paid + multiset{Payment(to, amount)}
  }

  function VoteStep(c: Curve, s: VotingState, sender: Address, now: nat,
      msg: VoteMessage): Wrappers.Result<VotingState, Rejection>
    requires c.q > 0
  {
    if sender.Contract? then Err(ContractSender)
    else if s.votingPhase != Vote then Err(NotVotePhase)
    else if sender.account !in s.voters then Err(UnauthorizedVoter)
    else if now > s.config.voteTimeout then Err(PhaseEnded)
    else
      var v := s.voters[sender.account];
      if v.vote != [] then Err(AlreadyVoted)
      else if c.pointOf(v.reconstructedKey).None? then Err(Trapped)
      else
        match VerifyOneInTwo(c.q, c.pointHash, msg.voteZkp, c.pointOf(v.reconstructedKey).value)
        case None => Err(Trapped)
        case Some(valid) =>
          if !valid then Err(InvalidZKP)
          else if c.pointOf(msg.vote).None? then Err(Trapped)
          else if !Opens(c, msg.vote, v.commitment) then Err(VoteCommitmentMismatch)
          else
            var voters := s.voters[sender.account := v.(vote := msg.vote, voteZkp := msg.voteZkp)];
            if s.balance < s.config.deposit then Err(TransferFailed)
            else Ok(s.(voters := voters, votingPhase := if AllVoted(voters) then Result else Vote,
                       balance := s.balance - s.config.deposit,
                       paid := OneMore(s.paid, sender.account, s.config.deposit)))
  }

  // ----- result -----

  // All accounts of a set, each once, in some fixed order.
  ghost function Enumerate(accounts: set<AccountAddress>): seq<AccountAddress> {
    if accounts == {} then []
    else
      var a :| a in accounts;
      [a] + Enumerate(accounts - {a})
  }

  function PointsOf(c: Curve, voters: map<AccountAddress, Voter>, order: seq<AccountAddress>): Option<seq<nat>>
    requires forall i :: 0 <= i < |order| ==> order[i] in voters
  {
    if order == [] then Some([])
    else
      var n := |order| - 1;
      match PointsOf(c, voters, order[..n])
      case None => None
      case Some(points) =>
        match c.pointOf(voters[order[n]].vote)
        case None => None
        case Some(p) => Some(points + [p])
  }

  // Subtraction of signed 32-bit integers, with wrap-around.
  function SubtractI32(a: int, b: int): int {
    (a - b + 0x8000_0000) % I32_RANGE - 0x8000_0000
  }

  // The announced result for votes read in a given order; None is a trap.
  function TallyResult(c: Curve, voters: map<AccountAddress, Voter>, order: seq<AccountAddress>): Option<(int, int)>
    requires c.q > 0
    requires forall i :: 0 <= i < |order| ==> order[i] in voters
  {
    match PointsOf(c, voters, order)
    case None => None
    case Some(points) =>
      if points == [] then None
      else
        var yes := WrapI32(Sum(points) % c.q);
        Some((yes, SubtractI32(WrapI32(|points|), yes)))
  }

  lemma {:induction false} EnumerateElements(accounts: set<AccountAddress>)
    ensures forall a :: a in Enumerate(accounts) <==> a in accounts
    ensures |Enumerate(accounts)| == |accounts|
    ensures NoDuplicates(Enumerate(accounts))
  {
    if accounts != {} {
      var a := Enumerate(accounts)[0];
      EnumerateElements(accounts - {a});
    }
  }

  ghost predicate NoDuplicates(order: seq<AccountAddress>) {
    forall i, j :: 0 <= i < j < |order| ==> order[i] != order[j]
  }

  ghost predicate IsEnumeration(order: seq<AccountAddress>, accounts: set<AccountAddress>) {
    NoDuplicates(order) && forall a :: a in order <==> a in accounts
  }

  ghost function Announced(c: Curve, voters: map<AccountAddress, Voter>): Option<(int, int)>
    requires c.q > 0
  {
    EnumerateElements(voters.Keys);
    TallyResult(c, voters, Enumerate(voters.Keys))
  }

  ghost function ResultStep(c: Curve, s: VotingState): Wrappers.Result<VotingState, Rejection>
    requires c.q > 0
  {
    if s.votingPhase != Result then Err(NotResultPhase)
    else
      match Announced(c, s.voters)
      case None => Err(Trapped)
      case Some(result) => Ok(s.(votingResult := result))
  }

  // ----- change_phase -----

  // One more deposit for the caller, unless the caller stalled the vote or
  // nobody did.
  function Reward(s: VotingState, caller: AccountAddress): nat {
    if (caller in s.voters ==> IsHonest(s.votingPhase, s.voters[caller]))
       && |s.voters| > |Honest(s.votingPhase, s.voters)|
    then 1 else 0
  }

  // One transfer of the amount to each account of a set.
  ghost function PayEach(accounts: set<AccountAddress>, amount: nat): multiset<Payment> {
    multiset(set a | a in accounts :: Payment(a, amount))
  }

  lemma PayOne(accounts: set<AccountAddress>, a: AccountAddress, amount: nat)
    requires a !in accounts
    ensures PayEach(accounts + {a}, amount) == OneMore(PayEach(accounts, amount), a, amount)
  {
    var before := set b | b in accounts :: Payment(b, amount);
    assert (set b | b in accounts + {a} :: Payment(b, amount)) == before + {Payment(a, amount)};
    assert Payment(a, amount) !in before;
  }

  // The transfers of an abort: the reward of the caller, and one deposit for
  // every honest voter.
  ghost function Refunds(s: VotingState, caller: AccountAddress): multiset<Payment> {
    (if Reward(s, caller) == 1 then multiset{Payment(caller, s.config.deposit)} else multiset{})
    + PayEach(Honest(s.votingPhase, s.voters), s.config.deposit)
  }

  // What the refunds of an abort add up to.
  function RefundTotal(s: VotingState, caller: AccountAddress): nat {
    s.config.deposit * (|Honest(s.votingPhase, s.voters)| + Reward(s, caller))
  }

  // What they would add up to with the guard that the source suggests in a
  // comment: voters who got their deposit back when voting get nothing more.
  function GuardedRefundTotal(s: VotingState, caller: AccountAddress): nat {
    s.config.deposit * ((if s.votingPhase != Vote then |Honest(s.votingPhase, s.voters)| else 0) + Reward(s, caller))
  }

  ghost function AbortStep(s: VotingState, caller: AccountAddress): Wrappers.Result<VotingState, Rejection> {
    if RefundTotal(s, caller) > s.balance then Err(TransferFailed)
    else Ok(s.(votingPhase := Abort, balance := s.balance - RefundTotal(s, caller),
               paid := s.paid + Refunds(s, caller)))
  }

  ghost function ChangePhaseStep(s: VotingState, sender: Address, now: nat): Wrappers.Result<VotingState, Rejection> {
    if sender.Contract? then Err(ContractSender)
    else
      match s.votingPhase
      case Registration =>
        if now <= s.config.registrationTimeout then Ok(s)
        else if |WithKey(s.voters)| > 2 then Ok(s.(votingPhase := Commit))
        else AbortStep(s, sender.account)
      case Commit =>
        if AllCommitted(s.voters) then Ok(s.(votingPhase := Vote))
        else if now > s.config.commitTimeout then AbortStep(s, sender.account)
        else Ok(s)
      case Vote =>
        if AllVoted(s.voters) then Ok(s.(votingPhase := Result))
        else if now > s.config.voteTimeout then AbortStep(s, sender.account)
        else Ok(s)
      case _ => Ok(s)
  }

  // ----- runs -----

  datatype Call =
    | CallRegister(sender: Address, now: nat, register: RegisterMessage, deposit: nat)
    | CallCommit(sender: Address, now: nat, commit: CommitMessage)
    | CallVote(sender: Address, now: nat, vote: VoteMessage)
    | CallResult
    | CallChangePhase(sender: Address, now: nat)

  ghost function Attempt(c: Curve, s: VotingState, call: Call): (r: Wrappers.Result<VotingState, Rejection>)
    requires c.q > 0 && IsI32(s.config.merkleLeafCount)
    requires call.CallRegister? ==> IsI32(call.register.merkleProof.index)
    ensures r.Ok? ==> r.value.config == s.config
  {
    match call
    case CallRegister(sender, now, msg, deposit) => RegisterStep(c, s, sender, now, msg, deposit)
    case CallCommit(sender, now, msg) => CommitStep(s, sender, now, msg)
    case CallVote(sender, now, msg) => VoteStep(c, s, sender, now, msg)
    case CallResult => ResultStep(c, s)
    case CallChangePhase(sender, now) => ChangePhaseStep(s, sender, now)
  }

  // A rejected call changes nothing.
  ghost function Step(c: Curve, s: VotingState, call: Call): (s': VotingState)
    requires c.q > 0 && IsI32(s.config.merkleLeafCount)
    requires call.CallRegister? ==> IsI32(call.register.merkleProof.index)
    ensures s'.config == s.config
  {
    match Attempt(c, s, call)
    case Ok(after) => after
    case Err(_) => s
  }

  ghost predicate WellTyped(calls: seq<Call>) {
    forall i :: 0 <= i < |calls| && calls[i].CallRegister? ==> IsI32(calls[i].register.merkleProof.index)
  }

  ghost function Run(c: Curve, s: VotingState, calls: seq<Call>): (end: VotingState)
    requires c.q > 0 && IsI32(s.config.merkleLeafCount) && WellTyped(calls)
    ensures end.config == s.config
  {
    if calls == [] then s
    else Step(c, Run(c, s, calls[..|calls| - 1]), calls[|calls| - 1])
  }
}
