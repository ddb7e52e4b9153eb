// Runs of the voting contract that end in a state from which nobody can abort:
// more than half of the voters have voted, and one has not.
module StuckElections {
  import opened Wrappers
  import opened Addresses
  import opened PrimeField
  import opened VotingCrypto
  import opened SelfTally
  import opened Membership
  import opened VotingStates
  import opened VotingSafety

  // Who takes part, and what they send.
  datatype Script = Script(
    accounts: seq<AccountAddress>, registrations: seq<RegisterMessage>, commits: seq<CommitMessage>,
    votes: seq<VoteMessage>)

  // The proofs that the contract checks are in order.
  ghost predicate GoodRegistration(c: Curve, config: VoteConfig, a: AccountAddress, msg: RegisterMessage)
    requires c.q > 0 && IsI32(config.merkleLeafCount)
  {
    && IsI32(msg.merkleProof.index)
    && VerifyMembership(c.hasher, config.merkleRoot, config.merkleLeafCount, msg.merkleProof, a) == Some(true)
    && c.pointOf(msg.votingKey).Some?
    && VerifySchnorr(c.q, c.pointHash, c.pointOf(msg.votingKey).value, msg.votingKeyZkp) == Some(true)
  }

  ghost predicate GoodVote(c: Curve, commit: CommitMessage, vote: VoteMessage)
    requires c.q > 0
  {
    && c.pointOf(commit.reconstructedKey).Some?
    && VerifyOneInTwo(c.q, c.pointHash, vote.voteZkp, c.pointOf(commit.reconstructedKey).value) == Some(true)
    && Opens(c, vote.vote, commit.commitment)
  }

  ghost predicate WellFormed(script: Script) {
    |script.accounts| == |script.registrations| == |script.commits| && |script.votes| <= |script.accounts|
    && NoDuplicates(script.accounts)
  }

  // Everybody registers and commits; only the first few vote.
  ghost predicate GoodScript(c: Curve, config: VoteConfig, script: Script)
    requires c.q > 0
  {
    var n := |script.accounts|;
    && WellFormed(script)
    && 0 < n < 0x8000_0000 && config.merkleLeafCount == n && |script.votes| < n
    && (forall i :: 0 <= i < n ==> GoodRegistration(c, config, script.accounts[i], script.registrations[i]))
    && (forall i :: 0 <= i < n ==> script.commits[i].commitment != [] && script.commits[i].reconstructedKey != [])
    && (forall i :: 0 <= i < |script.votes| ==> GoodVote(c, script.commits[i], script.votes[i]))
  }

  // The first k registrations, commits, and votes.
  ghost function Registering(script: Script, deposit: nat, now: nat, k: nat): seq<Call>
    requires k <= |script.accounts| == |script.registrations|
  {
    if k == 0 then []
    else Registering(script, deposit, now, k - 1)
         + [CallRegister(Account(script.accounts[k - 1]), now, script.registrations[k - 1], deposit)]
  }

  ghost function Committing(script: Script, now: nat, k: nat): seq<Call>
    requires k <= |script.accounts| == |script.commits|
  {
    if k == 0 then []
    else Committing(script, now, k - 1) + [CallCommit(Account(script.accounts[k - 1]), now, script.commits[k - 1])]
  }

  ghost function CastingVotes(script: Script, now: nat, k: nat): seq<Call>
    requires k <= |script.votes| <= |script.accounts|
  {
    if k == 0 then []
    else CastingVotes(script, now, k - 1) + [CallVote(Account(script.accounts[k - 1]), now, script.votes[k - 1])]
  }

  // The entry of the i-th voter after a number of commits and votes.
  ghost function Entry(script: Script, i: nat, commits: nat, votes: nat): Voter
    requires i < |script.accounts| == |script.registrations| == |script.commits|
    requires votes <= |script.votes|
  {
    var r := script.registrations[i];
    Voter(r.votingKey, r.votingKeyZkp,
          if i < commits then script.commits[i].reconstructedKey else [],
          if i < commits then script.commits[i].commitment else [],
          if i < votes then script.votes[i].vote else [],
          if i < votes then script.votes[i].voteZkp else NO_PROOF)
  }

  // The first k accounts with their entries.
  ghost function Voters(script: Script, k: nat, commits: nat, votes: nat): map<AccountAddress, Voter>
    requires k <= |script.accounts| == |script.registrations| == |script.commits|
    requires votes <= |script.votes|
    decreases k
  {
    if k == 0 then map[]
    else Voters(script, k - 1, commits, votes)[script.accounts[k - 1] := Entry(script, k - 1, commits, votes)]
  }

  lemma {:induction false} NotYet(script: Script, k: nat, commits: nat, votes: nat, i: nat)
    requires WellFormed(script) && k <= i < |script.accounts| && votes <= |script.votes|
    ensures script.accounts[i] !in Voters(script, k, commits, votes)
    decreases k
  {
    if k > 0 {
      NotYet(script, k - 1, commits, votes, i);
      assert script.accounts[k - 1] != script.accounts[i];
    }
  }

  lemma {:induction false} VotersCount(script: Script, k: nat, commits: nat, votes: nat)
    requires WellFormed(script) && k <= |script.accounts| && votes <= |script.votes|
    ensures |Voters(script, k, commits, votes)| == k
    decreases k
  {
    if k > 0 {
      hide Entry, NoDuplicates;
      VotersCount(script, k - 1, commits, votes);
      NotYet(script, k - 1, commits, votes, k - 1);
      AddKey(Voters(script, k - 1, commits, votes), script.accounts[k - 1], Entry(script, k - 1, commits, votes));
    }
  }

  lemma {:induction false} VoterIndex(script: Script, k: nat, commits: nat, votes: nat, a: AccountAddress)
    returns (i: nat)
    requires WellFormed(script) && k <= |script.accounts| && votes <= |script.votes|
    requires a in Voters(script, k, commits, votes)
    ensures i < k && script.accounts[i] == a
    decreases k
  {
    if a == script.accounts[k - 1] {
      i := k - 1;
    } else {
      i := VoterIndex(script, k - 1, commits, votes, a);
    }
  }

  lemma VotersNext(script: Script, k: nat, commits: nat, votes: nat)
    requires WellFormed(script) && k <= |script.accounts| && votes <= |script.votes|
    ensures Voters(script, k, commits, votes) == if k == 0 then map[] else
      Voters(script, k - 1, commits, votes)[script.accounts[k - 1] := Entry(script, k - 1, commits, votes)]
  {
  }

  lemma {:induction false} EntryOf(script: Script, k: nat, commits: nat, votes: nat, i: nat)
    requires WellFormed(script) && i < k <= |script.accounts| && votes <= |script.votes|
    ensures script.accounts[i] in Voters(script, k, commits, votes)
    ensures Voters(script, k, commits, votes)[script.accounts[i]] == Entry(script, i, commits, votes)
    decreases k
  {
    if i < k - 1 {
      EntryOf(script, k - 1, commits, votes, i);
      assert script.accounts[i] != script.accounts[k - 1];
    }
  }

  // One more commit, or one more vote, changes one entry.
  lemma {:induction false} OneEntry(script: Script, k: nat, commits: nat, votes: nat, commits': nat, votes': nat,
      i: nat)
    requires WellFormed(script) && i < k <= |script.accounts| && votes <= |script.votes| && votes' <= |script.votes|
    requires || (commits' == commits + 1 && i == commits && votes' == votes)
             || (votes' == votes + 1 && i == votes && commits' == commits)
    ensures Voters(script, k, commits', votes')
         == Voters(script, k, commits, votes)[script.accounts[i] := Entry(script, i, commits', votes')]
    decreases k
  {
    hide Entry, NoDuplicates;
    if i < k - 1 {
      OneEntry(script, k - 1, commits, votes, commits', votes', i);
      OtherEntry(script, k - 1, i, commits, votes, commits', votes');
      Swap(Voters(script, k - 1, commits, votes), script.accounts[i], Entry(script, i, commits', votes'),
           script.accounts[k - 1], Entry(script, k - 1, commits, votes));
    } else {
      SameEntries(script, k - 1, commits, votes, commits', votes', i);
    }
  }

  lemma OtherEntry(script: Script, j: nat, i: nat, commits: nat, votes: nat, commits': nat, votes': nat)
    requires WellFormed(script) && i < |script.accounts| && j < |script.accounts| && i != j
    requires votes <= |script.votes| && votes' <= |script.votes|
    requires || (commits' == commits + 1 && i == commits && votes' == votes)
             || (votes' == votes + 1 && i == votes && commits' == commits)
    ensures Entry(script, j, commits', votes') == Entry(script, j, commits, votes)
    ensures script.accounts[i] != script.accounts[j]
  {
  }

  lemma Swap<K, V>(m: map<K, V>, k: K, v: V, k': K, v': V)
    requires k != k'
    ensures m[k := v][k' := v'] == m[k' := v'][k := v]
  {
  }

  lemma {:induction false} SameEntries(script: Script, k: nat, commits: nat, votes: nat, commits': nat, votes': nat,
      i: nat)
    requires WellFormed(script) && k <= i < |script.accounts| && votes <= |script.votes| && votes' <= |script.votes|
    requires || (commits' == commits + 1 && i == commits && votes' == votes)
             || (votes' == votes + 1 && i == votes && commits' == commits)
    ensures Voters(script, k, commits', votes') == Voters(script, k, commits, votes)
    decreases k
  {
    if k > 0 {
      SameEntries(script, k - 1, commits, votes, commits', votes', i);
    }
  }

  lemma RunNext(c: Curve, s: VotingState, calls: seq<Call>, call: Call)
    requires c.q > 0 && IsI32(s.config.merkleLeafCount) && WellTyped(calls)
    requires call.CallRegister? ==> IsI32(call.register.merkleProof.index)
    ensures WellTyped(calls + [call]) && Run(c, s, calls + [call]) == Step(c, Run(c, s, calls), call)
  {
    assert forall i :: 0 <= i < |calls| ==> (calls + [call])[i] == calls[i];
    assert (calls + [call])[..|calls|] == calls;
  }

  // ----- everybody registers -----

  lemma RegistrationAccepted(c: Curve, s: VotingState, a: AccountAddress, now: nat, msg: RegisterMessage)
    requires c.q > 0 && IsI32(s.config.merkleLeafCount) && GoodRegistration(c, s.config, a, msg)
    requires s.votingPhase == Registration && now <= s.config.registrationTimeout && a !in s.voters
    ensures var voters := s.voters[a := Voter(msg.votingKey, msg.votingKeyZkp, [], [], [], NO_PROOF)];
      RegisterStep(c, s, Account(a), now, msg, s.config.deposit)
      == Ok(s.(voters := voters, balance := s.balance + s.config.deposit,
               votingPhase := if WrapI32(|voters|) == s.config.merkleLeafCount then Commit else Registration))
  {
    hide VerifyMembership, VerifySchnorr, WrapI32;
  }

  // The next account is new.
  lemma NextVoter(script: Script, k: nat)
    requires WellFormed(script) && k < |script.accounts| < 0x8000_0000
    ensures var a, voters := script.accounts[k], Voters(script, k, 0, 0);
      && a !in voters && Voters(script, k + 1, 0, 0) == voters[a := Entry(script, k, 0, 0)]
      && WrapI32(|voters[a := Entry(script, k, 0, 0)]|) == k + 1
  {
    VotersNext(script, k + 1, 0, 0);
    SmallCount(k + 1);
    hide Voters, Entry, WrapI32, NoDuplicates;
    NotYet(script, k, 0, 0, k);
    VotersCount(script, k + 1, 0, 0);
  }

  lemma SmallCount(k: nat)
    requires k < 0x8000_0000
    ensures WrapI32(k) == k
  {
  }

  lemma RegisterNext(c: Curve, s: VotingState, script: Script, now: nat, k: nat)
    requires c.q > 0 && GoodScript(c, s.config, script) && k < |script.accounts|
    requires s.votingPhase == Registration && now <= s.config.registrationTimeout
    requires s.voters == Voters(script, k, 0, 0)
    ensures IsI32(script.registrations[k].merkleProof.index)
    ensures var s' :=
        Step(c, s, CallRegister(Account(script.accounts[k]), now, script.registrations[k], s.config.deposit));
      && s'.votingPhase == (if k + 1 == |script.accounts| then Commit else Registration)
      && s'.voters == Voters(script, k + 1, 0, 0)
  {
    assert GoodRegistration(c, s.config, script.accounts[k], script.registrations[k]);
    hide GoodRegistration, RegisterStep, GoodVote, VerifyMembership, Voters, WrapI32;
    NextVoter(script, k);
    RegistrationAccepted(c, s, script.accounts[k], now, script.registrations[k]);
  }

  lemma {:induction false} EverybodyRegisters(c: Curve, s: VotingState, script: Script, now: nat, k: nat)
    requires c.q > 0 && GoodScript(c, s.config, script) && k <= |script.accounts|
    requires s.votingPhase == Registration && s.voters == map[] && now <= s.config.registrationTimeout
    ensures WellTyped(Registering(script, s.config.deposit, now, k))
    ensures var s' := Run(c, s, Registering(script, s.config.deposit, now, k));
      && s'.votingPhase == (if k == |script.accounts| then Commit else Registration)
      && s'.voters == Voters(script, k, 0, 0)
  {
    hide *;
    ScriptSizes(c, s.config, script);
    RegisteringUnfold(script, s.config.deposit, now, k);
    if k == 0 {
      NothingYet(c, s, script);
    } else {
      var before := Registering(script, s.config.deposit, now, k - 1);
      EverybodyRegisters(c, s, script, now, k - 1);
      var call := CallRegister(Account(script.accounts[k - 1]), now, script.registrations[k - 1], s.config.deposit);
      GoodIndex(c, s.config, script, k - 1);
      RunNext(c, s, before, call);
      RegisterNext(c, Run(c, s, before), script, now, k - 1);
    }
  }

  lemma ScriptSizes(c: Curve, config: VoteConfig, script: Script)
    requires c.q > 0 && GoodScript(c, config, script)
    ensures WellFormed(script) && |script.accounts| == |script.registrations| == |script.commits|
    ensures |script.votes| < |script.accounts| && config.merkleLeafCount == |script.accounts|
        && NoDuplicates(script.accounts)
    ensures IsI32(config.merkleLeafCount)
  {
  }

  lemma RegisteringUnfold(script: Script, deposit: nat, now: nat, k: nat)
    requires k <= |script.accounts| == |script.registrations|
    ensures k == 0 ==> Registering(script, deposit, now, k) == []
    ensures k > 0 ==>
              Registering(script, deposit, now, k)
              == Registering(script, deposit, now, k - 1)
                 + [CallRegister(Account(script.accounts[k - 1]), now, script.registrations[k - 1], deposit)]
  {
  }

  lemma GoodIndex(c: Curve, config: VoteConfig, script: Script, k: nat)
    requires c.q > 0 && GoodScript(c, config, script) && k < |script.accounts|
    ensures IsI32(script.registrations[k].merkleProof.index)
  {
    assert GoodRegistration(c, config, script.accounts[k], script.registrations[k]);
  }

  lemma NothingYet(c: Curve, s: VotingState, script: Script)
    requires c.q > 0 && IsI32(s.config.merkleLeafCount) && WellFormed(script)
    ensures WellTyped([]) && Run(c, s, []) == s && Voters(script, 0, 0, 0) == map[]
  {
  }

  // ----- everybody commits -----

  lemma CommitNext(s: VotingState, script: Script, now: nat, k: nat)
    requires WellFormed(script) && k < |script.accounts|
    requires forall i :: 0 <= i < |script.accounts| ==>
        script.commits[i].commitment != [] && script.commits[i].reconstructedKey != []
    requires s.votingPhase == Commit && now <= s.config.commitTimeout
    requires s.voters == Voters(script, |script.accounts|, k, 0)
    ensures var r := CommitStep(s, Account(script.accounts[k]), now, script.commits[k]);
      && r.Ok? && r.value.votingPhase == (if k + 1 == |script.accounts| then Vote else Commit)
      && r.value.voters == Voters(script, |script.accounts|, k + 1, 0)
  {
    var n := |script.accounts|;
    hide Voters, NoDuplicates, AllCommitted;
    EntryOf(script, n, k, 0, k);
    OneEntry(script, n, k, 0, k + 1, 0, k);
    WhoHasCommitted(script, k + 1);
  }

  lemma WhoHasCommitted(script: Script, k: nat)
    requires WellFormed(script) && k <= |script.accounts|
    requires forall i :: 0 <= i < |script.accounts| ==>
        script.commits[i].commitment != [] && script.commits[i].reconstructedKey != []
    ensures AllCommitted(Voters(script, |script.accounts|, k, 0)) <==> k == |script.accounts|
  {
    hide Voters, NoDuplicates;
    var n := |script.accounts|;
    var voters := Voters(script, n, k, 0);
    if k < n {
      EntryOf(script, n, k, 0, k);
      assert !HasCommitted(voters[script.accounts[k]]);
    } else {
      forall a | a in voters ensures HasCommitted(voters[a]) {
        var i := VoterIndex(script, n, k, 0, a);
        EntryOf(script, n, k, 0, i);
      }
    }
  }

  // ----- and some vote -----

  lemma VoteAccepted(c: Curve, s: VotingState, a: AccountAddress, now: nat, commit: CommitMessage, msg: VoteMessage)
    requires c.q > 0 && Invariant(c, s) && GoodVote(c, commit, msg)
    requires s.votingPhase == Vote && now <= s.config.voteTimeout && a in s.voters && s.voters[a].vote == []
    requires s.voters[a].reconstructedKey == commit.reconstructedKey && s.voters[a].commitment == commit.commitment
    ensures var voters := s.voters[a := s.voters[a].(vote := msg.vote, voteZkp := msg.voteZkp)];
      var r := VoteStep(c, s, Account(a), now, msg);
      && r.Ok? && r.value.voters == voters && r.value.votingPhase == if AllVoted(voters) then Result else Vote
  {
    VoteRefundIsCovered(c, s, Account(a), now, msg);
    hide Invariant, VerifyOneInTwo, AllVoted;
  }

  lemma VoteNext(c: Curve, s: VotingState, script: Script, now: nat, k: nat)
    requires ValidCurve(c) && WellFormed(script) && k < |script.votes| < |script.accounts|
    requires Invariant(c, s) && GoodVote(c, script.commits[k], script.votes[k])
    requires s.votingPhase == Vote && now <= s.config.voteTimeout
    requires s.voters == Voters(script, |script.accounts|, |script.accounts|, k)
    ensures var r := VoteStep(c, s, Account(script.accounts[k]), now, script.votes[k]);
      && r.Ok? && r.value.votingPhase == Vote
      && r.value.voters == Voters(script, |script.accounts|, |script.accounts|, k + 1)
  {
    var n := |script.accounts|;
    hide Voters, NoDuplicates, Invariant, GoodVote, VoteStep;
    EntryOf(script, n, n, k, k);
    VoteAccepted(c, s, script.accounts[k], now, script.commits[k], script.votes[k]);
    OneEntry(script, n, n, k, n, k + 1, k);
    EntryOf(script, n, n, k + 1, n - 1);
  }

  // ----- the whole run -----

  lemma {:induction false} RunAppend(c: Curve, s: VotingState, first: seq<Call>, second: seq<Call>)
    requires c.q > 0 && IsI32(s.config.merkleLeafCount) && WellTyped(first) && WellTyped(second)
    ensures WellTyped(first + second)
    ensures Run(c, s, first + second) == Run(c, Run(c, s, first), second)
    decreases |second|
  {
    hide Step;
    if second == [] {
      assert first + second == first;
    } else {
      var n := |second| - 1;
      RunAppend(c, s, first, second[..n]);
      RunNext(c, s, first + second[..n], second[n]);
      assert first + second[..n] + [second[n]] == first + second;
    }
  }

  lemma {:induction false} EverybodyCommits(c: Curve, s: VotingState, script: Script, now: nat, k: nat)
    requires c.q > 0 && GoodScript(c, s.config, script) && k <= |script.accounts|
    requires s.votingPhase == Commit && now <= s.config.commitTimeout
    requires s.voters == Voters(script, |script.accounts|, 0, 0)
    ensures WellTyped(Committing(script, now, k))
    ensures var s' := Run(c, s, Committing(script, now, k));
      && s'.votingPhase == (if k == |script.accounts| then Vote else Commit)
      && s'.voters == Voters(script, |script.accounts|, k, 0)
  {
    hide Step, CommitStep, Voters, GoodRegistration, GoodVote, NoDuplicates;
    if k > 0 {
      var before := Committing(script, now, k - 1);
      EverybodyCommits(c, s, script, now, k - 1);
      var call := CallCommit(Account(script.accounts[k - 1]), now, script.commits[k - 1]);
      RunNext(c, s, before, call);
      CommitNext(Run(c, s, before), script, now, k - 1);
      AcceptedCommit(c, Run(c, s, before), call);
    }
  }

  lemma AcceptedCommit(c: Curve, s: VotingState, call: Call)
    requires c.q > 0 && IsI32(s.config.merkleLeafCount) && call.CallCommit?
    requires CommitStep(s, call.sender, call.now, call.commit).Ok?
    ensures Step(c, s, call) == CommitStep(s, call.sender, call.now, call.commit).value
  {
  }

  ghost predicate LeadTo(c: Curve, s: VotingState, calls: seq<Call>, phase: VotingPhase,
      voters: map<AccountAddress, Voter>) {
    && c.q > 0 && IsI32(s.config.merkleLeafCount) && WellTyped(calls)
    && var end := Run(c, s, calls);
       end.votingPhase == phase && end.voters == voters
  }

  lemma LeadToNext(c: Curve, s: VotingState, calls: seq<Call>, call: Call, phase: VotingPhase,
      voters: map<AccountAddress, Voter>)
    requires c.q > 0 && IsI32(s.config.merkleLeafCount) && WellTyped(calls) && !call.CallRegister?
    requires Step(c, Run(c, s, calls), call).votingPhase == phase && Step(c, Run(c, s, calls), call).voters == voters
    ensures LeadTo(c, s, calls + [call], phase, voters)
  {
    hide Step;
    RunNext(c, s, calls, call);
  }

  lemma NowhereYet(c: Curve, s: VotingState)
    requires c.q > 0 && IsI32(s.config.merkleLeafCount)
    ensures LeadTo(c, s, [], s.votingPhase, s.voters)
  {
  }

  lemma OneMoreVoteCast(c: Curve, s: VotingState, script: Script, now: nat, k: nat)
    requires ValidCurve(c) && GoodScript(c, s.config, script) && 0 < k <= |script.votes|
    requires Invariant(c, s) && now <= s.config.voteTimeout
    requires LeadTo(c, s, CastingVotes(script, now, k - 1), Vote,
        Voters(script, |script.accounts|, |script.accounts|, k - 1))
    ensures LeadTo(c, s, CastingVotes(script, now, k), Vote, Voters(script, |script.accounts|, |script.accounts|, k))
  {
    hide Voters, NoDuplicates, Invariant, GoodVote, GoodRegistration, VoteStep, Step, Run, WellTyped;
    var before := CastingVotes(script, now, k - 1);
    var call := CallVote(Account(script.accounts[k - 1]), now, script.votes[k - 1]);
    RunKeeps(c, s, before);
    GoodVoteOf(c, s.config, script, k - 1);
    VoteNext(c, Run(c, s, before), script, now, k - 1);
    AcceptedVote(c, Run(c, s, before), call);
    LeadToNext(c, s, before, call, Vote, Voters(script, |script.accounts|, |script.accounts|, k));
  }

  lemma {:induction false} SomeVote(c: Curve, s: VotingState, script: Script, now: nat, k: nat)
    requires ValidCurve(c) && GoodScript(c, s.config, script) && k <= |script.votes|
    requires Invariant(c, s) && s.votingPhase == Vote && now <= s.config.voteTimeout
    requires s.voters == Voters(script, |script.accounts|, |script.accounts|, 0)
    ensures LeadTo(c, s, CastingVotes(script, now, k), Vote, Voters(script, |script.accounts|, |script.accounts|, k))
  {
    hide Voters, NoDuplicates, Invariant, GoodVote, GoodRegistration, LeadTo;
    if k == 0 {
      NowhereYet(c, s);
    } else {
      SomeVote(c, s, script, now, k - 1);
      OneMoreVoteCast(c, s, script, now, k);
    }
  }

  lemma GoodVoteOf(c: Curve, config: VoteConfig, script: Script, k: nat)
    requires c.q > 0 && GoodScript(c, config, script) && k < |script.votes|
    ensures GoodVote(c, script.commits[k], script.votes[k])
  {
  }

  lemma AcceptedVote(c: Curve, s: VotingState, call: Call)
    requires c.q > 0 && IsI32(s.config.merkleLeafCount) && call.CallVote?
    requires VoteStep(c, s, call.sender, call.now, call.vote).Ok?
    ensures Step(c, s, call) == VoteStep(c, s, call.sender, call.now, call.vote).value
  {
  }

  lemma {:induction false} VotedCount(script: Script, k: nat)
    requires WellFormed(script) && k <= |script.accounts|
    requires forall i :: 0 <= i < |script.votes| ==> script.votes[i].vote != []
    ensures var voters := Voters(script, k, |script.accounts|, |script.votes|);
      |Voted(voters)| == if k <= |script.votes| then k else |script.votes|
    decreases k
  {
    var n, h := |script.accounts|, |script.votes|;
    if k == 0 {
      assert Voted(map[]) == {};
    } else {
      VotedCount(script, k - 1);
      VotedNext(script, k);
    }
  }

  lemma VotedNext(script: Script, k: nat)
    requires WellFormed(script) && 0 < k <= |script.accounts|
    requires forall i :: 0 <= i < |script.votes| ==> script.votes[i].vote != []
    ensures var n, h := |script.accounts|, |script.votes|;
      |Voted(Voters(script, k, n, h))| == |Voted(Voters(script, k - 1, n, h))| + if k <= h then 1 else 0
  {
    var n, h := |script.accounts|, |script.votes|;
    var a, entry := script.accounts[k - 1], Entry(script, k - 1, n, h);
    assert HasVoted(entry) <==> k <= h;
    hide Entry, NoDuplicates, Honest, Voters, HasVoted;
    VotersNext(script, k, n, h);
    NotYet(script, k - 1, n, h, k - 1);
    VotedAdd(Voters(script, k - 1, n, h), a, entry);
  }

  lemma VotedAdd(voters: map<AccountAddress, Voter>, a: AccountAddress, v: Voter)
    requires a !in voters
    ensures |Voted(voters[a := v])| == |Voted(voters)| + if HasVoted(v) then 1 else 0
  {
    assert Voted(voters[a := v]) == Voted(voters) + if HasVoted(v) then {a} else {};
  }

  // The calls of a script: everybody registers and commits, some vote.
  ghost function CallsOf(script: Script, deposit: nat, now: nat): seq<Call>
    requires WellFormed(script)
  {
    Registering(script, deposit, now, |script.accounts|) + Committing(script, now, |script.accounts|)
    + CastingVotes(script, now, |script.votes|)
  }

  // A call made when the time for votes is over.
  ghost predicate Late(config: VoteConfig, call: Call) {
    match call
    case CallRegister(_, now, msg, _) => now > config.voteTimeout && IsI32(msg.merkleProof.index)
    case CallCommit(_, now, _) => now > config.voteTimeout
    case CallVote(_, now, _) => now > config.voteTimeout
    case CallResult => true
    case CallChangePhase(_, now) => now > config.voteTimeout
  }

  // Every late call is rejected; an abort is, because its refunds are not covered.
  ghost predicate Frozen(c: Curve, s: VotingState) {
    && c.q > 0 && IsI32(s.config.merkleLeafCount)
    && (forall call :: Late(s.config, call) ==> Attempt(c, s, call).Err?)
    && (forall caller, now :: now > s.config.voteTimeout ==>
          ChangePhaseStep(s, Account(caller), now) == Err(TransferFailed))
  }

  // The calls lead to phase Vote, with so many voters and votes, and to a state
  // in which every late call is rejected.
  ghost predicate LeadToFrozen(c: Curve, s: VotingState, calls: seq<Call>, voters: nat, votes: nat) {
    && c.q > 0 && IsI32(s.config.merkleLeafCount) && WellTyped(calls)
    && var end := Run(c, s, calls);
       end.votingPhase == Vote && |end.voters| == voters && |Voted(end.voters)| == votes && Frozen(c, end)
  }

  // For any number of voters, if more than half of them vote and at least one does
  // not, the run leads to a state that no late call changes: the abort that is due
  // fails, whoever asks for it, and the deposits that are left stay in the contract.
  lemma AbortCanFail(c: Curve, config: VoteConfig, start: nat, script: Script, init: VotingState)
    requires ValidCurve(c) && GoodScript(c, config, script) && config.deposit > 0 && Setup(config, start) == Ok(init)
    requires 2 * |script.votes| > |script.accounts|
    ensures LeadToFrozen(c, init, CallsOf(script, config.deposit, start), |script.accounts|, |script.votes|)
  {
    hide Step, Voters, Registering, Committing, CastingVotes, NoDuplicates, GoodRegistration;
    var n := |script.accounts|;
    var first, second := Registering(script, config.deposit, start, n), Committing(script, start, n);
    var third := CastingVotes(script, start, |script.votes|);
    NothingYet(c, init, script);
    EverybodyRegisters(c, init, script, start, n);
    var s1 := Run(c, init, first);
    EverybodyCommits(c, s1, script, start, n);
    RunAppend(c, init, first, second);
    var s2 := Run(c, s1, second);
    InvariantHolds(c, config, start, first + second);
    SomeVote(c, s2, script, start, |script.votes|);
    RunAppend(c, init, first + second, third);
    var end := Run(c, s2, third);
    InvariantHolds(c, config, start, first + second + third);
    VotersCount(script, n, n, |script.votes|);
    VotesAreBytes(c, config, script);
    VotedCount(script, n);
    NobodyCanAbort(c, end);
  }

  lemma VotesAreBytes(c: Curve, config: VoteConfig, script: Script)
    requires ValidCurve(c) && GoodScript(c, config, script)
    ensures forall i :: 0 <= i < |script.votes| ==> script.votes[i].vote != []
  {
    forall i | 0 <= i < |script.votes| ensures script.votes[i].vote != [] {
      assert GoodVote(c, script.commits[i], script.votes[i]);
    }
  }

  lemma NobodyCanAbort(c: Curve, s: VotingState)
    requires c.q > 0 && IsI32(s.config.merkleLeafCount)
    requires Invariant(c, s) && s.votingPhase == Vote && s.config.deposit > 0
    requires 2 * |Voted(s.voters)| > |s.voters|
    ensures Frozen(c, s)
  {
    hide Invariant, Honest, ChangePhaseStep, Reward, RegisterStep, CommitStep, VoteStep, TallyResult;
    forall caller, now | now > s.config.voteTimeout
      ensures ChangePhaseStep(s, Account(caller), now) == Err(TransferFailed)
    {
      AbortSucceedsIff(c, s, caller, now);
    }
    forall call | Late(s.config, call) ensures Attempt(c, s, call).Err? {
      LateCall(c, s, call);
    }
  }

  lemma LateCall(c: Curve, s: VotingState, call: Call)
    requires c.q > 0 && IsI32(s.config.merkleLeafCount)
    requires s.votingPhase == Vote && Late(s.config, call)
    requires call.CallChangePhase? && call.sender.Account? ==> ChangePhaseStep(s, call.sender, call.now).Err?
    ensures Attempt(c, s, call).Err?
  {
    hide VerifyMembership, VerifyOneInTwo, Opens, AllVoted;
  }
}
