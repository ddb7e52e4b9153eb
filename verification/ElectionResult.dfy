// What the announced result means: it does not depend on the order in which the
// votes are read, and for ballots made by the voters' own software it counts
// the ones and the zeros.
module ElectionResults {
  import opened Wrappers
  import opened Addresses
  import opened PrimeField
  import opened SelfTally
  import opened Membership
  import opened Permutations
  import opened VotingStates
  import opened VotingSafety

  // ----- enumerations of a set -----

  lemma {:induction false} CountsAtMostOne(order: seq<AccountAddress>, a: AccountAddress)
    requires NoDuplicates(order)
    ensures multiset(order)[a] == if a in order then 1 else 0
  {
    if order != [] {
      var n := |order| - 1;
      CountsAtMostOne(order[..n], a);
      assert order == order[..n] + [order[n]];
    }
  }

  // Two enumerations of a set are permutations of each other.
  lemma EnumerationsPermute(a: seq<AccountAddress>, b: seq<AccountAddress>, accounts: set<AccountAddress>)
    requires IsEnumeration(a, accounts) && IsEnumeration(b, accounts)
    ensures multiset(a) == multiset(b)
  {
    forall x | x in multiset(a) || x in multiset(b) ensures multiset(a)[x] == multiset(b)[x] {
      CountsAtMostOne(a, x);
      CountsAtMostOne(b, x);
    }
  }

  lemma {:induction false} EnumerationSize(order: seq<AccountAddress>, accounts: set<AccountAddress>)
    requires IsEnumeration(order, accounts)
    ensures |order| == |accounts|
  {
    if order == [] {
      assert accounts == {};
    } else {
      var n := |order| - 1;
      assert order == order[..n] + [order[n]];
      EnumerationSize(order[..n], accounts - {order[n]});
    }
  }

  // ----- the points of the votes -----

  function RecordedPoint(c: Curve, voters: map<AccountAddress, Voter>, a: AccountAddress): nat {
    if a in voters && c.pointOf(voters[a].vote).Some? then c.pointOf(voters[a].vote).value else 0
  }

  function PointOf(c: Curve, voters: map<AccountAddress, Voter>): AccountAddress -> nat {
    a => RecordedPoint(c, voters, a)
  }

  ghost predicate AllPoints(c: Curve, voters: map<AccountAddress, Voter>, order: seq<AccountAddress>) {
    forall i :: 0 <= i < |order| ==> order[i] in voters && c.pointOf(voters[order[i]].vote).Some?
  }

  lemma PointsAreImages(c: Curve, voters: map<AccountAddress, Voter>, order: seq<AccountAddress>)
    requires ValidCurve(c) && AllPoints(c, voters, order)
    ensures PointsOf(c, voters, order) == Some(Images(PointOf(c, voters), order))
  {
    PointsAreVotes(c, voters, order);
    hide PointsOf;
    assert PointsOf(c, voters, order).value == Images(PointOf(c, voters), order);
  }

  lemma {:induction false} TrapsOnNonPoints(c: Curve, voters: map<AccountAddress, Voter>, order: seq<AccountAddress>,
      i: nat)
    requires forall k :: 0 <= k < |order| ==> order[k] in voters
    requires i < |order| && c.pointOf(voters[order[i]].vote).None?
    ensures PointsOf(c, voters, order).None?
  {
    if i < |order| - 1 {
      TrapsOnNonPoints(c, voters, order[..|order| - 1], i);
    }
  }

  // The order in which the contract's map hands out the votes is irrelevant.
  lemma OrderIsIrrelevant(c: Curve, voters: map<AccountAddress, Voter>, a: seq<AccountAddress>, b: seq<AccountAddress>)
    requires ValidCurve(c) && IsEnumeration(a, voters.Keys) && IsEnumeration(b, voters.Keys)
    ensures forall i :: 0 <= i < |a| ==> a[i] in voters
    ensures forall i :: 0 <= i < |b| ==> b[i] in voters
    ensures TallyResult(c, voters, a) == TallyResult(c, voters, b)
  {
    forall i | 0 <= i < |a| ensures a[i] in voters { assert a[i] in a; }
    forall i | 0 <= i < |b| ensures b[i] in voters { assert b[i] in b; }
    if v :| v in voters && c.pointOf(voters[v].vote).None? {
      assert v in a && v in b;
      var i :| 0 <= i < |a| && a[i] == v;
      var j :| 0 <= j < |b| && b[j] == v;
      TrapsOnNonPoints(c, voters, a, i);
      TrapsOnNonPoints(c, voters, b, j);
    } else {
      EnumerationsPermute(a, b, voters.Keys);
      SameTally(c, voters, a, b);
    }
  }

  lemma SameTally(c: Curve, voters: map<AccountAddress, Voter>, a: seq<AccountAddress>, b: seq<AccountAddress>)
    requires ValidCurve(c) && AllPoints(c, voters, a) && AllPoints(c, voters, b) && multiset(a) == multiset(b)
    ensures TallyResult(c, voters, a) == TallyResult(c, voters, b)
  {
    PointsAreImages(c, voters, a);
    PointsAreImages(c, voters, b);
    hide PointsOf, Sum, PointOf;
    ImagesPermute(PointOf(c, voters), a, b);
    SamePoints(Images(PointOf(c, voters), a), Images(PointOf(c, voters), b));
  }

  lemma AnnouncedInAnyOrder(c: Curve, voters: map<AccountAddress, Voter>, order: seq<AccountAddress>)
    requires ValidCurve(c) && IsEnumeration(order, voters.Keys)
    ensures forall i :: 0 <= i < |order| ==> order[i] in voters
    ensures Announced(c, voters) == TallyResult(c, voters, order)
  {
    hide TallyResult, Enumerate;
    EnumerateElements(voters.Keys);
    OrderIsIrrelevant(c, voters, order, Enumerate(voters.Keys));
  }

  lemma SamePoints(a: seq<nat>, b: seq<nat>)
    requires multiset(a) == multiset(b)
    ensures |a| == |b| && Sum(a) == Sum(b)
  {
    SumOfPermutation(a, b);
    assert |a| == |multiset(a)| == |multiset(b)| == |b|;
  }

  // ----- honest ballots -----

  // Every recorded vote is the ballot that the voter's software makes from the
  // voter's secret, the published keys and the choice, zero or one.
  ghost predicate HonestElection(c: Curve, voters: map<AccountAddress, Voter>, order: seq<AccountAddress>,
                                 secrets: seq<nat>, choices: seq<nat>)
    requires c.q > 0
  {
    && IsEnumeration(order, voters.Keys) && |order| == |secrets| == |choices|
    && DistinctKeys(KeysOf(c.q, secrets))
    && (forall i :: 0 <= i < |choices| ==> choices[i] <= 1)
    && forall i :: 0 <= i < |order| ==>
         order[i] in voters && IsHonestBallot(c, voters[order[i]].vote, secrets, i, choices[i])
  }

  ghost predicate IsHonestBallot(c: Curve, vote: Bytes, secrets: seq<nat>, i: nat, choice: nat)
    requires c.q > 0 && i < |secrets|
  {
    c.pointOf(vote).Some? && c.pointOf(vote) == Ballot(c.q, KeysOf(c.q, secrets), secrets[i], choice)
  }

  // Self-tallying on chain: with two or more voters, fewer than the group order,
  // `result` announces the number of ones and the number of zeros.
  lemma ResultCountsTheVotes(c: Curve, s: VotingState, order: seq<AccountAddress>, secrets: seq<nat>, choices: seq<nat>)
    requires ValidCurve(c) && s.votingPhase == Result
    requires HonestElection(c, s.voters, order, secrets, choices)
    requires 2 <= |s.voters| < c.q && |s.voters| < 0x8000_0000
    ensures ResultStep(c, s) == Ok(s.(votingResult := (Sum(choices), |s.voters| - Sum(choices))))
  {
    hide Announced, TallyResult, Sum;
    AnnouncedInAnyOrder(c, s.voters, order);
    EnumerationSize(order, s.voters.Keys);
    MapSize(s.voters);
    TallyOfHonestBallots(c, s.voters, order, secrets, choices);
  }

  lemma TallyOfHonestBallots(c: Curve, voters: map<AccountAddress, Voter>, order: seq<AccountAddress>,
                             secrets: seq<nat>, choices: seq<nat>)
    requires ValidCurve(c) && HonestElection(c, voters, order, secrets, choices)
    requires 2 <= |order| < c.q && |order| < 0x8000_0000
    ensures TallyResult(c, voters, order) == Some((Sum(choices), |order| - Sum(choices)))
  {
    hide DistinctKeys, Ballot, KeysOf, Sum, PointsOf;
    HonestVotesAreBallots(c, voters, order, secrets, choices);
    var points := PointsOf(c, voters, order).value;
    hide IsEnumeration, IsHonestBallot;
    TallyCountsOnes(c.q, secrets, choices, points, points);
    SmallCount(|points|, Sum(choices));
  }

  lemma HonestVotesAreBallots(c: Curve, voters: map<AccountAddress, Voter>, order: seq<AccountAddress>,
                              secrets: seq<nat>, choices: seq<nat>)
    requires ValidCurve(c) && HonestElection(c, voters, order, secrets, choices)
    ensures PointsOf(c, voters, order).Some?
    ensures AreBallots(c.q, secrets, choices, PointsOf(c, voters, order).value)
  {
    hide IsEnumeration, DistinctKeys, Ballot, KeysOf;
    forall i | 0 <= i < |order| ensures order[i] in voters && c.pointOf(voters[order[i]].vote).Some? {
      assert IsHonestBallot(c, voters[order[i]].vote, secrets, i, choices[i]);
    }
    PointsAreVotes(c, voters, order);
    hide PointsOf;
    var points := PointsOf(c, voters, order).value;
    forall i | 0 <= i < |secrets|
      ensures Ballot(c.q, KeysOf(c.q, secrets), secrets[i], choices[i]) == Some(points[i])
    {
      assert IsHonestBallot(c, voters[order[i]].vote, secrets, i, choices[i]);
    }
  }

  lemma SmallCount(n: nat, yes: int)
    requires n < 0x8000_0000 && 0 <= yes <= n
    ensures SubtractI32(WrapI32(n), yes) == n - yes
  {
  }

  // ----- the two counts -----

  lemma WrapIsCongruent(k: nat)
    ensures IsI32(WrapI32(k)) && Cong(I32_RANGE, WrapI32(k), k)
  {
    if k % I32_RANGE < 0x8000_0000 {
      CongMod(I32_RANGE, k);
    } else {
      CongWitness(I32_RANGE, WrapI32(k), k, -(k / I32_RANGE) - 1);
    }
  }

  lemma SubtractIsCongruent(a: int, b: int)
    ensures IsI32(SubtractI32(a, b)) && Cong(I32_RANGE, SubtractI32(a, b), a - b)
  {
    var shifted := a - b + 0x8000_0000;
    CongWitness(I32_RANGE, SubtractI32(a, b), a - b, -(shifted / I32_RANGE));
  }

  lemma CongEnds(a: int, b: int, n: int, m: nat)
    requires Cong(I32_RANGE, b, n - a) && Cong(I32_RANGE, n, m)
    ensures Cong(I32_RANGE, a + b, m)
  {
    CongSelf(I32_RANGE, a);
    CongAdd(I32_RANGE, b, n - a, a, a);
    assert b + a == a + b && n - a + a == n;
    CongTrans(I32_RANGE, a + b, n, m);
  }

  lemma TwoCounts(c: Curve, voters: map<AccountAddress, Voter>, order: seq<AccountAddress>)
    requires ValidCurve(c) && AllPoints(c, voters, order) && order != []
    ensures TallyResult(c, voters, order).Some?
    ensures var (yes, no) := TallyResult(c, voters, order).value;
      IsI32(yes) && IsI32(no) && Cong(I32_RANGE, yes + no, |order|)
  {
    PointsAreVotes(c, voters, order);
    hide PointsOf, WrapI32, SubtractI32, Cong, Sum;
    var (yes, no) := TallyResult(c, voters, order).value;
    WrapIsCongruent(Sum(PointsOf(c, voters, order).value) % c.q);
    WrapIsCongruent(|order|);
    SubtractIsCongruent(WrapI32(|order|), yes);
    CongEnds(yes, no, WrapI32(|order|), |order|);
  }

  // Whatever the ballots are: the two announced numbers are signed 32-bit numbers, and
  // modulo 2 to the 32 they add up to the number of voters.
  lemma CountsAddUp(c: Curve, s: VotingState)
    requires ValidCurve(c) && Invariant(c, s) && s.votingPhase == Result
    ensures ResultStep(c, s).Ok?
    ensures var (yes, no) := ResultStep(c, s).value.votingResult;
      IsI32(yes) && IsI32(no) && Cong(I32_RANGE, yes + no, |s.voters|)
  {
    EnumerateElements(s.voters.Keys);
    var order := Enumerate(s.voters.Keys);
    MapSize(s.voters);
    forall i | 0 <= i < |order| ensures order[i] in s.voters && c.pointOf(s.voters[order[i]].vote).Some? {
      assert order[i] in order;
      assert VoterInvariant(c, Result, s.voters[order[i]]);
    }
    hide Enumerate, Invariant, TallyResult;
    TwoCounts(c, s.voters, order);
  }
}
