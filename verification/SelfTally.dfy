// Reconstructed keys (off-chain/src/lib.rs) and the brute-force tally
// (voting/src/crypto.rs): the masks of all ballots cancel.
module SelfTally {
  import opened Wrappers
  import opened PrimeField

  function Sum(xs: seq<int>): int {
    if xs == [] then 0 else Sum(xs[..|xs| - 1]) + xs[|xs| - 1]
  }

  predicate ArePoints(q: nat, points: seq<nat>) {
    forall i :: 0 <= i < |points| ==> points[i] < q
  }

  // ----- compute_reconstructed_key -----

  // The position of the first key equal to the given one.
  function FirstPosition(keys: seq<nat>, key: nat): (p: Option<nat>)
    ensures p.Some? ==> p.value < |keys| && keys[p.value] == key
    ensures p.Some? <==> key in keys
  {
    if keys == [] then None
    else if keys[0] == key then Some(0)
    else
      match FirstPosition(keys[1..], key)
      case None => None
      case Some(i) => Some(i + 1)
  }

  // The keys before a position minus the keys after it; a lone voter gets the
  // negation of the own key.
  function KeyAt(q: nat, keys: seq<nat>, position: nat): (y: nat)
    requires q > 0 && position < |keys|
    ensures y < q
  {
    if |keys| == 1 then Sub(q, 0, keys[0])
    else Sub(q, Sum(keys[..position]), Sum(keys[position + 1..]))
  }

  // None stands for the panic when the own key is not in the list.
  function ReconstructedKey(q: nat, keys: seq<nat>, gx: nat): Option<nat>
    requires q > 0
  {
    match FirstPosition(keys, gx)
    case None => None
    case Some(position) => Some(KeyAt(q, keys, position))
  }

  // The points after the first key, as the loop for position 0 adds them up.
  method AfterFirst(q: nat, keys: seq<nat>) returns (afterPoints: nat)
    requires q > 0 && |keys| > 1 && ArePoints(q, keys)
    ensures afterPoints < q && Cong(q, afterPoints, Sum(keys[1..]))
  {
    hide Cong, Sum, Add, Sub;
    var n := |keys|;
    afterPoints := keys[n - 1];
    CongSelf(q, afterPoints);
    AddLast(keys, 1, 1);
    for i := 1 to n - 1
      invariant afterPoints < q
      invariant Cong(q, afterPoints, keys[n - 1] + Sum(keys[1..i]))
    {
      AddLast(keys, 1, i);
      CongSelf(q, keys[i]);
      AddCong(q, afterPoints, keys[n - 1] + Sum(keys[1..i]), keys[i], keys[i]);
      afterPoints := Add(q, afterPoints, keys[i]);
    }
    AddLast(keys, 1, n - 1);
  }

  // The second loop: points before and after the own position.
  method BeforeAndAfter(q: nat, keys: seq<nat>, position: nat) returns (beforePoints: nat, afterPoints: nat)
    requires q > 0 && 0 < position < |keys| && ArePoints(q, keys)
    ensures beforePoints < q && Cong(q, beforePoints, Sum(keys[..position]))
    ensures afterPoints < q && (position < |keys| - 1 ==> Cong(q, afterPoints, Sum(keys[position + 1..])))
  {
    hide Cong, Sum;
    var n := |keys|;
    afterPoints, beforePoints := keys[n - 1], keys[0];
    NoSum();
    AddLast(keys, 0, 0);
    CongSelf(q, beforePoints);
    CongSelf(q, afterPoints);
    for j := 1 to n - 1
      invariant beforePoints < q && afterPoints < q
      invariant Cong(q, beforePoints, Sum(keys[0..if j <= position then j else position]))
      invariant Cong(q, afterPoints, keys[n - 1] + if j <= position then 0 else Sum(keys[position + 1..j]))
    {
      CongSelf(q, keys[j]);
      if j < position {
        AddLast(keys, 0, j);
        AddCong(q, beforePoints, Sum(keys[0..j]), keys[j], keys[j]);
        beforePoints := Add(q, beforePoints, keys[j]);
      }
      if j > position {
        AddLast(keys, position + 1, j);
        AddCong(q, afterPoints, keys[n - 1] + Sum(keys[position + 1..j]), keys[j], keys[j]);
        afterPoints := Add(q, afterPoints, keys[j]);
      }
      assert keys[position + 1..position + 1] == [];
    }
    assert keys[0..position] == keys[..position];
    if position < n - 1 {
      AddLast(keys, position + 1, n - 1);
    }
  }

  method ComputeReconstructedKey(q: nat, keys: seq<nat>, gx: nat) returns (r: Option<nat>)
    requires q > 0 && ArePoints(q, keys)
    ensures r == ReconstructedKey(q, keys, gx)
  {
    var found := FirstPosition(keys, gx);
    if found.None? {
      return None;
    }
    hide Sub, Cong, Sum, FirstPosition;
    var position, n := found.value, |keys|;
    NoSum();
    if position == 0 {
      var afterPoints := keys[n - 1];
      if n > 1 {
        afterPoints := AfterFirst(q, keys);
        SubtractCong(q, 0, 0, afterPoints, Sum(keys[1..]));
      }
      return Some(Sub(q, 0, afterPoints));
    }
    var beforePoints, afterPoints := BeforeAndAfter(q, keys, position);
    if position == n - 1 {
      assert keys[position + 1..] == [];
      SubtractCong(q, beforePoints, Sum(keys[..position]), 0, 0);
      SubtractNothing(q, beforePoints);
      return Some(beforePoints);
    }
    SubtractCong(q, beforePoints, Sum(keys[..position]), afterPoints, Sum(keys[position + 1..]));
    return Some(Sub(q, beforePoints, afterPoints));
  }

  lemma AddLast(keys: seq<nat>, a: nat, b: nat)
    requires a <= b < |keys|
    ensures Sum(keys[a..b + 1]) == Sum(keys[a..b]) + keys[b]
    ensures a == b ==> Sum(keys[a..b]) == 0
    ensures b + 1 == |keys| ==> keys[a..b + 1] == keys[a..]
  {
    var s := keys[a..b + 1];
    assert s[..|s| - 1] == keys[a..b];
  }

  lemma SubtractCong(q: nat, a: int, a': int, b: int, b': int)
    requires q > 0 && (a == a' || Cong(q, a, a')) && (b == b' || Cong(q, b, b'))
    ensures Sub(q, a, b) == Sub(q, a', b')
  {
    CongSelf(q, a);
    CongSelf(q, b);
    CongAdd(q, a, a', b, b');
    CongResidue(q, a - b, a' - b');
  }

  lemma NoSum()
    ensures Sum([]) == 0
  {
  }

  lemma SubtractNothing(q: nat, a: nat)
    requires a < q
    ensures Sub(q, a, 0) == a
  {
  }

  // ----- the tally -----

  const I32_RANGE: nat := 0x1_0000_0000

  // The value of an i32 counter that was incremented k times, with wrap-around.
  function WrapI32(k: nat): int {
    if k % I32_RANGE < 0x8000_0000 then k % I32_RANGE else k % I32_RANGE - I32_RANGE
  }

  // The first loop: all ballots added up.
  method AddUp(q: nat, votes: seq<nat>) returns (tally: nat)
    requires q > 1 && votes != [] && ArePoints(q, votes)
    ensures tally == Sum(votes) % q
  {
    tally := votes[0];
    hide Cong, Sum;
    AddLast(votes, 0, 0);
    CongSelf(q, tally);
    for i := 1 to |votes|
      invariant tally < q && Cong(q, tally, Sum(votes[0..i]))
    {
      AddLast(votes, 0, i);
      CongSelf(q, votes[i]);
      AddCong(q, tally, Sum(votes[0..i]), votes[i], votes[i]);
      tally := Add(q, tally, votes[i]);
    }
    assert votes[0..|votes|] == votes;
    CongResidue(q, tally, Sum(votes));
    SmallResidue(q, tally);
  }

  // None stands for the trap on an empty list of votes.
  method BruteForceTally(q: nat, votes: seq<nat>) returns (r: Option<int>)
    requires q > 1 && ArePoints(q, votes)
    ensures r == if votes == [] then None else Some(WrapI32(Sum(votes) % q))
  {
    if votes == [] {
      return None;
    }
    var tally := AddUp(q, votes);
    hide *;
    WrapSteps(0);
    var currentG: nat, yesVotes: int := IDENTITY, 0;
    ghost var rounds: nat := 0;
    while currentG != tally
      invariant rounds == currentG <= tally < q && yesVotes == WrapI32(rounds)
      decreases tally - currentG
    {
      WrapSteps(rounds);
      rounds := rounds + 1;
      yesVotes := IncrementI32(yesVotes);
      NextPoint(q, currentG);
      currentG := Add(q, currentG, GENERATOR);
    }
    return Some(yesVotes);
  }

  lemma WrapSteps(k: nat)
    ensures WrapI32(k + 1) == IncrementI32(WrapI32(k))
    ensures k < 0x8000_0000 ==> WrapI32(k) == k
  {
  }

  function IncrementI32(i: int): int {
    if i == 0x7fff_ffff then -0x8000_0000 else i + 1
  }

  lemma SmallResidue(q: nat, a: nat)
    requires a < q
    ensures a % q == a
  {
  }

  lemma NextPoint(q: nat, a: nat)
    requires a + 1 < q
    ensures Add(q, a, GENERATOR) == a + 1
  {
  }

  // ----- the masks cancel -----

  // The exponent of voter i's reconstructed key, before reduction.
  function Mask(xs: seq<int>, i: nat): int
    requires i < |xs|
  {
    Sum(xs[..i]) - Sum(xs[i + 1..])
  }

  // The sum of secret times mask over the first m voters.
  function MaskedSum(xs: seq<int>, m: nat): int
    requires m <= |xs|
  {
    if m == 0 then 0 else MaskedSum(xs, m - 1) + xs[m - 1] * Mask(xs, m - 1)
  }

  // One more voter lowers everybody's mask by the new secret.
  lemma {:induction false} OneMoreVoter(xs: seq<int>, x: int, m: nat)
    requires m <= |xs|
    ensures MaskedSum(xs + [x], m) == MaskedSum(xs, m) - x * Sum(xs[..m])
  {
    if m > 0 {
      var ys, i := xs + [x], m - 1;
      OneMoreVoter(xs, x, i);
      assert ys[..i] == xs[..i];
      var after := ys[i + 1..];
      assert after[..|after| - 1] == xs[i + 1..] && after[|after| - 1] == x;
      assert Mask(ys, i) == Mask(xs, i) - x;
      assert xs[..m][..i] == xs[..i];
      assert Sum(xs[..m]) == Sum(xs[..i]) + xs[i];
      hide *;
      Distribute(xs[i], Mask(xs, i), x, Sum(xs[..i]));
    }
  }

  lemma Distribute(x: int, mask: int, other: int, sum: int)
    ensures x * (mask - other) == x * mask - other * x
    ensures other * (sum + x) == other * sum + other * x
  {
  }

  // Over the integers: the sum of x_i * y_i is zero, for any number of voters.
  lemma {:induction false} MasksCancel(xs: seq<int>)
    ensures MaskedSum(xs, |xs|) == 0
  {
    if xs != [] {
      var n := |xs| - 1;
      var before, x := xs[..n], xs[n];
      assert xs == before + [x];
      MasksCancel(before);
      OneMoreVoter(before, x, n);
      assert before[..n] == before;
      assert xs[n + 1..] == [];
      assert Mask(xs, n) == Sum(before);
    }
  }

  // ----- the election as a whole -----

  // `create_votingkey_pair`: the key of a secret.
  function KeyOf(q: nat, x: nat): (key: nat)
    requires q > 0
    ensures key < q
  {
    Mul(q, GENERATOR, x)
  }

  function KeysOf(q: nat, xs: seq<nat>): (keys: seq<nat>)
    requires q > 0
    ensures |keys| == |xs| && ArePoints(q, keys)
  {
    seq(|xs|, i requires 0 <= i < |xs| => KeyOf(q, xs[i]))
  }

  // The vote of the holder of secret x as a point, which `commit_to_vote` hashes.
  function VotePoint(q: nat, gy: nat, x: nat, vote: nat): (p: nat)
    requires q > 0
    ensures p < q
  {
    Add(q, Mul(q, gy, x), Mul(q, GENERATOR, vote))
  }

  // The ballot of the holder of secret x, with the reconstructed key for x.
  function Ballot(q: nat, keys: seq<nat>, x: nat, vote: nat): (b: Option<nat>)
    requires q > 0
    ensures b.Some? ==> b.value < q
  {
    match ReconstructedKey(q, keys, KeyOf(q, x))
    case None => None
    case Some(gy) => Some(VotePoint(q, gy, x, vote))
  }

  ghost predicate DistinctKeys(keys: seq<nat>) {
    forall i, j :: 0 <= i < j < |keys| ==> keys[i] != keys[j]
  }

  lemma {:induction false} OwnPosition(keys: seq<nat>, i: nat)
    requires i < |keys| && DistinctKeys(keys)
    ensures FirstPosition(keys, keys[i]) == Some(i)
  {
    if i > 0 {
      assert keys[0] != keys[i];
      OwnPosition(keys[1..], i - 1);
    }
  }

  lemma {:induction false} SumCong(q: nat, a: seq<int>, b: seq<int>)
    requires q > 0 && |a| == |b|
    requires forall i :: 0 <= i < |a| ==> Cong(q, a[i], b[i])
    ensures Cong(q, Sum(a), Sum(b))
  {
    if a == [] {
      CongSelf(q, 0);
    } else {
      var n := |a| - 1;
      SumCong(q, a[..n], b[..n]);
      CongAdd(q, Sum(a[..n]), Sum(b[..n]), a[n], b[n]);
    }
  }

  lemma KeyIsMask(q: nat, xs: seq<nat>, i: nat)
    requires q > 0 && |xs| >= 2 && i < |xs|
    ensures Cong(q, KeyAt(q, KeysOf(q, xs), i), Mask(xs, i))
  {
    var keys := KeysOf(q, xs);
    forall j | 0 <= j < |xs| ensures Cong(q, keys[j], xs[j]) {
      CongMod(q, xs[j]);
    }
    SumCong(q, keys[..i], xs[..i]);
    SumCong(q, keys[i + 1..], xs[i + 1..]);
    AddCong(q, Sum(keys[..i]), Sum(xs[..i]), Sum(keys[i + 1..]), Sum(xs[i + 1..]));
  }

  // One ballot is the masked secret plus the vote.
  lemma BallotCong(q: nat, xs: seq<nat>, i: nat, vote: nat)
    requires q > 0 && |xs| >= 2 && i < |xs| && DistinctKeys(KeysOf(q, xs))
    ensures Ballot(q, KeysOf(q, xs), xs[i], vote).Some?
    ensures Cong(q, Ballot(q, KeysOf(q, xs), xs[i], vote).value, xs[i] * Mask(xs, i) + vote)
  {
    var keys := KeysOf(q, xs);
    OwnPosition(keys, i);
    KeyIsMask(q, xs, i);
    var gy := KeyAt(q, keys, i);
    CongSelf(q, xs[i]);
    AddCong(q, gy, Mask(xs, i), xs[i], xs[i]);
    CongMod(q, vote);
    AddCong(q, Mul(q, gy, xs[i]), Mask(xs, i) * xs[i], Mul(q, GENERATOR, vote), vote);
  }

  ghost predicate AreBallots(q: nat, xs: seq<nat>, votes: seq<nat>, ballots: seq<nat>)
    requires q > 0
  {
    && |xs| == |votes| == |ballots|
    && forall i :: 0 <= i < |xs| ==> Ballot(q, KeysOf(q, xs), xs[i], votes[i]) == Some(ballots[i])
  }

  lemma {:induction false} BallotSum(q: nat, xs: seq<nat>, votes: seq<nat>, ballots: seq<nat>, m: nat)
    requires q > 0 && |xs| >= 2 && m <= |xs| && DistinctKeys(KeysOf(q, xs))
    requires AreBallots(q, xs, votes, ballots)
    ensures Cong(q, Sum(ballots[..m]), MaskedSum(xs, m) + Sum(votes[..m]))
  {
    hide Cong, Ballot, DistinctKeys, KeysOf, Sum;
    if m == 0 {
      NoSum();
      CongSelf(q, 0);
    } else {
      BallotSum(q, xs, votes, ballots, m - 1);
      BallotCong(q, xs, m - 1, votes[m - 1]);
      AddLast(ballots, 0, m - 1);
      AddLast(votes, 0, m - 1);
      assert ballots[0..m] == ballots[..m] && ballots[0..m - 1] == ballots[..m - 1];
      assert votes[0..m] == votes[..m] && votes[0..m - 1] == votes[..m - 1];
      CongAdd(q, Sum(ballots[..m - 1]), MaskedSum(xs, m - 1) + Sum(votes[..m - 1]),
              ballots[m - 1], xs[m - 1] * Mask(xs, m - 1) + votes[m - 1]);
    }
  }

  lemma {:induction false} SumBound(votes: seq<nat>)
    requires forall i :: 0 <= i < |votes| ==> votes[i] <= 1
    ensures 0 <= Sum(votes) <= |votes|
  {
    if votes != [] {
      SumBound(votes[..|votes| - 1]);
    }
  }

  // The sum does not depend on the order in which ballots are read.
  lemma {:induction false} SumOfPermutation(a: seq<int>, b: seq<int>)
    requires multiset(a) == multiset(b)
    ensures Sum(a) == Sum(b)
  {
    if a == [] {
      assert |b| == |multiset(b)| == 0;
    } else {
      var n := |a| - 1;
      assert a == a[..n] + [a[n]];
      assert a[n] in multiset(b);
      var i :| 0 <= i < |b| && b[i] == a[n];
      var rest := b[..i] + b[i + 1..];
      assert b == b[..i] + [b[i]] + b[i + 1..];
      assert multiset(a[..n]) == multiset(a) - multiset{a[n]};
      assert multiset(rest) == multiset(b) - multiset{b[i]};
      SumOfPermutation(a[..n], rest);
      SumWithout(b, i);
    }
  }

  lemma {:induction false} SumWithout(b: seq<int>, i: nat)
    requires i < |b|
    ensures Sum(b) == Sum(b[..i] + b[i + 1..]) + b[i]
  {
    var n := |b| - 1;
    var rest := b[..i] + b[i + 1..];
    if i == n {
      assert rest == b[..n];
    } else {
      SumWithout(b[..n], i);
      assert rest[..|rest| - 1] == b[..n][..i] + b[..n][i + 1..];
      assert rest[|rest| - 1] == b[n];
    }
  }

  // Self-tallying: for two or more voters with distinct keys, fewer than the
  // group order, the ballots (read in any order) tally to the number of ones.
  lemma TallyCountsOnes(q: nat, xs: seq<nat>, votes: seq<nat>, ballots: seq<nat>, recorded: seq<nat>)
    requires 2 <= |xs| < q && |xs| < 0x8000_0000
    requires DistinctKeys(KeysOf(q, xs))
    requires AreBallots(q, xs, votes, ballots)
    requires forall i :: 0 <= i < |votes| ==> votes[i] <= 1
    requires multiset(recorded) == multiset(ballots)
    ensures WrapI32(Sum(recorded) % q) == Sum(votes)
    ensures 0 <= Sum(votes) <= |recorded|
  {
    BallotsAddUp(q, xs, votes, ballots, recorded);
    SumBound(votes);
    hide *;
    CongResidue(q, Sum(recorded), Sum(votes));
    SmallResidue(q, Sum(votes));
    WrapSteps(Sum(votes));
  }

  // In the sum of all ballots the masks are gone.
  lemma BallotsAddUp(q: nat, xs: seq<nat>, votes: seq<nat>, ballots: seq<nat>, recorded: seq<nat>)
    requires q > 0 && 2 <= |xs| && DistinctKeys(KeysOf(q, xs)) && AreBallots(q, xs, votes, ballots)
    requires multiset(recorded) == multiset(ballots)
    ensures Cong(q, Sum(recorded), Sum(votes)) && |votes| == |recorded| == |xs|
  {
    hide Cong, Ballot, DistinctKeys, KeysOf, Sum;
    SumOfPermutation(recorded, ballots);
    assert |recorded| == |multiset(recorded)| == |multiset(ballots)| == |ballots|;
    var n := |xs|;
    BallotSum(q, xs, votes, ballots, n);
    assert ballots[..n] == ballots && votes[..n] == votes;
    MasksCancel(xs);
  }

  // A lone voter is the exception: the ballot tallies to the vote only when the
  // secret is a multiple of the group order.
  lemma LoneVoter(q: nat, x: nat, vote: nat)
    requires IsPrime(q) && vote <= 1
    ensures Ballot(q, KeysOf(q, [x]), x, vote).Some?
    ensures Ballot(q, KeysOf(q, [x]), x, vote).value == vote <==> x % q == 0
  {
    var keys := KeysOf(q, [x]);
    assert keys == [KeyOf(q, x)];
    OwnPosition(keys, 0);
    var gy, ballot := KeyAt(q, keys, 0), Ballot(q, keys, x, vote).value;
    LoneBallot(q, x, vote, gy, ballot);
    hide *;
    CongResidue(q, x, 0);
    SmallResidue(q, 0);
    if ballot == vote {
      CongSelf(q, vote);
      CongAdd(q, ballot, -(x * x) + vote, vote, vote);
      CongSwap(q, 0, -(x * x));
      CongSelf(q, 0);
      CongAdd(q, 0, 0, -(x * x), 0);
      assert 0 - -(x * x) == x * x && 0 - 0 == 0;
      Euclid(q, x, x);
    }
    if Cong(q, x, 0) {
      CongSelf(q, x);
      CongMul(q, x, 0, x, x);
      CongSelf(q, vote);
      CongAdd(q, vote, vote, x * x, 0 * x);
      assert vote - x * x == -(x * x) + vote && vote - 0 * x == vote;
      CongTrans(q, ballot, -(x * x) + vote, vote);
      PrimeIsLarge(q);
      CongEqual(q, ballot, vote);
    }
  }

  lemma PrimeIsLarge(q: nat)
    requires IsPrime(q)
    ensures q >= 2
  {
  }

  lemma LoneBallot(q: nat, x: nat, vote: nat, gy: nat, ballot: nat)
    requires q > 1
    requires gy == Sub(q, 0, KeyOf(q, x)) && ballot == Add(q, Mul(q, gy, x), Mul(q, GENERATOR, vote))
    ensures ballot < q && Cong(q, ballot, -(x * x) + vote)
  {
    CongMod(q, x);
    CongMod(q, vote);
    CongSelf(q, 0);
    CongSelf(q, x);
    AddCong(q, 0, 0, KeyOf(q, x), x);
    AddCong(q, gy, 0 - x, x, x);
    AddCong(q, Mul(q, gy, x), (0 - x) * x, Mul(q, GENERATOR, vote), vote);
    assert (0 - x) * x == -(x * x);
  }
}
