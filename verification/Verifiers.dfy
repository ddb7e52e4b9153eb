// When the two verifiers of voting/src/crypto.rs accept, in plain arithmetic:
// which numbers are hashed, and which equations have to hold modulo the prime.
module Verifiers {
  import opened Wrappers
  import opened PrimeField
  import opened VotingCrypto

  lemma Reduced(q: nat, x: nat, y: int)
    requires q > 0 && x < q && Cong(q, x, y)
    ensures x == y % q
  {
    CongMod(q, y);
    CongSwap(q, y % q, y);
    CongTrans(q, x, y, y % q);
    CongEqual(q, x, y % q);
  }

  // The right-hand sides of all equations have this form.
  lemma Combination(q: nat, base: int, r: int, point: int, d: int)
    requires q > 0
    ensures Add(q, Mul(q, base, r), Mul(q, point, d)) == (base * r + point * d) % q
  {
    Unreduced(q, base, point, r, d);
    Reduced(q, Add(q, Mul(q, base, r), Mul(q, point, d)), base * r + point * d);
  }

  lemma ShiftedPoint(q: nat, base: int, r: int, y: int, d: int)
    requires q > 0
    ensures (base * r + Sub(q, y, GENERATOR) * d) % q == (base * r + (y - 1) * d) % q
  {
    hide Sub, Cong;
    var left, right := base * r + Sub(q, y, GENERATOR) * d, base * r + (y - 1) * d;
    DifferenceCong(q, y, GENERATOR);
    CongSelf(q, d);
    CongMul(q, Sub(q, y, GENERATOR), y - 1, d, d);
    CongSelf(q, base * r);
    CongAdd(q, base * r, base * r, Sub(q, y, GENERATOR) * d, (y - 1) * d);
    CongMod(q, left);
    CongTrans(q, left % q, left, right);
    Reduced(q, left % q, right);
  }

  lemma AddToSum(q: nat, sum: int, x: int)
    requires q > 0
    ensures Add(q, sum % q, x) == (sum + x) % q
  {
    hide Cong;
    CongMod(q, sum);
    CongSelf(q, x);
    CongAdd(q, sum % q, sum, x, x);
    CongMod(q, sum % q + x);
    CongTrans(q, Add(q, sum % q, x), sum % q + x, sum + x);
    Reduced(q, Add(q, sum % q, x), sum + x);
  }

  // ----- key proofs -----

  // What a key proof has to meet: the hash is taken of the sum of the generator, the
  // commitment and the key; nothing is zero or too large; and r * G plus hash times
  // key is the commitment.
  ghost predicate KeyProofHolds(q: nat, hash: PointHash, gx: nat, p: SchnorrProof)
    requires q > 0
  {
    var z := hash((1 + p.gw + gx) % q);
    0 < p.gw < q && 0 < p.r < q && 0 < z < q && p.gw == (gx * z + p.r) % q
  }

  lemma SchnorrAcceptsIff(q: nat, hash: PointHash, gx: nat, p: SchnorrProof)
    requires q > 0
    ensures VerifySchnorr(q, hash, gx, p) == Some(true) <==> KeyProofHolds(q, hash, gx, p)
    ensures VerifySchnorr(q, hash, gx, p) == None <==>
      !(0 < p.gw < q && 0 < p.r < q && 0 < hash((1 + p.gw + gx) % q) < q)
  {
    assert Add(q, Add(q, GENERATOR, p.gw), gx) == (1 + p.gw + gx) % q by { AddToSum(q, 1 + p.gw, gx); }
    Combination(q, gx, hash((1 + p.gw + gx) % q), GENERATOR, p.r);
    hide Add, Mul;
  }

  // Whoever can answer two challenges, given by two hash functions, for one
  // commitment knows the secret key: it is the only solution of one equation.
  lemma SchnorrIsSound(q: nat, hash: PointHash, hash': PointHash, gx: nat, p: SchnorrProof, p': SchnorrProof)
    requires IsPrime(q) && p.gw == p'.gw
    requires VerifySchnorr(q, hash, gx, p) == Some(true) && VerifySchnorr(q, hash', gx, p') == Some(true)
    requires hash((1 + p.gw + gx) % q) != hash'((1 + p.gw + gx) % q)
    ensures var z, z' := hash((1 + p.gw + gx) % q), hash'((1 + p.gw + gx) % q);
      forall x: nat :: x < q && Mul(q, Sub(q, z', z), x) == Sub(q, p.r, p'.r) ==> x == gx % q
  {
    SchnorrAcceptsIff(q, hash, gx, p);
    SchnorrAcceptsIff(q, hash', gx, p');
    var z, z' := hash((1 + p.gw + gx) % q), hash'((1 + p.gw + gx) % q);
    Combination(q, gx, z, GENERATOR, p.r);
    Combination(q, gx, z', GENERATOR, p'.r);
    hide Add, Sub, Mul, VerifySchnorr;
    SchnorrExtraction(q, gx, p.gw, p.r, z, p'.r, z');
  }

  // ----- ballots -----

  // The sum of all six points is hashed.
  lemma ChallengeIsSum(q: nat, p: OneInTwoProof)
    requires q > 0
    ensures ChallengePoint(q, p) == (p.x + p.y + p.a1 + p.b1 + p.a2 + p.b2) % q
  {
    assert Add(q, p.x, p.y) == (p.x + p.y) % q;
    AddToSum(q, p.x + p.y, p.a1);
    AddToSum(q, p.x + p.y + p.a1, p.b1);
    AddToSum(q, p.x + p.y + p.a1 + p.b1, p.a2);
    AddToSum(q, p.x + p.y + p.a1 + p.b1 + p.a2, p.b2);
    hide Add;
  }

  ghost predicate InRange(q: nat, p: OneInTwoProof) {
    && 0 < p.r1 < q && 0 < p.r2 < q && 0 < p.d1 < q && 0 < p.d2 < q
    && 0 < p.x < q && 0 < p.y < q && 0 < p.a1 < q && 0 < p.b1 < q && 0 < p.a2 < q && 0 < p.b2 < q
  }

  // What a ballot proof has to meet: the hash is taken of the sum of all six points;
  // nothing is zero or too large; the two shares add up to the hash; and each branch
  // answers its share, the first one for y as a vote of zero, the second for a one.
  ghost predicate BallotProofHolds(q: nat, hash: PointHash, p: OneInTwoProof, gy: nat)
    requires q > 0
  {
    var c := hash((p.x + p.y + p.a1 + p.b1 + p.a2 + p.b2) % q);
    && InRange(q, p) && 0 < c < q && (p.d1 + p.d2) % q == c
    && p.a1 == (p.r1 + p.x * p.d1) % q
    && p.b1 == (gy * p.r1 + p.y * p.d1) % q
    && p.a2 == (p.r2 + p.x * p.d2) % q
    && p.b2 == (gy * p.r2 + (p.y - 1) * p.d2) % q
  }

  lemma OneInTwoAcceptsIff(q: nat, hash: PointHash, p: OneInTwoProof, gy: nat)
    requires q > 0
    ensures VerifyOneInTwo(q, hash, p, gy) == Some(true) <==> BallotProofHolds(q, hash, p, gy)
    ensures VerifyOneInTwo(q, hash, p, gy) == None <==>
      !(InRange(q, p) && 0 < hash((p.x + p.y + p.a1 + p.b1 + p.a2 + p.b2) % q) < q)
  {
    ChallengeIsSum(q, p);
    assert ProofConvertible(q, p) <==> InRange(q, p);
    Combination(q, GENERATOR, p.r1, p.x, p.d1);
    Combination(q, gy, p.r1, p.y, p.d1);
    Combination(q, GENERATOR, p.r2, p.x, p.d2);
    Combination(q, gy, p.r2, Sub(q, p.y, GENERATOR), p.d2);
    ShiftedPoint(q, gy, p.r2, p.y, p.d2);
    assert Add(q, p.d1, p.d2) == (p.d1 + p.d2) % q;
    hide Add, Mul, Sub, ChallengePoint, ProofConvertible, InRange;
  }

  // Whoever can answer two challenges, given by two hash functions, for the same six
  // points has cast a zero or a one, masked by the secret behind x.
  lemma OneInTwoIsSound(q: nat, hash: PointHash, hash': PointHash, gy: nat, p: OneInTwoProof, p': OneInTwoProof)
    requires IsPrime(q)
    requires (p.x, p.y, p.a1, p.b1, p.a2, p.b2) == (p'.x, p'.y, p'.a1, p'.b1, p'.a2, p'.b2)
    requires VerifyOneInTwo(q, hash, p, gy) == Some(true) && VerifyOneInTwo(q, hash', p', gy) == Some(true)
    requires var sum := (p.x + p.y + p.a1 + p.b1 + p.a2 + p.b2) % q; hash(sum) != hash'(sum)
    ensures p.y == (gy * p.x) % q || p.y == (gy * p.x + 1) % q
  {
    var sum := (p.x + p.y + p.a1 + p.b1 + p.a2 + p.b2) % q;
    ChallengeIsSum(q, p);
    ChallengeIsSum(q, p');
    assert OneInTwoEquations(q, p, gy, hash(sum)) && OneInTwoEquations(q, p', gy, hash'(sum)) by {
      hide OneInTwoEquations, ChallengePoint;
    }
    OneInTwoExtraction(q, gy, p, hash(sum), p', hash'(sum));
    AddToSum(q, gy * p.x, GENERATOR);
  }
}
