// The cryptographic arithmetic of the Open Vote Network: the provers of
// off-chain/src/lib.rs, the verifiers of voting/src/crypto.rs and the
// conversions of util/src/lib.rs, over the group of prime order q.
//
// A point is named by its multiple of the generator, so that scalar
// multiplication and point addition are arithmetic modulo q. The hash of a
// point is a parameter.
module VotingCrypto {
  import opened Wrappers
  import opened PrimeField

  // The digest of a point's encoding, read as a big-endian number.
  type PointHash = nat -> nat

  // `convert_vec_to_scalar` and `convert_vec_to_point` trap on zero, on the
  // identity, and on encodings of numbers that are too large.
  predicate Convertible(q: nat, v: nat) { 0 < v < q }

  // `hash_to_scalar`; None stands for a trap.
  function HashToScalar(q: nat, hash: PointHash, point: nat): Option<nat> {
    if Convertible(q, hash(point)) then Some(hash(point)) else None
  }

  // ----- Schnorr proofs -----

  datatype SchnorrProof = SchnorrProof(gw: nat, r: nat)

  // The proof for key gx = x * G with randomness w.
  function CreateSchnorr(q: nat, hash: PointHash, gx: nat, x: nat, w: nat): Option<SchnorrProof>
    requires q > 0
  {
    var gw := Mul(q, GENERATOR, w);
    match HashToScalar(q, hash, Add(q, Add(q, GENERATOR, gw), gx))
    case None => None
    case Some(z) => Some(SchnorrProof(gw, Sub(q, w, Mul(q, x, z))))
  }

  predicate SchnorrEquation(q: nat, gx: nat, proof: SchnorrProof, z: nat)
    requires q > 0
  {
    Add(q, Mul(q, gx, z), Mul(q, GENERATOR, proof.r)) == proof.gw
  }

  // None stands for a trap.
  function VerifySchnorr(q: nat, hash: PointHash, gx: nat, proof: SchnorrProof): Option<bool>
    requires q > 0
  {
    if !Convertible(q, proof.gw) || !Convertible(q, proof.r) then None
    else
      match HashToScalar(q, hash, Add(q, Add(q, GENERATOR, proof.gw), gx))
      case None => None
      case Some(z) => Some(SchnorrEquation(q, gx, proof, z))
  }

  // An honest proof is accepted, unless a zero in it makes the conversion trap.
  lemma SchnorrIsComplete(q: nat, hash: PointHash, x: nat, w: nat)
    requires q > 1
    requires CreateSchnorr(q, hash, Mul(q, GENERATOR, x), x, w).Some?
    ensures var gx := Mul(q, GENERATOR, x);
      var proof := CreateSchnorr(q, hash, gx, x, w).value;
      VerifySchnorr(q, hash, gx, proof)
      == if Convertible(q, proof.gw) && Convertible(q, proof.r) then Some(true) else None
  {
    var gx := Mul(q, GENERATOR, x);
    var proof := CreateSchnorr(q, hash, gx, x, w).value;
    var z := HashToScalar(q, hash, Add(q, Add(q, GENERATOR, proof.gw), gx)).value;
    SchnorrAnswer(q, x, w, z);
  }

  lemma SchnorrAnswer(q: nat, x: nat, w: nat, z: nat)
    requires q > 1
    ensures SchnorrEquation(q, Mul(q, GENERATOR, x), SchnorrProof(Mul(q, GENERATOR, w), Sub(q, w, Mul(q, x, z))), z)
  {
    var gx, gw, r := Mul(q, GENERATOR, x), Mul(q, GENERATOR, w), Sub(q, w, Mul(q, x, z));
    hide Add, Sub, Mul, Cong;
    OneTimes(q, x);
    OneTimes(q, w);
    OneTimes(q, r);
    AnswerCong(q, w, x, z);
    CongTrans(q, Mul(q, GENERATOR, r), r, w - x * z);
    CongSelf(q, z);
    AddCong(q, gx, x, z, z);
    AddCong(q, Mul(q, gx, z), x * z, Mul(q, GENERATOR, r), w - x * z);
    CongSwap(q, gw, w);
    CongTrans(q, Add(q, Mul(q, gx, z), Mul(q, GENERATOR, r)), w, gw);
    CongEqual(q, Add(q, Mul(q, gx, z), Mul(q, GENERATOR, r)), gw);
  }

  lemma OneTimes(q: nat, x: int)
    requires q > 0
    ensures Cong(q, Mul(q, GENERATOR, x), x)
  {
    CongMod(q, x);
  }

  // Two accepting answers to different challenges for one commitment give away
  // the secret: it is the only solution of one linear equation.
  lemma SchnorrExtraction(q: nat, gx: nat, gw: nat, r: nat, z: nat, r': nat, z': nat)
    requires IsPrime(q) && z < q && z' < q && z != z'
    requires SchnorrEquation(q, gx, SchnorrProof(gw, r), z)
    requires SchnorrEquation(q, gx, SchnorrProof(gw, r'), z')
    ensures Mul(q, Sub(q, z', z), gx) == Sub(q, r, r')
    ensures forall x: nat :: x < q && Mul(q, Sub(q, z', z), x) == Sub(q, r, r') ==> x == gx % q
  {
    hide *;
    SchnorrCong(q, gx, gw, r, z);
    SchnorrCong(q, gx, gw, r', z');
    CongSwap(q, gw, gx * z + r);
    CongTrans(q, gx * z + r, gw, gx * z' + r');
    SubstituteDifference(q, gx, z, z', r, r');
    DifferenceCong(q, z', z);
    DifferenceCong(q, r, r');
    CongSelf(q, gx);
    AddCong(q, Sub(q, z', z), z' - z, gx, gx);
    CongTrans(q, Mul(q, Sub(q, z', z), gx), (z' - z) * gx, r - r');
    CongSwap(q, Sub(q, r, r'), r - r');
    CongTrans(q, Mul(q, Sub(q, z', z), gx), r - r', Sub(q, r, r'));
    CongEqual(q, Mul(q, Sub(q, z', z), gx), Sub(q, r, r'));
    NotCong(q, z', z);
    SubNonZero(q, z', z);
    forall x: nat | x < q && Mul(q, Sub(q, z', z), x) == Sub(q, r, r')
      ensures x == gx % q
    {
      OneSolution(q, Sub(q, z', z), x, gx);
    }
  }

  lemma DifferenceCong(q: nat, a: int, b: int)
    requires q > 0
    ensures Cong(q, Sub(q, a, b), a - b)
  {
    CongMod(q, a - b);
  }

  lemma SubNonZero(q: nat, a: int, b: int)
    requires q > 0 && !Cong(q, a - b, 0)
    ensures Sub(q, a, b) != 0
  {
    hide *;
    DifferenceCong(q, a, b);
    CongSwap(q, Sub(q, a, b), a - b);
  }

  lemma SchnorrCong(q: nat, gx: nat, gw: nat, r: nat, z: nat)
    requires q > 0 && SchnorrEquation(q, gx, SchnorrProof(gw, r), z)
    ensures Cong(q, gw, gx * z + r)
  {
    hide Add, Mul, Cong;
    CongSelf(q, gx);
    CongSelf(q, z);
    OneTimes(q, r);
    AddCong(q, gx, gx, z, z);
    AddCong(q, Mul(q, gx, z), gx * z, Mul(q, GENERATOR, r), r);
  }

  lemma SubstituteDifference(q: nat, x: int, z: int, z': int, r: int, r': int)
    requires q > 0 && Cong(q, x * z + r, x * z' + r')
    ensures Cong(q, (z' - z) * x, r - r')
  {
    var k :| DiffersBy(q, x * z + r, x * z' + r', k);
    assert (z' - z) * x == x * z' - x * z;
    assert q * (-k) == -(q * k);
    CongWitness(q, (z' - z) * x, r - r', -k);
  }

  lemma OneSolution(q: nat, d: nat, x: nat, y: nat)
    requires IsPrime(q) && 0 < d < q && x < q
    requires Mul(q, d, x) == Mul(q, d, y)
    ensures x == y % q
  {
    hide *;
    MulCong(q, d, x);
    MulCong(q, d, y);
    CongSwap(q, Mul(q, d, x), d * x);
    CongTrans(q, d * x, Mul(q, d, y), d * y);
    NotCong(q, d, 0);
    assert d - 0 == d;
    Cancel(q, d, x, y);
    CongMod(q, y);
    CongSwap(q, y % q, y);
    CongTrans(q, x, y, y % q);
    CongEqual(q, x, y % q);
  }

  lemma MulCong(q: nat, a: int, b: int)
    requires q > 0
    ensures Cong(q, Mul(q, a, b), a * b)
  {
    CongMod(q, a * b);
  }

  // ----- one-in-two proofs -----

  datatype OneInTwoProof = OneInTwoProof(
    r1: nat, r2: nat, d1: nat, d2: nat,
    x: nat, y: nat, a1: nat, b1: nat, a2: nat, b2: nat)

  // The point that is hashed to get the challenge.
  function ChallengePoint(q: nat, p: OneInTwoProof): nat
    requires q > 0
  {
    Add(q, Add(q, Add(q, Add(q, Add(q, p.x, p.y), p.a1), p.b1), p.a2), p.b2)
  }

  // A proof that the vote is one: the first branch is simulated.
  function CreateYes(q: nat, hash: PointHash, gx: nat, gy: nat, x: nat, w: nat, r1: nat, d1: nat): Option<OneInTwoProof>
    requires q > 0
  {
    var y := Add(q, Mul(q, gy, x), GENERATOR);
    var a1 := Add(q, Mul(q, GENERATOR, r1), Mul(q, gx, d1));
    var b1 := Add(q, Mul(q, gy, r1), Mul(q, y, d1));
    var a2 := Mul(q, GENERATOR, w);
    var b2 := Mul(q, gy, w);
    match HashToScalar(q, hash, ChallengePoint(q, OneInTwoProof(0, 0, 0, 0, gx, y, a1, b1, a2, b2)))
    case None => None
    case Some(c) =>
      var d2 := Sub(q, c, d1);
      var r2 := Sub(q, w, Mul(q, x, d2));
      Some(OneInTwoProof(r1, r2, d1, d2, gx, y, a1, b1, a2, b2))
  }

  // A proof that the vote is zero: the second branch is simulated.
  function CreateNo(q: nat, hash: PointHash, gx: nat, gy: nat, x: nat, w: nat, r2: nat, d2: nat): Option<OneInTwoProof>
    requires q > 0
  {
    var y := Mul(q, gy, x);
    var a1 := Mul(q, GENERATOR, w);
    var b1 := Mul(q, gy, w);
    var a2 := Add(q, Mul(q, GENERATOR, r2), Mul(q, gx, d2));
    var b2 := Add(q, Mul(q, gy, r2), Mul(q, Sub(q, y, GENERATOR), d2));
    match HashToScalar(q, hash, ChallengePoint(q, OneInTwoProof(0, 0, 0, 0, gx, y, a1, b1, a2, b2)))
    case None => None
    case Some(c) =>
      var d1 := Sub(q, c, d2);
      var r1 := Sub(q, w, Mul(q, x, d1));
      Some(OneInTwoProof(r1, r2, d1, d2, gx, y, a1, b1, a2, b2))
  }

  predicate ProofConvertible(q: nat, p: OneInTwoProof) {
    && Convertible(q, p.r1) && Convertible(q, p.r2) && Convertible(q, p.d1) && Convertible(q, p.d2)
    && Convertible(q, p.x) && Convertible(q, p.y) && Convertible(q, p.a1) && Convertible(q, p.b1)
    && Convertible(q, p.a2) && Convertible(q, p.b2)
  }

  // What the verifier checks once the challenge is known.
  predicate OneInTwoEquations(q: nat, p: OneInTwoProof, gy: nat, c: nat)
    requires q > 0
  {
    && c == Add(q, p.d1, p.d2)
    && p.a1 == Add(q, Mul(q, GENERATOR, p.r1), Mul(q, p.x, p.d1))
    && p.b1 == Add(q, Mul(q, gy, p.r1), Mul(q, p.y, p.d1))
    && p.a2 == Add(q, Mul(q, GENERATOR, p.r2), Mul(q, p.x, p.d2))
    && p.b2 == Add(q, Mul(q, gy, p.r2), Mul(q, Sub(q, p.y, GENERATOR), p.d2))
  }

  // None stands for a trap.
  function VerifyOneInTwo(q: nat, hash: PointHash, p: OneInTwoProof, gy: nat): Option<bool>
    requires q > 0
  {
    if !ProofConvertible(q, p) then None
    else
      match HashToScalar(q, hash, ChallengePoint(q, p))
      case None => None
      case Some(c) => Some(OneInTwoEquations(q, p, gy, c))
  }

  // The answered branch: committing to w and answering r = w - x * d passes
  // the check with any base B for which the claimed point is B * x.
  lemma AnsweredBranch(q: nat, base: int, point: int, x: int, w: int, d: int, r: int)
    requires q > 0
    requires Cong(q, point, base * x) && Cong(q, r, w - x * d)
    ensures Add(q, Mul(q, base, r), Mul(q, point, d)) == Mul(q, base, w)
  {
    hide *;
    var sum := Add(q, Mul(q, base, r), Mul(q, point, d));
    CongSelf(q, base);
    CongSelf(q, d);
    AddCong(q, base, base, r, w - x * d);
    AddCong(q, point, base * x, d, d);
    AddCong(q, Mul(q, base, r), base * (w - x * d), Mul(q, point, d), (base * x) * d);
    assert base * (w - x * d) + (base * x) * d == base * w by {
      assert base * (w - x * d) == base * w - base * (x * d);
      assert (base * x) * d == base * (x * d);
    }
    MulCong(q, base, w);
    CongSwap(q, Mul(q, base, w), base * w);
    CongTrans(q, sum, base * w, Mul(q, base, w));
    CongEqual(q, sum, Mul(q, base, w));
  }

  lemma SplitChallenge(q: nat, c: int, d: int)
    requires q > 0 && 0 <= c < q
    ensures Add(q, d, Sub(q, c, d)) == c && Add(q, Sub(q, c, d), d) == c
  {
    hide *;
    CongSelf(q, d);
    DifferenceCong(q, c, d);
    AddCong(q, d, d, Sub(q, c, d), c - d);
    AddCong(q, Sub(q, c, d), c - d, d, d);
    CongEqual(q, Add(q, d, Sub(q, c, d)), c);
    CongEqual(q, Add(q, Sub(q, c, d), d), c);
  }

  lemma AnswerCong(q: nat, w: int, x: int, d: int)
    requires q > 0
    ensures Cong(q, Sub(q, w, Mul(q, x, d)), w - x * d)
  {
    CongSelf(q, w);
    CongSelf(q, x);
    CongSelf(q, d);
    AddCong(q, x, x, d, d);
    AddCong(q, w, w, Mul(q, x, d), x * d);
  }

  // An honest yes proof is accepted, unless a zero in it traps.
  lemma YesIsComplete(q: nat, hash: PointHash, gy: nat, x: nat, w: nat, r1: nat, d1: nat)
    requires q > 1
    requires CreateYes(q, hash, Mul(q, GENERATOR, x), gy, x, w, r1, d1).Some?
    ensures var gx := Mul(q, GENERATOR, x);
      var p := CreateYes(q, hash, gx, gy, x, w, r1, d1).value;
      && VerifyOneInTwo(q, hash, p, gy) == (if ProofConvertible(q, p) then Some(true) else None)
      && p.x == gx && p.y == (Mul(q, gy, x) + 1) % q
  {
    var gx := Mul(q, GENERATOR, x);
    var p := CreateYes(q, hash, gx, gy, x, w, r1, d1).value;
    var c := HashToScalar(q, hash, ChallengePoint(q, p)).value;
    SplitChallenge(q, c, d1);
    AnswerCong(q, w, x, p.d2);
    CongMod(q, GENERATOR * x);
    AnsweredBranch(q, GENERATOR, gx, x, w, p.d2, p.r2);
    CongMod(q, gy * x);
    CongSelf(q, 1);
    AddCong(q, Mul(q, gy, x), gy * x, GENERATOR, 1);
    AddCong(q, p.y, gy * x + 1, GENERATOR, 1);
    AnsweredBranch(q, gy, Sub(q, p.y, GENERATOR), x, w, p.d2, p.r2);
  }

  // An honest no proof is accepted, unless a zero in it traps.
  lemma NoIsComplete(q: nat, hash: PointHash, gy: nat, x: nat, w: nat, r2: nat, d2: nat)
    requires q > 1
    requires CreateNo(q, hash, Mul(q, GENERATOR, x), gy, x, w, r2, d2).Some?
    ensures var gx := Mul(q, GENERATOR, x);
      var p := CreateNo(q, hash, gx, gy, x, w, r2, d2).value;
      && VerifyOneInTwo(q, hash, p, gy) == (if ProofConvertible(q, p) then Some(true) else None)
      && p.x == gx && p.y == Mul(q, gy, x)
  {
    var gx := Mul(q, GENERATOR, x);
    var p := CreateNo(q, hash, gx, gy, x, w, r2, d2).value;
    var c := HashToScalar(q, hash, ChallengePoint(q, p)).value;
    SplitChallenge(q, c, d2);
    AnswerCong(q, w, x, p.d1);
    CongMod(q, GENERATOR * x);
    AnsweredBranch(q, GENERATOR, gx, x, w, p.d1, p.r1);
    CongMod(q, gy * x);
    AnsweredBranch(q, gy, p.y, x, w, p.d1, p.r1);
  }

  // One branch answered for two different challenge shares: the claimed point
  // is the base times the secret.
  lemma BranchExtraction(q: nat, base: nat, x: nat, point: int, a: nat, b: nat, r: nat, d: nat, r': nat, d': nat)
    requires IsPrime(q) && d < q && d' < q && d != d'
    requires a == Add(q, Mul(q, GENERATOR, r), Mul(q, x, d)) == Add(q, Mul(q, GENERATOR, r'), Mul(q, x, d'))
    requires b == Add(q, Mul(q, base, r), Mul(q, point, d)) == Add(q, Mul(q, base, r'), Mul(q, point, d'))
    ensures Cong(q, point, base * x)
  {
    LinearRelation(q, GENERATOR, x, r, d, r', d');
    LinearRelation(q, base, point, r, d, r', d');
    // 1 * (r - r') = x * (d' - d) and base * (r - r') = point * (d' - d)
    var e, f := r - r', d' - d;
    CongSelf(q, base);
    CongMul(q, base, base, 1 * e, x * f);
    assert base * (1 * e) == base * e;
    assert base * (x * f) == f * (base * x) && point * f == f * point;
    CongSwap(q, base * e, point * f);
    CongTrans(q, f * point, base * e, f * (base * x));
    NotCong(q, d', d);
    Cancel(q, f, point, base * x);
  }

  lemma NotCong(q: nat, a: nat, b: nat)
    requires q > 0 && a < q && b < q && a != b
    ensures !Cong(q, a - b, 0)
  {
    if Cong(q, a - b, 0) {
      var k :| DiffersBy(q, a - b, 0, k);
      SmallMultiple(q, a - b, k);
    }
  }

  lemma LinearRelation(q: nat, base: int, point: int, r: int, d: int, r': int, d': int)
    requires q > 0
    requires Add(q, Mul(q, base, r), Mul(q, point, d)) == Add(q, Mul(q, base, r'), Mul(q, point, d'))
    ensures Cong(q, base * (r - r'), point * (d' - d))
  {
    Unreduced(q, base, point, r, d);
    Unreduced(q, base, point, r', d');
    var lhs := Add(q, Mul(q, base, r), Mul(q, point, d));
    CongSwap(q, lhs, base * r + point * d);
    CongTrans(q, base * r + point * d, lhs, base * r' + point * d');
    var k :| DiffersBy(q, base * r + point * d, base * r' + point * d', k);
    assert base * (r - r') == base * r - base * r';
    assert point * (d' - d) == point * d' - point * d;
    CongWitness(q, base * (r - r'), point * (d' - d), k);
  }

  lemma Unreduced(q: nat, base: int, point: int, r: int, d: int)
    requires q > 0
    ensures Cong(q, Add(q, Mul(q, base, r), Mul(q, point, d)), base * r + point * d)
  {
    CongSelf(q, base);
    CongSelf(q, point);
    CongSelf(q, r);
    CongSelf(q, d);
    AddCong(q, base, base, r, r);
    AddCong(q, point, point, d, d);
    AddCong(q, Mul(q, base, r), base * r, Mul(q, point, d), point * d);
  }

  // Two accepting proofs with the same six points but different challenges:
  // the ballot encrypts zero or one under the secret x behind the point x.
  lemma OneInTwoExtraction(q: nat, gy: nat, p: OneInTwoProof, c: nat, p': OneInTwoProof, c': nat)
    requires IsPrime(q) && ProofConvertible(q, p) && ProofConvertible(q, p')
    requires (p.x, p.y, p.a1, p.b1, p.a2, p.b2) == (p'.x, p'.y, p'.a1, p'.b1, p'.a2, p'.b2)
    requires OneInTwoEquations(q, p, gy, c) && OneInTwoEquations(q, p', gy, c') && c != c'
    ensures p.y == Mul(q, gy, p.x) || p.y == Add(q, Mul(q, gy, p.x), GENERATOR)
  {
    hide Add, Sub, Mul, Cong;
    if p.d1 != p'.d1 {
      BranchExtraction(q, gy, p.x, p.y, p.a1, p.b1, p.r1, p.d1, p'.r1, p'.d1);
      MulCong(q, gy, p.x);
      CongSwap(q, Mul(q, gy, p.x), gy * p.x);
      CongTrans(q, p.y, gy * p.x, Mul(q, gy, p.x));
      CongEqual(q, p.y, Mul(q, gy, p.x));
    } else {
      assert p.d2 != p'.d2;
      var point, product := Sub(q, p.y, GENERATOR), Mul(q, gy, p.x);
      BranchExtraction(q, gy, p.x, point, p.a2, p.b2, p.r2, p.d2, p'.r2, p'.d2);
      MulCong(q, gy, p.x);
      CongSwap(q, product, gy * p.x);
      CongTrans(q, point, gy * p.x, product);
      DifferenceCong(q, p.y, 1);
      CongSwap(q, point, p.y - 1);
      CongTrans(q, p.y - 1, point, product);
      CongSelf(q, 1);
      CongAdd(q, p.y - 1, product, 1, 1);
      CongSelf(q, product);
      AddCong(q, product, product, GENERATOR, 1);
      CongSwap(q, Add(q, product, GENERATOR), product + 1);
      CongTrans(q, p.y, product + 1, Add(q, product, GENERATOR));
      CongEqual(q, p.y, Add(q, product, GENERATOR));
    }
  }
}
