// Arithmetic modulo a prime: the scalars of the curve, and its group of points
// written additively with each point named by its multiple of the generator.
module PrimeField {

  ghost predicate IsPrime(q: nat) {
    q >= 2 && forall d: nat :: 1 < d < q ==> q % d != 0
  }

  const GENERATOR: nat := 1
  const IDENTITY: nat := 0

  function Add(q: nat, a: int, b: int): (r: nat)
    requires q > 0
    ensures r < q
  {
    (a + b) % q
  }

  function Sub(q: nat, a: int, b: int): (r: nat)
    requires q > 0
    ensures r < q
  {
    (a - b) % q
  }

  function Mul(q: nat, a: int, b: int): (r: nat)
    requires q > 0
    ensures r < q
  {
    (a * b) % q
  }

  // ----- congruence -----

  ghost predicate Cong(q: nat, a: int, b: int)
    requires q > 0
  {
    exists k: int :: DiffersBy(q, a, b, k)
  }

  ghost predicate DiffersBy(q: nat, a: int, b: int, k: int) {
    a - b == q * k
  }

  lemma CongWitness(q: nat, a: int, b: int, k: int)
    requires q > 0 && a - b == q * k
    ensures Cong(q, a, b)
  {
    assert DiffersBy(q, a, b, k);
  }

  lemma CongAdd(q: nat, a: int, a': int, b: int, b': int)
    requires q > 0 && Cong(q, a, a') && Cong(q, b, b')
    ensures Cong(q, a + b, a' + b')
    ensures Cong(q, a - b, a' - b')
  {
    var k :| DiffersBy(q, a, a', k);
    var m :| DiffersBy(q, b, b', m);
    assert q * (k + m) == q * k + q * m;
    assert q * (k - m) == q * k - q * m;
    CongWitness(q, a + b, a' + b', k + m);
    CongWitness(q, a - b, a' - b', k - m);
  }

  lemma CongMul(q: nat, a: int, a': int, b: int, b': int)
    requires q > 0 && Cong(q, a, a') && Cong(q, b, b')
    ensures Cong(q, a * b, a' * b')
  {
    var k :| DiffersBy(q, a, a', k);
    var m :| DiffersBy(q, b, b', m);
    calc {
      a * b - a' * b';
      (a - a') * b + a' * (b - b');
      (q * k) * b + a' * (q * m);
      q * (k * b) + q * (a' * m);
      q * (k * b + a' * m);
    }
    CongWitness(q, a * b, a' * b', k * b + a' * m);
  }

  lemma CongSelf(q: nat, a: int)
    requires q > 0
    ensures Cong(q, a, a)
  {
    CongWitness(q, a, a, 0);
  }

  lemma CongSwap(q: nat, a: int, b: int)
    requires q > 0 && Cong(q, a, b)
    ensures Cong(q, b, a)
  {
    var k :| DiffersBy(q, a, b, k);
    assert q * (-k) == -(q * k);
    CongWitness(q, b, a, -k);
  }

  lemma CongTrans(q: nat, a: int, b: int, c: int)
    requires q > 0 && Cong(q, a, b) && Cong(q, b, c)
    ensures Cong(q, a, c)
  {
    CongAdd(q, a, b, b, c);
    var k :| DiffersBy(q, a + b, b + c, k);
    CongWitness(q, a, c, k);
  }

  lemma CongMod(q: nat, a: int)
    requires q > 0
    ensures Cong(q, a % q, a)
  {
    assert a == q * (a / q) + a % q;
    assert q * (-(a / q)) == -(q * (a / q));
    CongWitness(q, a % q, a, -(a / q));
  }

  lemma SmallMultiple(q: nat, x: int, k: int)
    requires q > 0 && x == q * k && -(q as int) < x < q
    ensures x == 0
  {
    assert k >= 1 ==> q * k >= q;
    assert k <= -1 ==> q * k + q <= 0;
  }

  // Congruent integers have the same residue, and conversely.
  lemma CongResidue(q: nat, a: int, b: int)
    requires q > 0
    ensures Cong(q, a, b) <==> a % q == b % q
  {
    CongMod(q, a);
    CongMod(q, b);
    if Cong(q, a, b) {
      CongTrans(q, a % q, a, b);
      CongSwap(q, b % q, b);
      CongTrans(q, a % q, b, b % q);
      var k :| DiffersBy(q, a % q, b % q, k);
      SmallMultiple(q, a % q - b % q, k);
    }
    if a % q == b % q {
      CongSwap(q, a % q, a);
      CongTrans(q, a, a % q, b);
    }
  }

  lemma CongEqual(q: nat, a: int, b: int)
    requires 0 <= a < q && 0 <= b < q && Cong(q, a, b)
    ensures a == b
  {
    var k :| DiffersBy(q, a, b, k);
    SmallMultiple(q, a - b, k);
  }

  // ----- the field operations as congruences -----

  lemma AddCong(q: nat, a: int, a': int, b: int, b': int)
    requires q > 0 && Cong(q, a, a') && Cong(q, b, b')
    ensures Cong(q, Add(q, a, b), a' + b') && Cong(q, Sub(q, a, b), a' - b') && Cong(q, Mul(q, a, b), a' * b')
  {
    CongAdd(q, a, a', b, b');
    CongMul(q, a, a', b, b');
    CongMod(q, a + b);
    CongMod(q, a - b);
    CongMod(q, a * b);
    CongTrans(q, Add(q, a, b), a + b, a' + b');
    CongTrans(q, Sub(q, a, b), a - b, a' - b');
    CongTrans(q, Mul(q, a, b), a * b, a' * b');
  }

  // ----- Euclid's lemma -----

  // The least positive multiplier that makes b a multiple of q.
  lemma LeastMultiplier(q: nat, b: int) returns (m: nat)
    requires q > 0
    ensures 0 < m <= q && Cong(q, m * b, 0)
    ensures forall n: nat :: 0 < n < m ==> !Cong(q, n * b, 0)
  {
    m := 1;
    while m < q && !Cong(q, m * b, 0)
      invariant 1 <= m <= q
      invariant forall n: nat :: 0 < n < m ==> !Cong(q, n * b, 0)
    {
      m := m + 1;
    }
    if m == q {
      CongWitness(q, q * b, 0, b);
    }
  }

  // It divides every other such multiplier.
  lemma LeastDivides(q: nat, b: int, m: nat, n: nat)
    requires q > 0 && 0 < m && Cong(q, m * b, 0) && Cong(q, n * b, 0)
    requires forall k: nat :: 0 < k < m ==> !Cong(q, k * b, 0)
    ensures n % m == 0
  {
    var d, r := n / m, n % m;
    CongSelf(q, d);
    CongMul(q, d, d, m * b, 0);
    CongAdd(q, n * b, 0, d * (m * b), 0);
    assert d * 0 == 0;
    RemainderOf(n, m, b);
    assert Cong(q, r * b, 0);
  }

  lemma RemainderOf(n: nat, m: nat, b: int)
    requires m > 0
    ensures n * b - (n / m) * (m * b) == (n % m) * b
  {
    var d, r := n / m, n % m;
    assert n == d * m + r;
    assert (d * m + r) * b == (d * m) * b + r * b;
    assert (d * m) * b == d * (m * b);
  }

  lemma Euclid(q: nat, a: nat, b: int)
    requires IsPrime(q) && Cong(q, a * b, 0)
    ensures Cong(q, a, 0) || Cong(q, b, 0)
  {
    var m := LeastMultiplier(q, b);
    CongWitness(q, q * b, 0, b);
    LeastDivides(q, b, m, q);
    LeastDivides(q, b, m, a);
    if m == 1 {
      assert m * b == b;
    } else {
      assert m == q;
      assert a == q * (a / q);
      CongWitness(q, a, 0, a / q);
    }
  }

  // A non-zero factor can be cancelled.
  lemma Cancel(q: nat, d: int, a: int, b: int)
    requires IsPrime(q) && !Cong(q, d, 0) && Cong(q, d * a, d * b)
    ensures Cong(q, a, b)
  {
    var d' := d % q;
    CongMod(q, d);
    CongSwap(q, d', d);
    CongSelf(q, d * b);
    CongAdd(q, d * a, d * b, d * b, d * b);
    assert d * a - d * b == d * (a - b) && d * b - d * b == 0;
    CongSelf(q, a - b);
    CongMul(q, d', d, a - b, a - b);
    CongTrans(q, d' * (a - b), d * (a - b), 0);
    Euclid(q, d', a - b);
    if Cong(q, d', 0) {
      CongTrans(q, d, d', 0);
      assert false;
    }
    CongSelf(q, b);
    CongAdd(q, a - b, 0, b, b);
  }
}
