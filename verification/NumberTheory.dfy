/** Congruences, powers and prime moduli over the unbounded integers. */
module NumberTheory {

  ghost predicate Prime(p: nat) {
    p > 1 && forall d: nat :: 1 < d < p ==> p % d != 0
  }

  function Pow(b: int, e: nat): int {
    if e == 0 then 1 else b * Pow(b, e - 1)
  }

  // ---- Remainders ----

  lemma RemainderUnique(a: int, q: int, r: int, n: int)
    requires 0 <= r < n && a == q * n + r
    ensures a % n == r && a / n == q
  {
    var q', r' := a / n, a % n;
    assert a == n * q' + r';
    assert (q - q') * n == r' - r;
    var d := q - q';
    assert d >= 1 ==> d * n >= n;
    assert d <= -1 ==> d * n <= -n;
  }

  /** Adding a multiple of the modulus does not change the remainder. */
  lemma ModShift(a: int, k: int, n: int)
    requires n > 0
    ensures (a + k * n) % n == a % n
  {
    var q, r := a / n, a % n;
    assert a == n * q + r;
    assert a + k * n == (q + k) * n + r;
    RemainderUnique(a + k * n, q + k, r, n);
  }

  /** Congruent numbers differ by a multiple of the modulus. */
  lemma CongWitness(a: int, b: int, n: int) returns (k: int)
    requires n > 0 && a % n == b % n
    ensures a == b + k * n
  {
    k := a / n - b / n;
    assert a == n * (a / n) + a % n;
    assert b == n * (b / n) + b % n;
  }

  lemma ProductOfShifts(a: int, k: int, b: int, l: int, n: int)
    ensures (a + k * n) * (b + l * n) == a * b + (k * b + a * l + k * l * n) * n
  {
  }

  lemma Regroup(a: int, b: int, x: int, y: int)
    ensures (a * b) * (x * y) == (a * x) * (b * y)
  {
    calc {
      (a * b) * (x * y);
      a * (b * (x * y));
      a * (x * (b * y));
      (a * x) * (b * y);
    }
  }

  lemma MulCong(a: int, a': int, b: int, b': int, n: int)
    requires n > 0 && a % n == a' % n && b % n == b' % n
    ensures (a * b) % n == (a' * b') % n
  {
    var k := CongWitness(a, a', n);
    var l := CongWitness(b, b', n);
    ProductOfShifts(a', k, b', l, n);
    ModShift(a' * b', k * b' + a' * l + k * l * n, n);
  }

  lemma AddCong(a: int, a': int, b: int, b': int, n: int)
    requires n > 0 && a % n == a' % n && b % n == b' % n
    ensures (a + b) % n == (a' + b') % n
    ensures (a - b) % n == (a' - b') % n
  {
    var k := CongWitness(a, a', n);
    var l := CongWitness(b, b', n);
    assert a + b == (a' + b') + (k + l) * n;
    assert a - b == (a' - b') + (k - l) * n;
    ModShift(a' + b', k + l, n);
    ModShift(a' - b', k - l, n);
  }

  lemma DivisibleIff(a: int, b: int, n: int)
    requires n > 0
    ensures a % n == b % n <==> (a - b) % n == 0
  {
    if a % n == b % n {
      AddCong(a, b, b, b, n);
    }
    if (a - b) % n == 0 {
      AddCong(a - b, 0, b, b, n);
    }
  }

  // ---- Powers ----

  lemma {:induction false} PowAdd(b: int, m: nat, n: nat)
    ensures Pow(b, m + n) == Pow(b, m) * Pow(b, n)
  {
    if m == 0 {
    } else {
      PowAdd(b, m - 1, n);
      assert b * (Pow(b, m - 1) * Pow(b, n)) == (b * Pow(b, m - 1)) * Pow(b, n);
    }
  }

  lemma {:induction false} PowMul(b: int, m: nat, n: nat)
    ensures m * n >= 0 && Pow(Pow(b, m), n) == Pow(b, m * n)
  {
    if n == 0 {
    } else {
      PowMul(b, m, n - 1);
      assert m * n == m + m * (n - 1);
      PowAdd(b, m, m * (n - 1));
    }
  }

  lemma {:induction false} PowBase(a: int, b: int, n: nat)
    ensures Pow(a * b, n) == Pow(a, n) * Pow(b, n)
  {
    if n == 0 {
    } else {
      PowBase(a, b, n - 1);
      var x, y := Pow(a, n - 1), Pow(b, n - 1);
      Regroup(a, b, x, y);
    }
  }

  lemma {:induction false} PowCong(a: int, b: int, e: nat, n: int)
    requires n > 0 && a % n == b % n
    ensures Pow(a, e) % n == Pow(b, e) % n
  {
    if e == 0 {
    } else {
      PowCong(a, b, e - 1, n);
      MulCong(a, b, Pow(a, e - 1), Pow(b, e - 1), n);
    }
  }

  lemma PowSmall(b: int)
    ensures Pow(b, 1) == b && Pow(b, 2) == b * b && Pow(b, 3) == b * b * b && Pow(b, 4) == (b * b) * (b * b)
  {
    assert Pow(b, 1) == b * Pow(b, 0);
    assert Pow(b, 2) == b * Pow(b, 1);
    assert Pow(b, 3) == b * Pow(b, 2);
    assert Pow(b, 4) == b * Pow(b, 3);
  }

  lemma {:induction false} PowMinusOneOdd(k: nat)
    ensures Pow(-1, 2 * k + 1) == -1
  {
    if k > 0 {
      PowMinusOneOdd(k - 1);
      assert Pow(-1, 2 * k + 1) == -1 * Pow(-1, 2 * k);
      assert Pow(-1, 2 * k) == -1 * Pow(-1, 2 * k - 1);
    } else {
      PowSmall(-1);
    }
  }

  // ---- Primes ----

  /** Euclid's lemma: a prime that divides a product divides a factor. */
  lemma {:induction false} EuclidSmall(p: nat, a: nat, b: int)
    requires Prime(p) && 0 < a < p && (a * b) % p == 0
    ensures b % p == 0
    decreases a
  {
    if a == 1 {
    } else {
      var q, r := p / a, p % a;
      assert p == a * q + r;
      assert r != 0;
      var m := (a * b) / p;
      assert a * b == p * m;
      assert r * b == p * b - q * (a * b) by {
        assert p * b == (a * q + r) * b == (a * q) * b + r * b;
        assert (a * q) * b == q * (a * b);
      }
      assert q * (a * b) == q * (p * m) == (q * m) * p;
      assert r * b == 0 + (b - q * m) * p;
      ModShift(0, b - q * m, p);
      EuclidSmall(p, r, b);
    }
  }

  lemma Euclid(p: nat, a: int, b: int)
    requires Prime(p) && (a * b) % p == 0
    ensures a % p == 0 || b % p == 0
  {
    if a % p != 0 {
      MulCong(a, a % p, b, b, p);
      EuclidSmall(p, a % p, b);
    }
  }

  /** A non-zero factor may be cancelled from a congruence modulo a prime. */
  lemma Cancel(p: nat, c: int, a: int, b: int)
    requires Prime(p) && c % p != 0 && (c * a) % p == (c * b) % p
    ensures a % p == b % p
  {
    DivisibleIff(c * a, c * b, p);
    assert c * a - c * b == c * (a - b);
    Euclid(p, c, a - b);
    DivisibleIff(a, b, p);
  }

  lemma NonZeroProduct(p: nat, a: int, b: int)
    requires Prime(p) && a % p != 0 && b % p != 0
    ensures (a * b) % p != 0
  {
    if (a * b) % p == 0 { Euclid(p, a, b); }
  }

  // ---- Binomials and Fermat's little theorem ----

  function Choose(n: nat, k: nat): nat {
    if k == 0 then 1
    else if n == 0 then 0
    else Choose(n - 1, k) + Choose(n - 1, k - 1)
  }

  lemma {:induction false} ChooseBeyond(n: nat, k: nat)
    requires k > n
    ensures Choose(n, k) == 0
  {
    if n == 0 {
    } else {
      ChooseBeyond(n - 1, k);
      ChooseBeyond(n - 1, k - 1);
    }
  }

  lemma {:induction false} ChooseFull(n: nat)
    ensures Choose(n, n) == 1
  {
    if n == 0 {
    } else {
      ChooseFull(n - 1);
      ChooseBeyond(n - 1, n);
    }
  }

  lemma AbsorptionArith(n: int, k: int, a: int, b: int, c: int, d: int)
    requires k * a == (n - 1) * c && (k - 1) * b == (n - 1) * d && b == c + d
    ensures k * (a + b) == n * b
  {
    assert (n - 1) * c + (n - 1) * d == (n - 1) * b;
  }

  /** k * C(n, k) = n * C(n-1, k-1). */
  lemma {:induction false} Absorption(n: nat, k: nat)
    requires n >= 1 && k >= 1
    ensures k * Choose(n, k) == n * Choose(n - 1, k - 1)
    decreases n
  {
    if n == 1 {
      ChooseRow(k);
    } else {
      Absorption(n - 1, k);
      if k > 1 { Absorption(n - 1, k - 1); }
      AbsorptionArith(n, k, Choose(n - 1, k), Choose(n - 1, k - 1), Choose(n - 2, k - 1),
                      if k > 1 then Choose(n - 2, k - 2) else 0);
    }
  }

  /** The first two rows of the triangle. */
  lemma ChooseRow(k: nat)
    requires k >= 1
    ensures k * Choose(1, k) == Choose(0, k - 1)
  {
    if k > 1 {
      ChooseBeyond(1, k);
      ChooseBeyond(0, k - 1);
    }
  }

  /** A prime divides the inner binomials of its row. */
  lemma PrimeDividesChoose(p: nat, k: nat)
    requires Prime(p) && 0 < k < p
    ensures Choose(p, k) % p == 0
  {
    var c, m := Choose(p, k), Choose(p - 1, k - 1);
    assert k * c == p * m by { Absorption(p, k); }
    MultipleIsZero(k * c, m, p);
    EuclidSmall(p, k, c);
  }

  lemma MultipleIsZero(a: int, m: int, n: int)
    requires n > 0 && a == n * m
    ensures a % n == 0
  {
    ModShift(0, m, n);
  }

  /** The sum of the terms C(n, j) * x^j for j up to m. */
  function BinomialSum(n: nat, m: nat, x: int): int {
    Choose(n, m) * Pow(x, m) + if m == 0 then 0 else BinomialSum(n, m - 1, x)
  }

  lemma BinomialStepArith(u: int, v: int, x: int, w: int, s: int, t: int, s': int, t': int)
    requires s' == s + x * t && t' == v * w + t
    ensures (u + v) * (x * w) + s' == u * (x * w) + s + x * t'
  {
    assert (u + v) * (x * w) == u * (x * w) + v * (x * w);
    assert v * (x * w) == x * (v * w);
    assert x * t' == x * (v * w) + x * t;
  }

  lemma {:induction false} BinomialStep(n: nat, m: nat, x: int)
    requires m >= 1
    ensures BinomialSum(n + 1, m, x) == BinomialSum(n, m, x) + x * BinomialSum(n, m - 1, x)
  {
    var below := if m == 1 then 0 else BinomialSum(n, m - 2, x);
    if m == 1 {
      PowSmall(x);
      assert BinomialSum(n + 1, 0, x) == 1 && BinomialSum(n, 0, x) == 1;
    } else {
      BinomialStep(n, m - 1, x);
    }
    BinomialStepArith(Choose(n, m), Choose(n, m - 1), x, Pow(x, m - 1),
                      BinomialSum(n, m - 1, x), below, BinomialSum(n + 1, m - 1, x), BinomialSum(n, m - 1, x));
  }

  lemma {:induction false} BinomialTheorem(n: nat, x: int)
    ensures Pow(x + 1, n) == BinomialSum(n, n, x)
  {
    if n == 0 {
    } else {
      BinomialTheorem(n - 1, x);
      BinomialStep(n - 1, n, x);
      ChooseBeyond(n - 1, n);
      var s := BinomialSum(n - 1, n - 1, x);
      assert BinomialSum(n - 1, n, x) == 0 * Pow(x, n) + s;
      assert (x + 1) * s == s + x * s;
    }
  }

  lemma {:induction false} InnerTermsVanish(p: nat, m: nat, x: int)
    requires Prime(p) && m < p
    ensures BinomialSum(p, m, x) % p == 1
  {
    if m > 0 {
      InnerTermsVanish(p, m - 1, x);
      PrimeDividesChoose(p, m);
      var c, w := Choose(p, m), Pow(x, m);
      MulCong(c, 0, w, w, p);
      RemainderUnique(1, 0, 1, p);
      AddCong(c * w, 0 * w, BinomialSum(p, m - 1, x), 1, p);
    } else {
      assert BinomialSum(p, 0, x) == 1;
      RemainderUnique(1, 0, 1, p);
    }
  }

  lemma {:induction false} FermatNat(p: nat, x: nat)
    requires Prime(p)
    ensures Pow(x, p) % p == x % p
  {
    if x == 0 {
      assert Pow(0, p) == 0 * Pow(0, p - 1);
    } else {
      FermatNat(p, x - 1);
      BinomialTheorem(p, x - 1);
      InnerTermsVanish(p, p - 1, x - 1);
      ChooseFull(p);
      RemainderUnique(1, 0, 1, p);
      AddCong(Pow(x - 1, p), x - 1, BinomialSum(p, p - 1, x - 1), 1, p);
    }
  }

  /** Fermat's little theorem. */
  lemma Fermat(p: nat, x: int)
    requires Prime(p) && x % p != 0
    ensures Pow(x, p - 1) % p == 1
  {
    var r := x % p;
    FermatNat(p, r);
    assert r * Pow(r, p - 1) == Pow(r, p);
    RemainderUnique(r, 0, r, p);
    Cancel(p, r, Pow(r, p - 1), 1);
    PowCong(x, r, p - 1, p);
    RemainderUnique(1, 0, 1, p);
  }

  // ---- Squares modulo a prime ----

  ghost predicate IsSquare(a: int, p: nat)
    requires p > 0
  {
    exists y: int :: (y * y) % p == a % p
  }

  /** The only square roots of one modulo a prime are one and minus one. */
  lemma RootOfUnity(p: nat, c: int)
    requires Prime(p) && (c * c) % p == 1
    ensures c % p == 1 || (c + 1) % p == 0
  {
    RemainderUnique(1, 0, 1, p);
    DivisibleIff(c * c, 1, p);
    assert c * c - 1 == (c - 1) * (c + 1);
    Euclid(p, c - 1, c + 1);
    DivisibleIff(c, 1, p);
  }

  lemma NonZeroRoot(p: nat, y: int)
    requires p > 0 && (y * y) % p != 0
    ensures y % p != 0
  {
    if y % p == 0 { MulCong(y, 0, y, y, p); }
  }

  lemma SquareOfPower(y: int, k: nat)
    ensures Pow(y * y, k) == Pow(y, 2 * k)
  {
    PowBase(y, y, k);
    PowAdd(y, k, k);
  }

  /** Half of Euler's criterion: a non-zero square has trivial (p-1)/2 power. */
  lemma SquareHasTrivialPower(p: nat, k: nat, a: int)
    requires Prime(p) && p == 2 * k + 1 && a % p != 0 && IsSquare(a, p)
    ensures Pow(a, k) % p == 1
  {
    var y :| (y * y) % p == a % p;
    NonZeroRoot(p, y);
    PowCong(a, y * y, k, p);
    SquareOfPower(y, k);
    Fermat(p, y);
  }
}
