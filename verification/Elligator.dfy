/**
 * The Elligator 2 map (section 6.7.1 of RFC 9380, with Z = 2 and K = 1) over a prime field of
 * p = 8k + 5 elements in which i is a square root of minus one. Everything is stated for
 * unbounded integers modulo p; the limb code refines it in module FieldElement.
 */
module Elligator {
  import opened Words
  import opened NumberTheory

  /** p is prime, p = 8k + 5, and i * i = -1 modulo p. */
  ghost predicate Field(p: nat, k: nat, i: int) {
    Prime(p) && p == 8 * k + 5 && (i * i) % p == p - 1
  }

  /** The right-hand side of the Montgomery curve equation v^2 = x^3 + J x^2 + x. */
  function CurveG(x: int, J: int): int {
    x * x * x + J * (x * x) + x
  }

  /** The inverse modulo p, extended by zero at zero. */
  function Inv0(x: int, p: nat): int
    requires p > 1
  {
    Pow(x, p - 2)
  }

  /** The two candidates and the choice between them, as the RFC words them. */
  function RfcX1(u: int, J: int, p: nat): int
    requires p > 1
  {
    var x1 := (-J * Inv0(1 + 2 * (u * u), p)) % p;
    if x1 == 0 then (-J) % p else x1
  }

  ghost function RfcMap(u: int, J: int, p: nat): int
    requires p > 1
  {
    var x1 := RfcX1(u, J, p);
    if IsSquare(CurveG(x1, J), p) then x1 else (-x1 - J) % p
  }

  // ---- Facts about the field ----

  lemma Inv0Inverts(x: int, p: nat)
    requires Prime(p) && x % p != 0
    ensures (x * Inv0(x, p)) % p == 1
  {
    Fermat(p, x);
  }

  lemma MinusOne(p: nat)
    requires p > 1
    ensures (-1) % p == p - 1 && 1 % p == 1
  {
    RemainderUnique(-1, -1, p - 1, p);
    RemainderUnique(1, 0, 1, p);
  }

  /** 2 is not a square: its (p-1)/2 power is -1, because (1+i)^2 = 2i and (p-1)/4 is odd. */
  lemma TwoHasPowerMinusOne(p: nat, k: nat, i: int)
    requires Field(p, k, i)
    ensures Pow(2, 4 * k + 2) % p == p - 1
  {
    var w, e := 1 + i, 2 * k + 1;
    MinusOne(p);
    DivisibleIff(i * i, -1, p);
    // w^4 = -4 modulo p
    var m := CongWitness(i * i, -1, p);
    assert w * w == 2 * i + m * p;
    MulCong(w * w, 2 * i, w * w, 2 * i, p) by { ModShift(2 * i, m, p); }
    assert (2 * i) * (2 * i) == 4 * (i * i);
    MulCong(4, 4, i * i, -1, p);
    assert (w * w * (w * w)) % p == (-4) % p;
    MulCong(-1, -1, w * w * (w * w), -4, p);
    assert Pow(w, 4) == w * w * (w * w) by { PowSmall(w); }
    assert 4 % p == (-1 * Pow(w, 4)) % p;
    // raise to the odd power (p-1)/4
    PowCong(4, -1 * Pow(w, 4), e, p);
    PowBase(-1, Pow(w, 4), e);
    PowMinusOneOdd(k);
    PowMul(w, 4, e);
    assert Pow(2, 2) == 4 by { PowSmall(2); }
    PowMul(2, 2, e);
    assert Pow(2, 4 * k + 2) % p == (-1 * Pow(w, p - 1)) % p;
    assert w % p != 0 by {
      if w % p == 0 {
        MulCong(w, 0, w, w, p);
        MulCong(w * w, 0, w * w, w * w, p);
        assert (-4) % p == 0;
        assert p == 5 || p >= 13;
        RemainderUnique(-4, -1, p - 4, p);
      }
    }
    Fermat(p, w);
    MulCong(-1, -1, Pow(w, p - 1), 1, p);
  }

  lemma TwoIsNotSquare(p: nat, k: nat, i: int)
    requires Field(p, k, i)
    ensures !IsSquare(2, p)
  {
    TwoHasPowerMinusOne(p, k, i);
    RemainderUnique(2, 0, 2, p);
    if IsSquare(2, p) { SquareHasTrivialPower(p, 4 * k + 2, 2); }
  }

  lemma ZeroDenominatorMakesTwoSquare(p: nat, i: int, u: int)
    requires p > 1 && (i * i) % p == p - 1 && (1 + 2 * (u * u)) % p == 0
    ensures IsSquare(2, p)
  {
    MinusOne(p);
    var t, y := 2 * (u * u), 2 * u * i;
    DivisibleIff(t, -1, p);
    assert t - -1 == 1 + t;
    assert y * y == 2 * t * (i * i) by { Regroup(2 * u, i, 2 * u, i); }
    MulCong(t, -1, i * i, -1, p);
    MulCong(2, 2, t * (i * i), 1, p);
    assert 2 * (t * (i * i)) == y * y;
    assert (y * y) % p == 2 % p;
  }

  /** 1 + 2u^2 is never zero: otherwise 2 would be the square of 2ui. */
  lemma DenominatorIsNonZero(p: nat, k: nat, i: int, u: int)
    requires Field(p, k, i)
    ensures (1 + 2 * (u * u)) % p != 0
  {
    TwoIsNotSquare(p, k, i);
    if (1 + 2 * (u * u)) % p == 0 { ZeroDenominatorMakesTwoSquare(p, i, u); }
  }

  lemma SquareUpToSign(p: nat, i: int, h: int, c: int, r: int)
    requires p > 1 && (i * i) % p == p - 1
    requires r * r == h * c && (c % p == 1 || c % p == p - 1)
    ensures IsSquare(h, p)
  {
    MinusOne(p);
    if c % p == 1 {
      MulCong(h, h, c, 1, p);
      assert (r * r) % p == h % p;
    } else {
      var s := r * i;
      Regroup(r, i, r, i);
      MulCong(c, -1, i * i, -1, p);
      MulCong(h, h, c * (i * i), 1, p);
      assert h * (c * (i * i)) == (h * c) * (i * i);
      assert (s * s) % p == h % p;
    }
  }

  /** For p = 8k + 5, a trivial (p-1)/2 power yields an explicit square root. */
  lemma TrivialPowerIsSquare(p: nat, k: nat, i: int, h: int)
    requires Field(p, k, i) && Pow(h, 4 * k + 2) % p == 1
    ensures IsSquare(h, p)
  {
    var c, r := Pow(h, 2 * k + 1), Pow(h, k + 1);
    PowAdd(h, 2 * k + 1, 2 * k + 1);
    PowAdd(h, k + 1, k + 1);
    assert r * r == h * c;
    RootOfUnity(p, c);
    MinusOne(p);
    DivisibleIff(c, -1, p);
    SquareUpToSign(p, i, h, c, r);
  }

  lemma SquareTimesSquare(p: nat, s: int, a: int)
    requires p > 0 && IsSquare(a, p)
    ensures IsSquare(s * s * a, p)
  {
    var y :| (y * y) % p == a % p;
    Regroup(s, y, s, y);
    MulCong(s * s, s * s, y * y, a, p);
    assert (s * y * (s * y)) % p == (s * s * a) % p;
  }

  lemma IsSquareCong(p: nat, a: int, b: int)
    requires p > 0 && a % p == b % p && IsSquare(a, p)
    ensures IsSquare(b, p)
  {
    var y :| (y * y) % p == a % p;
    assert (y * y) % p == b % p;
  }

  lemma InverseUndoesSquare(p: nat, s: int, v: int, a: int)
    requires p > 1 && (s * v) % p == 1
    ensures (v * v * (s * s * a)) % p == a % p
  {
    MinusOne(p);
    MulCong(s * v, 1, s * v, 1, p);
    MulCong(s * v * (s * v), 1, a, a, p);
    Regroup(s, v, s, v);
    assert v * v * (s * s * a) == s * s * (v * v) * a;
  }

  /** Multiplying by a non-zero square does not change squareness. */
  lemma SquareTimes(p: nat, s: int, a: int, b: int)
    requires Prime(p) && s % p != 0 && b % p == (s * s * a) % p
    ensures IsSquare(a, p) <==> IsSquare(b, p)
  {
    if IsSquare(a, p) {
      SquareTimesSquare(p, s, a);
      IsSquareCong(p, s * s * a, b);
    }
    if IsSquare(b, p) {
      var v := Inv0(s, p);
      Inv0Inverts(s, p);
      IsSquareCong(p, b, s * s * a);
      SquareTimesSquare(p, v, s * s * a);
      InverseUndoesSquare(p, s, v, a);
      IsSquareCong(p, v * v * (s * s * a), a);
    }
  }

  // ---- The straight-line computation on unbounded integers ----

  /** Numerator of g(x1) over the denominator xd^3. */
  function GxNum(u: int, J: int): int {
    var t, xd := 2 * (u * u), 2 * (u * u) + 1;
    (J * t * -J + xd * xd) * -J
  }

  function Cube(x: int): int { x * x * x }

  /** g^7 n, the number whose k-th power starts the square-root candidate. */
  function RootBase(g: int, n: int): int {
    g * g * (g * g) * (g * g * g * n)
  }

  function Candidate(g: int, n: int, k: nat): int {
    Pow(RootBase(g, n), k) * (g * g * g * n)
  }

  /** Whether one of the two root candidates y, y*i satisfies y^2 g = n. */
  function CandidateWorks(g: int, n: int, p: nat, k: nat, i: int): bool
    requires p > 0
  {
    var y11 := Candidate(g, n, k);
    var y1 := if (y11 * y11 * g) % p == n % p then y11 else y11 * i;
    (y1 * y1 * g) % p == n % p
  }

  /** The x-coordinate the straight-line program ends with. */
  function StraightLine(u: int, J: int, p: nat, k: nat, i: int): int
    requires p > 1
  {
    var t := 2 * (u * u);
    var xd := t + 1;
    var xn := if CandidateWorks(xd * xd * xd, GxNum(u, J), p, k, i) then -J else -J * t;
    (xn * Pow(xd, p - 2)) % p
  }

  lemma CandidateSquared(g: int, n: int, k: nat)
    ensures Candidate(g, n, k) * Candidate(g, n, k) * g == Pow(RootBase(g, n), 2 * k + 1) * n
  {
    var a, w, h := RootBase(g, n), Pow(RootBase(g, n), k), g * g * g * n;
    PowAdd(a, k, k);
    assert Pow(a, 2 * k + 1) == a * (w * w);
    Regroup(w, h, w, h);
    assert h * h * g == a * n by { SeventhPower(g, n); }
    assert (w * w) * (h * h) * g == (w * w) * (a * n);
  }

  lemma SeventhPower(g: int, n: int)
    ensures (g * g * g * n) * (g * g * g * n) * g == g * g * (g * g) * (g * g * g * n) * n
  {
  }

  /** The square of chi = a^((p-1)/4) is the quadratic character of a. */
  lemma CharacterIsUnit(p: nat, k: nat, a: int)
    requires Prime(p) && p == 8 * k + 5 && a % p != 0
    ensures var c := Pow(a, 2 * k + 1);
            Pow(a, 4 * k + 2) == c * c && ((c * c) % p == 1 || (c * c) % p == p - 1)
  {
    var c := Pow(a, 2 * k + 1);
    PowAdd(a, 2 * k + 1, 2 * k + 1);
    PowAdd(a, 4 * k + 2, 4 * k + 2);
    Fermat(p, a);
    RootOfUnity(p, c * c);
    MinusOne(p);
    DivisibleIff(c * c, -1, p);
  }

  lemma FirstRootTest(p: nat, c: int, n: int)
    requires Prime(p) && n % p != 0
    ensures (c * n) % p == n % p <==> c % p == 1
  {
    MinusOne(p);
    if c % p == 1 { MulCong(c, 1, n, n, p); }
    if (c * n) % p == n % p {
      assert n * c == c * n;
      Cancel(p, n, c, 1);
    }
  }

  lemma SecondRootTest(p: nat, i: int, c: int, n: int)
    requires Prime(p) && (i * i) % p == p - 1 && n % p != 0
    ensures ((i * i) * (c * n)) % p == n % p <==> c % p == p - 1
  {
    MinusOne(p);
    MulCong(i * i, -1, c * n, c * n, p);
    assert -1 * (c * n) == -c * n;
    FirstRootTest(p, -c, n);
    NegationFlips(p, c);
  }

  lemma NegationFlips(p: nat, c: int)
    requires p > 1
    ensures (-c) % p == 1 <==> c % p == p - 1
  {
    MinusOne(p);
    if (-c) % p == 1 { MulCong(-1, -1, -c, 1, p); }
    if c % p == p - 1 { MulCong(-1, -1, c, -1, p); }
  }

  lemma RootOfUnityIff(p: nat, c: int)
    requires Prime(p)
    ensures (c * c) % p == 1 <==> c % p == 1 || c % p == p - 1
  {
    MinusOne(p);
    if (c * c) % p == 1 {
      RootOfUnity(p, c);
      DivisibleIff(c, -1, p);
    }
    if c % p == 1 { MulCong(c, 1, c, 1, p); }
    if c % p == p - 1 { MulCong(c, -1, c, -1, p); }
  }

  /** The two comparisons of the test, in terms of c = (g^7 n)^((p-1)/4). */
  lemma CandidateTests(g: int, n: int, p: nat, k: nat, i: int, c: int)
    requires p > 0 && c == Pow(RootBase(g, n), 2 * k + 1)
    ensures CandidateWorks(g, n, p, k, i) <==> (c * n) % p == n % p || ((i * i) * (c * n)) % p == n % p
  {
    var y := Candidate(g, n, k);
    CandidateSquared(g, n, k);
    assert (y * i) * (y * i) * g == (i * i) * (y * y * g) by { Regroup(y, i, y, i); }
  }

  /** For n non-zero the candidate test succeeds exactly when g^7 n has trivial (p-1)/2 power. */
  lemma CandidateWorksIff(g: int, n: int, p: nat, k: nat, i: int)
    requires Field(p, k, i) && g % p != 0 && n % p != 0
    ensures CandidateWorks(g, n, p, k, i) <==> Pow(RootBase(g, n), 4 * k + 2) % p == 1
  {
    var a := RootBase(g, n);
    var c := Pow(a, 2 * k + 1);
    RootBaseNonZero(g, n, p);
    CharacterIsUnit(p, k, a);
    CandidateTests(g, n, p, k, i, c);
    FirstRootTest(p, c, n);
    SecondRootTest(p, i, c, n);
    RootOfUnityIff(p, c);
  }

  lemma RootBaseNonZero(g: int, n: int, p: nat)
    requires Prime(p) && g % p != 0 && n % p != 0
    ensures RootBase(g, n) % p != 0
  {
    NonZeroProduct(p, g, g);
    NonZeroProduct(p, g * g, g * g);
    NonZeroProduct(p, g * g, g);
    NonZeroProduct(p, g * g * g, n);
    NonZeroProduct(p, g * g * (g * g), g * g * g * n);
  }

  /** If n = 0 the first candidate is zero and the test succeeds. */
  lemma CandidateWorksAtZero(g: int, n: int, p: nat, k: nat, i: int)
    requires p > 0 && n % p == 0
    ensures CandidateWorks(g, n, p, k, i)
  {
    CandidateSquared(g, n, k);
    MulCong(Pow(RootBase(g, n), 2 * k + 1), Pow(RootBase(g, n), 2 * k + 1), n, 0, p);
  }

  /** g(x1) xd^3 = GxNum whenever x1 xd = -J. */
  lemma CurveAtX1(u: int, J: int, x1: int, p: nat)
    requires p > 0 && (x1 * (2 * (u * u) + 1)) % p == (-J) % p
    ensures (CurveG(x1, J) * Cube(2 * (u * u) + 1)) % p == GxNum(u, J) % p
  {
    var t, d := 2 * (u * u), 2 * (u * u) + 1;
    var z := x1 * d;
    CurveHomogenised(x1, J, d);
    MulCong(z, -J, z, -J, p);
    MulCong(z * z, -J * -J, z, -J, p);
    MulCong(z * z, -J * -J, J * d, J * d, p);
    MulCong(z, -J, d * d, d * d, p);
    AddCong(z * z * z, -J * -J * -J, z * z * (J * d), -J * -J * (J * d), p);
    AddCong(z * z * z + z * z * (J * d), -J * -J * -J + -J * -J * (J * d), z * (d * d), -J * (d * d), p);
    NumeratorExpanded(J, t);
  }

  lemma CurveHomogenised(x: int, J: int, d: int)
    ensures CurveG(x, J) * Cube(d) == (x * d) * (x * d) * (x * d) + (x * d) * (x * d) * (J * d) + (x * d) * (d * d)
  {
    DistributeThree(x * x * x, J * (x * x), x, d * d * d);
    CubeTerm(x, d);
    SquareTerm(x, J, d);
    LinearTerm(x, d);
  }

  lemma DistributeThree(a: int, b: int, c: int, m: int)
    ensures (a + b + c) * m == a * m + b * m + c * m
  {
  }

  lemma CubeTerm(x: int, d: int)
    ensures (x * x * x) * (d * d * d) == (x * d) * (x * d) * (x * d)
  {
  }

  lemma SquareTerm(x: int, J: int, d: int)
    ensures (J * (x * x)) * (d * d * d) == (x * d) * (x * d) * (J * d)
  {
  }

  lemma LinearTerm(x: int, d: int)
    ensures x * (d * d * d) == (x * d) * (d * d)
  {
  }

  lemma NumeratorExpanded(J: int, t: int)
    ensures -J * -J * -J + -J * -J * (J * (t + 1)) + -J * ((t + 1) * (t + 1))
         == (J * t * -J + (t + 1) * (t + 1)) * -J
  {
    var d, q := t + 1, J * J;
    assert -J * -J == q;
    assert q * -J + q * (J * d) == q * (J * t);
    assert (J * t * -J) * -J == q * (J * t);
  }

  /** g(x2) = x2 (x1^2 + J x1 + 1) and g(x1) = x1 (x1^2 + J x1 + 1) for x2 = -x1 - J. */
  lemma CurveFactors(x1: int, x2: int, J: int)
    requires x2 == -x1 - J
    ensures CurveG(x1, J) == x1 * (x1 * x1 + J * x1 + 1)
    ensures CurveG(x2, J) == x2 * (x1 * x1 + J * x1 + 1)
  {
    assert CurveG(x1, J) == x1 * (x1 * (x1 + J) + 1);
    assert CurveG(x2, J) == x2 * (x2 * (x2 + J) + 1);
    assert x2 * (x2 + J) == x1 * (x1 + J);
  }

  /** The other candidate has g(x2) = 2u^2 g(x1). */
  lemma CurveAtX2(u: int, J: int, x1: int, p: nat)
    requires p > 0 && (x1 * (2 * (u * u) + 1)) % p == (-J) % p
    ensures CurveG(-x1 - J, J) % p == (2 * (u * u) * CurveG(x1, J)) % p
  {
    hide CurveG;
    var t, x2, f := 2 * (u * u), -x1 - J, x1 * x1 + J * x1 + 1;
    SecondCandidate(t, J, x1, p);
    CurveFactors(x1, x2, J);
    MulCong(x2, t * x1, f, f, p);
    Associate(t, x1, f);
  }

  lemma SecondCandidate(t: int, J: int, x1: int, p: nat)
    requires p > 0 && (x1 * (t + 1)) % p == (-J) % p
    ensures (-x1 - J) % p == (t * x1) % p
  {
    var m := CongWitness(x1 * (t + 1), -J, p);
    assert t * x1 == (-x1 - J) + m * p;
    ModShift(-x1 - J, m, p);
  }

  /** The candidate test decides whether g(x1) is a square. */
  lemma TestDecidesSquare(u: int, J: int, x1: int, p: nat, k: nat, i: int)
    requires Field(p, k, i) && (x1 * (2 * (u * u) + 1)) % p == (-J) % p
    ensures var d := 2 * (u * u) + 1;
            CandidateWorks(d * d * d, GxNum(u, J), p, k, i) <==> IsSquare(CurveG(x1, J), p)
  {
    var d := 2 * (u * u) + 1;
    DenominatorIsNonZero(p, k, i, u);
    NonZeroProduct(p, d, d);
    NonZeroProduct(p, d * d, d);
    CurveAtX1(u, J, x1, p);
    TestDecidesQuotient(d * d * d, GxNum(u, J), CurveG(x1, J), p, k, i);
  }

  /** The test on (g, n) decides whether the quotient n / g is a square. */
  lemma TestDecidesQuotient(g: int, n: int, q: int, p: nat, k: nat, i: int)
    requires Field(p, k, i) && g % p != 0 && (q * g) % p == n % p
    ensures CandidateWorks(g, n, p, k, i) <==> IsSquare(q, p)
  {
    if n % p == 0 {
      CandidateWorksAtZero(g, n, p, k, i);
      Euclid(p, q, g);
      ZeroIsSquare(q, p);
    } else {
      var a := RootBase(g, n);
      CandidateWorksIff(g, n, p, k, i);
      RootBaseNonZero(g, n, p);
      if Pow(a, 4 * k + 2) % p == 1 { TrivialPowerIsSquare(p, k, i, a); }
      if IsSquare(a, p) { SquareHasTrivialPower(p, 4 * k + 2, a); }
      RootBaseIsSquareTimes(g, n, q, p);
      NonZeroProduct(p, g, g);
      NonZeroProduct(p, g * g, g * g);
      SquareTimes(p, g * g * (g * g), q, a);
    }
  }

  lemma RootBaseIsSquareTimes(g: int, n: int, G: int, p: nat)
    requires p > 0 && (G * g) % p == n % p
    ensures RootBase(g, n) % p == (g * g * (g * g) * (g * g * (g * g)) * G) % p
  {
    var h := g * g * (g * g);
    MulCong(h * (g * g * g), h * (g * g * g), n, G * g, p);
    assert h * (g * g * g * n) == h * (g * g * g) * n;
    assert (g * g * g) * (G * g) == h * G;
    assert h * (g * g * g) * (G * g) == h * h * G;
  }

  lemma ZeroIsSquare(a: int, p: nat)
    requires p > 0 && a % p == 0
    ensures IsSquare(a, p)
  {
    assert (0 * 0) % p == a % p;
  }

  /** Twice a non-square is a square. */
  lemma TwiceNonSquare(p: nat, k: nat, i: int, a: int)
    requires Field(p, k, i) && !IsSquare(a, p)
    ensures IsSquare(2 * a, p)
  {
    if a % p == 0 { ZeroIsSquare(a, p); }
    CharacterIsUnit(p, k, a);
    if Pow(a, 4 * k + 2) % p == 1 { TrivialPowerIsSquare(p, k, i, a); }
    TwoHasPowerMinusOne(p, k, i);
    PowBase(2, a, 4 * k + 2);
    MinusOne(p);
    MulCong(Pow(2, 4 * k + 2), -1, Pow(a, 4 * k + 2), -1, p);
    TrivialPowerIsSquare(p, k, i, 2 * a);
  }

  /** When g(x1) is not a square, g(x2) is. */
  lemma OneCandidateIsSquare(u: int, J: int, x1: int, p: nat, k: nat, i: int)
    requires Field(p, k, i) && (x1 * (2 * (u * u) + 1)) % p == (-J) % p
    requires !IsSquare(CurveG(x1, J), p)
    ensures IsSquare(CurveG(-x1 - J, J), p)
  {
    var G := CurveG(x1, J);
    var b := 2 * G;
    CurveAtX2(u, J, x1, p);
    TwiceNonSquare(p, k, i, G);
    assert 2 * (u * u) * G == u * u * b;
    if u % p == 0 {
      MulCong(u, 0, u, u, p);
      MulCong(u * u, 0, b, b, p);
      ZeroIsSquare(CurveG(-x1 - J, J), p);
    } else {
      SquareTimes(p, u, b, CurveG(-x1 - J, J));
    }
  }

  /** x1 as the RFC defines it satisfies x1 (1 + 2u^2) = -J; the exceptional case never arises. */
  lemma RfcX1Solves(u: int, J: int, p: nat, k: nat, i: int)
    requires Field(p, k, i) && J % p != 0
    ensures var x1 := RfcX1(u, J, p);
            x1 == (-J * Inv0(1 + 2 * (u * u), p)) % p && x1 != 0 && (x1 * (2 * (u * u) + 1)) % p == (-J) % p
  {
    var d := 1 + 2 * (u * u);
    var v := Inv0(d, p);
    DenominatorIsNonZero(p, k, i, u);
    Inv0Inverts(d, p);
    var x := (-J * v) % p;
    MinusOne(p);
    MulCong(-J, -J, d * v, 1, p);
    assert (-J * v) * d == -J * (d * v);
    ModIdempotent(-J * v, p);
    MulCong(x, -J * v, d, d, p);
    if x == 0 {
      MulCong(-1, -1, -J, 0, p);
    }
  }

  lemma ModIdempotent(a: int, p: nat)
    requires p > 0
    ensures (a % p) % p == a % p
  {
    RemainderUnique(a % p, 0, a % p, p);
  }

  /** The straight-line program computes the RFC's map, and its result is on the curve. */
  lemma StraightLineIsRfcMap(u: int, J: int, p: nat, k: nat, i: int)
    requires Field(p, k, i) && J % p != 0
    ensures StraightLine(u, J, p, k, i) == RfcMap(u, J, p)
    ensures IsSquare(CurveG(RfcMap(u, J, p), J), p)
  {
    hide CurveG, CandidateWorks, GxNum, RfcX1;
    var t := 2 * (u * u);
    var x1, v := RfcX1(u, J, p), Inv0(1 + t, p);
    assert 1 + t == t + 1;
    RfcX1Solves(u, J, p, k, i);
    TestDecidesSquare(u, J, x1, p, k, i);
    if !IsSquare(CurveG(x1, J), p) {
      OneCandidateIsSquare(u, J, x1, p, k, i);
      // -J t v = t x1 = -x1 - J
      ModIdempotent(-J * v, p);
      MulCong(x1, -J * v, t, t, p);
      assert (-J * t) * v == (-J * v) * t;
      SecondCandidate(t, J, x1, p);
      CurveGCong((-x1 - J) % p, -x1 - J, J, p) by { ModIdempotent(-x1 - J, p); }
    }
  }

  lemma CurveGCong(x: int, y: int, J: int, p: nat)
    requires p > 0 && x % p == y % p
    ensures CurveG(x, J) % p == CurveG(y, J) % p
  {
    MulCong(x, y, x, y, p);
    MulCong(x * x, y * y, x, y, p);
    MulCong(J, J, x * x, y * y, p);
    AddCong(x * x * x, y * y * y, J * (x * x), J * (y * y), p);
    AddCong(x * x * x + J * (x * x), y * y * y + J * (y * y), x, y, p);
  }
}
