/** The straight-line Elligator 2 map on limbs, refined to the RFC's definition. */
module MapToCurve {
  import opened Words
  import opened NumberTheory
  import opened FieldElement
  import opened FieldPowers
  import opened FieldBytes
  import E = Elligator

  method Times(f: Fe, g: Fe, ghost x: int, ghost y: int) returns (r: Fe)
    requires Loose(f) && Loose(g) && Is(f, x) && Is(g, y)
    ensures Is(r, x * y) && Product(r)
  {
    r := Mul(f, g);
    ProductIs(r, f, x, g, y);
  }

  lemma SumIs(r: Fe, f: Fe, x: int, g: Fe, y: int)
    requires Is(f, x) && Is(g, y) && Value(r) == Value(f) + Value(g)
    ensures Is(r, x + y)
  {
    var m :| Shift(Value(f), x, m);
    var n :| Shift(Value(g), y, n);
    assert Shift(Value(r), x + y, m + n);
  }

  /** Two weakly reduced elements can be added without a reduction. */
  method Plus(f: Fe, g: Fe, ghost x: int, ghost y: int) returns (r: Fe)
    requires Is(f, x) && Is(g, y) && Below(f, 0x20_0000_0000_0000) && Below(g, 0x20_0000_0000_0000)
    ensures Is(r, x + y)
    ensures forall m, n :: Below(f, m) && Below(g, n) ==> Below(r, m + n - 1)
  {
    r := Add(f, g);
    SumIs(r, f, x, g, y);
  }

  method Negated(f: Fe, ghost x: int) returns (r: Fe)
    requires Is(f, x) && Below(f, 0x8_0000_0000_0000)
    ensures Is(r, -x) && Tight(r)
  {
    r := Neg(f);
    ghost var m :| Shift(Value(f), x, m);
    ghost var n :| Shift(Value(r), -Value(f), n);
    assert Shift(Value(r), -x, n - m);
  }

  /** 2u^2 and the denominator 2u^2 + 1, both left unreduced by their additions. */
  method Denominator(u: Fe, ghost U: int) returns (tv1: Fe, xd: Fe)
    requires Loose(u) && Is(u, U)
    ensures Below(tv1, 0x10_0000_0000_4000) && Is(tv1, 2 * (U * U))
    ensures Below(xd, 0x10_0000_0000_4001) && Is(xd, 2 * (U * U) + 1)
  {
    hide Is;
    ghost var S := U * U;
    var one := One();
    var square := Times(u, u, U, U);
    tv1 := Plus(square, square, S, S);
    assert S + S == 2 * (U * U);
    IsSelf(one);
    xd := Plus(tv1, one, 2 * S, 1);
  }

  /** The square and the cube of the denominator. */
  method DenominatorPowers(xd: Fe, ghost D: int) returns (tv2: Fe, gxd: Fe)
    requires Loose(xd) && Is(xd, D)
    ensures Product(tv2) && Is(tv2, D * D)
    ensures Product(gxd) && Is(gxd, E.Cube(D))
  {
    hide Is;
    tv2 := Times(xd, xd, D, D);
    gxd := Times(tv2, xd, D * D, D);
  }

  /** (J t (-J) + s) (-J), its one addition left unreduced. */
  method CurveNumerator(j: Fe, tv1: Fe, x1n: Fe, tv2: Fe, ghost T: int, ghost S: int) returns (gx1: Fe)
    requires Below(j, 0x8_0000_0000_0000) && Is(j, J) && Loose(tv1) && Is(tv1, T)
    requires Tight(x1n) && Is(x1n, -J) && Product(tv2) && Is(tv2, S)
    ensures Product(gx1) && Is(gx1, (J * T * -J + S) * -J)
  {
    hide Is;
    gx1 := Times(j, tv1, J, T);
    gx1 := Times(gx1, x1n, J * T, -J);
    gx1 := Plus(gx1, tv2, J * T * -J, S);
    gx1 := Times(gx1, x1n, J * T * -J + S, -J);
  }

  /** The candidate root (g^7 n)^((P-5)/8) g^3 n. */
  method RootCandidate(gxd: Fe, gx1: Fe, ghost G: int, ghost N: int) returns (y11: Fe)
    requires Product(gxd) && Is(gxd, G) && Product(gx1) && Is(gx1, N)
    ensures Product(y11) && Is(y11, E.Candidate(G, N, K))
  {
    hide Is;
    var tv3 := Times(gxd, gxd, G, G);
    var tv2 := Times(tv3, tv3, G * G, G * G);
    tv3 := Times(tv3, gxd, G * G, G);
    tv3 := Times(tv3, gx1, G * G * G, N);
    tv2 := Times(tv2, tv3, G * G * (G * G), G * G * G * N);
    y11 := PowP58(tv2);
    PowerOfIs(y11, tv2, E.RootBase(G, N), K);
    y11 := Times(y11, tv3, Pow(E.RootBase(G, N), K), G * G * G * N);
  }

  /** y^2 g = n modulo P. */
  predicate Solves(y: int, g: int, n: int) { (y * y * g) % P == n % P }

  /** Whether y^2 g = n. */
  method IsRoot(y: Fe, gxd: Fe, gx1: Fe, ghost Y: int, ghost G: int, ghost N: int) returns (e: bool)
    requires Loose(y) && Is(y, Y) && Product(gxd) && Is(gxd, G) && Is(gx1, N)
    ensures e <==> Solves(Y, G, N)
  {
    var t := Times(y, y, Y, Y);
    t := Times(t, gxd, Y * Y, G);
    e := CtEq(t, gx1);
    IsIff(t, Y * Y * G);
    IsIff(gx1, N);
  }

  /** The candidate, or else the candidate times i, works exactly when the one picked by the first test does. */
  lemma PickedRootDecides(y: int, g: int, n: int)
    requires y == E.Candidate(g, n, K)
    ensures E.CandidateWorks(g, n, P, K, ROOT) <==> Solves(if Solves(y, g, n) then y else y * ROOT, g, n)
  {
  }

  /** Picks the numerator of x1 or of x2, by testing whether either root candidate works. */
  method SelectNumerator(tv1: Fe, gxd: Fe, gx1: Fe, x1n: Fe, ghost T: int, ghost G: int, ghost N: int) returns (xn: Fe)
    requires Loose(tv1) && Is(tv1, T) && Product(gxd) && Is(gxd, G) && Product(gx1) && Is(gx1, N)
    requires Tight(x1n) && Is(x1n, -J)
    ensures Loose(xn) && Is(xn, if E.CandidateWorks(G, N, P, K, ROOT) then -J else -J * T)
  {
    hide Is, Solves, E.Candidate, E.CandidateWorks;
    var c3 := SqrtM1();
    IsSelf(c3);
    var y11 := RootCandidate(gxd, gx1, G, N);
    ghost var Y11 := E.Candidate(G, N, K);
    var y12 := Times(y11, c3, Y11, ROOT);
    var e1 := IsRoot(y11, gxd, gx1, Y11, G, N);
    var y1 := Cmov(y12, y11, e1);
    var x2n := Times(x1n, tv1, -J, T);
    PickedRootDecides(Y11, G, N);
    var e3 := IsRoot(y1, gxd, gx1, if e1 then Y11 else Y11 * ROOT, G, N);
    xn := Cmov(x2n, x1n, e3);
  }

  method Divide(xn: Fe, xd: Fe, ghost x: int, ghost D: int) returns (r: Fe)
    requires Loose(xn) && Is(xn, x) && Loose(xd) && Is(xd, D)
    ensures Product(r) && Is(r, x * Pow(D, P - 2))
  {
    hide Is;
    var inverse := Invert(xd);
    PowerOfIs(inverse, xd, D, P - 2);
    r := Times(xn, inverse, x, Pow(D, P - 2));
  }

  /** The numerator chosen for u, as the program computes it. */
  ghost function Numerator(u: int): int {
    var t := 2 * (u * u);
    if E.CandidateWorks((t + 1) * (t + 1) * (t + 1), E.GxNum(u, J), P, K, ROOT) then -J else -J * t
  }

  lemma QuotientIsStraightLine(u: int)
    ensures E.StraightLine(u, J, P, K, ROOT) == (Numerator(u) * Pow(2 * (u * u) + 1, P - 2)) % P
  {
  }

  lemma StraightLineConclusion(u: int)
    requires Prime(P)
    ensures E.StraightLine(u, J, P, K, ROOT) == E.RfcMap(u, J, P)
    ensures IsSquare(E.CurveG(E.RfcMap(u, J, P), J), P)
  {
    FieldOfCurve25519();
    E.StraightLineIsRfcMap(u, J, P, K, ROOT);
  }

  /** The x-coordinate, still as limbs. Every sum on the way stays within what the next product accepts. */
  method MapElement(u: Fe, ghost U: int) returns (x: Fe)
    requires Loose(u) && Is(u, U)
    ensures Product(x) && Is(x, Numerator(U) * Pow(2 * (U * U) + 1, P - 2))
  {
    hide Is, E.CandidateWorks;
    var j := FromU64(486662);
    IsSelf(j);
    var x1n := Negated(j, J);
    ghost var T, D := 2 * (U * U), 2 * (U * U) + 1;
    var tv1, xd := Denominator(u, U);
    var tv2, gxd := DenominatorPowers(xd, D);
    var gx1 := CurveNumerator(j, tv1, x1n, tv2, T, D * D);
    var xn := SelectNumerator(tv1, gxd, gx1, x1n, T, E.Cube(D), E.GxNum(U, J));
    x := Divide(xn, xd, Numerator(U), D);
  }

  /** The whole map: for every 32-byte input, the canonical encoding of the RFC's point. */
  method MapToCurve25519(input: seq<u8>) returns (out: seq<u8>)
    requires |input| == 32
    ensures |out| == 32 && LE(out) == E.StraightLine(Cleared(input), J, P, K, ROOT)
    ensures Prime(P) ==> LE(out) == E.RfcMap(Cleared(input), J, P) && IsSquare(E.CurveG(LE(out), J), P)
  {
    var u := FromBytes(input);
    IsSelf(u);
    var x := MapElement(u, Cleared(input));
    out := ToBytes(x);
    IsIff(x, Numerator(Cleared(input)) * Pow(2 * (Cleared(input) * Cleared(input)) + 1, P - 2));
    QuotientIsStraightLine(Cleared(input));
    if Prime(P) { StraightLineConclusion(Cleared(input)); }
  }

  lemma FieldOfCurve25519()
    requires Prime(P)
    ensures E.Field(P, K, ROOT) && J % P != 0
  {
    RootSquaredIsMinusOne();
  }
}
