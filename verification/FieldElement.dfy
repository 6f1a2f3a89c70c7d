/**
 * Arithmetic in GF(2^255 - 19) on five 51-bit limbs. The powers of 2^51 and 2^255 are written out where they are
 * factors, so that the solver multiplies by numbers and not by names.
 */
module FieldElement {
  import opened Words
  import opened NumberTheory

  /** 2^255 - 19. */
  const P: nat := 57896044618658097711785492504343953926634992332820282019728792003956564819949
  /** (P - 5) / 8 = 2^252 - 3. */
  const K: nat := 7237005577332262213973186563042994240829374041602535252466099000494570602493
  /** The Montgomery coefficient of Curve25519. */
  const J: int := 486662

  const TWO51: u64 := 0x8_0000_0000_0000

  datatype Fe = Fe(l0: u64, l1: u64, l2: u64, l3: u64, l4: u64)

  function Value(f: Fe): int {
    f.l0 as int + 2251799813685248 * f.l1 as int + 5070602400912917605986812821504 * f.l2 as int
    + 11417981541647679048466287755595961091061972992 * f.l3 as int
      + 25711008708143844408671393477458601640355247900524685364822016 * f.l4 as int
  }

  /** The base point of section 4.1 of RFC 7748 lies on the curve with this coefficient: v^2 = u^3 + J u^2 + u. */
  lemma BasePointIsOnCurve()
    ensures var u, v := 9, 14781619447589544791020593568409986887264606134616475288964881837755586237401;
      (v * v) % P == (u * u * u + J * (u * u) + u) % P
  {
    var v, q := 14781619447589544791020593568409986887264606134616475288964881837755586237401,
      3773941293097298634799158394344131590250402624247855264280139529679695560109;
    assert v * v == 39420360 + q * P;
  }

  /** Every limb below the given bound. */
  ghost predicate Below(f: Fe, bound: int) {
    f.l0 as int < bound && f.l1 as int < bound && f.l2 as int < bound && f.l3 as int < bound && f.l4 as int < bound
  }

  /** What multiplication accepts: limbs below 2^54. */
  ghost predicate Loose(f: Fe) { Below(f, 0x40_0000_0000_0000) }

  /** What one carry pass leaves: limbs below 2^51 + 2^18. */
  ghost predicate Tight(f: Fe) { Below(f, 0x8_0000_0004_0000) }

  /** What multiplication leaves: limbs below 2^51 + 2^13. */
  ghost predicate Product(f: Fe) { Below(f, 0x8_0000_0000_2000) }

  ghost predicate Shift(a: int, b: int, k: int) {
    a == b + 57896044618658097711785492504343953926634992332820282019728792003956564819949 * k
  }

  /** f represents x modulo P. */
  ghost predicate Is(f: Fe, x: int) { exists k: int :: Shift(Value(f), x, k) }

  lemma IsIff(f: Fe, x: int)
    ensures Is(f, x) <==> Value(f) % P == x % P
  {
    if Is(f, x) {
      var k :| Shift(Value(f), x, k);
      assert Value(f) == x + k * P;
      ModShift(x, k, P);
    }
    if Value(f) % P == x % P {
      var k := CongWitness(Value(f), x, P);
      assert Shift(Value(f), x, k);
    }
  }

  // ---- Carrying ----

  method Reduce(limbs: Fe) returns (r: Fe)
    ensures Is(r, Value(limbs))
    ensures Value(r) == Value(limbs) - (limbs.l4 / TWO51) as int * P
    ensures Tight(r)
  {
    var l0, l1, l2, l3, l4 := limbs.l0, limbs.l1, limbs.l2, limbs.l3, limbs.l4;
    var c0 := l0 / TWO51;
    var c1 := l1 / TWO51;
    var c2 := l2 / TWO51;
    var c3 := l3 / TWO51;
    var c4 := l4 / TWO51;
    l0 := l0 % TWO51;
    l1 := l1 % TWO51;
    l2 := l2 % TWO51;
    l3 := l3 % TWO51;
    l4 := l4 % TWO51;
    l0 := l0 + c4 * 19;
    l1 := l1 + c0;
    l2 := l2 + c1;
    l3 := l3 + c2;
    l4 := l4 + c3;
    r := Fe(l0, l1, l2, l3, l4);
    assert Shift(Value(r), Value(limbs), -(c4 as int));
  }

  method Add(a: Fe, b: Fe) returns (r: Fe)
    requires a.l0 as int + b.l0 as int < 0x1_0000_0000_0000_0000
    requires a.l1 as int + b.l1 as int < 0x1_0000_0000_0000_0000
    requires a.l2 as int + b.l2 as int < 0x1_0000_0000_0000_0000
    requires a.l3 as int + b.l3 as int < 0x1_0000_0000_0000_0000
    requires a.l4 as int + b.l4 as int < 0x1_0000_0000_0000_0000
    ensures Value(r) == Value(a) + Value(b)
    ensures forall m, n :: Below(a, m) && Below(b, n) ==> Below(r, m + n - 1)
  {
    r := Fe(a.l0 + b.l0, a.l1 + b.l1, a.l2 + b.l2, a.l3 + b.l3, a.l4 + b.l4);
  }

  /** Subtraction adds 16 P first, so no limb underflows. */
  method Sub(a: Fe, b: Fe) returns (r: Fe)
    requires Below(a, 0xFF80_0000_0000_0000)
    requires b.l0 <= 36_028_797_018_963_664 && b.l1 <= 36_028_797_018_963_952 && b.l2 <= 36_028_797_018_963_952
    requires b.l3 <= 36_028_797_018_963_952 && b.l4 <= 36_028_797_018_963_952
    ensures Is(r, Value(a) - Value(b))
    ensures Tight(r)
  {
    var s := Fe((a.l0 + 36_028_797_018_963_664) - b.l0,
                (a.l1 + 36_028_797_018_963_952) - b.l1,
                (a.l2 + 36_028_797_018_963_952) - b.l2,
                (a.l3 + 36_028_797_018_963_952) - b.l3,
                (a.l4 + 36_028_797_018_963_952) - b.l4);
    assert Value(s) == (Value(a) - Value(b)) + 16 * P;
    r := Reduce(s);
    assert Shift(Value(r), Value(a) - Value(b), 16 - (s.l4 / TWO51) as int);
  }

  // ---- Constants (methods, so that callers see the number and not the limbs) ----

  method Zero() returns (z: Fe)
    ensures Value(z) == 0 && Below(z, 1)
  {
    z := Fe(0, 0, 0, 0, 0);
  }

  method One() returns (z: Fe)
    ensures Value(z) == 1 && Below(z, 2)
  {
    z := Fe(1, 0, 0, 0, 0);
  }

  method FromU64(x: u64) returns (z: Fe)
    ensures Value(z) == x as int && Below(z, x as int + 1)
  {
    z := Fe(x, 0, 0, 0, 0);
  }

  /** A square root of minus one. */
  const ROOT: int := 19681161376707505956807079304988542015446066515923890162744021073123829784752

  method SqrtM1() returns (z: Fe)
    ensures Value(z) == ROOT && Product(z)
  {
    z := Fe(1_718_705_420_411_056, 234_908_883_556_509, 2_233_514_472_574_048, 2_117_202_627_021_982,
      765_476_049_583_133);
  }

  lemma RootSquaredIsMinusOne()
    ensures (ROOT * ROOT) % P == P - 1
  {
  }

  method Neg(a: Fe) returns (r: Fe)
    requires a.l0 <= 36_028_797_018_963_664 && a.l1 <= 36_028_797_018_963_952 && a.l2 <= 36_028_797_018_963_952
    requires a.l3 <= 36_028_797_018_963_952 && a.l4 <= 36_028_797_018_963_952
    ensures Is(r, -Value(a))
    ensures Tight(r)
  {
    var zero := Zero();
    r := Sub(zero, a);
    ghost var k :| Shift(Value(r), Value(zero) - Value(a), k);
    assert Shift(Value(r), -Value(a), k);
  }

  // ---- Multiplication ----

  lemma ProductBelow(x: int, y: int, m: int, n: int)
    requires 0 <= x <= m && 0 <= y <= n
    ensures 0 <= x * y <= m * n
  {
    assert x * y <= m * y;
    assert m * y <= m * n;
  }

  /** The widening product of two words. */
  function Wide(x: u64, y: u64): (r: u128)
    ensures r as int == x as int * y as int
  {
    ProductBelow(x as int, y as int, 0xFFFF_FFFF_FFFF_FFFF, 0xFFFF_FFFF_FFFF_FFFF);
    (x as u128) * (y as u128)
  }

  /** The five column sums of the product, before any carry, with 2^255 folded to 19. */
  function Column(a: Fe, b: Fe, k: nat): int
    requires k < 5
  {
    var a0, a1, a2, a3, a4 := a.l0 as int, a.l1 as int, a.l2 as int, a.l3 as int, a.l4 as int;
    var b0, b1, b2, b3, b4 := b.l0 as int, b.l1 as int, b.l2 as int, b.l3 as int, b.l4 as int;
    if k == 0 then a0 * b0 + 19 * (a4 * b1 + a3 * b2 + a2 * b3 + a1 * b4)
    else if k == 1 then a1 * b0 + a0 * b1 + 19 * (a4 * b2 + a3 * b3 + a2 * b4)
    else if k == 2 then a2 * b0 + a1 * b1 + a0 * b2 + 19 * (a4 * b3 + a3 * b4)
    else if k == 3 then a3 * b0 + a2 * b1 + a1 * b2 + a0 * b3 + 19 * (a4 * b4)
    else a4 * b0 + a3 * b1 + a2 * b2 + a1 * b3 + a0 * b4
  }

  lemma Row(x: int, b: Fe)
    ensures x * Value(b) == x * b.l0 as int + 2251799813685248 * (x * b.l1 as int)
      + 5070602400912917605986812821504 * (x * b.l2 as int)
      + 11417981541647679048466287755595961091061972992 * (x * b.l3 as int)
      + 25711008708143844408671393477458601640355247900524685364822016 * (x * b.l4 as int)
  {
  }

  lemma Rows(a: Fe, y: int)
    ensures Value(a) * y == a.l0 as int * y + 2251799813685248 * (a.l1 as int * y)
      + 5070602400912917605986812821504 * (a.l2 as int * y)
      + 11417981541647679048466287755595961091061972992 * (a.l3 as int * y)
      + 25711008708143844408671393477458601640355247900524685364822016 * (a.l4 as int * y)
  {
  }

  ghost function Folding(a: Fe, b: Fe): int {
    var a1, a2, a3, a4 := a.l1 as int, a.l2 as int, a.l3 as int, a.l4 as int;
    var b1, b2, b3, b4 := b.l1 as int, b.l2 as int, b.l3 as int, b.l4 as int;
    (a4 * b1 + a3 * b2 + a2 * b3 + a1 * b4) + 2251799813685248 * (a4 * b2 + a3 * b3 + a2 * b4)
    + 5070602400912917605986812821504 * (a4 * b3 + a3 * b4)
      + 11417981541647679048466287755595961091061972992 * (a4 * b4)
  }

  /** The five columns as one number. */
  ghost function Columnwise(a: Fe, b: Fe): int {
    Column(a, b, 0) + 2251799813685248 * Column(a, b, 1) + 5070602400912917605986812821504 * Column(a, b, 2)
    + 11417981541647679048466287755595961091061972992 * Column(a, b, 3)
      + 25711008708143844408671393477458601640355247900524685364822016 * Column(a, b, 4)
  }

  /** The columns represent the product: the folded part is a multiple of P. */
  lemma ColumnsRepresentProduct(a: Fe, b: Fe)
    ensures Value(a) * Value(b) == Columnwise(a, b) + Folding(a, b) * P
  {
    Rows(a, Value(b));
    Row(a.l0 as int, b);
    Row(a.l1 as int, b);
    Row(a.l2 as int, b);
    Row(a.l3 as int, b);
    Row(a.l4 as int, b);
  }

  /** Carrying from limb to limb keeps the number, but for what leaves the top. */
  lemma CarriesCancel(r: Fe, x0: int, x1: int, x2: int, x3: int, x4: int, c0: int, c1: int, c2: int, c3: int, c4: int)
    requires x0 == 2251799813685248 * c0 + r.l0 as int
    requires x1 + c0 == 2251799813685248 * c1 + r.l1 as int
    requires x2 + c1 == 2251799813685248 * c2 + r.l2 as int
    requires x3 + c2 == 2251799813685248 * c3 + r.l3 as int
    requires x4 + c3 == 2251799813685248 * c4 + r.l4 as int
    ensures x0 + 2251799813685248 * x1 + 5070602400912917605986812821504 * x2
      + 11417981541647679048466287755595961091061972992 * x3
      + 25711008708143844408671393477458601640355247900524685364822016 * x4
      == Value(r) + 57896044618658097711785492504343953926634992332820282019728792003956564819968 * c4
  {
  }

  method Mul(a: Fe, b: Fe) returns (r: Fe)
    requires Loose(a) && Loose(b)
    ensures Is(r, Value(a) * Value(b))
    ensures Product(r)
  {
    hide Column, Folding;
    var c0, c1, c2, c3, c4 := Columns(a, b);
    ghost var x1, x2, x3, x4 := c1 as int, c2 as int, c3 as int, c4 as int;
    var out0, out1, out2, out3, out4: u64;
    c1 := c1 + c0 / TWO51 as u128;
    out0 := Low51(c0);
    c2 := c2 + c1 / TWO51 as u128;
    out1 := Low51(c1);
    c3 := c3 + c2 / TWO51 as u128;
    out2 := Low51(c2);
    c4 := c4 + c3 / TWO51 as u128;
    out3 := Low51(c3);
    var carry := (c4 / TWO51 as u128) as u64;
    out4 := Low51(c4);
    CarriesCancel(Fe(out0, out1, out2, out3, out4), c0 as int, x1, x2, x3, x4,
                  (c0 / TWO51 as u128) as int, (c1 / TWO51 as u128) as int, (c2 / TWO51 as u128) as int,
                  (c3 / TWO51 as u128) as int, carry as int);
    ghost var before := Value(Fe(out0, out1, out2, out3, out4));
    out0 := out0 + carry * 19;
    out1 := out1 + out0 / TWO51;
    out0 := out0 % TWO51;
    r := Fe(out0, out1, out2, out3, out4);
    ghost var columns := Columnwise(a, b);
    assert Value(r) == before + 19 * carry as int;
    assert columns == before
      + 57896044618658097711785492504343953926634992332820282019728792003956564819968 * carry as int;
    assert Value(r) == columns - carry as int * P;
    ColumnsRepresentProduct(a, b);
    assert Shift(Value(r), Value(a) * Value(b), -(carry as int) - Folding(a, b));
  }

  /** The low 51 bits of a wide word, through its low 64. */
  function Low51(c: u128): (r: u64)
    ensures r as int == c as int % TWO51 as int
  {
    (c % 0x1_0000_0000_0000_0000) as u64 % TWO51
  }

  /** A product of two loose limbs. */
  function Straight(x: u64, y: u64): (r: u128)
    requires x < 0x40_0000_0000_0000 && y < 0x40_0000_0000_0000
    ensures r as int == x as int * y as int && r < 324518553658426726783156020576256
  {
    ProductBelow(x as int, y as int, 0x3F_FFFF_FFFF_FFFF, 0x3F_FFFF_FFFF_FFFF);
    Wide(x, y)
  }

  /** A product whose weight passed 2^255: the right factor was already multiplied by 19. */
  function Folded(x: u64, y19: u64, ghost y: u64): (r: u128)
    requires x < 0x40_0000_0000_0000 && y < 0x40_0000_0000_0000 && y19 as int == 19 * y as int
    ensures r as int == 19 * (x as int * y as int) && r < 19 * 324518553658426726783156020576256
  {
    ProductBelow(x as int, y as int, 0x3F_FFFF_FFFF_FFFF, 0x3F_FFFF_FFFF_FFFF);
    Wide(x, y19)
  }

  method Columns(a: Fe, b: Fe) returns (c0: u128, c1: u128, c2: u128, c3: u128, c4: u128)
    requires Loose(a) && Loose(b)
    ensures c0 as int == Column(a, b, 0) && c1 as int == Column(a, b, 1) && c2 as int == Column(a, b, 2)
    ensures c3 as int == Column(a, b, 3) && c4 as int == Column(a, b, 4)
    ensures c0 as int < 77 * 324518553658426726783156020576256
      && c1 as int < 77 * 324518553658426726783156020576256 && c2 as int < 77 * 324518553658426726783156020576256
    ensures c3 as int < 77 * 324518553658426726783156020576256 && c4 as int < 5 * 324518553658426726783156020576256
  {
    var b1x19 := b.l1 * 19;
    var b2x19 := b.l2 * 19;
    var b3x19 := b.l3 * 19;
    var b4x19 := b.l4 * 19;
    c0 := Straight(a.l0, b.l0) + Folded(a.l4, b1x19, b.l1) + Folded(a.l3, b2x19, b.l2)
          + Folded(a.l2, b3x19, b.l3) + Folded(a.l1, b4x19, b.l4);
    c1 := Straight(a.l1, b.l0) + Straight(a.l0, b.l1) + Folded(a.l4, b2x19, b.l2)
          + Folded(a.l3, b3x19, b.l3) + Folded(a.l2, b4x19, b.l4);
    c2 := Straight(a.l2, b.l0) + Straight(a.l1, b.l1) + Straight(a.l0, b.l2)
          + Folded(a.l4, b3x19, b.l3) + Folded(a.l3, b4x19, b.l4);
    c3 := Straight(a.l3, b.l0) + Straight(a.l2, b.l1) + Straight(a.l1, b.l2)
          + Straight(a.l0, b.l3) + Folded(a.l4, b4x19, b.l4);
    c4 := Straight(a.l4, b.l0) + Straight(a.l3, b.l1) + Straight(a.l2, b.l2)
          + Straight(a.l1, b.l3) + Straight(a.l0, b.l4);
  }
}
