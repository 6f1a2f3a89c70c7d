/** Exponentiation by the fixed addition chain, on limbs. */
module FieldPowers {
  import opened Words
  import opened NumberTheory
  import opened FieldElement

  /** f represents x^e modulo P. */
  ghost predicate IsPower(f: Fe, x: int, e: nat) { Is(f, Pow(x, e)) }

  lemma IsSelf(f: Fe)
    ensures Is(f, Value(f))
  {
    assert Shift(Value(f), Value(f), 0);
  }

  lemma PowerSelf(f: Fe)
    ensures IsPower(f, Value(f), 1)
  {
    PowSmall(Value(f));
    IsSelf(f);
  }

  lemma ProductIs(r: Fe, f: Fe, x: int, g: Fe, y: int)
    requires Is(f, x) && Is(g, y) && Is(r, Value(f) * Value(g))
    ensures Is(r, x * y)
  {
    IsIff(f, x);
    IsIff(g, y);
    IsIff(r, Value(f) * Value(g));
    MulCong(Value(f), x, Value(g), y, P);
    IsIff(r, x * y);
  }

  lemma PowerOfProduct(r: Fe, f: Fe, m: nat, g: Fe, n: nat, x: int)
    requires IsPower(f, x, m) && IsPower(g, x, n) && Is(r, Value(f) * Value(g))
    ensures IsPower(r, x, m + n)
  {
    ProductIs(r, f, Pow(x, m), g, Pow(x, n));
    PowAdd(x, m, n);
  }

  /** Powers of a represented number. */
  lemma PowerOfIs(r: Fe, f: Fe, x: int, n: nat)
    requires Is(f, x) && IsPower(r, Value(f), n)
    ensures IsPower(r, x, n)
  {
    IsIff(f, x);
    IsIff(r, Pow(Value(f), n));
    PowCong(Value(f), x, n, P);
    IsIff(r, Pow(x, n));
  }

  lemma PowerOfPower(r: Fe, f: Fe, m: nat, n: nat, x: int)
    requires IsPower(f, x, m) && IsPower(r, Value(f), n)
    ensures m * n >= 0 && IsPower(r, x, m * n)
  {
    PowerOfIs(r, f, Pow(x, m), n);
    PowMul(x, m, n);
  }

  method Square(f: Fe) returns (r: Fe)
    requires Loose(f)
    ensures Is(r, Value(f) * Value(f)) && Product(r)
  {
    r := Mul(f, f);
  }

  /** k squarings: the power 2^k. */
  method Pow2k(f: Fe, k: u32) returns (r: Fe)
    requires Loose(f)
    ensures IsPower(r, Value(f), Exp2(k as nat))
    ensures Loose(r) && (k > 0 ==> Product(r))
  {
    r := f;
    PowerSelf(f);
    var i: u32 := 0;
    while i < k
      invariant i <= k && Loose(r) && (i > 0 ==> Product(r))
      invariant IsPower(r, Value(f), Exp2(i as nat))
    {
      ghost var before := r;
      r := Square(r);
      ghost var e := Exp2(i as nat);
      PowerOfProduct(r, before, e, before, e, Value(f));
      assert e + e == Exp2(i as nat + 1);
      i := i + 1;
    }
  }

  /** Squaring k times multiplies the exponent by q = 2^k. */
  method RaiseTwoToThe(f: Fe, k: u32, ghost x: int, ghost m: nat, ghost q: nat) returns (r: Fe)
    requires Loose(f) && IsPower(f, x, m) && k > 0 && q == Exp2(k as nat)
    ensures m * q >= 0 && IsPower(r, x, m * q) && Product(r)
  {
    r := Pow2k(f, k);
    PowerOfPower(r, f, m, q, x);
  }

  method MulPowers(f: Fe, g: Fe, ghost x: int, ghost m: nat, ghost n: nat) returns (r: Fe)
    requires Loose(f) && Loose(g) && IsPower(f, x, m) && IsPower(g, x, n)
    ensures IsPower(r, x, m + n) && Product(r)
  {
    r := Mul(f, g);
    PowerOfProduct(r, f, m, g, n, x);
  }

  lemma {:induction false} Exp2Add(m: nat, n: nat)
    ensures Exp2(m + n) == Exp2(m) * Exp2(n)
  {
    if m == 0 {
    } else {
      Exp2Add(m - 1, n);
      Associate(2, Exp2(m - 1), Exp2(n));
    }
  }

  lemma Exp2Of(m: nat, n: nat, p: int, q: int)
    requires Exp2(m) == p && Exp2(n) == q
    ensures Exp2(m + n) == p * q
  {
    Exp2Add(m, n);
  }

  lemma ChainExponents()
    ensures Exp2(2) == 4 && Exp2(5) == 32 && Exp2(10) == 1024 && Exp2(20) == 1048576
    ensures Exp2(50) == 1125899906842624 && Exp2(100) == 1267650600228229401496703205376
  {
    assert Exp2(2) == 4 && Exp2(5) == 32;
    Exp2Of(5, 5, 32, 32);
    Exp2Of(10, 10, 1024, 1024);
    Exp2Of(20, 20, 1048576, 1048576);
    Exp2Of(40, 10, 1099511627776, 1024);
    Exp2Of(50, 50, 1125899906842624, 1125899906842624);
  }

  /** x^(2^250 - 1) and x^11, by the ladder shared with inversion. */
  method Pow22501(x: Fe) returns (t19: Fe, t3: Fe)
    requires Loose(x)
    ensures IsPower(t19, Value(x), 1809251394333065553493296640760748560207343510400633813116524750123642650623)
      && Product(t19)
    ensures IsPower(t3, Value(x), 11) && Product(t3)
  {
    ghost var X := Value(x);
    PowerSelf(x);
    ChainExponents();
    var t0 := MulPowers(x, x, X, 1, 1);
    var t0s := MulPowers(t0, t0, X, 2, 2);
    var t1 := MulPowers(t0s, t0s, X, 4, 4);
    var t2 := MulPowers(x, t1, X, 1, 8);
    t3 := MulPowers(t0, t2, X, 2, 9);
    var t4 := MulPowers(t3, t3, X, 11, 11);
    var t5 := MulPowers(t2, t4, X, 9, 22);
    var t6 := RaiseTwoToThe(t5, 5, X, 31, 32);
    var t7 := MulPowers(t6, t5, X, 992, 31);
    var t8 := RaiseTwoToThe(t7, 10, X, 1023, 1024);
    var t9 := MulPowers(t8, t7, X, 1047552, 1023);
    var t10 := RaiseTwoToThe(t9, 20, X, 1048575, 1048576);
    var t11 := MulPowers(t10, t9, X, 1099510579200, 1048575);
    var t12 := RaiseTwoToThe(t11, 10, X, 1099511627775, 1024);
    var t13 := MulPowers(t12, t7, X, 1125899906841600, 1023);
    var t14 := RaiseTwoToThe(t13, 50, X, 1125899906842623, 1125899906842624);
    var t15 := MulPowers(t14, t13, X, 1267650600228228275596796362752, 1125899906842623);
    var t16 := RaiseTwoToThe(t15, 100, X, 1267650600228229401496703205375, 1267650600228229401496703205376);
    var t17 := MulPowers(t16, t15, X, 1606938044258990275541962092339894951921974764381296132096000,
      1267650600228229401496703205375);
    var t18 := RaiseTwoToThe(t17, 50, X, 1606938044258990275541962092341162602522202993782792835301375,
      1125899906842624);
    t19 := MulPowers(t18, t13, X, 1809251394333065553493296640760748560207343510400633813116523624223735808000,
      1125899906842623);
  }

  /** x^(P-2). */
  method Invert(x: Fe) returns (r: Fe)
    requires Loose(x)
    ensures IsPower(r, Value(x), P - 2) && Product(r)
  {
    ghost var X := Value(x);
    ChainExponents();
    var t19, t3 := Pow22501(x);
    var t20 := RaiseTwoToThe(t19, 5, X, 1809251394333065553493296640760748560207343510400633813116524750123642650623,
      32);
    r := MulPowers(t20, t3, X, 57896044618658097711785492504343953926634992332820282019728792003956564819936, 11);
  }

  /** x^((P-5)/8). */
  method PowP58(x: Fe) returns (r: Fe)
    requires Loose(x)
    ensures IsPower(r, Value(x), K) && Product(r)
  {
    ghost var X := Value(x);
    ChainExponents();
    var t19, _ := Pow22501(x);
    var t20 := RaiseTwoToThe(t19, 2, X, 1809251394333065553493296640760748560207343510400633813116524750123642650623,
      4);
    PowerSelf(x);
    r := MulPowers(x, t20, X, 1, 7237005577332262213973186563042994240829374041602535252466099000494570602492);
  }

  /** Invert yields the multiplicative inverse of every element but zero. */
  lemma InvertInverts(x: Fe, r: Fe)
    requires Prime(P) && IsPower(r, Value(x), P - 2) && Value(x) % P != 0
    ensures (Value(x) * Value(r)) % P == 1
  {
    var v := Value(x);
    IsIff(r, Pow(v, P - 2));
    MulCong(v, v, Value(r), Pow(v, P - 2), P);
    Fermat(P, v);
  }
}
