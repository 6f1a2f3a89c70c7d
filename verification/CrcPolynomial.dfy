/** The checksum as a remainder of polynomials over the two-element field. */
module CrcPolynomial {
  import opened Words
  import opened Crc

  // Polynomials are bit strings, highest power first; the first bit of a message is its highest power.
  // A divisor of degree |g| is given by its coefficients g below the leading 1.

  function Zeros(n: nat): (z: seq<bool>)
    ensures |z| == n
  {
    seq(n, i => false)
  }

  function Ones(n: nat): (z: seq<bool>)
    ensures |z| == n
  {
    seq(n, i => true)
  }

  /** Adding g to the |g| leading coefficients of m. */
  function AddLeading(m: seq<bool>, g: seq<bool>): (r: seq<bool>)
    requires |g| <= |m|
    ensures |r| == |m|
  {
    Difference(m[..|g|], g) + m[|g|..]
  }

  /** One step of long division: cancel the leading coefficient and drop it. */
  function Cancel(m: seq<bool>, g: seq<bool>): (r: seq<bool>)
    requires |m| > |g|
    ensures |r| == |m| - 1
  {
    if m[0] then AddLeading(m[1..], g) else m[1..]
  }

  function Remainder(m: seq<bool>, g: seq<bool>): (r: seq<bool>)
    requires |m| >= |g|
    ensures |r| == |g|
    decreases |m|
  {
    if |m| == |g| then m else Remainder(Cancel(m, g), g)
  }

  function Quotient(m: seq<bool>, g: seq<bool>): (q: seq<bool>)
    requires |m| >= |g|
    ensures |q| == |m| - |g|
    decreases |m|
  {
    if |m| == |g| then [] else [m[0]] + Quotient(Cancel(m, g), g)
  }

  /** The product of q and the divisor. */
  function Multiple(q: seq<bool>, g: seq<bool>): (p: seq<bool>)
    ensures |p| == |q| + |g|
    decreases |q|
  {
    if q == [] then Zeros(|g|)
    else if q[0] then AddLeading([false] + Multiple(q[1..], g), [true] + g)
    else [false] + Multiple(q[1..], g)
  }

  /** m is q times the divisor plus r, and r has smaller degree. */
  ghost predicate Divides(m: seq<bool>, g: seq<bool>, q: seq<bool>, r: seq<bool>) {
    |r| == |g| && |m| == |q| + |g| && m == Difference(Multiple(q, g), Zeros(|q|) + r)
  }

  lemma DifferenceCons(m: seq<bool>, a: seq<bool>, b: seq<bool>)
    requires |m| == |a| == |b| > 0
    ensures m == Difference(a, b) <==> m[0] == (a[0] != b[0]) && m[1..] == Difference(a[1..], b[1..])
  {
    var d := Difference(a, b);
    assert d[1..] == Difference(a[1..], b[1..]);
    assert m == [m[0]] + m[1..] && d == [d[0]] + d[1..];
  }

  lemma AddLeadingCons(x: bool, m: seq<bool>, y: bool, g: seq<bool>)
    requires |g| <= |m|
    ensures AddLeading([x] + m, [y] + g) == [x != y] + AddLeading(m, g)
  {
    var l, r := AddLeading([x] + m, [y] + g), AddLeading(m, g);
    forall i | 0 < i < |l| ensures l[i] == r[i - 1] {
      assert ([x] + m)[i] == m[i - 1];
      if i <= |g| { assert ([y] + g)[i] == g[i - 1]; }
    }
  }

  /** Adding g on one side of an equation is adding it on the other. */
  lemma AddTwice(p: seq<bool>, g: seq<bool>, t: seq<bool>, m: seq<bool>)
    requires |g| <= |p| == |t| == |m|
    ensures m == Difference(AddLeading(p, g), t) <==> AddLeading(m, g) == Difference(p, t)
  {
    var a, b := Difference(AddLeading(p, g), t), Difference(p, t);
    var c := AddLeading(m, g);
    forall i | 0 <= i < |m| ensures m[i] == a[i] <==> c[i] == b[i] {
      if i < |g| {
        assert AddLeading(p, g)[i] == (p[i] != g[i]) && c[i] == (m[i] != g[i]);
      } else {
        assert AddLeading(p, g)[i] == p[i] && c[i] == m[i];
      }
    }
    if c == b {
      assert forall i :: 0 <= i < |m| ==> m[i] == a[i];
    }
    if m == a {
      assert forall i :: 0 <= i < |m| ==> c[i] == b[i];
    }
  }

  lemma DividesStep(m: seq<bool>, g: seq<bool>, q: seq<bool>, r: seq<bool>)
    requires |r| == |g| && |m| == |q| + |g| && |q| > 0
    ensures Divides(m, g, q, r) <==> q[0] == m[0] && Divides(Cancel(m, g), g, q[1..], r)
  {
    var p := Multiple(q[1..], g);
    var tail, rest := Zeros(|q|) + r, Zeros(|q| - 1) + r;
    assert tail[1..] == rest;
    DifferenceCons(m, Multiple(q, g), tail);
    if q[0] {
      AddLeadingCons(false, p, true, g);
      assert Multiple(q, g)[1..] == AddLeading(p, g);
      AddTwice(p, g, rest, m[1..]);
    } else {
      assert Multiple(q, g)[1..] == p;
    }
  }

  /** Quotient and remainder exist and are the only ones. */
  lemma {:induction false} DivisionUnique(m: seq<bool>, g: seq<bool>, q: seq<bool>, r: seq<bool>)
    requires |m| >= |g|
    ensures Divides(m, g, q, r) <==> q == Quotient(m, g) && r == Remainder(m, g)
    decreases |m|
  {
    if |r| == |g| && |m| == |q| + |g| {
      if q == [] {
        assert Difference(Zeros(|g|), Zeros(0) + r) == r;
      } else {
        DividesStep(m, g, q, r);
        DivisionUnique(Cancel(m, g), g, q[1..], r);
        assert q == [q[0]] + q[1..];
      }
    }
  }

  ghost predicate IsRemainder(m: seq<bool>, g: seq<bool>, r: seq<bool>) {
    exists q :: Divides(m, g, q, r)
  }

  lemma RemainderIsUnique(m: seq<bool>, g: seq<bool>, r: seq<bool>)
    requires |m| >= |g|
    ensures IsRemainder(m, g, r) <==> r == Remainder(m, g)
  {
    DivisionUnique(m, g, Quotient(m, g), Remainder(m, g));
    forall q ensures Divides(m, g, q, r) ==> r == Remainder(m, g) { DivisionUnique(m, g, q, r); }
  }

  lemma AddLeadingTwice(m: seq<bool>, p: seq<bool>, q: seq<bool>)
    requires |p| == |q| <= |m|
    ensures AddLeading(AddLeading(m, p), q) == AddLeading(m, Difference(p, q))
  {
    var a, b := AddLeading(AddLeading(m, p), q), AddLeading(m, Difference(p, q));
    forall i | 0 <= i < |m| ensures a[i] == b[i] {
      if i < |p| { assert AddLeading(m, p)[i] == (m[i] != p[i]); }
    }
  }

  lemma AddToZeros(p: seq<bool>)
    ensures AddLeading(Zeros(|p|), p) == p
  {
  }

  /** The dividend's leading coefficient gone, the rest carries the shifted summand. */
  lemma DropLeading(bits: seq<bool>, b: bool, rest: seq<bool>)
    requires 0 < |bits| <= |rest|
    ensures AddLeading([b] + rest, bits) == [b != bits[0]] + AddLeading(rest, bits[1..] + [false])
  {
    var half := bits[1..] + [false];
    var m, t := AddLeading([b] + rest, bits), AddLeading(rest, half);
    forall i | 0 < i < |m| ensures m[i] == t[i - 1] {
      assert ([b] + rest)[i] == rest[i - 1];
      if i < |bits| {
        assert half[i - 1] == bits[i];
      } else {
        assert i == |bits| ==> half[i - 1] == false;
      }
    }
  }

  // ---- The bits of a register ----

  lemma BitsCons(h: nat, b: bool, k: nat)
    ensures Bits(Bit(b) + 2 * h, k + 1) == [b] + Bits(h, k)
  {
  }

  lemma {:induction false} BitsOfXor(x: nat, y: nat, k: nat)
    ensures Bits(BitXor(x, y), k) == Difference(Bits(x, k), Bits(y, k))
    decreases k
  {
    if k == 0 {
    } else {
      XorHalf(x, y);
      XorParity(x, y);
      BitsOfXor(x / 2, y / 2, k - 1);
      var a, b, c := Bits(x / 2, k - 1), Bits(y / 2, k - 1), Bits(BitXor(x, y) / 2, k - 1);
      assert Bits(x, k) == [x % 2 == 1] + a && Bits(y, k) == [y % 2 == 1] + b;
      assert Bits(BitXor(x, y), k) == [BitXor(x, y) % 2 == 1] + c;
    }
  }

  lemma {:induction false} BitsOfHalf(x: nat, k: nat)
    requires k > 0 && x < Exp2(k)
    ensures Bits(x / 2, k) == Bits(x, k)[1..] + [false]
    decreases k
  {
    if k == 1 {
    } else {
      BitsOfHalf(x / 2, k - 1);
      assert Bits(x, k) == [x % 2 == 1] + Bits(x / 2, k - 1);
      assert Bits(x / 2, k) == [x / 2 % 2 == 1] + Bits(x / 2 / 2, k - 1);
      assert Bits(x / 2, k - 1) == [x / 2 % 2 == 1] + Bits(x / 2 / 2, k - 2);
    }
  }

  lemma {:induction false} BitsOfZero(k: nat)
    ensures Bits(0, k) == Zeros(k)
  {
    if k == 0 {
    } else {
      BitsOfZero(k - 1);
    }
  }

  lemma {:induction false} AllOnesBits(k: nat)
    ensures Bits(Exp2(k) - 1, k) == Ones(k)
    decreases k
  {
    if k == 0 {
    } else {
      AllOnesBits(k - 1);
      BitsCons(Exp2(k - 1) - 1, true, k - 1);
    }
  }

  // ---- The shift register divides ----

  lemma InjectBit(r: nat, b: bool, k: nat)
    requires r < Exp2(k) && k > 0
    ensures BitXor(r, Bit(b)) / 2 == r / 2 && BitXor(r, Bit(b)) < Exp2(k)
    ensures (BitXor(r, Bit(b)) % 2 == 1) == (b != Bits(r, k)[0])
  {
    XorHalf(r, Bit(b));
    XorParity(r, Bit(b));
    XorZero(r / 2);
    XorBound(r, Bit(b), k);
  }

  lemma BitsOfStep(y: nat, k: nat)
    requires y < Exp2(k) && k > 0
    ensures Bits(Step(y), k) == Difference(Bits(y, k)[1..] + [false], if y % 2 == 1 then Bits(POLY, k) else Zeros(k))
  {
    BitsOfHalf(y, k);
    BitsOfXor(y / 2, Feedback(y % 2 == 1), k);
    BitsOfZero(k);
  }

  /** Shifting the register is one cancellation of the dividend. */
  lemma StepCancels(r: nat, b: bool, rest: seq<bool>, k: nat)
    requires r < Exp2(k) && 0 < k <= |rest|
    ensures Cancel(AddLeading([b] + rest, Bits(r, k)), Bits(POLY, k))
      == AddLeading(rest, Bits(Step(BitXor(r, Bit(b))), k))
  {
    var y := BitXor(r, Bit(b));
    var half := Bits(r, k)[1..] + [false];
    InjectBit(r, b, k);
    BitsOfHalf(r, k);
    BitsOfHalf(y, k);
    BitsOfStep(y, k);
    DropLeading(Bits(r, k), b, rest);
    AddLeadingTwice(rest, half, Bits(POLY, k));
    assert Difference(half, Zeros(k)) == half;
    assert ([b != Bits(r, k)[0]] + AddLeading(rest, half))[1..] == AddLeading(rest, half);
  }

  /** Taking in one bit leaves the remainder of the dividend unchanged. */
  lemma StepKeepsRemainder(r: nat, b: bool, rest: seq<bool>, k: nat)
    requires r < Exp2(k) && 0 < k <= |rest|
    ensures Remainder(AddLeading([b] + rest, Bits(r, k)), Bits(POLY, k))
      == Remainder(AddLeading(rest, Bits(Step(BitXor(r, Bit(b))), k)), Bits(POLY, k))
  {
    StepCancels(r, b, rest, k);
  }

  lemma NextInRange(r: nat, b: bool, k: nat)
    requires Exp2(k) == WIDTH && r < WIDTH && k > 0
    ensures Step(BitXor(r, Bit(b))) < WIDTH
  {
    InjectBit(r, b, k);
    StepBound(BitXor(r, Bit(b)));
  }

  /** The register after a message is the remainder of the message times x^32 with the start added on top. */
  lemma {:induction false} RegisterIsRemainder(r: nat, bits: seq<bool>, k: nat)
    requires r < WIDTH && k > 0 && Exp2(k) == WIDTH
    ensures Bits(FeedBits(r, bits), k) == Remainder(AddLeading(bits + Zeros(k), Bits(r, k)), Bits(POLY, k))
    decreases |bits|
  {
    if bits == [] {
      assert bits + Zeros(k) == Zeros(k);
      AddToZeros(Bits(r, k));
    } else {
      NextInRange(r, bits[0], k);
      RegisterIsRemainder(Step(BitXor(r, Bit(bits[0]))), bits[1..], k);
      StepKeepsRemainder(r, bits[0], bits[1..] + Zeros(k), k);
      assert bits + Zeros(k) == [bits[0]] + (bits[1..] + Zeros(k));
    }
  }

  /** The divisor is the IEEE 802.3 generator
      x^32 + x^26 + x^23 + x^22 + x^16 + x^12 + x^11 + x^10 + x^8 + x^7 + x^5 + x^4 + x^2 + x + 1,
      the power p standing at bit 31 - p. */
  lemma DivisorIsIeeeGenerator()
    ensures POLY
      == Exp2(31 - 26) + Exp2(31 - 23) + Exp2(31 - 22) + Exp2(31 - 16) + Exp2(31 - 12) + Exp2(31 - 11) + Exp2(31 - 10)
       + Exp2(31 - 8) + Exp2(31 - 7) + Exp2(31 - 5) + Exp2(31 - 4) + Exp2(31 - 2) + Exp2(31 - 1) + Exp2(31 - 0)
  {
    assert Exp2(5) == 0x20 && Exp2(8) == 0x100 && Exp2(9) == 0x200;
    assert Exp2(15) == 0x8000 && Exp2(19) == 0x8_0000 && Exp2(20) == 0x10_0000 && Exp2(21) == 0x20_0000;
    assert Exp2(23) == 0x80_0000 && Exp2(24) == 0x100_0000 && Exp2(26) == 0x400_0000 && Exp2(27) == 0x800_0000;
    assert Exp2(29) == 0x2000_0000 && Exp2(30) == 0x4000_0000 && Exp2(31) == 0x8000_0000;
  }

  /** The message times x^32 with its first 32 coefficients inverted. */
  function Dividend(data: seq<u8>, k: nat): (m: seq<bool>)
    ensures |m| >= k
  {
    AddLeading(MessageBits(data) + Zeros(k), Ones(k))
  }

  lemma InitialRegister(k: nat)
    requires k == 32
    ensures Bits(ONES, k) == Ones(k)
  {
    WidthIsExp2();
    AllOnesBits(k);
  }

  lemma CrcIsRemainderAt(data: seq<u8>, r: seq<bool>, k: nat)
    requires k == 32
    ensures IsRemainder(Dividend(data, k), Bits(POLY, k), r) <==> r == Bits(ONES - Checksum(data) as nat, k)
  {
    WidthIsExp2();
    FeedBytesBound(ONES, data);
    FeedBytesAreFeedBits(ONES, data);
    InitialRegister(k);
    RegisterIsRemainder(ONES, MessageBits(data), k);
    RemainderIsUnique(Dividend(data, k), Bits(POLY, k), r);
  }

  /** The complemented checksum is the one remainder of degree below 32 of the dividend by the generator. */
  lemma CrcIsRemainder(data: seq<u8>, r: seq<bool>)
    ensures IsRemainder(Dividend(data, 32), Bits(POLY, 32), r) <==> r == Bits(ONES - Checksum(data) as nat, 32)
  {
    CrcIsRemainderAt(data, r, 32);
  }
}
