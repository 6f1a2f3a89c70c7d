/** Packing field elements into 32 little-endian bytes and back. */
module FieldBytes {
  import opened Words
  import opened NumberTheory
  import opened FieldElement

  // ---- Decoding ----

  lemma {:induction false} Exp256Add(m: nat, n: nat)
    ensures Exp256(m + n) == Exp256(m) * Exp256(n)
  {
    if m == 0 {
    } else {
      Exp256Add(m - 1, n);
      Associate(256, Exp256(m - 1), Exp256(n));
    }
  }

  lemma Exp256Of(m: nat, n: nat, p: int, q: int)
    requires Exp256(m) == p && Exp256(n) == q
    ensures Exp256(m + n) == p * q
  {
    Exp256Add(m, n);
  }

  /** Eight bytes read as one little-endian word. */
  function Load8(b: seq<u8>, i: nat): (w: u64)
    requires i + 8 <= |b|
    ensures w as int == LESlice(b, i, 8)
  {
    LESliceBound(b, i, 8);
    assert Exp256(8) == 0x1_0000_0000_0000_0000;
    LESlice(b, i, 8) as u64
  }

  /** The word at byte i is the number above bit 8i, cut to 64 bits. */
  lemma LoadIsWindow(b: seq<u8>, i: nat, a: int)
    requires i + 8 <= |b| && a == Exp256(i)
    ensures exists part: int, above: nat {:trigger LoadSplit(b, i, a, part, above)} :: LoadSplit(b, i, a, part, above)
  {
    assert Exp256(8) == 0x1_0000_0000_0000_0000;
    hide LEFrom, LESlice, Exp256;
    LESplit(b, 0, i);
    LESliceBound(b, 0, i);
    LESplit(b, i, 8);
    var above := LEFrom(b, i + 8);
    SameProduct(a, LEFrom(b, i), Load8(b, i) as int + 0x1_0000_0000_0000_0000 * above);
    assert LoadSplit(b, i, a, LESlice(b, 0, i), above);
  }

  lemma SameProduct(a: int, x: int, y: int)
    requires x == y
    ensures a * x == a * y
  {
  }

  ghost predicate LoadSplit(b: seq<u8>, i: nat, a: int, part: int, above: nat)
    requires i + 8 <= |b|
  {
    0 <= part < a && LE(b) == part + a * (Load8(b, i) as int + 0x1_0000_0000_0000_0000 * above)
  }

  lemma Limb0Window(b: seq<u8>)
    requires |b| == 32
    ensures (Load8(b, 0) as int / 1) % 2251799813685248 == (LE(b) / 1) % 2251799813685248
  {
    assert Exp256(0) == 1;
    LoadIsWindow(b, 0, 1);
    var part: int, above: nat :| LoadSplit(b, 0, 1, part, above);
    var w, n := Load8(b, 0) as int, LE(b);
    var q, r := w / 1, w % 1;
    assert n == (part + 1 * r) + 1 * (q + 18446744073709551616 * above);
    assert n / 1 == q + 18446744073709551616 * above;
    ModShift(q, 8192 * above, 2251799813685248);
  }

  lemma Limb1Window(b: seq<u8>)
    requires |b| == 32
    ensures (Load8(b, 6) as int / 8) % 2251799813685248 == (LE(b) / 2251799813685248) % 2251799813685248
  {
    assert Exp256(6) == 281474976710656;
    LoadIsWindow(b, 6, 281474976710656);
    var part: int, above: nat :| LoadSplit(b, 6, 281474976710656, part, above);
    var w, n := Load8(b, 6) as int, LE(b);
    var q, r := w / 8, w % 8;
    assert n == (part + 281474976710656 * r) + 2251799813685248 * (q + 2305843009213693952 * above);
    assert n / 2251799813685248 == q + 2305843009213693952 * above;
    ModShift(q, 1024 * above, 2251799813685248);
  }

  lemma Limb2Window(b: seq<u8>)
    requires |b| == 32
    ensures (Load8(b, 12) as int / 64) % 2251799813685248
      == (LE(b) / 5070602400912917605986812821504) % 2251799813685248
  {
    assert Exp256(12) == 79228162514264337593543950336;
    LoadIsWindow(b, 12, 79228162514264337593543950336);
    var part: int, above: nat :| LoadSplit(b, 12, 79228162514264337593543950336, part, above);
    var w, n := Load8(b, 12) as int, LE(b);
    var q, r := w / 64, w % 64;
    assert n == (part + 79228162514264337593543950336 * r)
      + 5070602400912917605986812821504 * (q + 288230376151711744 * above);
    assert n / 5070602400912917605986812821504 == q + 288230376151711744 * above;
    ModShift(q, 128 * above, 2251799813685248);
  }

  lemma Limb3Window(b: seq<u8>)
    requires |b| == 32
    ensures (Load8(b, 19) as int / 2) % 2251799813685248
      == (LE(b) / 11417981541647679048466287755595961091061972992) % 2251799813685248
  {
    assert Exp256(8) == 18446744073709551616;
    Exp256Of(8, 8, 18446744073709551616, 18446744073709551616);
    Exp256Of(16, 3, 340282366920938463463374607431768211456, 16777216);
    LoadIsWindow(b, 19, 5708990770823839524233143877797980545530986496);
    var part: int, above: nat :| LoadSplit(b, 19, 5708990770823839524233143877797980545530986496, part, above);
    var w, n := Load8(b, 19) as int, LE(b);
    var q, r := w / 2, w % 2;
    assert n == (part + 5708990770823839524233143877797980545530986496 * r)
      + 11417981541647679048466287755595961091061972992 * (q + 9223372036854775808 * above);
    assert n / 11417981541647679048466287755595961091061972992 == q + 9223372036854775808 * above;
    ModShift(q, 4096 * above, 2251799813685248);
  }

  lemma Limb4Window(b: seq<u8>)
    requires |b| == 32
    ensures (Load8(b, 24) as int / 4096) % 2251799813685248
      == (LE(b) / 25711008708143844408671393477458601640355247900524685364822016) % 2251799813685248
  {
    assert Exp256(8) == 18446744073709551616;
    Exp256Of(8, 8, 18446744073709551616, 18446744073709551616);
    Exp256Of(16, 8, 340282366920938463463374607431768211456, 18446744073709551616);
    LoadIsWindow(b, 24, 6277101735386680763835789423207666416102355444464034512896);
    var part: int, above: nat :| LoadSplit(b, 24, 6277101735386680763835789423207666416102355444464034512896, part,
      above);
    var w, n := Load8(b, 24) as int, LE(b);
    var q, r := w / 4096, w % 4096;
    assert n == (part + 6277101735386680763835789423207666416102355444464034512896 * r)
      + 25711008708143844408671393477458601640355247900524685364822016 * (q + 4503599627370496 * above);
    assert n / 25711008708143844408671393477458601640355247900524685364822016 == q + 4503599627370496 * above;
    ModShift(q, 2 * above, 2251799813685248);
  }

  /** A number below bit 255 is the sum of its five 51-bit digits. */
  lemma FiveDigits(n: int)
    requires n >= 0
    ensures n % 57896044618658097711785492504343953926634992332820282019728792003956564819968
      == n % 2251799813685248 + 2251799813685248 * ((n / 2251799813685248) % 2251799813685248)
      + 5070602400912917605986812821504 * ((n / 5070602400912917605986812821504) % 2251799813685248)
      + 11417981541647679048466287755595961091061972992
        * ((n / 11417981541647679048466287755595961091061972992) % 2251799813685248)
      + 25711008708143844408671393477458601640355247900524685364822016
        * ((n / 25711008708143844408671393477458601640355247900524685364822016) % 2251799813685248)
  {
    var q1, q2, q3, q4, q5 := n / 2251799813685248, n / 5070602400912917605986812821504,
      n / 11417981541647679048466287755595961091061972992,
      n / 25711008708143844408671393477458601640355247900524685364822016,
      n / 57896044618658097711785492504343953926634992332820282019728792003956564819968;
    assert q2 == q1 / 2251799813685248;
    assert q3 == q2 / 2251799813685248;
    assert q4 == q3 / 2251799813685248;
    assert q5 == q4 / 2251799813685248;
  }

  /** Decoding drops the top bit: the value is the number spelt, modulo 2^255. */
  method FromBytes(bytes: seq<u8>) returns (f: Fe)
    requires |bytes| == 32
    ensures Value(f) == LE(bytes) % 57896044618658097711785492504343953926634992332820282019728792003956564819968
    ensures Below(f, 0x8_0000_0000_0000)
  {
    f := Fe(Load8(bytes, 0) % TWO51,
            (Load8(bytes, 6) / 8) % TWO51,
            (Load8(bytes, 12) / 64) % TWO51,
            (Load8(bytes, 19) / 2) % TWO51,
            (Load8(bytes, 24) / 4096) % TWO51);
    Limb0Window(bytes);
    Limb1Window(bytes);
    Limb2Window(bytes);
    Limb3Window(bytes);
    Limb4Window(bytes);
    FiveDigits(LE(bytes));
  }

  // ---- Encoding ----

  /** Left shift of a word, dropping the bits that leave it. */
  function Shl(x: u64, m: u64): (r: u64)
    requires m > 0
    ensures x as int * m as int < 0x1_0000_0000_0000_0000 ==> r as int == x as int * m as int
  {
    ProductBelow(x as int, m as int, 0xFFFF_FFFF_FFFF_FFFF, 0xFFFF_FFFF_FFFF_FFFF);
    ((x as int * m as int) % 0x1_0000_0000_0000_0000) as u64
  }

  function Or(x: u64, y: u64): nat { BitOr(x as nat, y as nat) }

  function Byte(x: u64): u8 { (x % 256) as u8 }

  function ByteOf(x: nat): u8 { (x % 256) as u8 }

  /** A byte shared by two limbs: the top k bits x of one, then low bits of the next limb y. */
  lemma SharedByte(x: u64, y: u64, k: nat, m: u64, h: u64)
    requires x as int < Exp2(k) && m as int == Exp2(k) && y < TWO51 && m <= 64
    requires h > 0 && m as int * h as int == 256
    ensures ByteOf(Or(x, Shl(y, m))) as int == x as int + m as int * (y as int % h as int)
  {
    ProductBelow(y as int, m as int, 0x7_FFFF_FFFF_FFFF, 64);
    BitOrDisjoint(x as nat, y as nat, k);
    LowBits(x as int, y as int, m as int, h as int);
  }

  lemma LowBits(x: int, y: int, m: int, h: int)
    requires 0 <= x < m && h > 0 && m * h == 256
    ensures (x + m * y) % 256 == x + m * (y % h)
  {
    var t, r := y / h, y % h;
    assert m * (h * t + r) == (m * h) * t + m * r;
    ProductBelow(r, m, h - 1, m);
    assert (h - 1) * m == 256 - m;
    RemainderUnique(x + m * y, t, x + m * r, 256);
  }

  lemma LESix(b: seq<u8>)
    requires |b| == 6
    ensures LE(b) == b[0] as int + 256 * b[1] as int + 65536 * b[2] as int + 16777216 * b[3] as int
      + 4294967296 * b[4] as int + 1099511627776 * b[5] as int
  {
    assert LEFrom(b, 5) == b[5] as int + 256 * LEFrom(b, 6);
    assert LEFrom(b, 4) == b[4] as int + 256 * LEFrom(b, 5);
    assert LEFrom(b, 2) == b[2] as int + 256 * LEFrom(b, 3);
    assert LEFrom(b, 0) == b[0] as int + 256 * LEFrom(b, 1);
  }

  lemma LESeven(b: seq<u8>)
    requires |b| == 7
    ensures LE(b) == b[0] as int + 256 * b[1] as int + 65536 * b[2] as int + 16777216 * b[3] as int
      + 4294967296 * b[4] as int + 1099511627776 * b[5] as int + 281474976710656 * b[6] as int
  {
    assert LEFrom(b, 5) == b[5] as int + 256 * LEFrom(b, 6);
    assert LEFrom(b, 3) == b[3] as int + 256 * LEFrom(b, 4);
    assert LEFrom(b, 1) == b[1] as int + 256 * LEFrom(b, 2);
  }

  lemma ShiftTwice(l: u64, m: int, n: int, mn: u64)
    requires m > 0 && n > 0 && mn as int == m * n
    ensures (l / mn) as int == l as int / m / n
  {
    var x := l as int;
    var q, r := x / m, x % m;
    var q', r' := q / n, q % n;
    assert x == m * (n * q' + r') + r;
    assert m * (n * q' + r') == q' * (m * n) + m * r';
    ProductBelow(r', m, n - 1, m);
    assert (n - 1) * m == m * n - m;
    RemainderUnique(x, q', m * r' + r, m * n);
  }

  /** Base-256 digits of a number. */
  lemma ShiftedByte(l: u64, m: int, n: int, mn: u64)
    requires m > 0 && n > 0 && mn as int == m * n && mn > 0
    ensures Byte(l / mn) as int == l as int / m / n % 256
  {
    ShiftTwice(l, m, n, mn);
  }

  lemma SixBytes(x: int)
    requires x >= 0
    ensures x == x % 256 + 256 * ((x / 256) % 256) + 65536 * ((x / 65536) % 256) + 16777216 * ((x / 16777216) % 256)
                 + 4294967296 * ((x / 4294967296) % 256) + 1099511627776 * ((x / 1099511627776) % 256)
                   + 281474976710656 * (x / 281474976710656)
  {
    assert x / 65536 == x / 256 / 256;
    assert x / 16777216 == x / 65536 / 256;
    assert x / 4294967296 == x / 16777216 / 256;
    assert x / 1099511627776 == x / 4294967296 / 256;
    assert x / 281474976710656 == x / 1099511627776 / 256;
  }

  lemma FiveBytes(x: int)
    requires x >= 0
    ensures x == x % 256 + 256 * ((x / 256) % 256) + 65536 * ((x / 65536) % 256) + 16777216 * ((x / 16777216) % 256)
                 + 4294967296 * ((x / 4294967296) % 256) + 1099511627776 * (x / 1099511627776)
  {
    assert x / 65536 == x / 256 / 256;
    assert x / 16777216 == x / 65536 / 256;
    assert x / 4294967296 == x / 16777216 / 256;
    assert x / 1099511627776 == x / 4294967296 / 256;
  }

  /** Bytes 0 to 6 of the encoding. */
  function Group0(l0: u64, l1: u64): (s: seq<u8>)
    ensures |s| == 7
  {
    [Byte(l0), Byte(l0 / 256), Byte(l0 / 65536), Byte(l0 / 16777216), Byte(l0 / 4294967296),
      Byte(l0 / 1099511627776), ByteOf(Or(l0 / 281474976710656, Shl(l1, 8)))]
  }

  lemma Group0Value(l0: u64, l1: u64)
    requires l0 < TWO51 && l1 < TWO51
    ensures LE(Group0(l0, l1)) == l0 as int + 2251799813685248 * (l1 as int % 32)
  {
    var s := Group0(l0, l1);
    LESeven(s);
    SixBytes(l0 as int);
    SharedByte(l0 / 281474976710656, l1, 3, 8, 32);
  }

  /** Bytes 7 to 12 of the encoding. */
  function Group1(l1: u64, l2: u64): (s: seq<u8>)
    ensures |s| == 6
  {
    [Byte(l1 / 32), Byte(l1 / 8192), Byte(l1 / 2097152), Byte(l1 / 536870912), Byte(l1 / 137438953472),
      ByteOf(Or(l1 / 35184372088832, Shl(l2, 64)))]
  }

  lemma Group1Value(l1: u64, l2: u64)
    requires l1 < TWO51 && l2 < TWO51
    ensures LE(Group1(l1, l2)) == l1 as int / 32 + 70368744177664 * (l2 as int % 4)
  {
    var s := Group1(l1, l2);
    LESix(s);
    var x := l1 as int / 32;
    ShiftTwice(l1, 32, 256, 8192);
    ShiftTwice(l1, 32, 65536, 2097152);
    ShiftTwice(l1, 32, 16777216, 536870912);
    ShiftTwice(l1, 32, 4294967296, 137438953472);
    ShiftTwice(l1, 32, 1099511627776, 35184372088832);
    FiveBytes(x);
    SharedByte(l1 / 35184372088832, l2, 6, 64, 4);
  }

  /** Bytes 13 to 19 of the encoding. */
  function Group2(l2: u64, l3: u64): (s: seq<u8>)
    ensures |s| == 7
  {
    [Byte(l2 / 4), Byte(l2 / 1024), Byte(l2 / 262144), Byte(l2 / 67108864), Byte(l2 / 17179869184),
      Byte(l2 / 4398046511104), ByteOf(Or(l2 / 1125899906842624, Shl(l3, 2)))]
  }

  lemma Group2Value(l2: u64, l3: u64)
    requires l2 < TWO51 && l3 < TWO51
    ensures LE(Group2(l2, l3)) == l2 as int / 4 + 562949953421312 * (l3 as int % 128)
  {
    var s := Group2(l2, l3);
    LESeven(s);
    var x := l2 as int / 4;
    ShiftTwice(l2, 4, 256, 1024);
    ShiftTwice(l2, 4, 65536, 262144);
    ShiftTwice(l2, 4, 16777216, 67108864);
    ShiftTwice(l2, 4, 4294967296, 17179869184);
    ShiftTwice(l2, 4, 1099511627776, 4398046511104);
    ShiftTwice(l2, 4, 281474976710656, 1125899906842624);
    SixBytes(x);
    SharedByte(l2 / 1125899906842624, l3, 1, 2, 128);
  }

  /** Bytes 20 to 25 of the encoding. */
  function Group3(l3: u64, l4: u64): (s: seq<u8>)
    ensures |s| == 6
  {
    [Byte(l3 / 128), Byte(l3 / 32768), Byte(l3 / 8388608), Byte(l3 / 2147483648), Byte(l3 / 549755813888),
      ByteOf(Or(l3 / 140737488355328, Shl(l4, 16)))]
  }

  lemma Group3Value(l3: u64, l4: u64)
    requires l3 < TWO51 && l4 < TWO51
    ensures LE(Group3(l3, l4)) == l3 as int / 128 + 17592186044416 * (l4 as int % 16)
  {
    var s := Group3(l3, l4);
    LESix(s);
    var x := l3 as int / 128;
    ShiftTwice(l3, 128, 256, 32768);
    ShiftTwice(l3, 128, 65536, 8388608);
    ShiftTwice(l3, 128, 16777216, 2147483648);
    ShiftTwice(l3, 128, 4294967296, 549755813888);
    ShiftTwice(l3, 128, 1099511627776, 140737488355328);
    FiveBytes(x);
    SharedByte(l3 / 140737488355328, l4, 4, 16, 16);
  }

  /** Bytes 26 to 31 of the encoding. */
  function Group4(l4: u64): (s: seq<u8>)
    ensures |s| == 6
  {
    [Byte(l4 / 16), Byte(l4 / 4096), Byte(l4 / 1048576), Byte(l4 / 268435456), Byte(l4 / 68719476736),
      Byte(l4 / 17592186044416)]
  }

  lemma Group4Bytes(l4: u64)
    ensures var s, x := Group4(l4), l4 as int / 16;
      s[0] as int == x % 256 && s[1] as int == x / 256 % 256 && s[2] as int == x / 65536 % 256
      && s[3] as int == x / 16777216 % 256 && s[4] as int == x / 4294967296 % 256
      && s[5] as int == x / 1099511627776 % 256
  {
    ShiftedByte(l4, 16, 256, 4096);
    ShiftedByte(l4, 16, 65536, 1048576);
    ShiftedByte(l4, 16, 16777216, 268435456);
    ShiftedByte(l4, 16, 4294967296, 68719476736);
    ShiftedByte(l4, 16, 1099511627776, 17592186044416);
  }

  lemma Group4Value(l4: u64)
    requires l4 < TWO51
    ensures LE(Group4(l4)) == l4 as int / 16
  {
    hide LE, Group4;
    LESix(Group4(l4));
    Group4Bytes(l4);
    SixBytes(l4 as int / 16);
  }

  /** The five groups spell the number of the five limbs. */
  lemma GroupsTogether(l0: u64, l1: u64, l2: u64, l3: u64, l4: u64)
    requires l0 < TWO51 && l1 < TWO51 && l2 < TWO51 && l3 < TWO51 && l4 < TWO51
    ensures LE(Group0(l0, l1)) + 72057594037927936 * (LE(Group1(l1, l2)) + 281474976710656 * (LE(Group2(l2, l3))
      + 72057594037927936 * (LE(Group3(l3, l4)) + 281474976710656 * LE(Group4(l4)))))
         == Value(Fe(l0, l1, l2, l3, l4))
  {
    Group0Value(l0, l1);
    Group1Value(l1, l2);
    Group2Value(l2, l3);
    Group3Value(l3, l4);
    Group4Value(l4);
  }

  lemma PrependSix(a: seq<u8>, b: seq<u8>)
    requires |a| == 6
    ensures LE(a + b) == LE(a) + 281474976710656 * LE(b)
  {
    LEConcat(a, b);
    assert Exp256(6) == 281474976710656;
  }

  lemma PrependSeven(a: seq<u8>, b: seq<u8>)
    requires |a| == 7
    ensures LE(a + b) == LE(a) + 72057594037927936 * LE(b)
  {
    LEConcat(a, b);
    assert Exp256(7) == 72057594037927936;
  }

  /** The five groups spell the number of the five limbs. */
  method Pack(limbs: Fe) returns (s: seq<u8>)
    requires Below(limbs, 0x8_0000_0000_0000)
    ensures |s| == 32 && LE(s) == Value(limbs)
  {
    var l0, l1, l2, l3, l4 := limbs.l0, limbs.l1, limbs.l2, limbs.l3, limbs.l4;
    var s4 := Group4(l4);
    var s34 := Group3(l3, l4) + s4;
    var s234 := Group2(l2, l3) + s34;
    var s1234 := Group1(l1, l2) + s234;
    s := Group0(l0, l1) + s1234;
    PrependSix(Group3(l3, l4), s4);
    PrependSeven(Group2(l2, l3), s34);
    PrependSix(Group1(l1, l2), s234);
    PrependSeven(Group0(l0, l1), s1234);
    GroupsTogether(l0, l1, l2, l3, l4);
  }

  /** The carry that tells whether a weakly reduced value is at least P. */
  method IsAtLeastP(f: Fe) returns (q: u64)
    requires Tight(f)
    ensures q as int == if Value(f) >= P then 1 else 0
  {
    var q0 := (f.l0 + 19) / TWO51;
    var q1 := (f.l1 + q0) / TWO51;
    var q2 := (f.l2 + q1) / TWO51;
    var q3 := (f.l3 + q2) / TWO51;
    q := (f.l4 + q3) / TWO51;
    ghost var r0, r1, r2 := (f.l0 + 19) % TWO51, (f.l1 + q0) % TWO51, (f.l2 + q1) % TWO51;
    ghost var r3, r4 := (f.l3 + q2) % TWO51, (f.l4 + q3) % TWO51;
    assert Value(f) + 19
      == 57896044618658097711785492504343953926634992332820282019728792003956564819968 * q as int
      + Value(Fe(r0, r1, r2, r3, r4));
    assert 0 <= Value(Fe(r0, r1, r2, r3, r4))
      < 57896044618658097711785492504343953926634992332820282019728792003956564819968;
  }

  /** Adding 19 when the value is at least P, carrying through, and dropping bit 255. */
  method SubtractP(f: Fe, q: u64) returns (r: Fe)
    requires Tight(f) && q as int == (if Value(f) >= P then 1 else 0)
    ensures Below(r, 0x8_0000_0000_0000) && Value(r) == Value(f) - q as int * P
  {
    hide Value;
    ValueIs(f);
    var l0, l1, l2, l3, l4 := f.l0, f.l1, f.l2, f.l3, f.l4;
    l0 := l0 + 19 * q;
    ghost var c0 := l0 / TWO51;
    l1 := l1 + l0 / TWO51;
    l0 := l0 % TWO51;
    ghost var c1 := l1 / TWO51;
    l2 := l2 + l1 / TWO51;
    l1 := l1 % TWO51;
    ghost var c2 := l2 / TWO51;
    l3 := l3 + l2 / TWO51;
    l2 := l2 % TWO51;
    ghost var c3 := l3 / TWO51;
    l4 := l4 + l3 / TWO51;
    l3 := l3 % TWO51;
    ghost var top := l4 / TWO51;
    l4 := l4 % TWO51;
    r := Fe(l0, l1, l2, l3, l4);
    CarriesCancel(r, f.l0 as int + 19 * q as int, f.l1 as int, f.l2 as int, f.l3 as int, f.l4 as int,
                  c0 as int, c1 as int, c2 as int, c3 as int, top as int);
    ValueBelow(r);
    TightBelow(f);
    TopIsQuotient(Value(r), Value(f), q as int, top as int);
  }

  lemma ValueBelow(f: Fe)
    requires Below(f, 0x8_0000_0000_0000)
    ensures 0 <= Value(f) < 57896044618658097711785492504343953926634992332820282019728792003956564819968
  {
  }

  lemma TightBelow(f: Fe)
    requires Tight(f)
    ensures 0 <= Value(f) < 2 * P
  {
  }

  lemma ValueIs(f: Fe)
    ensures Value(f) == f.l0 as int + 2251799813685248 * f.l1 as int + 5070602400912917605986812821504 * f.l2 as int
      + 11417981541647679048466287755595961091061972992 * f.l3 as int
      + 25711008708143844408671393477458601640355247900524685364822016 * f.l4 as int
  {
  }

  lemma TopIsQuotient(r: int, v: int, q: int, top: int)
    requires 0 <= r < 57896044618658097711785492504343953926634992332820282019728792003956564819968
    requires 0 <= v < 2 * P && q == if v >= P then 1 else 0
    requires r == v + 19 * q - 57896044618658097711785492504343953926634992332820282019728792003956564819968 * top
    ensures r == v - q * P
  {
  }

  /** The canonical encoding: the unique 32 bytes that spell the value modulo P. */
  method ToBytes(f: Fe) returns (s: seq<u8>)
    ensures |s| == 32 && LE(s) == Value(f) % P
  {
    var limbs := Reduce(f);
    var q := IsAtLeastP(limbs);
    var canonical := SubtractP(limbs, q);
    s := Pack(canonical);
    RemainderUnique(Value(f), (f.l4 / TWO51) as int + q as int, Value(canonical), P);
  }

  /** Decoding and encoding again clears the top bit and reduces: the bytes survive exactly when what is left of
      them is below P. */
  method Reencode(bytes: seq<u8>) returns (s: seq<u8>)
    requires |bytes| == 32
    ensures |s| == 32
    ensures LE(s) == Cleared(bytes) % P
    ensures LE(s) == Cleared(bytes) <==> Cleared(bytes) < P
  {
    var f := FromBytes(bytes);
    s := ToBytes(f);
    SmallIffFixed(Value(f), P);
  }

  function Ones(n: nat): (b: seq<u8>)
    ensures |b| == n
  {
    seq(n, i => 0xFF)
  }

  lemma {:induction false} LEOfOnes(n: nat)
    ensures LE(Ones(n)) == Exp256(n) - 1
  {
    if n == 0 {
    } else {
      LEOfOnes(n - 1);
      LEConcat([0xFF], Ones(n - 1));
      assert Ones(n) == [0xFF] + Ones(n - 1);
    }
  }

  lemma {:induction false} LEZero(b: seq<u8>, i: nat)
    requires i <= |b| && LEFrom(b, i) == 0
    ensures forall k :: i <= k < |b| ==> b[k] == 0
    decreases |b| - i
  {
    if i == |b| {
    } else {
      LEZero(b, i + 1);
    }
  }

  /** ED, thirty times FF, 7F. */
  function PSpelt(): (bytes: seq<u8>)
    ensures |bytes| == 32
  {
    [0xED] + (Ones(30) + [0x7F])
  }

  lemma Exp256One()
    ensures Exp256(1) == 256
  {
  }

  lemma Exp256Thirty()
    ensures Exp256(30) == 1766847064778384329583297500742918515827483896875618958121606201292619776
  {
    assert Exp256(5) == 1099511627776;
    Exp256Of(5, 5, 1099511627776, 1099511627776);
    Exp256Of(10, 5, 1208925819614629174706176, 1099511627776);
    Exp256Of(15, 15, 1329227995784915872903807060280344576, 1329227995784915872903807060280344576);
  }

  lemma OneByte(b: u8)
    ensures LE([b]) == b as nat
  {
    assert LEFrom([b], 1) == 0;
  }

  lemma LEConcatIs(a: seq<u8>, b: seq<u8>, e: int, v: int)
    requires Exp256(|a|) == e && LE(b) == v
    ensures LE(a + b) == LE(a) + e * v
  {
    LEConcat(a, b);
  }

  lemma PSpeltIsP()
    ensures LE(PSpelt()) == P
  {
    hide Exp256, LE, Ones;
    LEOfOnes(30);
    OneByte(0x7F);
    OneByte(0xED);
    Exp256One();
    Exp256Thirty();
    LEConcatIs(Ones(30), [0x7F], 1766847064778384329583297500742918515827483896875618958121606201292619776, 127);
    LEConcatIs([0xED], Ones(30) + [0x7F], 256,
               226156424291633194186662080095093570025917938800079226639565593765455331327);
  }

  lemma PIsZero()
    ensures P % P == 0 && P % 57896044618658097711785492504343953926634992332820282019728792003956564819968 == P
  {
  }

  /** Bytes that do not survive: they spell P, and decoding and encoding them again gives 32 zeros. */
  method ReencodeP() returns (s: seq<u8>)
    ensures Cleared(PSpelt()) == P && LE(s) == Cleared(PSpelt()) % P
    ensures s == seq(32, i => 0) != PSpelt()
  {
    hide LEFrom, Ones;
    PSpeltIsP();
    PIsZero();
    s := Reencode(PSpelt());
    LEZero(s, 0);
    assert PSpelt()[0] == 0xED;
  }

  /** The number that 32 bytes spell with their top bit cleared. */
  function Cleared(bytes: seq<u8>): nat {
    LE(bytes) % 57896044618658097711785492504343953926634992332820282019728792003956564819968
  }

  lemma SmallIffFixed(x: nat, p: nat)
    requires p > 0
    ensures x % p == x <==> x < p
  {
  }

  /** Equality of encodings is congruence modulo P. */
  method CtEq(a: Fe, b: Fe) returns (r: bool)
    ensures r <==> Value(a) % P == Value(b) % P
  {
    var s := ToBytes(a);
    var t := ToBytes(b);
    r := s == t;
    if LE(s) == LE(t) {
      LEInjective(s, t, 0);
      assert s[0..] == s && t[0..] == t;
    }
  }

  method Cmov(a: Fe, b: Fe, c: bool) returns (r: Fe)
    ensures r == if c then b else a
  {
    if c { r := b; } else { r := a; }
  }
}
