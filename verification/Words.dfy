/** Machine words, byte strings and bit operations on natural numbers. */
module Words {

  newtype u8 = x: int | 0 <= x < 0x100
  newtype u16 = x: int | 0 <= x < 0x1_0000
  newtype u32 = x: int | 0 <= x < 0x1_0000_0000
  newtype u64 = x: int | 0 <= x < 0x1_0000_0000_0000_0000
  newtype u128 = x: int | 0 <= x < 0x1_0000_0000_0000_0000_0000_0000_0000_0000

  function Exp2(k: nat): (r: nat)
    ensures r > 0
  {
    if k == 0 then 1 else 2 * Exp2(k - 1)
  }

  function Exp256(k: nat): (r: nat)
    ensures r > 0
  {
    if k == 0 then 1 else 256 * Exp256(k - 1)
  }

  lemma Associate(x: int, y: int, z: int)
    ensures x * (y * z) == (x * y) * z
  {
  }

  // ---- Little-endian byte strings ----

  /** The number spelt by the bytes from index i on, least significant first. */
  function LEFrom(b: seq<u8>, i: nat): (n: nat)
    requires i <= |b|
    decreases |b| - i
  {
    if i == |b| then 0 else b[i] as int + 256 * LEFrom(b, i + 1)
  }

  function LE(b: seq<u8>): nat { LEFrom(b, 0) }

  /** The number spelt by n bytes starting at index i. */
  function LESlice(b: seq<u8>, i: nat, n: nat): (r: nat)
    requires i + n <= |b|
    decreases n
  {
    if n == 0 then 0 else b[i] as int + 256 * LESlice(b, i + 1, n - 1)
  }

  lemma {:induction false} LESliceBound(b: seq<u8>, i: nat, n: nat)
    requires i + n <= |b|
    ensures LESlice(b, i, n) < Exp256(n)
    decreases n
  {
    if n == 0 {
    } else {
      LESliceBound(b, i + 1, n - 1);
    }
  }

  /** Splitting a number at a byte boundary. */
  lemma {:induction false} LESplit(b: seq<u8>, i: nat, n: nat)
    requires i + n <= |b|
    ensures LEFrom(b, i) == LESlice(b, i, n) + Exp256(n) * LEFrom(b, i + n)
    decreases n
  {
    if n == 0 {
    } else {
      LESplit(b, i + 1, n - 1);
      Associate(256, Exp256(n - 1), LEFrom(b, i + n));
    }
  }

  lemma {:induction false} LEOfSlice(b: seq<u8>, i: nat, n: nat, j: nat)
    requires i + n <= |b| && j <= n
    ensures LEFrom(b[i..i + n], j) == LESlice(b, i + j, n - j)
    decreases n - j
  {
    if j == n {
    } else {
      LEOfSlice(b, i, n, j + 1);
    }
  }

  lemma LETail(s: seq<u8>, i: nat)
    requires i <= |s|
    ensures LE(s[i..]) == LEFrom(s, i)
  {
    LETailFrom(s, i, 0);
  }

  lemma {:induction false} LETailFrom(s: seq<u8>, i: nat, j: nat)
    requires i + j <= |s|
    ensures LEFrom(s[i..], j) == LEFrom(s, i + j)
    decreases |s| - i - j
  {
    if i + j == |s| {
    } else {
      LETailFrom(s, i, j + 1);
    }
  }

  lemma LEConcat(a: seq<u8>, b: seq<u8>)
    ensures LE(a + b) == LE(a) + Exp256(|a|) * LE(b)
  {
    var s := a + b;
    LESplit(s, 0, |a|);
    LEOfSlice(s, 0, |a|, 0);
    assert s[0..|a|] == a;
    LETail(s, |a|);
    assert s[|a|..] == b;
  }

  lemma {:induction false} LEInjective(a: seq<u8>, b: seq<u8>, i: nat)
    requires |a| == |b| && i <= |a| && LEFrom(a, i) == LEFrom(b, i)
    ensures a[i..] == b[i..]
    decreases |a| - i
  {
    if i == |a| {
    } else {
      assert a[i] as int == LEFrom(a, i) % 256 && b[i] as int == LEFrom(b, i) % 256;
      LEInjective(a, b, i + 1);
      assert a[i..] == [a[i]] + a[i + 1..] && b[i..] == [b[i]] + b[i + 1..];
    }
  }

  // ---- Big-endian byte strings ----

  /** The base-256 digit of x at position k, counted from the least significant. */
  function Digit(x: nat, k: nat): u8
    decreases k
  {
    if k == 0 then (x % 256) as u8 else Digit(x / 256, k - 1)
  }

  /** Big-endian bytes of a number, most significant first. */
  function BigEndian(x: nat, n: nat): (b: seq<u8>)
    ensures |b| == n
  {
    seq(n, i requires 0 <= i < n => Digit(x, n - 1 - i))
  }

  function FromBigEndian(b: seq<u8>): nat {
    if b == [] then 0 else 256 * FromBigEndian(b[..|b| - 1]) + b[|b| - 1] as int
  }

  lemma BigEndianLast(x: nat, n: nat)
    requires n > 0
    ensures BigEndian(x, n) == BigEndian(x / 256, n - 1) + [(x % 256) as u8]
  {
    var all, front := BigEndian(x, n), BigEndian(x / 256, n - 1);
    forall i | 0 <= i < n - 1 ensures all[i] == front[i] {
      assert Digit(x, n - 1 - i) == Digit(x / 256, n - 2 - i);
    }
    assert all == front + [Digit(x, 0)];
  }

  lemma {:induction false} BigEndianRoundTrip(x: nat, n: nat)
    requires x < Exp256(n)
    ensures FromBigEndian(BigEndian(x, n)) == x
  {
    if n == 0 {
    } else {
      BigEndianLast(x, n);
      BigEndianRoundTrip(x / 256, n - 1);
      assert BigEndian(x, n)[..n - 1] == BigEndian(x / 256, n - 1);
    }
  }

  lemma {:induction false} BigEndianOf(b: seq<u8>)
    ensures FromBigEndian(b) < Exp256(|b|) && BigEndian(FromBigEndian(b), |b|) == b
  {
    if b == [] {
      assert BigEndian(0, 0) == [];
    } else {
      var n := |b| - 1;
      BigEndianOf(b[..n]);
      assert FromBigEndian(b) / 256 == FromBigEndian(b[..n]) && FromBigEndian(b) % 256 == b[n] as int;
      BigEndianLast(FromBigEndian(b), n + 1);
      assert b == b[..n] + [b[n]];
    }
  }

  lemma {:induction false} DigitOfZero(k: nat)
    ensures Digit(0, k) == 0
  {
    if k == 0 {
    } else {
      DigitOfZero(k - 1);
    }
  }

  /** A one-byte number is zeros and the byte. */
  lemma BigEndianSmall(x: u8, n: nat)
    requires n > 0
    ensures BigEndian(x as nat, n) == seq(n - 1, i => 0) + [x]
  {
    BigEndianLast(x as nat, n);
    var zeros := BigEndian(0, n - 1);
    forall i | 0 <= i < n - 1 ensures zeros[i] == 0 { DigitOfZero(n - 2 - i); }
  }

  lemma BigEndianTwo(x: nat)
    requires x < 0x1_0000
    ensures BigEndian(x, 2) == [(x / 256) as u8, (x % 256) as u8]
  {
    BigEndianLast(x, 2);
    BigEndianLast(x / 256, 1);
    assert BigEndian(x / 256 / 256, 0) == [];
  }

  /** The last four of the bytes, most significant first. */
  lemma BigEndianLastFour(x: nat, n: nat)
    requires n >= 4
    ensures BigEndian(x, n)
      == BigEndian(x / 0x1_0000_0000, n - 4)
         + [(x / 0x100_0000 % 256) as u8, (x / 0x1_0000 % 256) as u8, (x / 0x100 % 256) as u8, (x % 256) as u8]
  {
    BigEndianLast(x, n);
    BigEndianLast(x / 0x100, n - 1);
    assert x / 0x100 / 256 == x / 0x1_0000;
    BigEndianLast(x / 0x1_0000, n - 2);
    assert x / 0x1_0000 / 256 == x / 0x100_0000;
    BigEndianLast(x / 0x100_0000, n - 3);
    assert x / 0x100_0000 / 256 == x / 0x1_0000_0000;
  }

  function Reversed(s: seq<u8>): (r: seq<u8>)
    ensures |r| == |s|
  {
    seq(|s|, i requires 0 <= i < |s| => s[|s| - 1 - i])
  }

  lemma ReversedTwice(s: seq<u8>)
    ensures Reversed(Reversed(s)) == s
  {
  }

  // ---- Bitwise operations ----

  function BitOr(x: nat, y: nat): nat {
    if x == 0 && y == 0 then 0
    else 2 * BitOr(x / 2, y / 2) + (if x % 2 == 1 || y % 2 == 1 then 1 else 0)
  }

  lemma {:induction false} BitOrZero(y: nat)
    ensures BitOr(0, y) == y && BitOr(y, 0) == y
  {
    if y == 0 {
    } else {
      BitOrZero(y / 2);
    }
  }

  /** Bits below position k and a multiple of 2^k do not overlap. */
  lemma {:induction false} BitOrDisjoint(x: nat, m: nat, k: nat)
    requires x < Exp2(k)
    ensures BitOr(x, m * Exp2(k)) == x + m * Exp2(k) == BitOr(m * Exp2(k), x)
  {
    if k == 0 {
      BitOrZero(m);
    } else {
      BitOrDisjoint(x / 2, m, k - 1);
      Associate(2, m, Exp2(k - 1));
      Associate(m, 2, Exp2(k - 1));
    }
  }

  // ---- Messages as bytes ----

  /** A way of writing values down and reading them. */
  datatype Coding<!T> = Coding(encode: T -> seq<u8>, decode: seq<u8> -> T)

  /** What is written is read. */
  ghost predicate Inverts<T(!new)>(c: Coding<T>) { forall x :: c.decode(c.encode(x)) == x }
}
