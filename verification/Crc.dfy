/** CRC-32 as the shift register computes it, as polynomial division, and what it detects. */
module Crc {
  import opened Words

  const POLY: nat := 0xEDB8_8320
  const ONES: nat := 0xFFFF_FFFF
  const WIDTH: nat := 0x1_0000_0000

  // ---- Exclusive or on natural numbers ----

  function BitXor(x: nat, y: nat): nat
    decreases x + y
  {
    if x == 0 && y == 0 then 0 else 2 * BitXor(x / 2, y / 2) + (x % 2 + y % 2) % 2
  }

  lemma HalvesDetermine(u: nat, v: nat)
    requires u / 2 == v / 2 && u % 2 == v % 2
    ensures u == v
  {
  }

  lemma {:induction false} XorZero(x: nat)
    ensures BitXor(x, 0) == x && BitXor(0, x) == x
  {
    if x == 0 {
    } else {
      XorZero(x / 2);
    }
  }

  lemma {:induction false} XorIsZero(x: nat, y: nat)
    ensures BitXor(x, y) == 0 <==> x == y
    decreases x + y
  {
    if x + y == 0 {
    } else {
      XorIsZero(x / 2, y / 2);
    }
  }

  lemma {:induction false} XorComm(x: nat, y: nat)
    ensures BitXor(x, y) == BitXor(y, x)
    decreases x + y
  {
    if x + y == 0 {
    } else {
      XorComm(x / 2, y / 2);
    }
  }

  lemma XorHalf(x: nat, y: nat)
    ensures BitXor(x, y) / 2 == BitXor(x / 2, y / 2)
  {
  }

  lemma XorParity(x: nat, y: nat)
    ensures BitXor(x, y) % 2 == 1 <==> (x % 2 == 1) != (y % 2 == 1)
  {
  }

  lemma XorHalfLeft(x: nat, y: nat, z: nat)
    ensures BitXor(BitXor(x, y), z) / 2 == BitXor(BitXor(x / 2, y / 2), z / 2)
  {
    XorHalf(BitXor(x, y), z);
    XorHalf(x, y);
  }

  lemma XorHalfRight(x: nat, y: nat, z: nat)
    ensures BitXor(x, BitXor(y, z)) / 2 == BitXor(x / 2, BitXor(y / 2, z / 2))
  {
    XorHalf(x, BitXor(y, z));
    XorHalf(y, z);
  }

  lemma XorParityAssoc(x: nat, y: nat, z: nat)
    ensures BitXor(BitXor(x, y), z) % 2 == BitXor(x, BitXor(y, z)) % 2
  {
    XorParity(BitXor(x, y), z);
    XorParity(x, y);
    XorParity(x, BitXor(y, z));
    XorParity(y, z);
  }

  lemma {:induction false} XorAssoc(x: nat, y: nat, z: nat)
    ensures BitXor(BitXor(x, y), z) == BitXor(x, BitXor(y, z))
    decreases x + y + z
  {
    if x + y + z == 0 {
    } else {
      XorAssoc(x / 2, y / 2, z / 2);
      XorHalfLeft(x, y, z);
      XorHalfRight(x, y, z);
      XorParityAssoc(x, y, z);
      HalvesDetermine(BitXor(BitXor(x, y), z), BitXor(x, BitXor(y, z)));
    }
  }

  lemma {:induction false} XorBound(x: nat, y: nat, k: nat)
    requires x < Exp2(k) && y < Exp2(k)
    ensures BitXor(x, y) < Exp2(k)
    decreases k
  {
    if k == 0 || x + y == 0 {
    } else {
      XorBound(x / 2, y / 2, k - 1);
    }
  }

  /** Exclusive or distributes over itself pairwise. */
  lemma XorSwap(a: nat, b: nat, c: nat, d: nat)
    ensures BitXor(BitXor(a, b), BitXor(c, d)) == BitXor(BitXor(a, c), BitXor(b, d))
  {
    XorAssoc(a, b, BitXor(c, d));
    XorAssoc(b, c, d);
    XorComm(b, c);
    XorAssoc(c, b, d);
    XorAssoc(a, c, BitXor(b, d));
  }

  // ---- The register ----

  function Feedback(low: bool): nat { if low then POLY else 0 }

  /** One shift of the reflected register. */
  function Step(r: nat): nat {
    BitXor(r / 2, Feedback(r % 2 == 1))
  }

  function Steps(r: nat, k: nat): nat
    decreases k
  {
    if k == 0 then r else Steps(Step(r), k - 1)
  }

  function FeedByte(r: nat, b: u8): nat { Steps(BitXor(r, b as nat), 8) }

  function FeedBytes(r: nat, data: seq<u8>): nat
    decreases |data|
  {
    if data == [] then r else FeedBytes(FeedByte(r, data[0]), data[1..])
  }

  lemma StepBound(r: nat)
    requires r < WIDTH
    ensures Step(r) < WIDTH
  {
    WidthIsExp2();
    XorBound(r / 2, Feedback(r % 2 == 1), 32);
  }

  lemma WidthIsExp2()
    ensures Exp2(32) == WIDTH
  {
    assert Exp2(8) == 0x100;
    assert Exp2(16) == 0x1_0000;
    assert Exp2(20) == 0x10_0000;
    assert Exp2(24) == 0x100_0000;
    assert Exp2(28) == 0x1000_0000;
  }

  lemma {:induction false} StepsBound(r: nat, k: nat)
    requires r < WIDTH
    ensures Steps(r, k) < WIDTH
    decreases k
  {
    if k == 0 {
    } else {
      StepBound(r);
      StepsBound(Step(r), k - 1);
    }
  }

  lemma FeedByteBound(r: nat, b: u8)
    requires r < WIDTH
    ensures BitXor(r, b as nat) < WIDTH && FeedByte(r, b) < WIDTH
  {
    WidthIsExp2();
    XorBound(r, b as nat, 32);
    StepsBound(BitXor(r, b as nat), 8);
  }

  lemma {:induction false} FeedBytesBound(r: nat, data: seq<u8>)
    requires r < WIDTH
    ensures FeedBytes(r, data) < WIDTH
    decreases |data|
  {
    if data == [] {
    } else {
      FeedByteBound(r, data[0]);
      FeedBytesBound(FeedByte(r, data[0]), data[1..]);
    }
  }

  function Checksum(data: seq<u8>): (c: u32) {
    FeedBytesBound(ONES, data);
    (ONES - FeedBytes(ONES, data)) as u32
  }

  lemma OddOnes(x: nat, y: nat)
    ensures BitXor(2 * x + 1, 2 * y + 1) == 2 * BitXor(x, y)
  {
    assert (2 * x + 1) / 2 == x && (2 * y + 1) / 2 == y;
  }

  lemma {:induction false} LowOnesCancel(h: nat, k: nat)
    ensures BitXor(Exp2(k) * h + (Exp2(k) - 1), Exp2(k) - 1) == Exp2(k) * h
    decreases k
  {
    hide BitXor;
    if k == 0 {
      XorZero(h);
    } else {
      LowOnesCancel(h, k - 1);
      Associate(2, Exp2(k - 1), h);
      OddOnes(Exp2(k - 1) * h + (Exp2(k - 1) - 1), Exp2(k - 1) - 1);
    }
  }

  lemma {:induction false} EvenSteps(h: nat, k: nat)
    ensures Steps(Exp2(k) * h, k) == h
    decreases k
  {
    if k == 0 {
    } else {
      Associate(2, Exp2(k - 1), h);
      XorZero(Exp2(k - 1) * h);
      EvenSteps(h, k - 1);
    }
  }

  /** The register starts with all ones and the result is complemented: the checksum of one byte FF. */
  lemma ChecksumOfOnes()
    ensures Checksum([]) == 0 && Checksum([0xFF]) == 0xFF00_0000
  {
    assert Exp2(8) == 256;
    LowOnesCancel(0xFF_FFFF, 8);
    EvenSteps(0xFF_FFFF, 8);
    assert FeedBytes(ONES, [0xFF]) == FeedBytes(FeedByte(ONES, 0xFF), []);
  }

  lemma {:induction false} FeedBytesSnoc(r: nat, data: seq<u8>, b: u8)
    ensures FeedBytes(r, data + [b]) == FeedByte(FeedBytes(r, data), b)
    decreases |data|
  {
    if data == [] {
      assert [b][1..] == [];
    } else {
      assert (data + [b])[1..] == data[1..] + [b];
      FeedBytesSnoc(FeedByte(r, data[0]), data[1..], b);
    }
  }

  lemma {:induction false} StepsSnoc(r: nat, k: nat)
    ensures Steps(r, k + 1) == Step(Steps(r, k))
    decreases k
  {
    if k == 0 {
    } else {
      StepsSnoc(Step(r), k - 1);
    }
  }

  /** The register loop as the source runs it. */
  method Crc32Ieee(data: seq<u8>) returns (crc: u32)
    ensures crc == Checksum(data)
  {
    var reg: u32 := 0xFFFF_FFFF;
    for i := 0 to |data|
      invariant reg as nat == FeedBytes(ONES, data[..i])
    {
      assert data[..i + 1] == data[..i] + [data[i]];
      FeedBytesSnoc(ONES, data[..i], data[i]);
      FeedByteBound(reg as nat, data[i]);
      ghost var start := BitXor(reg as nat, data[i] as nat);
      reg := BitXor(reg as nat, data[i] as nat) as u32;
      for j := 0 to 8
        invariant reg as nat == Steps(start, j)
      {
        var feed := Feedback(reg % 2 == 1);
        StepBound(reg as nat);
        StepsSnoc(start, j);
        reg := BitXor((reg / 2) as nat, feed) as u32;
      }
    }
    assert data[..|data|] == data;
    crc := 0xFFFF_FFFF - reg;
  }

  // ---- The register update is linear, and one step is injective ----

  lemma FeedbackLinear(p: bool, q: bool)
    ensures BitXor(Feedback(p), Feedback(q)) == Feedback(p != q)
  {
    XorZero(Feedback(p));
    XorZero(Feedback(q));
    XorIsZero(Feedback(p), Feedback(q));
  }

  lemma StepLinear(a: nat, b: nat)
    ensures Step(BitXor(a, b)) == BitXor(Step(a), Step(b))
  {
    XorHalf(a, b);
    XorParity(a, b);
    FeedbackLinear(a % 2 == 1, b % 2 == 1);
    XorSwap(a / 2, b / 2, Feedback(a % 2 == 1), Feedback(b % 2 == 1));
  }

  /** The top bit of the polynomial records the bit shifted out. */
  lemma StepInjectiveAtZero(r: nat)
    requires r < WIDTH && Step(r) == 0
    ensures r == 0
  {
    XorIsZero(r / 2, Feedback(r % 2 == 1));
  }

  lemma {:induction false} StepsNonZero(r: nat, k: nat)
    requires 0 < r < WIDTH
    ensures Steps(r, k) != 0
    decreases k
  {
    if k == 0 {
    } else {
      if Step(r) == 0 { StepInjectiveAtZero(r); }
      StepBound(r);
      StepsNonZero(Step(r), k - 1);
    }
  }

  // ---- Bit by bit ----

  /** The k low bits, least significant first. */
  function Bits(x: nat, k: nat): (b: seq<bool>)
    ensures |b| == k
  {
    if k == 0 then [] else [x % 2 == 1] + Bits(x / 2, k - 1)
  }

  function Bit(b: bool): nat { if b then 1 else 0 }

  function FeedBits(r: nat, bits: seq<bool>): nat
    decreases |bits|
  {
    if bits == [] then r else FeedBits(Step(BitXor(r, Bit(bits[0]))), bits[1..])
  }

  /** The bits of a message in the order the register sees them. */
  function MessageBits(data: seq<u8>): (b: seq<bool>)
    ensures |b| == 8 * |data|
  {
    if data == [] then [] else Bits(data[0] as nat, 8) + MessageBits(data[1..])
  }

  /** Adding an even number above the shifted-out bit. */
  lemma StepOfEven(x: nat)
    ensures Step(2 * x) == x
  {
    XorZero(x);
  }

  lemma StepAbove(y: nat, x: nat)
    ensures Step(BitXor(y, 2 * x)) == BitXor(Step(y), x)
  {
    StepLinear(y, 2 * x);
    StepOfEven(x);
  }

  lemma LowAndHigh(x: nat)
    ensures BitXor(Bit(x % 2 == 1), 2 * (x / 2)) == x
  {
    hide BitXor;
    var low, high := Bit(x % 2 == 1), 2 * (x / 2);
    XorHalf(low, high);
    XorParity(low, high);
    XorZero(x / 2);
    HalvesDetermine(BitXor(low, high), x);
  }

  lemma SplitLow(r: nat, x: nat)
    ensures BitXor(r, x) == BitXor(BitXor(r, Bit(x % 2 == 1)), 2 * (x / 2))
  {
    var low, high := Bit(x % 2 == 1), 2 * (x / 2);
    LowAndHigh(x);
    hide BitXor;
    XorAssoc(r, low, high);
  }

  /** Whole-word injection followed by k shifts is bitwise injection. */
  lemma {:induction false} StepsAreFeedBits(r: nat, x: nat, k: nat)
    requires x < Exp2(k)
    ensures Steps(BitXor(r, x), k) == FeedBits(r, Bits(x, k))
    decreases k
  {
    if k == 0 {
      XorZero(r);
    } else {
      var y := BitXor(r, Bit(x % 2 == 1));
      SplitLow(r, x);
      StepAbove(y, x / 2);
      StepsAreFeedBits(Step(y), x / 2, k - 1);
      assert Bits(x, k)[1..] == Bits(x / 2, k - 1);
    }
  }

  lemma {:induction false} FeedBitsAppend(r: nat, a: seq<bool>, b: seq<bool>)
    ensures FeedBits(r, a + b) == FeedBits(FeedBits(r, a), b)
    decreases |a|
  {
    if a == [] {
      assert a + b == b;
    } else {
      assert (a + b)[1..] == a[1..] + b;
      FeedBitsAppend(Step(BitXor(r, Bit(a[0]))), a[1..], b);
    }
  }

  lemma {:induction false} FeedBytesAreFeedBits(r: nat, data: seq<u8>)
    ensures FeedBytes(r, data) == FeedBits(r, MessageBits(data))
    decreases |data|
  {
    if data == [] {
    } else {
      assert Exp2(8) == 256;
      StepsAreFeedBits(r, data[0] as nat, 8);
      FeedBitsAppend(r, Bits(data[0] as nat, 8), MessageBits(data[1..]));
      FeedBytesAreFeedBits(FeedByte(r, data[0]), data[1..]);
    }
  }

  // ---- Burst errors ----

  function Difference(a: seq<bool>, b: seq<bool>): seq<bool>
    requires |a| == |b|
  {
    seq(|a|, i requires 0 <= i < |a| => a[i] != b[i])
  }

  lemma XorOfBits(p: bool, q: bool)
    ensures BitXor(Bit(p), Bit(q)) == Bit(p != q)
  {
    XorZero(Bit(p));
    XorZero(Bit(q));
    XorIsZero(Bit(p), Bit(q));
  }

  lemma {:induction false} FeedBitsDifference(r: nat, s: nat, a: seq<bool>, b: seq<bool>)
    requires |a| == |b|
    ensures BitXor(FeedBits(r, a), FeedBits(s, b)) == FeedBits(BitXor(r, s), Difference(a, b))
    decreases |a|
  {
    if a == [] {
      assert Difference(a, b) == [];
    } else {
      hide BitXor, Step;
      var x, y := Bit(a[0]), Bit(b[0]);
      StepLinear(BitXor(r, x), BitXor(s, y));
      XorSwap(r, x, s, y);
      XorOfBits(a[0], b[0]);
      FeedBitsDifference(Step(BitXor(r, x)), Step(BitXor(s, y)), a[1..], b[1..]);
      assert Difference(a, b)[1..] == Difference(a[1..], b[1..]);
    }
  }

  ghost predicate AllFalse(b: seq<bool>) { forall i :: 0 <= i < |b| ==> !b[i] }

  lemma {:induction false} FeedZeros(r: nat, bits: seq<bool>)
    requires AllFalse(bits)
    ensures FeedBits(r, bits) == Steps(r, |bits|)
    decreases |bits|
  {
    if bits == [] {
    } else {
      XorZero(r);
      FeedZeros(Step(r), bits[1..]);
    }
  }

  lemma {:induction false} StepsOfZero(k: nat)
    ensures Steps(0, k) == 0
  {
    if k == 0 {
    } else {
      StepsOfZero(k - 1);
    }
  }

  /** The number with the given bits. */
  function ValueOf(b: seq<bool>): nat {
    if b == [] then 0 else Bit(b[0]) + 2 * ValueOf(b[1..])
  }

  lemma {:induction false} ValueOfBits(b: seq<bool>)
    ensures Bits(ValueOf(b), |b|) == b && ValueOf(b) < Exp2(|b|)
    ensures ValueOf(b) == 0 ==> AllFalse(b)
  {
    if b == [] {
    } else {
      ValueOfBits(b[1..]);
    }
  }

  lemma {:induction false} Exp2Monotone(m: nat, n: nat)
    requires m <= n
    ensures Exp2(m) <= Exp2(n)
  {
    if m == n {
    } else {
      Exp2Monotone(m, n - 1);
    }
  }

  /** A non-zero pattern of at most 32 bits leaves a zero register non-zero. */
  lemma BurstMovesRegister(w: seq<bool>)
    requires |w| <= 32 && !AllFalse(w)
    ensures 0 < FeedBits(0, w) < WIDTH
  {
    var x := ValueOf(w);
    ValueOfBits(w);
    WidthIsExp2();
    Exp2Monotone(|w|, 32);
    XorZero(x);
    StepsAreFeedBits(0, x, |w|);
    StepsNonZero(x, |w|);
    StepsBound(x, |w|);
  }

  /** Zero bits, a non-zero burst, and zero bits again. */
  lemma BurstDetected(a: seq<bool>, w: seq<bool>, b: seq<bool>)
    requires AllFalse(a) && |w| <= 32 && !AllFalse(w) && AllFalse(b)
    ensures FeedBits(0, a + w + b) != 0
  {
    FeedBitsAppend(0, a + w, b);
    FeedBitsAppend(0, a, w);
    FeedZeros(0, a);
    StepsOfZero(|a|);
    BurstMovesRegister(w);
    FeedZeros(FeedBits(0, w), b);
    StepsNonZero(FeedBits(0, w), |b|);
  }

  /** The two messages agree on every bit outside 32 consecutive ones. */
  ghost predicate WithinBurst(a: seq<bool>, b: seq<bool>, start: nat) {
    |a| == |b| && forall i :: 0 <= i < |a| && (i < start || i >= start + 32) ==> a[i] == b[i]
  }

  lemma {:induction false} MessageBitsInjective(a: seq<u8>, b: seq<u8>)
    requires |a| == |b| && MessageBits(a) == MessageBits(b)
    ensures a == b
    decreases |a|
  {
    if a == [] {
    } else {
      assert Exp2(8) == 256;
      assert MessageBits(a)[..8] == Bits(a[0] as nat, 8) && MessageBits(b)[..8] == Bits(b[0] as nat, 8);
      BitsInjective(a[0] as nat, b[0] as nat, 8);
      assert MessageBits(a)[8..] == MessageBits(a[1..]) && MessageBits(b)[8..] == MessageBits(b[1..]);
      MessageBitsInjective(a[1..], b[1..]);
      assert a == [a[0]] + a[1..] && b == [b[0]] + b[1..];
    }
  }

  lemma {:induction false} BitsInjective(x: nat, y: nat, k: nat)
    requires x < Exp2(k) && y < Exp2(k) && Bits(x, k) == Bits(y, k)
    ensures x == y
    decreases k
  {
    if k == 0 {
    } else {
      assert Bits(x, k)[0] == Bits(y, k)[0];
      assert Bits(x, k)[1..] == Bits(x / 2, k - 1) && Bits(y, k)[1..] == Bits(y / 2, k - 1);
      BitsInjective(x / 2, y / 2, k - 1);
    }
  }

  /** A difference inside a burst is zeros, a short pattern, and zeros again. */
  lemma BurstDecomposes(d: seq<bool>, start: nat) returns (p: seq<bool>, w: seq<bool>, s: seq<bool>)
    requires !AllFalse(d) && forall i :: 0 <= i < |d| && (i < start || i >= start + 32) ==> !d[i]
    ensures d == p + w + s && AllFalse(p) && AllFalse(s) && |w| <= 32 && !AllFalse(w)
  {
    var lo := if start <= |d| then start else |d|;
    var hi := if start + 32 <= |d| then start + 32 else |d|;
    p, w, s := d[..lo], d[lo..hi], d[hi..];
    var i :| 0 <= i < |d| && d[i];
    assert w[i - lo];
  }

  lemma BurstMovesDifference(a: seq<bool>, b: seq<bool>, start: nat)
    requires a != b && WithinBurst(a, b, start)
    ensures FeedBits(0, Difference(a, b)) != 0
  {
    var d := Difference(a, b);
    assert (forall i :: 0 <= i < |a| ==> a[i] == b[i]) ==> a == b;
    var i :| 0 <= i < |a| && a[i] != b[i];
    assert d[i];
    var p, w, s := BurstDecomposes(d, start);
    BurstDetected(p, w, s);
  }

  /** Every non-zero change confined to 32 consecutive bits changes the checksum. */
  lemma BurstChangesCrc(a: seq<u8>, b: seq<u8>, start: nat)
    requires |a| == |b| && a != b && WithinBurst(MessageBits(a), MessageBits(b), start)
    ensures Checksum(a) != Checksum(b)
  {
    var x, y := MessageBits(a), MessageBits(b);
    if x == y { MessageBitsInjective(a, b); }
    BurstMovesDifference(x, y, start);
    FeedBytesAreFeedBits(ONES, a);
    FeedBytesAreFeedBits(ONES, b);
    FeedBitsDifference(ONES, ONES, x, y);
    XorIsZero(ONES, ONES);
    XorIsZero(FeedBytes(ONES, a), FeedBytes(ONES, b));
  }
}
