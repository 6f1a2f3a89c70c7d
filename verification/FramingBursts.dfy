/** Burst errors anywhere in what the packets carry: which are refused, and the ones that are not. */
module FramingBursts {
  import opened Results
  import opened Words
  import opened Crc
  import opened CrcPolynomial
  import opened Framing
  import NumberTheory

  // ---- What a change does to the checksum ----

  lemma {:induction false} ComplementXor(a: nat, b: nat, k: nat)
    requires a < Exp2(k) && b < Exp2(k)
    ensures BitXor(Exp2(k) - 1 - a, Exp2(k) - 1 - b) == BitXor(a, b)
    decreases k
  {
    hide BitXor;
    var x, y := Exp2(k) - 1 - a, Exp2(k) - 1 - b;
    if k == 0 {
    } else {
      ComplementXor(a / 2, b / 2, k - 1);
      ComplementHalves(a, k);
      ComplementHalves(b, k);
      XorHalf(x, y);
      XorHalf(a, b);
      XorParity(x, y);
      XorParity(a, b);
      HalvesDetermine(BitXor(x, y), BitXor(a, b));
    }
  }

  lemma ComplementHalves(a: nat, k: nat)
    requires k > 0 && a < Exp2(k)
    ensures (Exp2(k) - 1 - a) / 2 == Exp2(k - 1) - 1 - a / 2
    ensures (Exp2(k) - 1 - a) % 2 == 1 <==> a % 2 == 0
  {
  }

  lemma XorCancels(c: nat, x: nat, y: nat)
    ensures BitXor(c, x) == BitXor(c, y) <==> x == y
  {
    if BitXor(c, x) == BitXor(c, y) {
      XorAssoc(c, c, x);
      XorAssoc(c, c, y);
      XorIsZero(c, c);
      XorZero(x);
      XorZero(y);
    }
  }

  lemma ComplementedXor(a: nat, b: nat)
    requires a < WIDTH && b < WIDTH
    ensures BitXor(ONES - a, ONES - b) == BitXor(a, b)
  {
    WidthIsExp2();
    ComplementXor(a, b, 32);
  }

  lemma ChecksumDifference(a: seq<u8>, b: seq<u8>)
    requires |a| == |b|
    ensures BitXor(Checksum(a) as nat, Checksum(b) as nat) == FeedBits(0, Difference(MessageBits(a), MessageBits(b)))
  {
    FeedBytesBound(ONES, a);
    FeedBytesBound(ONES, b);
    ComplementedXor(FeedBytes(ONES, a), FeedBytes(ONES, b));
    FeedBytesAreFeedBits(ONES, a);
    FeedBytesAreFeedBits(ONES, b);
    FeedBitsDifference(ONES, ONES, MessageBits(a), MessageBits(b));
    XorIsZero(ONES, ONES);
  }

  /** An unchanged header in front leaves no trace in the register. */
  lemma DifferenceBehindHeader(h: seq<u8>, a: seq<u8>, b: seq<u8>)
    requires |a| == |b|
    ensures FeedBits(0, Difference(MessageBits(h + a), MessageBits(h + b)))
      == FeedBits(0, Difference(MessageBits(a), MessageBits(b)))
  {
    hide MessageBits, FeedBits, Steps, Difference;
    var x, d := MessageBits(h), Difference(MessageBits(a), MessageBits(b));
    MessageBitsAppend(h, a);
    MessageBitsAppend(h, b);
    DifferenceAppend(x, MessageBits(a), MessageBits(b));
    FeedBitsAppend(0, Zeros(|x|), d);
    FeedZeros(0, Zeros(|x|));
    StepsOfZero(|x|);
  }

  lemma TrailerValue(ctrl: u8, cid: u16, payload: seq<u8>)
    requires |payload| <= 65531
    ensures FromBigEndian(Trailer(ctrl, cid, payload))
      == Checksum(Header(ctrl, cid, |payload| + CRC_LEN) + payload) as nat
  {
    assert Exp256(4) == 0x1_0000_0000;
    BigEndianRoundTrip(Checksum(Header(ctrl, cid, |payload| + CRC_LEN) + payload) as nat, 4);
  }

  /**
   * A changed payload with a changed trailer is accepted exactly when the change of the trailer, read as a number, is
   * what the register makes of the change of the payload.
   */
  lemma DamageAcceptedIff(ctrl: u8, cid: u16, sent: seq<u8>, got: seq<u8>, trailer: seq<u8>)
    requires |sent| == |got| <= 65531 && |trailer| == CRC_LEN
    ensures Finish(ctrl, cid, got + trailer) == Ok(Some(got))
      <==> BitXor(FromBigEndian(Trailer(ctrl, cid, sent)), FromBigEndian(trailer))
           == FeedBits(0, Difference(MessageBits(sent), MessageBits(got)))
  {
    var h := Header(ctrl, cid, |sent| + CRC_LEN);
    TrailerValue(ctrl, cid, sent);
    ChecksumDifference(h + sent, h + got);
    DifferenceBehindHeader(h, sent, got);
    XorCancels(Checksum(h + sent) as nat, FromBigEndian(trailer), Checksum(h + got) as nat);
    FinishOf(ctrl, cid, got, trailer);
  }

  lemma FinishOf(ctrl: u8, cid: u16, payload: seq<u8>, trailer: seq<u8>)
    requires |payload| <= 65531 && |trailer| == CRC_LEN
    ensures Finish(ctrl, cid, payload + trailer)
      == if FromBigEndian(trailer) == Checksum(Header(ctrl, cid, |payload| + CRC_LEN) + payload) as nat
         then Ok(Some(payload)) else Err
  {
    var content := payload + trailer;
    assert content[..|payload|] == payload && content[|payload|..] == trailer;
  }

  // ---- Bursts on one side of the boundary ----

  /** A burst in the payload alone, or any change of the trailer alone, is refused. */
  lemma OneSidedDamageIsRefused(ctrl: u8, cid: u16, sent: seq<u8>, got: seq<u8>, trailer: seq<u8>, start: nat)
    requires |sent| == |got| <= 65531 && |trailer| == CRC_LEN
    requires (sent != got && trailer == Trailer(ctrl, cid, sent) && WithinBurst(MessageBits(sent), MessageBits(got), start))
      || (sent == got && trailer != Trailer(ctrl, cid, sent))
    ensures Finish(ctrl, cid, got + trailer) == Err
  {
    if sent == got {
      FinishOf(ctrl, cid, got, trailer);
      TrailerValue(ctrl, cid, sent);
      BigEndianOf(trailer);
      BigEndianOf(Trailer(ctrl, cid, sent));
    } else {
      BurstRejected(ctrl, cid, sent, got, start);
    }
  }

  // ---- Bursts across the boundary ----

  function FlipTop(b: u8): u8 { if b >= 128 then b - 128 else b + 128 }

  lemma {:induction false} TopBit(x: nat, k: nat)
    requires x < Exp2(k)
    ensures Bits(x, k + 1) == Bits(x, k) + [false] && Bits(x + Exp2(k), k + 1) == Bits(x, k) + [true]
    decreases k
  {
    if k == 0 {
      assert Bits(0, 0) == [];
    } else {
      TopBit(x / 2, k - 1);
      var y := x + Exp2(k);
      assert y / 2 == x / 2 + Exp2(k - 1) && y % 2 == x % 2;
    }
  }

  lemma FlipTopBits(b: u8)
    ensures Difference(Bits(b as nat, 8), Bits(FlipTop(b) as nat, 8)) == Zeros(7) + [true]
  {
    hide Bits;
    var low := b as nat % 128;
    assert Exp2(7) == 128;
    TopBit(low, 7);
    var x, y := Bits(low, 7) + [false], Bits(low, 7) + [true];
    DifferenceAppend(Bits(low, 7), [false], [true]);
    DifferenceAppend(Bits(low, 7), [true], [false]);
    assert Difference([false], [true]) == [true] == Difference([true], [false]);
  }

  lemma ByteBits(b: u8)
    ensures MessageBits([b]) == Bits(b as nat, 8)
  {
    assert [b][1..] == [];
    assert Bits(b as nat, 8) + [] == Bits(b as nat, 8);
  }

  lemma DifferenceAppend(a: seq<bool>, x: seq<bool>, y: seq<bool>)
    requires |x| == |y|
    ensures Difference(a + x, a + y) == Zeros(|a|) + Difference(x, y)
  {
  }

  /** Flipping the last bit of a payload. */
  lemma LastBitFlipped(sent: seq<u8>, got: seq<u8>)
    requires sent != [] && got == sent[..|sent| - 1] + [FlipTop(sent[|sent| - 1])]
    ensures Difference(MessageBits(sent), MessageBits(got)) == Zeros(8 * |sent| - 1) + [true]
  {
    hide Bits, MessageBits, Difference;
    var n := |sent| - 1;
    var front, last := MessageBits(sent[..n]), sent[n];
    assert sent == sent[..n] + [last];
    MessageBitsAppend(sent[..n], [last]);
    MessageBitsAppend(sent[..n], [FlipTop(last)]);
    ByteBits(last);
    ByteBits(FlipTop(last));
    DifferenceAppend(front, Bits(last as nat, 8), Bits(FlipTop(last) as nat, 8));
    FlipTopBits(last);
    assert Zeros(|front|) + (Zeros(7) + [true]) == Zeros(8 * |sent| - 1) + [true];
  }

  lemma LastBitLeavesPoly(k: nat)
    ensures FeedBits(0, Zeros(k) + [true]) == POLY
  {
    FeedBitsAppend(0, Zeros(k), [true]);
    FeedZeros(0, Zeros(k));
    StepsOfZero(k);
    XorZero(1);
    XorZero(POLY);
    assert [true][1..] == [];
  }

  lemma {:induction false} BitsOfLow(x: nat, k: nat)
    ensures Bits(x % Exp2(k), k) == Bits(x, k)
    decreases k
  {
    if k == 0 {
    } else {
      BitsOfLow(x / 2, k - 1);
      LowHalves(x, Exp2(k - 1));
    }
  }

  lemma LowHalves(x: nat, m: nat)
    requires m > 0
    ensures x % (2 * m) / 2 == x / 2 % m && x % (2 * m) % 2 == x % 2
  {
    var q, r := x / 2 / m, x / 2 % m;
    assert x == q * (2 * m) + (2 * r + x % 2);
    NumberTheory.RemainderUnique(x, q, 2 * r + x % 2, 2 * m);
  }

  lemma LastTrailerBit(x: nat)
    ensures MessageBits(BigEndian(x, 4))[31] == Bits(x, 8)[7]
  {
    hide Bits, MessageBits, BigEndian;
    var front := BigEndian(x / 256, 3);
    BigEndianLast(x, 4);
    MessageBitsAppend(front, [(x % 256) as u8]);
    ByteBits((x % 256) as u8);
    assert Exp2(8) == 256;
    BitsOfLow(x, 8);
  }

  lemma BitsOfPolyByte()
    ensures Bits(0x20, 8)[7] == false
  {
    assert Exp2(7) == 128;
    TopBit(0x20, 7);
  }

  lemma PolyKeepsBitSeven(x: nat)
    ensures Bits(BitXor(x, POLY), 8)[7] == Bits(x, 8)[7]
  {
    hide Bits, BitXor;
    BitsOfXor(x, POLY, 8);
    assert Exp2(8) == 256;
    BitsOfLow(POLY, 8);
    BitsOfPolyByte();
  }

  lemma BurstAcross(a: seq<bool>, b: seq<bool>, t: seq<bool>, u: seq<bool>)
    requires 0 < |a| == |b| && |t| == |u| == 32
    requires Difference(a, b) == Zeros(|a| - 1) + [true] && t[31] == u[31]
    ensures WithinBurst(a + t, b + u, |a| - 1)
  {
    forall i | 0 <= i < |a| - 1 ensures a[i] == b[i] { assert !Difference(a, b)[i]; }
    forall i | |a| + 31 <= i < |a| + 32 ensures (a + t)[i] == (b + u)[i] { assert i - |a| == 31; }
  }

  /**
   * Across the boundary the checksum, whose bits are reflected and whose bytes are not, misses bursts. Whatever
   * non-empty payload was sent: flip its last bit and change the trailer by ED B8 83 20, all within 32 consecutive
   * bits, and the other payload is accepted.
   */
  lemma SpanningBurstIsAccepted(ctrl: u8, cid: u16, sent: seq<u8>) returns (got: seq<u8>, trailer: seq<u8>)
    requires 0 < |sent| <= 65531
    ensures |got| == |sent| && got != sent && |trailer| == CRC_LEN
    ensures WithinBurst(MessageBits(Content(ctrl, cid, sent)), MessageBits(got + trailer), 8 * |sent| - 1)
    ensures Finish(ctrl, cid, got + trailer) == Ok(Some(got))
  {
    hide MessageBits, Bits, BitXor, BigEndian, FromBigEndian, Finish, Checksum, FeedBits;
    var n := |sent| - 1;
    var crc := Checksum(Header(ctrl, cid, |sent| + CRC_LEN) + sent) as nat;
    got := sent[..n] + [FlipTop(sent[n])];
    trailer := BigEndian(BitXor(crc, POLY), 4);
    assert got[n] != sent[n];
    LastBitFlipped(sent, got);
    LastTrailerBit(crc);
    LastTrailerBit(BitXor(crc, POLY));
    PolyKeepsBitSeven(crc);
    MessageBitsAppend(sent, Trailer(ctrl, cid, sent));
    MessageBitsAppend(got, trailer);
    BurstAcross(MessageBits(sent), MessageBits(got), MessageBits(Trailer(ctrl, cid, sent)), MessageBits(trailer));
    PolyChangesTrailer(crc);
    TrailerValue(ctrl, cid, sent);
    LastBitLeavesPoly(8 * |sent| - 1);
    DamageAcceptedIff(ctrl, cid, sent, got, trailer);
  }

  lemma PolyChangesTrailer(crc: nat)
    requires crc < WIDTH
    ensures BitXor(crc, FromBigEndian(BigEndian(BitXor(crc, POLY), 4))) == POLY
  {
    WidthIsExp2();
    XorBound(crc, POLY, 32);
    assert Exp256(4) == 0x1_0000_0000;
    BigEndianRoundTrip(BitXor(crc, POLY), 4);
    XorAssoc(crc, crc, POLY);
    XorIsZero(crc, crc);
    XorZero(POLY);
  }
}
