/** Control bytes of the framing layer, and the sequence and acknowledgement bits in them. */
module Control {
  import opened Words

  const CONTINUATION: u8 := 0x80
  const TRANSPORT_ERROR: u8 := 0x42
  const ACK: u8 := 0x20
  const HANDSHAKE_INIT_REQUEST: u8 := 0x00
  const HANDSHAKE_INIT_RESPONSE: u8 := 0x01
  const HANDSHAKE_COMPLETION_REQUEST: u8 := 0x02
  const HANDSHAKE_COMPLETION_RESPONSE: u8 := 0x03
  const ENCRYPTED_TRANSPORT: u8 := 0x04

  predicate IsContinuation(ctrl: u8) { ctrl >= CONTINUATION }

  /** The bit of value 16. Sequence bits are booleans; the source keeps them as 0 and 1. */
  function SeqOf(ctrl: u8): bool { ctrl / 16 % 2 == 1 }

  function WithSeq(base: u8, s: bool): u8 {
    if SeqOf(base) == s then base else if s then base + 16 else base - 16
  }

  /** The bit of value 8, which an acknowledgement carries. */
  function AckSeqOf(ctrl: u8): bool { ctrl / 8 % 2 == 1 }

  predicate IsAck(ctrl: u8) { (if AckSeqOf(ctrl) then ctrl - 8 else ctrl) == ACK }

  function AckFor(s: bool): u8 { if s then ACK + 8 else ACK }

  /** The control bytes of the five data messages, before a sequence bit is applied. */
  predicate IsDataBase(base: u8) { base <= 4 }

  /** A control byte that neither marks a continuation nor reports an error. */
  predicate IsOrdinary(ctrl: u8) { !IsContinuation(ctrl) && ctrl != TRANSPORT_ERROR }

  /** Sequence and acknowledgement bits read back as written, and the two kinds never mix. */
  lemma BitsReadBack(base: u8, s: bool)
    requires IsDataBase(base)
    ensures SeqOf(WithSeq(base, s)) == s && !IsAck(WithSeq(base, s)) && IsOrdinary(WithSeq(base, s))
    ensures IsAck(AckFor(s)) && AckSeqOf(AckFor(s)) == s && IsOrdinary(AckFor(s))
  {
  }

  /** Applying a sequence bit changes only that bit, and applying a byte's own bit changes nothing. */
  lemma SeqBitOnly(ctrl: u8, s: bool)
    ensures WithSeq(ctrl, s) % 16 == ctrl % 16 && WithSeq(ctrl, s) / 32 == ctrl / 32 && SeqOf(WithSeq(ctrl, s)) == s
    ensures WithSeq(ctrl, SeqOf(ctrl)) == ctrl
  {
    var high, low := ctrl as int / 32, ctrl as int % 16;
    assert ctrl as int == 32 * high + (if SeqOf(ctrl) then 16 else 0) + low;
  }

  /** The two acknowledgements, the error report, continuations, and the data messages of either sequence bit. */
  lemma ControlBytes(ctrl: u8)
    ensures IsAck(ctrl) <==> ctrl in {0x20, 0x28}
    ensures AckFor(false) == 0x20 && AckFor(true) == 0x28 && !AckSeqOf(0x20) && AckSeqOf(0x28)
    ensures IsOrdinary(ctrl) <==> ctrl < 0x80 && ctrl != 0x42
    ensures WithSeq(HANDSHAKE_INIT_REQUEST, false) == 0x00 && WithSeq(HANDSHAKE_INIT_REQUEST, true) == 0x10
    ensures WithSeq(HANDSHAKE_INIT_RESPONSE, false) == 0x01 && WithSeq(HANDSHAKE_INIT_RESPONSE, true) == 0x11
    ensures WithSeq(HANDSHAKE_COMPLETION_REQUEST, false) == 0x02 && WithSeq(HANDSHAKE_COMPLETION_REQUEST, true) == 0x12
    ensures WithSeq(HANDSHAKE_COMPLETION_RESPONSE, false) == 0x03
    ensures WithSeq(HANDSHAKE_COMPLETION_RESPONSE, true) == 0x13
    ensures WithSeq(ENCRYPTED_TRANSPORT, false) == 0x04 && WithSeq(ENCRYPTED_TRANSPORT, true) == 0x14
  {
  }

  /** The alternating bit after k flips from zero. */
  function Parity(k: nat): bool { k % 2 == 1 }
}
