/** The encrypted session: nonces, an ideal AEAD, and the application message header. */
module Session {
  import opened Results
  import opened Words

  /** A transport payload: handshake bytes, or a ciphertext of the ideal AEAD. */
  datatype Body<K> = Plain(bytes: seq<u8>) | Sealed(key: K, iv: seq<u8>, text: seq<u8>)

  function AeadOpen<K(==)>(key: K, iv: seq<u8>, body: Body<K>): Result<seq<u8>> {
    if body.Sealed? && body.key == key && body.iv == iv then Ok(body.text) else Err
  }

  // ---- IVs ----

  /** Twelve bytes: four zeros and the nonce, big-endian. */
  function IvFromNonce(nonce: u64): (iv: seq<u8>)
    ensures |iv| == 12
  {
    [0, 0, 0, 0] + BigEndian(nonce as nat, 8)
  }

  lemma IvIsInjective(m: u64, n: u64)
    requires IvFromNonce(m) == IvFromNonce(n)
    ensures m == n
  {
    assert Exp256(8) == 0x1_0000_0000_0000_0000;
    BigEndianRoundTrip(m as nat, 8);
    BigEndianRoundTrip(n as nat, 8);
    assert IvFromNonce(m)[4..] == BigEndian(m as nat, 8);
    assert IvFromNonce(n)[4..] == BigEndian(n as nat, 8);
  }

  /** The twelve bytes for every nonce. */
  lemma IvIsWritten(nonce: u64)
    ensures var n := nonce as nat;
      IvFromNonce(nonce)
      == [0, 0, 0, 0, (n / 0x100_0000_0000_0000) as u8, (n / 0x1_0000_0000_0000 % 0x100) as u8,
          (n / 0x100_0000_0000 % 0x100) as u8, (n / 0x1_0000_0000 % 0x100) as u8, (n / 0x100_0000 % 0x100) as u8,
          (n / 0x1_0000 % 0x100) as u8, (n / 0x100 % 0x100) as u8, (n % 0x100) as u8]
  {
    var n := nonce as nat;
    hide BigEndian;
    BigEndianLastFour(n, 8);
    BigEndianLastFour(n / 0x1_0000_0000, 4);
    Shifted(n);
  }

  lemma Shifted(n: nat)
    ensures var h := n / 0x1_0000_0000;
      h / 0x100_0000 == n / 0x100_0000_0000_0000 && h / 0x1_0000 == n / 0x1_0000_0000_0000
      && h / 0x100 == n / 0x100_0000_0000
  {
  }

  // ---- Sessions ----

  /** Adding one to a 64-bit counter, as a release build does: the last value wraps to zero. */
  function NextNonce(n: u64): u64 {
    if n == 0xFFFF_FFFF_FFFF_FFFF then 0 else n + 1
  }

  /** The counter that started at `first`, after k messages. */
  function NonceAfter(first: u64, k: nat): u64 {
    if k == 0 then first else NextNonce(NonceAfter(first, k - 1))
  }

  lemma NextResidue(n: u64, x: nat)
    requires n as int == x % 0x1_0000_0000_0000_0000
    ensures NextNonce(n) as int == (x + 1) % 0x1_0000_0000_0000_0000
  {
  }

  lemma {:induction false} NonceIsCount(first: u64, k: nat)
    ensures NonceAfter(first, k) as int == (first as int + k) % 0x1_0000_0000_0000_0000
  {
    if k == 0 {
    } else {
      NonceIsCount(first, k - 1);
      NextResidue(NonceAfter(first, k - 1), first as int + (k - 1));
    }
  }

  /** The state of one endpoint: a key and a counter in each direction. */
  datatype Endpoint<K> = Endpoint(keySend: K, keyRecv: K, nonceSend: u64, nonceRecv: u64)

  function Seal<K>(e: Endpoint<K>, payload: seq<u8>): (Endpoint<K>, Body<K>) {
    (e.(nonceSend := NextNonce(e.nonceSend)), Sealed(e.keySend, IvFromNonce(e.nonceSend), payload))
  }

  function Open<K(==)>(e: Endpoint<K>, ct: Body<K>): (Endpoint<K>, Result<seq<u8>>) {
    var r := AeadOpen(e.keyRecv, IvFromNonce(e.nonceRecv), ct);
    (if r.Ok? then e.(nonceRecv := NextNonce(e.nonceRecv)) else e, r)
  }

  /** The host side of a finished handshake: requests from nonce 0, responses from nonce 1. */
  function FromHandshake<K>(keyRequest: K, keyResponse: K): Endpoint<K> {
    Endpoint(keyRequest, keyResponse, 0, 1)
  }

  class Session<K(==)> {
    var keySend: K
    var keyRecv: K
    var nonceSend: u64
    var nonceRecv: u64

    ghost function State(): Endpoint<K>
      reads this
    {
      Endpoint(keySend, keyRecv, nonceSend, nonceRecv)
    }

    constructor (keySend: K, keyRecv: K, nonceSend: u64, nonceRecv: u64)
      ensures State() == Endpoint(keySend, keyRecv, nonceSend, nonceRecv)
    {
      this.keySend := keySend;
      this.keyRecv := keyRecv;
      this.nonceSend := nonceSend;
      this.nonceRecv := nonceRecv;
    }

    method SealMessage(payload: seq<u8>) returns (ct: Body<K>)
      modifies this`nonceSend
      ensures (State(), ct) == Seal(old(State()), payload)
    {
      ct := Sealed(keySend, IvFromNonce(nonceSend), payload);
      nonceSend := NextNonce(nonceSend);
    }

    /** The counter moves only when the ciphertext opens. */
    method OpenMessage(ct: Body<K>) returns (r: Result<seq<u8>>)
      modifies this`nonceRecv
      ensures (State(), r) == Open(old(State()), ct)
      ensures r.Err? ==> State() == old(State())
    {
      r := AeadOpen(keyRecv, IvFromNonce(nonceRecv), ct);
      if r.Err? { return; }
      nonceRecv := NextNonce(nonceRecv);
    }
  }

  /** A ciphertext opens exactly under the key and at the nonce it was sealed with. */
  lemma OpensOnlyAtItsNonce<K>(key: K, m: u64, other: K, n: u64, text: seq<u8>)
    ensures AeadOpen(other, IvFromNonce(n), Sealed(key, IvFromNonce(m), text))
      == (if other == key && m == n then Ok(text) else Err)
  {
    if IvFromNonce(m) == IvFromNonce(n) { IvIsInjective(m, n); }
  }

  // ---- Application messages ----

  function EncodeAppMessage(sessionId: u8, messageType: u16, protobuf: seq<u8>): seq<u8> {
    [sessionId] + BigEndian(messageType as nat, 2) + protobuf
  }

  function DecodeAppMessage(payload: seq<u8>): Result<(u8, u16, seq<u8>)> {
    if |payload| < 3 then Err
    else Ok((payload[0], (payload[1] as int * 256 + payload[2] as int) as u16, payload[3..]))
  }

  /** The three bytes in front of every message. */
  lemma AppMessageIsWritten(sessionId: u8, messageType: u16, protobuf: seq<u8>)
    ensures EncodeAppMessage(sessionId, messageType, protobuf)
      == [sessionId, (messageType as int / 256) as u8, (messageType as int % 256) as u8] + protobuf
  {
    BigEndianTwo(messageType as nat);
  }

  /** Decoding inverts encoding, and every decodable payload is an encoding. */
  lemma AppMessageRoundTrip(sessionId: u8, messageType: u16, protobuf: seq<u8>)
    ensures DecodeAppMessage(EncodeAppMessage(sessionId, messageType, protobuf)) == Ok((sessionId, messageType, protobuf))
  {
    var b := BigEndian(messageType as nat, 2);
    BigEndianTwo(messageType as nat);
    var e := EncodeAppMessage(sessionId, messageType, protobuf);
    assert e[1] == b[0] && e[2] == b[1] && e[3..] == protobuf;
  }

  lemma DecodedIsEncoding(payload: seq<u8>)
    ensures match DecodeAppMessage(payload)
            case Ok(m) => EncodeAppMessage(m.0, m.1, m.2) == payload
            case Err => |payload| < 3
  {
    if |payload| >= 3 {
      var x := payload[1] as int * 256 + payload[2] as int;
      BigEndianTwo(x);
      assert payload == [payload[0]] + [payload[1], payload[2]] + payload[3..];
    }
  }
}
