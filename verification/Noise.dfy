/** The handshake: host and responder over ideal primitives. */
module Noise {
  import opened Results
  import opened Words

  // ---- Symbolic values ----

  /** What the primitives produce. Hashes and MACs are free constructors. A hash here always covers a 32-byte value
      and one further part, so the concatenation that is really hashed determines both. */
  datatype Term =
    | Bytes(bytes: seq<u8>)
    | Cat(left: Term, right: Term)
    | Hash(first: Term, second: Term)
    | Hmac(macKey: Term, message: Term)
    | Point(exponent: nat)
    | Sealed(key: Term, iv: seq<u8>, ad: Term, text: Term)

  function Size(t: Term): nat {
    match t
    case Bytes(b) => |b|
    case Cat(l, r) => Size(l) + Size(r)
    case Hash(_, _) => 32
    case Hmac(_, _) => 32
    case Point(_) => 32
    case Sealed(_, _, _, text) => Size(text) + 16
  }

  /** A cyclic group of some order, the exponent that a 32-byte scalar or an arbitrary 32-byte point stands for, the
      encoding of the completion payload, and which payloads decode. */
  datatype Suite = Suite(order: nat, scalar: Term -> nat, log: Term -> nat,
                         encode: Option<seq<u8>> -> seq<u8>, decodes: Term -> bool)

  /** What is encoded decodes. */
  type Primitives = s: Suite | s.order > 0 && forall c :: s.decodes(Bytes(s.encode(c)))
    witness Suite(1, t => 0, t => 0, c => [], t => true)

  function Log(g: Primitives, p: Term): nat { if p.Point? then p.exponent else g.log(p) }

  function X25519(g: Primitives, scalar: Term, point: Term): Term {
    Point(g.scalar(scalar) * Log(g, point) % g.order)
  }

  function PublicKey(g: Primitives, scalar: Term): Term { Point(g.scalar(scalar) % g.order) }

  function Hkdf(ck: Term, input: Term): (Term, Term) {
    var temp := Hmac(ck, input);
    var out1 := Hmac(temp, Bytes([1]));
    (out1, Hmac(temp, Cat(out1, Bytes([2]))))
  }

  function Open(key: Term, iv: seq<u8>, ad: Term, ct: Term): Result<Term> {
    if ct.Sealed? && ct.key == key && ct.iv == iv && ct.ad == ad then Ok(ct.text) else Err
  }

  const IV_ZERO: seq<u8> := [0, 0, 0, 0, 0, 0, 0, 0, 0, 0, 0, 0]
  const IV_ONE: seq<u8> := [0, 0, 0, 0, 0, 0, 0, 0, 0, 0, 0, 1]

  /** "Noise_XX_25519_AESGCM_SHA256" and four zero bytes. */
  const PROTOCOL_NAME: seq<u8> := [
    0x4E, 0x6F, 0x69, 0x73, 0x65, 0x5F, 0x58, 0x58, 0x5F, 0x32, 0x35, 0x35, 0x31, 0x39, 0x5F, 0x41,
    0x45, 0x53, 0x47, 0x43, 0x4D, 0x5F, 0x53, 0x48, 0x41, 0x32, 0x35, 0x36, 0, 0, 0, 0]

  const EMPTY: Term := Bytes([])

  // ---- The two machines ----

  datatype InitRequest = InitRequest(ephemeral: Term, tryToUnlock: u8)
  datatype InitResponse = InitResponse(ephemeral: Term, encStatic: Term, tag: Term)
  datatype CompletionRequest = CompletionRequest(encHostStatic: Term, encPayload: Term)

  datatype HostInput = HostInput(deviceProperties: seq<u8>, tryToUnlock: u8, staticPriv: Term,
                                 credential: Option<seq<u8>>, ephemeralPriv: Term)
  datatype HostState = HostState(h: Term, ck: Term, maskedStatic: Term)
  datatype SessionKeys = SessionKeys(keyRequest: Term, keyResponse: Term, nonceRequest: u64, nonceResponse: u64,
                                     trezorState: Term, maskedStatic: Term, handshakeHash: Term, hostStatic: Term)

  datatype DeviceInput = DeviceInput(deviceProperties: seq<u8>, staticPriv: Term, ephemeralPriv: Term)
  datatype DeviceState = DeviceState(h: Term, ck: Term, k: Term)
  datatype DeviceResult = DeviceResult(response: Term, hostStatic: Term, keyRequest: Term, keyResponse: Term)

  /** The transcript hash once both ephemeral keys are known. */
  function Transcript(properties: seq<u8>, hostEphemeral: Term, unlock: u8, trezorEphemeral: Term): Term {
    Hash(Hash(Hash(Hash(Bytes(PROTOCOL_NAME), Bytes(properties)), hostEphemeral), Bytes([unlock])), trezorEphemeral)
  }

  function HostInit(g: Primitives, i: HostInput): InitRequest {
    InitRequest(PublicKey(g, i.ephemeralPriv), i.tryToUnlock)
  }

  function HostRead(g: Primitives, i: HostInput, resp: InitResponse): Result<(HostState, CompletionRequest)> {
    if Size(resp.ephemeral) != 32 || Size(resp.encStatic) != 48 || Size(resp.tag) != 16 then Err
    else
      var h0 := Transcript(i.deviceProperties, PublicKey(g, i.ephemeralPriv), i.tryToUnlock, resp.ephemeral);
      var (ck1, k1) := Hkdf(Bytes(PROTOCOL_NAME), X25519(g, i.ephemeralPriv, resp.ephemeral));
      var opened1 := Open(k1, IV_ZERO, h0, resp.encStatic);
      if opened1.Err? || Size(opened1.value) != 32 then Err
      else
        var h1 := Hash(h0, resp.encStatic);
        var (ck2, k2) := Hkdf(ck1, X25519(g, i.ephemeralPriv, opened1.value));
        var opened2 := Open(k2, IV_ZERO, h1, resp.tag);
        if opened2.Err? || Size(opened2.value) != 0 then Err
        else Ok(HostAnswer(g, i, resp, Hash(h1, resp.tag), ck2, k2, opened1.value))
  }

  /** The completion request, once the response has been accepted. */
  function HostAnswer(g: Primitives, i: HostInput, resp: InitResponse, h2: Term, ck2: Term, k2: Term, masked: Term)
    : (HostState, CompletionRequest)
  {
    var encHostStatic := Sealed(k2, IV_ONE, h2, PublicKey(g, i.staticPriv));
    var h3 := Hash(h2, encHostStatic);
    var (ck3, k3) := Hkdf(ck2, X25519(g, i.staticPriv, resp.ephemeral));
    var encPayload := Sealed(k3, IV_ZERO, h3, Bytes(g.encode(i.credential)));
    (HostState(Hash(h3, encPayload), ck3, masked), CompletionRequest(encHostStatic, encPayload))
  }

  function HostFinish(g: Primitives, i: HostInput, s: HostState, resp: Term): Result<SessionKeys> {
    var (keyRequest, keyResponse) := Hkdf(s.ck, EMPTY);
    var state := Open(keyResponse, IV_ZERO, EMPTY, resp);
    if state.Err? then Err
    else Ok(SessionKeys(keyRequest, keyResponse, 0, 1, state.value, s.maskedStatic, s.h, PublicKey(g, i.staticPriv)))
  }

  function Mask(g: Primitives, d: DeviceInput): Term {
    Hash(PublicKey(g, d.staticPriv), PublicKey(g, d.ephemeralPriv))
  }

  function DeviceInit(g: Primitives, d: DeviceInput, req: InitRequest): (DeviceState, InitResponse) {
    var ephemeral := PublicKey(g, d.ephemeralPriv);
    var h0 := Transcript(d.deviceProperties, req.ephemeral, req.tryToUnlock, ephemeral);
    var (ck1, k1) := Hkdf(Bytes(PROTOCOL_NAME), X25519(g, d.ephemeralPriv, req.ephemeral));
    var encStatic := Sealed(k1, IV_ZERO, h0, X25519(g, Mask(g, d), PublicKey(g, d.staticPriv)));
    var h1 := Hash(h0, encStatic);
    var (ck2, k2) := Hkdf(ck1, X25519(g, Mask(g, d), X25519(g, d.staticPriv, req.ephemeral)));
    var tag := Sealed(k2, IV_ZERO, h1, EMPTY);
    (DeviceState(Hash(h1, tag), ck2, k2), InitResponse(ephemeral, encStatic, tag))
  }

  /** The hash and key under which the completion payload travels. */
  function DevicePayload(g: Primitives, d: DeviceInput, s: DeviceState, req: CompletionRequest): Result<Term> {
    var hostStatic := Open(s.k, IV_ONE, s.h, req.encHostStatic);
    if hostStatic.Err? || Size(hostStatic.value) != 32 then Err
    else
      var (ck3, k3) := Hkdf(s.ck, X25519(g, d.ephemeralPriv, hostStatic.value));
      Open(k3, IV_ZERO, Hash(s.h, req.encHostStatic), req.encPayload)
  }

  /** Err stands for the responder's panics. */
  function DeviceComplete(g: Primitives, d: DeviceInput, s: DeviceState, req: CompletionRequest): Result<DeviceResult> {
    var hostStatic := Open(s.k, IV_ONE, s.h, req.encHostStatic);
    var payload := DevicePayload(g, d, s, req);
    if hostStatic.Err? || Size(hostStatic.value) != 32 || payload.Err? || !g.decodes(payload.value) then Err
    else
      var (ck3, _) := Hkdf(s.ck, X25519(g, d.ephemeralPriv, hostStatic.value));
      var (keyRequest, keyResponse) := Hkdf(ck3, EMPTY);
      Ok(DeviceResult(Sealed(keyResponse, IV_ZERO, EMPTY, Bytes([2])), hostStatic.value, keyRequest, keyResponse))
  }

  // ---- The machines as objects ----

  class HostHandshake {
    const g: Primitives
    const deviceProperties: seq<u8>
    const tryToUnlock: u8
    const ephemeralPriv: Term
    const ephemeralPub: Term
    const staticPriv: Term
    const staticPub: Term
    const credential: Option<seq<u8>>
    var h: Term
    var ck: Term
    var maskedStatic: Term

    ghost function Input(): HostInput {
      HostInput(deviceProperties, tryToUnlock, staticPriv, credential, ephemeralPriv)
    }

    ghost predicate Valid() { ephemeralPub == PublicKey(g, ephemeralPriv) && staticPub == PublicKey(g, staticPriv) }

    ghost function State(): HostState
      reads this
    {
      HostState(h, ck, maskedStatic)
    }

    constructor WithEphemeral(g: Primitives, i: HostInput)
      ensures Valid() && Input() == i && this.g == g
    {
      this.g := g;
      deviceProperties, tryToUnlock, credential := i.deviceProperties, i.tryToUnlock, i.credential;
      ephemeralPriv, ephemeralPub := i.ephemeralPriv, PublicKey(g, i.ephemeralPriv);
      staticPriv, staticPub := i.staticPriv, PublicKey(g, i.staticPriv);
      var zero := Bytes(seq(32, k => 0));
      h, ck, maskedStatic := zero, zero, zero;
    }

    method InitRequestPayload() returns (req: InitRequest)
      requires Valid()
      ensures req == HostInit(g, Input())
    {
      req := InitRequest(ephemeralPub, tryToUnlock);
    }

    /** A refused response leaves the handshake as it was. */
    method ReadInitResponse(resp: InitResponse) returns (r: Result<CompletionRequest>)
      requires Valid()
      modifies this
      ensures match HostRead(g, Input(), resp)
              case Ok((s, c)) => r == Ok(c) && State() == s
              case Err => r == Err && State() == old(State())
    {
      hide X25519, Open, Size, Hkdf;
      if Size(resp.ephemeral) != 32 || Size(resp.encStatic) != 48 || Size(resp.tag) != 16 { return Err; }
      var hash := Hash(Bytes(PROTOCOL_NAME), Bytes(deviceProperties));
      hash := Hash(hash, ephemeralPub);
      hash := Hash(hash, Bytes([tryToUnlock]));
      hash := Hash(hash, resp.ephemeral);
      var (ck1, k1) := Hkdf(Bytes(PROTOCOL_NAME), X25519(g, ephemeralPriv, resp.ephemeral));
      var masked := Open(k1, IV_ZERO, hash, resp.encStatic);
      if masked.Err? || Size(masked.value) != 32 { return Err; }
      hash := Hash(hash, resp.encStatic);
      var (ck2, k2) := Hkdf(ck1, X25519(g, ephemeralPriv, masked.value));
      var empty := Open(k2, IV_ZERO, hash, resp.tag);
      if empty.Err? || Size(empty.value) != 0 { return Err; }
      hash := Hash(hash, resp.tag);
      var encHostStatic := Sealed(k2, IV_ONE, hash, staticPub);
      hash := Hash(hash, encHostStatic);
      var (ck3, k3) := Hkdf(ck2, X25519(g, staticPriv, resp.ephemeral));
      var encPayload := Sealed(k3, IV_ZERO, hash, Bytes(g.encode(credential)));
      hash := Hash(hash, encPayload);
      h, ck, maskedStatic := hash, ck3, masked.value;
      r := Ok(CompletionRequest(encHostStatic, encPayload));
    }

    method ReadCompletionResponse(resp: Term) returns (r: Result<SessionKeys>)
      requires Valid()
      ensures r == HostFinish(g, Input(), State(), resp)
    {
      var (keyRequest, keyResponse) := Hkdf(ck, EMPTY);
      var trezorState := Open(keyResponse, IV_ZERO, EMPTY, resp);
      if trezorState.Err? { return Err; }
      r := Ok(SessionKeys(keyRequest, keyResponse, 0, 1, trezorState.value, maskedStatic, h, staticPub));
    }
  }

  class TrezorResponder {
    const g: Primitives
    const deviceProperties: seq<u8>
    const staticPriv: Term
    const staticPub: Term
    var ephemeralPriv: Term
    var h: Term
    var ck: Term
    var k: Term

    ghost function Input(): DeviceInput
      reads this
    {
      DeviceInput(deviceProperties, staticPriv, ephemeralPriv)
    }

    ghost predicate Valid() { staticPub == PublicKey(g, staticPriv) }

    ghost function State(): DeviceState
      reads this
    {
      DeviceState(h, ck, k)
    }

    constructor (g: Primitives, deviceProperties: seq<u8>, staticPriv: Term)
      ensures Valid() && this.g == g && this.deviceProperties == deviceProperties && this.staticPriv == staticPriv
    {
      this.g := g;
      this.deviceProperties, this.staticPriv, staticPub := deviceProperties, staticPriv, PublicKey(g, staticPriv);
      var zero := Bytes(seq(32, i => 0));
      ephemeralPriv, h, ck, k := zero, zero, zero, zero;
    }

    /** The fresh ephemeral scalar is a parameter. */
    method HandleInitRequest(req: InitRequest, random: Term) returns (resp: InitResponse)
      requires Valid()
      modifies this
      ensures Input() == DeviceInput(deviceProperties, staticPriv, random)
      ensures (State(), resp) == DeviceInit(g, Input(), req)
    {
      ephemeralPriv := random;
      var ephemeralPub := PublicKey(g, ephemeralPriv);
      var hash := Hash(Bytes(PROTOCOL_NAME), Bytes(deviceProperties));
      hash := Hash(hash, req.ephemeral);
      hash := Hash(hash, Bytes([req.tryToUnlock]));
      hash := Hash(hash, ephemeralPub);
      var (ck1, ka) := Hkdf(Bytes(PROTOCOL_NAME), X25519(g, ephemeralPriv, req.ephemeral));
      var mask := Hash(staticPub, ephemeralPub);
      var masked := X25519(g, mask, staticPub);
      var encStatic := Sealed(ka, IV_ZERO, hash, masked);
      hash := Hash(hash, encStatic);
      var (ck2, kb) := Hkdf(ck1, X25519(g, mask, X25519(g, staticPriv, req.ephemeral)));
      var tag := Sealed(kb, IV_ZERO, hash, EMPTY);
      hash := Hash(hash, tag);
      h, ck, k := hash, ck2, kb;
      resp := InitResponse(ephemeralPub, encStatic, tag);
    }

    method HandleCompletionRequest(req: CompletionRequest) returns (r: Result<DeviceResult>)
      requires Valid()
      ensures r == DeviceComplete(g, Input(), State(), req)
    {
      var hostStatic := Open(k, IV_ONE, h, req.encHostStatic);
      if hostStatic.Err? || Size(hostStatic.value) != 32 { return Err; }
      var hash := Hash(h, req.encHostStatic);
      var (ck3, kc) := Hkdf(ck, X25519(g, ephemeralPriv, hostStatic.value));
      var payload := Open(kc, IV_ZERO, hash, req.encPayload);
      if payload.Err? || !g.decodes(payload.value) { return Err; }
      var (keyRequest, keyResponse) := Hkdf(ck3, EMPTY);
      var response := Sealed(keyResponse, IV_ZERO, EMPTY, Bytes([2]));
      r := Ok(DeviceResult(response, hostStatic.value, keyRequest, keyResponse));
    }
  }
}
