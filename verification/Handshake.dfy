/** What a handshake run establishes. */
module Handshake {
  import opened Results
  import opened Words
  import opened Noise
  import N = NumberTheory
  import S = Session

  // ---- Exponents commute ----

  lemma ModFactor(a: nat, b: nat, q: nat)
    requires q > 0
    ensures a * (b % q) % q == a * b % q
  {
    var t := b / q;
    assert a * b == a * (b % q) + a * t * q by { assert b == b % q + t * q; }
    N.ModShift(a * (b % q), a * t, q);
  }

  lemma DhCommutes(g: Primitives, a: Term, b: Term)
    ensures X25519(g, a, PublicKey(g, b)) == X25519(g, b, PublicKey(g, a))
  {
    var x, y := g.scalar(a), g.scalar(b);
    ModFactor(x, y, g.order);
    ModFactor(y, x, g.order);
  }

  /** e (m S) = m (s E). */
  lemma MaskedDhCommutes(g: Primitives, e: Term, m: Term, s: Term)
    ensures X25519(g, e, X25519(g, m, PublicKey(g, s))) == X25519(g, m, X25519(g, s, PublicKey(g, e)))
  {
    var x, y, z := g.scalar(e), g.scalar(m), g.scalar(s);
    ModFactor(y, z, g.order);
    ModFactor(x, y * z, g.order);
    ModFactor(z, x, g.order);
    ModFactor(y, z * x, g.order);
    assert x * (y * z) == y * (z * x);
  }

  // ---- Agreement ----

  function MaskedStatic(g: Primitives, d: DeviceInput): Term { X25519(g, Mask(g, d), PublicKey(g, d.staticPriv)) }

  /** The host sits with the same device, at the same channel, that the responder answered. */
  ghost predicate SameRun(g: Primitives, i: HostInput, d: DeviceInput, req: InitRequest) {
    i.deviceProperties == d.deviceProperties && req == HostInit(g, i)
  }

  /** Reading an untampered response, the host reaches the responder's transcript hash, chaining key and key. */
  lemma ResponseAgreement(g: Primitives, i: HostInput, d: DeviceInput)
    requires i.deviceProperties == d.deviceProperties
    ensures var (s, resp) := DeviceInit(g, d, HostInit(g, i));
      HostRead(g, i, resp) == Ok(HostAnswer(g, i, resp, s.h, s.ck, s.k, MaskedStatic(g, d)))
  {
    DhCommutes(g, d.ephemeralPriv, i.ephemeralPriv);
    MaskedDhCommutes(g, i.ephemeralPriv, Mask(g, d), d.staticPriv);
    var resp := DeviceInit(g, d, HostInit(g, i)).1;
    assert Size(MaskedStatic(g, d)) == 32 && Size(EMPTY) == 0;
    assert Size(resp.encStatic) == 48 && Size(resp.tag) == 16;
  }

  lemma CompletionAgreement(g: Primitives, i: HostInput, d: DeviceInput, s: DeviceState, resp: InitResponse, m: Term)
    requires resp.ephemeral == PublicKey(g, d.ephemeralPriv)
    ensures var (hs, req) := HostAnswer(g, i, resp, s.h, s.ck, s.k, m);
      DevicePayload(g, d, s, req) == Ok(Bytes(g.encode(i.credential)))
      && DeviceComplete(g, d, s, req).Ok?
      && (var r := DeviceComplete(g, d, s, req).value;
          r.hostStatic == PublicKey(g, i.staticPriv)
          && (r.keyRequest, r.keyResponse) == Hkdf(hs.ck, EMPTY)
          && r.response == Sealed(r.keyResponse, IV_ZERO, EMPTY, Bytes([2])))
  {
    DhCommutes(g, i.staticPriv, d.ephemeralPriv);
  }

  /** One untampered exchange, from both ends. */
  datatype Exchange = Exchange(device: DeviceState, response: InitResponse, host: HostState, request: CompletionRequest,
                               result: DeviceResult, keys: SessionKeys)

  ghost predicate IsExchange(g: Primitives, i: HostInput, d: DeviceInput, x: Exchange) {
    DeviceInit(g, d, HostInit(g, i)) == (x.device, x.response)
    && HostRead(g, i, x.response) == Ok((x.host, x.request))
    && DeviceComplete(g, d, x.device, x.request) == Ok(x.result)
    && HostFinish(g, i, x.host, x.result.response) == Ok(x.keys)
  }

  /** Every untampered exchange completes, and leaves both ends with the same secrets: whatever the scalars, the
      credential, the unlock byte and the properties. */
  lemma Agreement(g: Primitives, i: HostInput, d: DeviceInput) returns (x: Exchange)
    requires i.deviceProperties == d.deviceProperties
    ensures IsExchange(g, i, d, x)
    ensures x.result.keyRequest == x.keys.keyRequest && x.result.keyResponse == x.keys.keyResponse
    ensures x.result.hostStatic == x.keys.hostStatic == PublicKey(g, i.staticPriv)
    ensures x.keys.maskedStatic == MaskedStatic(g, d) && x.keys.trezorState == Bytes([2])
    ensures x.keys.nonceRequest == 0 && x.keys.nonceResponse == 1
    ensures DevicePayload(g, d, x.device, x.request) == Ok(Bytes(g.encode(i.credential)))
    ensures x.keys.handshakeHash == Hash(Hash(x.device.h, x.request.encHostStatic), x.request.encPayload)
  {
    var (s, resp) := DeviceInit(g, d, HostInit(g, i));
    ResponseAgreement(g, i, d);
    CompletionAgreement(g, i, d, s, resp, MaskedStatic(g, d));
    var (hs, req) := HostAnswer(g, i, resp, s.h, s.ck, s.k, MaskedStatic(g, d));
    var r := DeviceComplete(g, d, s, req).value;
    x := Exchange(s, resp, hs, req, r, HostFinish(g, i, hs, r.response).value);
  }

  // ---- Authentication ----

  /** The host accepts what a responder sealed, under any ephemeral key, exactly when both hashed the same
      properties, host key and unlock byte, and the ephemeral key is the responder's. */
  lemma ResponseAcceptedIff(g: Primitives, i: HostInput, d: DeviceInput, req: InitRequest, ephemeral: Term)
    ensures var sent := DeviceInit(g, d, req).1;
      HostRead(g, i, InitResponse(ephemeral, sent.encStatic, sent.tag)).Ok?
      <==> SameRun(g, i, d, req) && ephemeral == PublicKey(g, d.ephemeralPriv)
  {
    if SameRun(g, i, d, req) && ephemeral == PublicKey(g, d.ephemeralPriv) { ResponseAgreement(g, i, d); }
  }

  /** A tag taken from another run of any responder is accepted only if it is the very tag of this one. */
  lemma SplicedTagAcceptedIff(g: Primitives, i: HostInput, d: DeviceInput, req: InitRequest,
                              other: DeviceInput, otherReq: InitRequest)
    ensures var sent, foreign := DeviceInit(g, d, req).1, DeviceInit(g, other, otherReq).1;
      HostRead(g, i, sent.(tag := foreign.tag)).Ok? <==> SameRun(g, i, d, req) && foreign.tag == sent.tag
  {
    ResponseAcceptedIff(g, i, d, req, PublicKey(g, d.ephemeralPriv));
    if SameRun(g, i, d, req) { ResponseAgreement(g, i, d); }
  }

  /** The responder accepts a completion exactly when the host answered the response this responder sent it. */
  lemma CompletionAcceptedIff(g: Primitives, i: HostInput, d: DeviceInput, req: InitRequest, resp: InitResponse)
    requires HostRead(g, i, resp).Ok?
    ensures var (s, sent) := DeviceInit(g, d, req);
      DeviceComplete(g, d, s, HostRead(g, i, resp).value.1).Ok? <==> SameRun(g, i, d, req) && resp == sent
  {
    if SameRun(g, i, d, req) && resp == DeviceInit(g, d, req).1 {
      var _ := Agreement(g, i, d);
    }
  }

  // ---- No key and IV twice ----

  /** Sealing payloads one after another. */
  function SealAll<K>(e: S.Endpoint<K>, payloads: seq<seq<u8>>): (cts: seq<S.Body<K>>)
    ensures |cts| == |payloads|
    decreases |payloads|
  {
    if payloads == [] then []
    else
      var (e1, ct) := S.Seal(e, payloads[0]);
      [ct] + SealAll(e1, payloads[1..])
  }

  lemma {:induction false} SealAllUses<K>(e: S.Endpoint<K>, first: u64, done: nat, payloads: seq<seq<u8>>, k: nat)
    requires k < |payloads| && e.nonceSend == S.NonceAfter(first, done)
    ensures SealAll(e, payloads)[k]
      == S.Body.Sealed(e.keySend, S.IvFromNonce(S.NonceAfter(first, done + k)), payloads[k])
    decreases k
  {
    var e1 := S.Seal(e, payloads[0]).0;
    if k == 0 {
    } else {
      assert e1.nonceSend == S.NonceAfter(first, done + 1);
      SealAllUses(e1, first, done + 1, payloads[1..], k - 1);
      assert SealAll(e, payloads)[k] == SealAll(e1, payloads[1..])[k - 1];
    }
  }

  type Use = (Term, seq<u8>)

  ghost predicate SealedAt(t: Term, u: Use) { t.Sealed? && u == (t.key, t.iv) }

  /** What the five sealed parts of an exchange, and then the messages of both directions, were sealed with. */
  ghost predicate Uses(x: Exchange, requests: seq<seq<u8>>, responses: seq<seq<u8>>, us: seq<Use>) {
    var host := SealAll(S.FromHandshake(x.keys.keyRequest, x.keys.keyResponse), requests);
    var device := SealAll(S.Endpoint(x.result.keyResponse, x.result.keyRequest, 1, 0), responses);
    |us| == 5 + |requests| + |responses|
    && SealedAt(x.response.encStatic, us[0]) && SealedAt(x.response.tag, us[1])
    && SealedAt(x.request.encHostStatic, us[2]) && SealedAt(x.request.encPayload, us[3])
    && SealedAt(x.result.response, us[4])
    && (forall k :: 0 <= k < |requests| ==> host[k].Sealed? && us[5 + k] == (host[k].key, host[k].iv))
    && (forall k :: 0 <= k < |responses| ==>
          device[k].Sealed? && us[5 + |requests| + k] == (device[k].key, device[k].iv))
  }

  ghost predicate NoneTwice(us: seq<Use>) { forall j, k :: 0 <= j < k < |us| ==> us[j] != us[k] }

  /** The keys of the three handshake stages and of the two directions. */
  lemma KeysDiffer(name: Term, d1: Term, d2: Term, d3: Term)
    requires name.Bytes?
    ensures var (ck1, ka) := Hkdf(name, d1);
      var (ck2, kb) := Hkdf(ck1, d2);
      var (ck3, kc) := Hkdf(ck2, d3);
      var (kq, kr) := Hkdf(ck3, EMPTY);
      ka != kb && ka != kc && kb != kc && kq != kr && kq != ka && kq != kb && kq != kc && kr != ka && kr != kb && kr != kc
  {
  }

  const TURN: nat := 0x1_0000_0000_0000_0000

  function IvAt(first: u64, k: nat): seq<u8> { S.IvFromNonce(S.NonceAfter(first, k)) }

  datatype Keys = Keys(a: Term, b: Term, c: Term, request: Term, response: Term)

  ghost predicate AllDiffer(k: Keys) {
    k.a != k.b && k.a != k.c && k.b != k.c && k.request != k.response
    && k.request != k.a && k.request != k.b && k.request != k.c
    && k.response != k.a && k.response != k.b && k.response != k.c
  }

  /** Five uses in the handshake, then m requests from nonce 0 and n responses from nonce 1. */
  ghost predicate Layout(us: seq<Use>, ks: Keys, m: nat, n: nat) {
    |us| == 5 + m + n
    && us[0] == (ks.a, IV_ZERO) && us[1] == (ks.b, IV_ZERO) && us[2] == (ks.b, IV_ONE)
    && us[3] == (ks.c, IV_ZERO) && us[4] == (ks.response, IV_ZERO)
    && (forall k :: 5 <= k < 5 + m ==> us[k] == (ks.request, IvAt(0, k - 5)))
    && (forall k :: 5 + m <= k < 5 + m + n ==> us[k] == (ks.response, IvAt(1, k - 5 - m)))
  }

  lemma StagesAreLaidOut(g: Primitives, i: HostInput, d: DeviceInput, x: Exchange, us: seq<Use>) returns (ks: Keys)
    requires i.deviceProperties == d.deviceProperties && IsExchange(g, i, d, x)
    requires |us| >= 5 && SealedAt(x.response.encStatic, us[0]) && SealedAt(x.response.tag, us[1])
    requires SealedAt(x.request.encHostStatic, us[2]) && SealedAt(x.request.encPayload, us[3])
    requires SealedAt(x.result.response, us[4])
    ensures AllDiffer(ks) && ks.request == x.keys.keyRequest && ks.response == x.result.keyResponse
    ensures us[0] == (ks.a, IV_ZERO) && us[1] == (ks.b, IV_ZERO) && us[2] == (ks.b, IV_ONE)
    ensures us[3] == (ks.c, IV_ZERO) && us[4] == (ks.response, IV_ZERO)
  {
    var same := Agreement(g, i, d);
    assert same == x;
    ks := Keys(us[0].0, us[1].0, us[3].0, x.keys.keyRequest, x.keys.keyResponse);
    KeysDiffer(Bytes(PROTOCOL_NAME), X25519(g, d.ephemeralPriv, PublicKey(g, i.ephemeralPriv)),
               X25519(g, Mask(g, d), X25519(g, d.staticPriv, PublicKey(g, i.ephemeralPriv))),
               X25519(g, i.staticPriv, PublicKey(g, d.ephemeralPriv)));
  }

  lemma MessageUse(e: S.Endpoint<Term>, payloads: seq<seq<u8>>, k: nat)
    requires k < |payloads|
    ensures SealAll(e, payloads)[k].Sealed?
    ensures SealAll(e, payloads)[k].key == e.keySend && SealAll(e, payloads)[k].iv == IvAt(e.nonceSend, k)
  {
    SealAllUses(e, e.nonceSend, 0, payloads, k);
  }

  lemma RequestsAreLaidOut(x: Exchange, requests: seq<seq<u8>>, responses: seq<seq<u8>>, us: seq<Use>)
    requires Uses(x, requests, responses, us)
    ensures forall k :: 5 <= k < 5 + |requests| ==> us[k] == (x.keys.keyRequest, IvAt(0, k - 5))
  {
    forall k | 5 <= k < 5 + |requests| ensures us[k] == (x.keys.keyRequest, IvAt(0, k - 5)) {
      MessageUse(S.FromHandshake(x.keys.keyRequest, x.keys.keyResponse), requests, k - 5);
      assert us[5 + (k - 5)] == us[k];
    }
  }

  lemma ResponsesAreLaidOut(x: Exchange, requests: seq<seq<u8>>, responses: seq<seq<u8>>, us: seq<Use>)
    requires Uses(x, requests, responses, us)
    ensures var from := 5 + |requests|;
      forall k :: from <= k < from + |responses| ==> us[k] == (x.result.keyResponse, IvAt(1, k - from))
  {
    var from := 5 + |requests|;
    forall k | from <= k < from + |responses| ensures us[k] == (x.result.keyResponse, IvAt(1, k - from)) {
      MessageUse(S.Endpoint(x.result.keyResponse, x.result.keyRequest, 1, 0), responses, k - from);
      assert us[from + (k - from)] == us[k];
    }
  }

  lemma UsesAreLaidOut(g: Primitives, i: HostInput, d: DeviceInput, x: Exchange,
                       requests: seq<seq<u8>>, responses: seq<seq<u8>>, us: seq<Use>) returns (ks: Keys)
    requires i.deviceProperties == d.deviceProperties && IsExchange(g, i, d, x) && Uses(x, requests, responses, us)
    ensures AllDiffer(ks) && Layout(us, ks, |requests|, |responses|)
  {
    ks := StagesAreLaidOut(g, i, d, x, us);
    RequestsAreLaidOut(x, requests, responses, us);
    ResponsesAreLaidOut(x, requests, responses, us);
  }

  /** Two IVs of one counter are equal exactly when their positions are whole turns apart. */
  lemma IvsEqual(first: u64, j: nat, second: u64, k: nat)
    ensures IvAt(first, j) == IvAt(second, k) <==> (first as int + j) % TURN == (second as int + k) % TURN
  {
    S.NonceIsCount(first, j);
    S.NonceIsCount(second, k);
    var p, q := S.NonceAfter(first, j), S.NonceAfter(second, k);
    if IvAt(first, j) == IvAt(second, k) { S.IvIsInjective(p, q); }
  }

  lemma ConstantIvs()
    ensures IV_ZERO == IvAt(0, 0) && IV_ONE == IvAt(1, 0)
  {
    BigEndianSmall(0, 8);
    BigEndianSmall(1, 8);
  }

  /** Within one turn of the counters no two positions of the layout share key and IV. */
  lemma LayoutNeverRepeats(us: seq<Use>, ks: Keys, m: nat, n: nat, j: nat, k: nat)
    requires AllDiffer(ks) && Layout(us, ks, m, n) && m <= TURN && n <= TURN - 1 && j < k < |us|
    ensures us[j] != us[k]
  {
    hide IvAt;
    ConstantIvs();
    if j == 1 && k == 2 {
      IvsEqual(0, 0, 1, 0);
    } else if 5 <= j && k < 5 + m {
      IvsEqual(0, j - 5, 0, k - 5);
    } else if 5 + m <= j {
      IvsEqual(1, j - 5 - m, 1, k - 5 - m);
    } else if j == 4 && 5 + m <= k {
      IvsEqual(0, 0, 1, k - 5 - m);
    }
  }

  /** Past a turn they do: a counter comes back to a nonce already spent. */
  lemma LayoutRepeats(us: seq<Use>, ks: Keys, m: nat, n: nat, turn: nat) returns (j: nat, k: nat)
    requires Layout(us, ks, m, n) && (m > turn || n > turn - 1) && turn == TURN
    ensures j < k < |us| && us[j] == us[k]
  {
    hide IvAt;
    if m > turn {
      j, k := 5, 5 + turn;
      IvsEqual(0, 0, 0, turn);
    } else {
      j, k := 4, 5 + m + (turn - 1);
      ConstantIvs();
      IvsEqual(0, 0, 1, turn - 1);
    }
  }

  /** Over a handshake and any number of messages in both directions, no key is used twice with the same IV, up to
      exactly the message counts at which a 64-bit counter would start over. */
  lemma NoKeyAndIvTwice(g: Primitives, i: HostInput, d: DeviceInput, x: Exchange,
                        requests: seq<seq<u8>>, responses: seq<seq<u8>>, us: seq<Use>)
    requires i.deviceProperties == d.deviceProperties && IsExchange(g, i, d, x) && Uses(x, requests, responses, us)
    ensures NoneTwice(us) <==> |requests| <= TURN && |responses| <= TURN - 1
  {
    var ks := UsesAreLaidOut(g, i, d, x, requests, responses, us);
    var m, n := |requests|, |responses|;
    if m <= TURN && n <= TURN - 1 {
      forall j, k | 0 <= j < k < |us| ensures us[j] != us[k] { LayoutNeverRepeats(us, ks, m, n, j, k); }
    } else {
      var j, k := LayoutRepeats(us, ks, m, n, TURN);
    }
  }
}
