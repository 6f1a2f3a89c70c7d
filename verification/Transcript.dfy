/** The handshake written out: what travels and the keys that come out of it, as terms of the primitives alone. */
module Transcript {
  import opened Results
  import opened Words
  import opened Noise

  /** The 28 characters of the protocol's name, and four zero bytes. */
  lemma NameIsWritten()
    ensures |PROTOCOL_NAME| == 32
    ensures forall i :: 0 <= i < 28 ==> PROTOCOL_NAME[i] as int == "Noise_XX_25519_AESGCM_SHA256"[i] as int
    ensures forall i :: 28 <= i < 32 ==> PROTOCOL_NAME[i] == 0
  {
  }

  /** The responder's answer to any request, part by part. */
  lemma ResponseIsWritten(g: Primitives, d: DeviceInput, req: InitRequest)
    ensures var name, zero := Bytes(PROTOCOL_NAME), seq<u8>(12, i => 0);
      var e, s := Point(g.scalar(d.ephemeralPriv) % g.order), Point(g.scalar(d.staticPriv) % g.order);
      var m := g.scalar(Hash(s, e));
      var log := if req.ephemeral.Point? then req.ephemeral.exponent else g.log(req.ephemeral);
      var h0 := Hash(Hash(Hash(Hash(name, Bytes(d.deviceProperties)), req.ephemeral), Bytes([req.tryToUnlock])), e);
      var t1 := Hmac(name, Point(g.scalar(d.ephemeralPriv) * log % g.order));
      var t2 := Hmac(Hmac(t1, Bytes([1])), Point(m * (g.scalar(d.staticPriv) * log % g.order) % g.order));
      var (state, sent) := DeviceInit(g, d, req);
      && sent.ephemeral == e
      && sent.encStatic == Sealed(Hmac(t1, Cat(Hmac(t1, Bytes([1])), Bytes([2]))), zero, h0,
                                  Point(m * (g.scalar(d.staticPriv) % g.order) % g.order))
      && sent.tag == Sealed(Hmac(t2, Cat(Hmac(t2, Bytes([1])), Bytes([2]))), zero, Hash(h0, sent.encStatic), Bytes([]))
      && state == DeviceState(Hash(Hash(h0, sent.encStatic), sent.tag), Hmac(t2, Bytes([1])),
                              Hmac(t2, Cat(Hmac(t2, Bytes([1])), Bytes([2]))))
  {
  }

  lemma RequestIsWritten(g: Primitives, i: HostInput)
    ensures HostInit(g, i) == InitRequest(Point(g.scalar(i.ephemeralPriv) % g.order), i.tryToUnlock)
  {
  }

  /** Which responses the host accepts, and what it sends back. */
  lemma CompletionIsWritten(g: Primitives, i: HostInput, resp: InitResponse)
    ensures var name, zero := Bytes(PROTOCOL_NAME), seq<u8>(12, k => 0);
      var e := Point(g.scalar(i.ephemeralPriv) % g.order);
      var masked := if resp.encStatic.Sealed? then resp.encStatic.text else Bytes([]);
      var log := if resp.ephemeral.Point? then resp.ephemeral.exponent else g.log(resp.ephemeral);
      var maskedLog := if masked.Point? then masked.exponent else g.log(masked);
      var h0 := Hash(Hash(Hash(Hash(name, Bytes(i.deviceProperties)), e), Bytes([i.tryToUnlock])), resp.ephemeral);
      var h2 := Hash(Hash(h0, resp.encStatic), resp.tag);
      var t1 := Hmac(name, Point(g.scalar(i.ephemeralPriv) * log % g.order));
      var t2 := Hmac(Hmac(t1, Bytes([1])), Point(g.scalar(i.ephemeralPriv) * maskedLog % g.order));
      var t3 := Hmac(Hmac(t2, Bytes([1])), Point(g.scalar(i.staticPriv) * log % g.order));
      var k2 := Hmac(t2, Cat(Hmac(t2, Bytes([1])), Bytes([2])));
      var r := HostRead(g, i, resp);
      && (r.Ok? <==>
            && Size(resp.ephemeral) == 32 && Size(resp.encStatic) == 48 && Size(resp.tag) == 16
            && resp.encStatic == Sealed(Hmac(t1, Cat(Hmac(t1, Bytes([1])), Bytes([2]))), zero, h0, masked)
            && Size(masked) == 32
            && resp.tag.Sealed? && resp.tag == Sealed(k2, zero, Hash(h0, resp.encStatic), resp.tag.text)
            && Size(resp.tag.text) == 0)
      && (r.Ok? ==>
            var (state, sent) := r.value;
            && sent.encHostStatic == Sealed(k2, seq<u8>(11, k => 0) + [1], h2, Point(g.scalar(i.staticPriv) % g.order))
            && sent.encPayload == Sealed(Hmac(t3, Cat(Hmac(t3, Bytes([1])), Bytes([2]))), zero,
                                         Hash(h2, sent.encHostStatic), Bytes(g.encode(i.credential)))
            && state == HostState(Hash(Hash(h2, sent.encHostStatic), sent.encPayload), Hmac(t3, Bytes([1])), masked))
  {
  }

  /** Which completion requests the responder accepts, its second answer, and both session keys. */
  lemma AnswerIsWritten(g: Primitives, d: DeviceInput, s: DeviceState, req: CompletionRequest)
    ensures var zero, one := seq<u8>(12, k => 0), seq<u8>(11, k => 0) + [1];
      var host := if req.encHostStatic.Sealed? then req.encHostStatic.text else Bytes([]);
      var payload := if req.encPayload.Sealed? then req.encPayload.text else Bytes([]);
      var log := if host.Point? then host.exponent else g.log(host);
      var t3 := Hmac(s.ck, Point(g.scalar(d.ephemeralPriv) * log % g.order));
      var split := Hmac(Hmac(t3, Bytes([1])), Bytes([]));
      var r := DeviceComplete(g, d, s, req);
      && (r.Ok? <==>
            && req.encHostStatic == Sealed(s.k, one, s.h, host) && Size(host) == 32
            && req.encPayload == Sealed(Hmac(t3, Cat(Hmac(t3, Bytes([1])), Bytes([2]))), zero,
                                        Hash(s.h, req.encHostStatic), payload)
            && g.decodes(payload))
      && (r.Ok? ==>
            && r.value.keyRequest == Hmac(split, Bytes([1]))
            && r.value.keyResponse == Hmac(split, Cat(Hmac(split, Bytes([1])), Bytes([2])))
            && r.value.response == Sealed(r.value.keyResponse, zero, Bytes([]), Bytes([2]))
            && r.value.hostStatic == host)
  {
  }

  /** Which last answers the host accepts, and the keys it then has. */
  lemma KeysAreWritten(g: Primitives, i: HostInput, s: HostState, resp: Term)
    ensures var split := Hmac(s.ck, Bytes([]));
      var keyRequest, keyResponse := Hmac(split, Bytes([1])), Hmac(split, Cat(Hmac(split, Bytes([1])), Bytes([2])));
      var state := if resp.Sealed? then resp.text else Bytes([]);
      HostFinish(g, i, s, resp)
      == if resp == Sealed(keyResponse, seq(12, k => 0), Bytes([]), state)
         then Ok(SessionKeys(keyRequest, keyResponse, 0, 1, state, s.maskedStatic, s.h,
                             Point(g.scalar(i.staticPriv) % g.order)))
         else Err
  {
  }
}
